# Lsc-blog ingestion and indexing core, modelled in Dafny

Lsc-blog crawls posts from a Naver blog. It merges them into a master table, splits them into
overlapping chunks, embeds the chunks through a content-addressed cache, and upserts them into
a vector index (ChromaDB, a pickle-backed index, or an in-memory list store). Every record carries
its run_id and source file. Around that pipeline sit state machines and validators:
- a job registry and job metrics;
- rate limiters and a circuit breaker;
- provider selection for the LLM;
- a content quality guard;
- an 8-gram plagiarism score;
- text utilities, request schemas and settings validation.

This project models that core in Dafny 4.11 and proves properties of the model. Each core source
file is one module, in a file of its own:

| module | file | models |
|---|---|---|
| `StateIo` | state_io.dfy | src/utils/state_io.py: the last-seen logno checkpoint |
| `CrawlerStorage` | crawler_storage.dfy | src/crawler/storage.py: the seen-posts and checkpoint tables |
| `CrawlerIncremental` | crawler_incremental.dfy | src/crawler_incremental.py: lognos of a listing page, and the incremental crawl loop |
| `CrawlerCategory` | crawler_category.dfy | src/crawler.py: file names, page arithmetic, the crawl_category loop |
| `NaverCrawler` | naver_crawler.dfy | src/crawler/naver_crawler.py: URL builders, category discovery, crawl_incremental |
| `MergeToMaster` | merge_master.dfy | src/modules/merge_to_master.py: the merge of a snapshot into `posts`, and the export of new posts |
| `UtilsText` | utils_text.dfy | src/utils/utils_text.py: split_chunks, content hash, category names, titles |
| `SemanticChunking` | semantic_chunker.dfy | src/preprocess/chunking.py: the token-estimating semantic chunker with overlap |
| `EmbedChunked` | chunked_embed.dfy | src/ingest/embed_to_chroma_chunked.py: hard_sanitize, create_chunks, create_batches, safe_encode |
| `EmbedFinal` | final_embed.dfy | src/ingest/embed_to_chroma_final.py (and the identical helpers of the production and enhanced copies): language detection, query rewrite, bigrams, semantic chunks, dedup |
| `EmbedIncremental` | incremental_upsert.dfy | incremental_upsert of the final and production scripts |
| `EmbedEnhanced` | enhanced_search.dfy | src/ingest/embed_to_chroma_enhanced.py: hybrid_search |
| `Embedder` | embedder.dfy | src/vector/embedder.py: the embedding cache |
| `ChromaIndex` | chroma_index.dfy | src/vector/chroma_index.py: the batched add-if-absent upsert |
| `SimpleIndex` | simple_index.dfy | src/vector/simple_index.py: the hash-keyed in-memory index |
| `SimpleStore` | simple_store.dfy | simple_vector_store.py: four parallel lists, upsert and query |
| `Vectorize` | vectorize.dfy | src/modules/vectorize_to_chroma.py: load, prepare, upsert, verify |
| `RagGenerator` | rag_generator.dfy | src/modules/production_rag_generator.py: retrieval, merge of results, context building |
| `GpuVectorizer` | gpu_vectorizer.dfy | src/modules/gpu_vectorizer.py: the embedding function and vectorize_documents |
| `Tasks` | tasks.dfy | src/jobs/tasks.py: incremental_pipeline, clean_html, upsert_docs |
| `Jobs` | jobs.dfy | api/core/jobs.py: the job registry and events |
| `JobMetrics` | job_metrics.dfy | monitoring/job_metrics.py: operation counters, timings, job statistics |
| `SafetyGuards` | safety_guards.dfy | src/qc/production_safety_guards.py: CircuitBreaker and SystemMonitor |
| `Middleware` | middleware.dfy | api/core/middleware.py: the per-client rate limiter and operation counters |
| `Security` | security.dfy | LSC_Core_Files/src/config/security_utils.py: PII masking and the access controller |
| `Providers` | providers.dfy | src/llm/provider_manager.py: provider registry, selection, health |
| `QualityGuard` | quality_guard.dfy | src/llm/quality_guard.py: content checks and the regenerate loop |
| `Plag` | plag.dfy | src/qc/plag.py: the 8-gram overlap score |
| `TextUtils` | textutils.dfy | LSC_Core_Files/src/generator/textutils.py: keywords, forbidden words, sentences, phone numbers, amounts |
| `Schemas` | schemas.dfy | api/schemas.py: the request validators |
| `Config` | config.dfy | api/core/config.py: settings from the environment, and validate_settings |

Some modules are shared:
- `Wrappers`: Option and Result.
- `Strings`: strip, split, join, number formatting.
- `Collections`: maps and sequence helpers.
- `Hashes`: digests as uninterpreted, deterministic functions.
- `PostJson`: the JSON values of a post.
- `Chroma`: a collection as an ordered id list with a record map.
- `ChromaBatches`: the batch-then-per-item fallback loop used by three upserters.
- `CharChunks`: the 2·max_tokens character window of chunk_text.
- `ChunkIds`: ids of the form `{logno}:{i:03d}`.
- `ChunkEntries`: the id and metadata preparation that production_rag_generator and gpu_vectorizer share.

Code that updates state in place is modelled as a class with `modifies` clauses: the registries,
caches, indexes, breakers and limiters. Loops are methods with invariants, proved against
specification functions. Pure helpers are functions, and their properties are lemmas about those
functions.

Notes on the code as written:
- CrawlerStorage.Storage.UpdateCheckpoint and StateIo.StateStore.Save overwrite the stored logno with whatever they are given, without comparing it to the stored one.
- The embedding cache is keyed by the SHA-256 of the chunk text alone. The model name is a column that the lookup also matches (Embedder.StoreReplacesOtherModel).
- vectorize_to_chroma, production_rag_generator and gpu_vectorizer key vector records `{logno}:{chunk_idx:03d}` (ChunkIds.ChunkId), not by a content hash.
- Chroma upserts overwrite by id (Chroma.Put), while chroma_index's upsert_chunks skips chunks whose content hash is already stored (ChromaIndex.FreshKeeps).

## Model

| member | source | states |
|---|---|---|
| CharChunks.StripKept | src/modules/production_rag_generator.py:131-133 | the kept chunks are at most as many as the windows, each non-empty and already stripped |
| CharChunks.ChunkText | src/modules/production_rag_generator.py:120-135 | the loop over range(0, len(text), step) computes chunk_text's specification |
| CharChunks.KeepAll | src/modules/production_rag_generator.py:129-133 | the loop keeps the stripped, non-blank windows in order |
| CharChunks.AllWindowsAt | src/modules/production_rag_generator.py:130-131 | window k starts at k * step, and there is a window for every start below the length |
| CharChunks.WindowCovers | src/modules/production_rag_generator.py:126-131 | when the step does not exceed the window size, every character lies in the window its index determines |
| CharChunks.StripKeptBound | src/modules/production_rag_generator.py:131-133 | no kept chunk is longer than its window |
| CharChunks.ChunkTextShape | src/modules/production_rag_generator.py:120-135 | the only error is a zero step on a non-empty text (range() raises); otherwise at least one chunk, either the single empty chunk or stripped non-empty chunks of at most 2 * max_tokens characters |
| CharChunks.BlankText | src/modules/production_rag_generator.py:120-135 | a whitespace-only text yields the single empty chunk |
| Chroma.Put | src/ingest/embed_to_chroma_final.py:483 | upserting one record overwrites it in place when the id exists and appends the id otherwise |
| Chroma.PutAll | src/ingest/embed_to_chroma_final.py:483 | a batch upsert keeps the store well formed |
| Chroma.SelectIn | src/vector/chroma_index.py:217 | get(where=...) lists exactly the stored ids whose metadata matches the filter |
| Chroma.ExistingIff | src/vector/chroma_index.py:80 | get(ids=...) returns exactly the requested ids that are stored |
| Chroma.DeleteWhere | src/ingest/embed_to_chroma_final.py:470 | delete(where=...) removes exactly the matching records and leaves the others as they were |
| Chroma.Unmatched | src/ingest/embed_to_chroma_final.py:470 | the ids left after delete(where=...) are exactly the unmatched ones, still without repeats |
| Chroma.DeleteIds | src/vector/chroma_index.py:221 | delete(ids=...) removes exactly the named records and leaves the others as they were |
| Chroma.Without | src/vector/chroma_index.py:221 | the ids left after delete(ids=...) are exactly the ones not named, still without repeats |
| Chroma.PutAllEffect | src/ingest/embed_to_chroma_final.py:483 | after a batch upsert every id of the batch is stored with the record of its last occurrence in the batch, and every other record is untouched |
| Chroma.PutAllConcat | src/modules/production_rag_generator.py:174-177 | upserting two batches one after the other is upserting their concatenation |
| Chroma.PutAllFrame | src/ingest/embed_to_chroma_final.py:483 | a batch upsert stores only ids of the batch and leaves every other record alone |
| Chroma.PutAllFresh | src/ingest/embed_to_chroma_final.py:483 | a batch of new, distinct ids is appended in order, each holding its own record |
| Chroma.SelectAll | src/vector/chroma_index.py:217 | when every stored record matches, get(where=...) lists them all in insertion order |
| Chroma.Collection.constructor | src/ingest/embed_to_chroma_final.py:483 | a new collection is empty |
| Chroma.Collection.GetWhere | src/vector/chroma_index.py:217 | get(where=...) returns the matching ids in insertion order |
| Chroma.Collection.GetIds | src/vector/chroma_index.py:80 | get(ids=...) returns the requested ids the collection holds |
| Chroma.Collection.Upsert | src/ingest/embed_to_chroma_final.py:483 | the collection becomes the batch upsert of the records |
| Chroma.Collection.DeleteMatching | src/ingest/embed_to_chroma_final.py:470 | the collection loses exactly the matching records |
| Chroma.Collection.DeleteIdSet | src/vector/chroma_index.py:221 | the collection loses exactly the named records |
| ChromaBatches.BatchEnd | src/modules/production_rag_generator.py:168-171 | a batch ends at min(i + 100, n): it is non-empty and holds at most 100 ids |
| ChromaBatches.ItemCount | src/modules/production_rag_generator.py:182-193 | no more retries succeed than were made |
| ChromaBatches.CountBound | src/modules/production_rag_generator.py:168-195 | the returned count never exceeds the number of items |
| ChromaBatches.ItemsAllOk | src/modules/production_rag_generator.py:182-193 | when every single retry succeeds, the retries act as one upsert of those items and count every one |
| ChromaBatches.ReliableFrom | src/modules/production_rag_generator.py:168-195 | when no item is lost, the batches together act as one upsert of everything and count every item |
| ChromaBatches.BatchReliable | src/modules/production_rag_generator.py:172-193 | a batch on a boundary of 100 whose items are not lost upserts all of them and ends on the next boundary or at the end |
| ChromaBatches.FromFrame | src/modules/production_rag_generator.py:168-195 | whatever fails, the loop stores only ids of the batch and leaves every other record of the collection alone |
| ChromaBatches.UpsertInBatches | src/modules/production_rag_generator.py:168-195 | the loop with its item-by-item fallback leaves the collection and the count its specification gives (with src/modules/vectorize_to_chroma.py:138-168) |
| ChromaBatches.Records | src/modules/production_rag_generator.py:172-177 | one stored record per prepared entry |
| ChromaBatches.UpsertEntries | src/modules/production_rag_generator.py:168-195 | the count is at most the number of entries, and when no item is lost it equals that number and the collection is the upsert of every entry |
| ChromaBatches.RetryItems | src/modules/production_rag_generator.py:182-193 | after a failed batch each of its items is upserted alone; the collection is that item-by-item application and the count is the number of items accepted |
| ChromaIndex.MetadataHash | src/vector/chroma_index.py:97-107 | the metadata records the chunk hash as content_hash |
| ChromaIndex.Written | src/vector/chroma_index.py:91-108 | one record per chunk, in input order |
| ChromaIndex.Fresh | src/vector/chroma_index.py:86-110 | every chunk of the batch is either kept or counted as skipped |
| ChromaIndex.FreshKeeps | src/vector/chroma_index.py:91-110 | the filter keeps exactly the chunks whose hash is not already stored, each with the record written for it |
| ChromaIndex.FreshAllExisting | src/vector/chroma_index.py:91-110 | when every hash is stored the batch keeps nothing and skips everything |
| ChromaIndex.BatchStep | src/vector/chroma_index.py:72-125 | every chunk of a batch is counted once, as added or as skipped |
| ChromaIndex.UpsertFrom | src/vector/chroma_index.py:72-125 | added plus skipped is the number of chunks left from the offset |
| ChromaIndex.RemainingStep | src/vector/chroma_index.py:72-125 | one turn of the batch loop keeps the loop invariant |
| ChromaIndex.RemainingDone | src/vector/chroma_index.py:127-129 | when no batch is left, the counts so far are the final ones |
| ChromaIndex.UpsertChunks | src/vector/chroma_index.py:56-129 | an empty list gives zero counts and no change; unequal lengths raise ValueError with no change; otherwise added plus skipped is the number of chunks |
| ChromaIndex.UpsertChunksLoop | src/vector/chroma_index.py:67-129 | the batch loop's outcome is upsert_chunks' result on non-empty, equally long lists |
| ChromaIndex.BatchStepEffect | src/vector/chroma_index.py:72-125 | a batch keeps every stored record, stores every hash of the batch, and each record it adds is the one written for a chunk with that hash |
| ChromaIndex.UpsertChunksEffect | src/vector/chroma_index.py:56-129 | afterwards every chunk hash is stored, no earlier record is overwritten, and each new record's document is its chunk's text and its content_hash the hash |
| ChromaIndex.UpsertFromStored | src/vector/chroma_index.py:72-125 | with every hash already stored, every batch skips all its chunks and nothing is written |
| ChromaIndex.UpsertTwiceAddsNothing | src/vector/chroma_index.py:56-129 | upserting the same chunks a second time adds nothing, skips all of them and leaves the collection unchanged |
| ChromaIndex.DeleteByFilter | src/vector/chroma_index.py:213-230 | the count is the number of matching records, and exactly those are removed, the others kept as they were |
| ChromaIndex.ChromaIndexer.constructor | src/vector/chroma_index.py:22-28 | the indexer works on the given collection |
| ChromaIndex.ChromaIndexer.FilterBatch | src/vector/chroma_index.py:86-110 | the filtering loop computes the batch filter's specification |
| ChromaIndex.ChromaIndexer.FilterOne | src/vector/chroma_index.py:91-112 | one turn of the filtering loop: the chunk is kept with the record written for it exactly when its hash is not stored, and otherwise counted as skipped |
| ChromaIndex.ChromaIndexer.UpsertBatch | src/vector/chroma_index.py:72-125 | one pass of the batch loop changes the collection and the counts as the batch step says |
| ChromaIndex.ChromaIndexer.UpsertChunksInto | src/vector/chroma_index.py:56-129 | the counts and the collection afterwards are upsert_chunks' |
| ChromaIndex.ChromaIndexer.DeleteByFilterFrom | src/vector/chroma_index.py:213-230 | the count and the collection afterwards are delete_by_filter's |
| ChromaIndex.UpsertFromEffect | src/vector/chroma_index.py:72-125 | the batch loop keeps every record already stored, stores every hash from the current batch on, and adds only records built from the input |
| ChunkEntries.Chunks | src/modules/production_rag_generator.py:146 | chunk_text(content, 1200, 200) always gives at least one chunk |
| ChunkEntries.GpuLogno | src/modules/gpu_vectorizer.py:198 | a truthy logNo wins; otherwise logno, or "unknown" when that is missing too |
| ChunkEntries.DigitsOrZero | src/modules/gpu_vectorizer.py:203 | the value of an all-digit logno text, and 0 for any other |
| ChunkEntries.ChunkMetaFields | src/modules/production_rag_generator.py:152-162 | each chunk's metadata holds the converted logno, the chunk index, the run id and the source file |
| ChunkEntries.Convert | src/modules/production_rag_generator.py:146-155 | a truthy non-string content raises first; the production script fails exactly when logno is missing or int() of it or of category_no raises; the GPU script fails exactly on content or category_no, and falls back to 0 for a non-digit logno |
| ChunkEntries.EntriesOf | src/modules/production_rag_generator.py:148-162 | one id, text and metadata per chunk, the i-th id being f"{logno}:{i:03d}" |
| ChunkEntries.PrepareSpec | src/modules/production_rag_generator.py:143-162 | the ids, texts and metadatas stay the same length |
| ChunkEntries.ErrorStays | src/modules/production_rag_generator.py:145-162 | once a post raises, preparing the list raises that error whatever follows |
| ChunkEntries.Prepare | src/modules/production_rag_generator.py:143-162 | the loop over the posts computes the preparation's specification |
| ChunkEntries.DocEntries | src/modules/production_rag_generator.py:148-162 | the loop over one post's chunks computes that post's entries |
| ChunkEntries.DocPreparedShape | src/modules/production_rag_generator.py:146-162 | every post gives at least one entry, each with the post's prefix in its id, its chunk index, the converted logno, the run id and the source file in its metadata |
| ChunkEntries.PrepareIdsFrom | src/modules/production_rag_generator.py:143-162 | every prepared id is a chunk id over the prefix of one of the posts |
| ChunkEntries.PrepareIdsDistinct | src/modules/production_rag_generator.py:143-162 | posts with pairwise different prefixes get pairwise different chunk ids |
| ChunkEntries.PrepareAndUpsert | src/modules/production_rag_generator.py:137-195 | a raising post stops everything and leaves the collection as it was; otherwise the batches are upserted, the count is at most the number of chunks, and with no lost upsert it equals that number and the collection holds every entry |
| ChunkIds.ChunkId | src/modules/production_rag_generator.py:149 | the id starts with the post's logno text followed by a colon and at least three index digits |
| ChunkIds.LastColon | src/modules/production_rag_generator.py:149 | no colon follows the one that ends the logno text |
| ChunkIds.ChunkIdInjective | src/modules/production_rag_generator.py:149 | two chunk ids are equal only for the same logno text and the same index |
| ChunkIds.SignChar | src/modules/production_rag_generator.py:149 | str(n) starts with a minus sign exactly for negative n |
| ChunkIds.IntToStringInjective | src/modules/production_rag_generator.py:153 | str() is injective on ints |
| ChunkIds.IntChunkIdInjective | src/modules/production_rag_generator.py:149-153 | chunk ids of posts with different integer lognos, or of different chunks of one post, never collide |
| EmbedChunked.ReplaceChar | src/ingest/embed_to_chroma_chunked.py:54 | replace() of one character by another changes exactly the occurrences of the first and keeps the length |
| EmbedChunked.HardSanitizeShape | src/ingest/embed_to_chroma_chunked.py:52-56 | the sanitised text is a prefix of the stripped, collapsed text, at most max_chars long, with no NUL or zero-width space and no leading whitespace |
| EmbedChunked.LastIn | src/ingest/embed_to_chroma_chunked.py:134-136 | rfind gives -1 or an index inside [start, end) holding the character |
| EmbedChunked.LastInIsLast | src/ingest/embed_to_chroma_chunked.py:134-136 | no occurrence of the character in the range lies after the index rfind finds |
| EmbedChunked.CutEnd | src/ingest/embed_to_chroma_chunked.py:129-140 | a window ends at start + chunk_size, or after a sentence mark more than half a window in |
| EmbedChunked.Pieces | src/ingest/embed_to_chroma_chunked.py:142 | one stripped piece per window |
| EmbedChunked.CreateChunks | src/ingest/embed_to_chroma_chunked.py:120-148 | the loop computes create_chunks' specification; a text that fits is returned whole |
| EmbedChunked.WindowsShape | src/ingest/embed_to_chroma_chunked.py:126-146 | the windows are consecutive: the first starts at 0, each inside the text and ending at its cut, and each next one starts overlap before the previous end |
| EmbedChunked.WindowEnd | src/ingest/embed_to_chroma_chunked.py:129-140 | the end of one window is its cut |
| EmbedChunked.WindowGood | src/ingest/embed_to_chroma_chunked.py:142-144 | a non-blank window gives a non-empty stripped infix of the text of at most chunk_size characters |
| EmbedChunked.CreateChunksGood | src/ingest/embed_to_chroma_chunked.py:120-148 | the chunks of a text longer than chunk_size are non-empty, stripped infixes of at most chunk_size characters |
| EmbedChunked.CreateChunksNonEmpty | src/ingest/embed_to_chroma_chunked.py:120-148 | a text that starts with a non-space character yields at least one chunk |
| EmbedChunked.NoAdvanceWithoutBound | src/ingest/embed_to_chroma_chunked.py:146 | without the overlap bound some text makes the loop stay at 0, so the bound the model requires is needed |
| EmbedChunked.SafeId | src/ingest/embed_to_chroma_chunked.py:169 | the safe id is as long as the original and has only word characters and hyphens |
| EmbedChunked.ChunkRecords | src/ingest/embed_to_chroma_chunked.py:170-182 | one record per chunk, the i-th built from chunk i |
| EmbedChunked.StripOr | src/ingest/embed_to_chroma_chunked.py:152-153 | `(v or "").strip()` raises exactly for a truthy non-string; a string is stripped, a falsy value gives "" |
| EmbedChunked.FullText | src/ingest/embed_to_chroma_chunked.py:152-157 | the cleaned "title\n\ncontent" text, absent exactly when the title or the content raises |
| EmbedChunked.BuildDocumentChunks | src/ingest/embed_to_chroma_chunked.py:150-184 | a truthy title or content_text that is not a string raises AttributeError (None), exactly then; otherwise no records when the cleaned text is empty, and one record per create_chunks chunk, in order, with id f"{safe_id}_chunk_{i}", its chunk index and the total, the stripped title, the original id, and the url, category and date of the document (None when missing) |
| EmbedChunked.ChunkIdsDistinct | src/ingest/embed_to_chroma_chunked.py:171 | the chunk ids of one document are pairwise different |
| EmbedChunked.BuildDocumentChunksNonEmpty | src/ingest/embed_to_chroma_chunked.py:150-184 | a document with a non-empty cleaned text gets at least one chunk |
| EmbedChunked.BatchSize | src/ingest/embed_to_chroma_chunked.py:186-195 | a size of 1 or less still makes batches of one |
| EmbedChunked.BatchesWellBatched | src/ingest/embed_to_chroma_chunked.py:186-195 | the batches concatenate back to the input, all but the last are full, and none is empty |
| EmbedChunked.BatchesUnique | src/ingest/embed_to_chroma_chunked.py:186-195 | those three conditions determine the batches |
| EmbedChunked.CreateBatches | src/ingest/embed_to_chroma_chunked.py:186-195 | the loop's batches concatenate back to the input, all but the last full, none empty |
| EmbedChunked.SampleVecs | src/ingest/embed_to_chroma_chunked.py:86-105 | one fallback vector per sample, in sample order |
| EmbedChunked.RetrySample | src/ingest/embed_to_chroma_chunked.py:86-105 | the retry loop on one sample gives that sample's fallback vector (a zero vector after max_retries failures) |
| EmbedChunked.Sanitized | src/ingest/embed_to_chroma_chunked.py:73 | one sanitised text per input text |
| EmbedChunked.PopOneAsWritten | src/ingest/embed_to_chroma_chunked.py:85-105 | popping a single sample off the as-written stack adds it to the output, and the stack's measure goes down |
| EmbedChunked.SplitAsWritten | src/ingest/embed_to_chroma_chunked.py:106-108 | splitting the top piece with the right half pushed last keeps the stack's samples and lowers its measure |
| EmbedChunked.FallbackAsWritten | src/ingest/embed_to_chroma_chunked.py:81-109 | the fallback as written encodes the samples one by one, last sample first |
| EmbedChunked.SafeEncodeAsWritten | src/ingest/embed_to_chroma_chunked.py:58-109 | a batch call that succeeds is returned as is; when it raises, the vectors come back in reverse sample order |
| EmbedChunked.FallbackAsWrittenReverses | src/ingest/embed_to_chroma_chunked.py:106-108 | two samples whose batch call raised come back from the as-written fallback in reverse order |
| EmbedChunked.PopOne | src/ingest/embed_to_chroma_chunked.py:85-105 | popping a single sample off the corrected stack appends it to the output in order |
| EmbedChunked.Split | src/ingest/embed_to_chroma_chunked.py:106-108 | splitting the top piece with the left half pushed last keeps the stack's samples in order and lowers its measure |
| EmbedChunked.Fallback | src/ingest/embed_to_chroma_chunked.py:81-109 | the corrected fallback encodes the samples one by one, left to right |
| EmbedChunked.SafeEncode | src/ingest/embed_to_chroma_chunked.py:58-109 | a batch call that succeeds is returned as is; when it raises, one vector per text, in text order |
| Config.FlagMeaning | api/core/config.py:83-86 | a flag is on exactly when its value is four letters spelling "true" in any case; "TRUE" and "True" turn it on, "false", "1", "yes" and "" do not |
| Config.FromEnvFlags | api/core/config.py:83-112 | debug, reload, gen_require_checklist, gen_require_disclaimer and upload_enabled are on exactly when their variable, or its default, lower-cases to "true" |
| Config.FromEnvFails | api/core/config.py:78-124 | from_env raises exactly when some integer variable fails int(), and the error names the first such variable in reading order |
| Config.FromEnvNumbers | api/core/config.py:85-90 | the stored port and crawl delays are int() of PORT, CRAWL_DELAY_MS_MIN and CRAWL_DELAY_MS_MAX |
| Config.DefaultInts | api/core/config.py:78-124 | with no environment every int() conversion succeeds and yields its default number, in reading order |
| Config.DefaultNumbers | api/core/config.py:78-124 | the fifteen integer defaults from_env reads are 8000, 6, 600, 1400, 5, 20, 6, 1600, 1900, 3, 2, 15, 30, 4, 30 |
| Config.DefaultFlags | api/core/config.py:83-86 | the flag default "false" is off and "true" is on |
| Config.DefaultOrigins | api/core/config.py:87 | the default CORS_ORIGINS splits at its comma into the two default origins |
| Config.EmptyEnvironmentGivesDefaults | api/core/config.py:14-124 | from_env on an empty environment gives exactly the field defaults declared on Settings |
| Config.RuleAt | api/core/config.py:132-170 | the ten checks of validate_settings in source order, each at the place its rank names |
| Config.ValidateSettings | api/core/config.py:132-170 | the complaints are those of the broken rules in checking order, and a complaint appears exactly when its rule (blog id empty, category < 0, delay min >= max, pages <= 0, gemini without key, provider not gemini/ollama, min chars >= max chars, subheadings <= 0, retry < 0, upload on with rate <= 0) is broken |
| Config.BrokenPrefix | api/core/config.py:132-170 | after the first k checks the list holds exactly the broken rules ranked below k, in rank order |
| Config.BrokenReports | api/core/config.py:132-170 | the full check lists every broken rule and no other, in checking order |
| Config.ReportsUnique | api/core/config.py:132-170 | only one list names a given set of broken rules in checking order, so that property determines validate_settings' result |
| Config.DefaultBreaksNothing | api/core/config.py:14-75 | no rule of validate_settings is broken by the declared defaults |
| Config.DefaultsPrefix | api/core/config.py:14-75 | none of the first k checks complains about the declared defaults |
| Config.DefaultsAreValid | api/core/config.py:14-75 | validate_settings returns no complaint for the declared defaults |
| Config.GetCorsOrigins | api/core/config.py:173-177 | a string value becomes its comma-separated parts, each stripped, one per part; a list value is returned unchanged |
| Config.CorsRoundTrip | api/core/config.py:173-177 | origins without commas or surrounding whitespace, joined with commas, come back from get_cors_origins unchanged |
| Config.SplitJoin | api/core/config.py:87 | splitting a comma-join of comma-free parts gives the parts back |
| CrawlerCategory.SanitizeFilenameShape | src/crawler.py:75-76 | the sanitised name is a run of the input with surrounding whitespace dropped in which each forbidden character became _ and every other character is kept; so no forbidden character is left and it neither starts nor ends with whitespace |
| CrawlerCategory.LastPage | src/crawler.py:188 | at least 1, and 1 when the total is 0 |
| CrawlerCategory.LastPageIsCeiling | src/crawler.py:188 | for a positive total the last page is the ceiling of total / count_per_page |
| CrawlerCategory.DesktopWalkLastPage | src/crawler.py:409-411 | the desktop-walk total is positive, and deriving last_page from it gives max_page back |
| CrawlerCategory.EffectiveMaxPages | src/crawler.py:441-444 | max_pages when the total is 0; otherwise between 0 and both max_pages and the pages left from start_page |
| CrawlerCategory.FilterPage | src/crawler.py:538-545 | exactly the page's logNos above a set checkpoint and new to the session and the output file, each once; seen_session grows by exactly these |
| CrawlerCategory.FetchedRecords | src/crawler.py:558-586 | each record carries the page; its logNos are exactly the fetched ones that succeeded, distinct when the input is |
| CrawlerCategory.FetchPosts | src/crawler.py:558-586 | the records of the logNos whose fetch succeeds, in order |
| CrawlerCategory.PostNos | src/crawler.py:559-586 | the post_no of each record, in order |
| CrawlerCategory.NewMax | src/crawler.py:596 | the previous last_log_no (or 0) when nothing was collected; otherwise the largest collected post_no, taken by one record |
| CrawlerCategory.AppendPage | src/crawler.py:538-586 | records of a page's new logNos keep the collected logNos distinct and all in seen_session |
| CrawlerCategory.SortLognos | src/crawler.py:558 | sorted() on logNo strings: in string order, a permutation, distinct when the input is |
| CrawlerCategory.CollectPage | src/crawler.py:558-589 | fetching the filtered logNos of a page in sorted order keeps every collected post admissible and collected once, one page further |
| CrawlerCategory.CrawlCategory | src/crawler.py:431-605 | every collected post is above a set checkpoint, not in the output file, fetched, from a page at or after start_page and listed there, and collected once; the category's state entry holds the new maximum, never below the previous checkpoint, and last_page and name; the page limit stops the loop only when effective_max_pages is non-zero |
| CrawlerCategory.WalkPages | src/crawler.py:463-589 | the page loop's outcome is Walked: no stop rule fires before the end page; it ends at the page limit only when effective_max_pages is non-zero, and otherwise on the page whose stop rule names the reason; every collected post is admissible and collected once, and every fresh logNo of a visited page whose fetch succeeds is collected |
| CrawlerCategory.VisitListedPage | src/crawler.py:522-589 | a non-empty page stops the walk exactly when StopAt says so, with that reason and nothing collected; otherwise it brings the session set, prev_sig, repeat_hits, consecutive_empty and the collected posts to the next page's values |
| CrawlerCategory.EmptyPageStep | src/crawler.py:502-521 | an empty page adds nothing to the session set, counts one more empty page in a row, leaves the other counters, and stops the walk exactly when that makes three |
| CrawlerCategory.ListedPageStep | src/crawler.py:522-556 | a non-empty page resets the empty streak, becomes the previous signature, counts a repeat when its first ten logNos match the previous page's, counts a page with nothing new only under a checkpoint, and stops on two repeats or two pages with nothing new |
| CrawlerCategory.FilteredStep | src/crawler.py:538-556 | the page's filter extends the session set to the next page's, and is empty exactly when the page has nothing new |
| CrawlerCategory.SeenBeforeHas | src/crawler.py:538-545 | a fresh logNo of an earlier page is in the session set of any later page |
| CrawlerCategory.SeenBeforeFresh | src/crawler.py:538-545 | the session set holds only fresh logNos: above a set checkpoint and not in the output file |
| CrawlerCategory.FetchedCover | src/crawler.py:558-586 | fetching a reordering of the filtered logNos collects every filtered logNo whose fetch succeeds |
| CrawlerCategory.NoStopBeforeAll | src/crawler.py:471-589 | a walk that reached page n ran no stop rule on any earlier page |
| CrawlerIncremental.LognoValues | src/crawler_incremental.py:95-99 | exactly the values of the all-digit matches of at least 6 characters |
| CrawlerIncremental.ParseLognos | src/crawler_incremental.py:83-101 | strictly increasing, and exactly the values of the accepted matches: the set, sorted |
| CrawlerIncremental.LognoValuesSnoc | src/crawler_incremental.py:95-99 | one more match adds its value exactly when it is accepted |
| CrawlerIncremental.NewOf | src/crawler_incremental.py:202 | exactly the page's logNos above last_seen, no more of them than the page has |
| CrawlerIncremental.Fetched | src/crawler_incremental.py:215-245 | exactly the new logNos whose detail fetch succeeds |
| CrawlerIncremental.MaxOr | src/crawler_incremental.py:177-240 | never below last_seen, at least every written logNo, and either last_seen or one of them |
| CrawlerIncremental.FetchPage | src/crawler_incremental.py:215-248 | the written list grows by the logNos whose fetch succeeds, in order, and max_logno is the running maximum |
| CrawlerIncremental.NoStopUpToAll | src/crawler_incremental.py:183-209 | when pages 1..n were each listed and met no stop rule, every page up to n was listed without raising and met no stop rule |
| CrawlerIncremental.VisitPage | src/crawler_incremental.py:184-252 | stops exactly when the page's stop rule fires (3 pages without logNos, or 2 without new ones, counted together); no_new_pages, the written list and max_logno are those after the page |
| CrawlerIncremental.CrawlPages | src/crawler_incremental.py:177-252 | aborts exactly when fetch_list_page raises for the next page within max_pages, with the lines of the pages before it written; otherwise visits at most max_pages listed pages, stops at the first page whose stop rule fires or at max_pages; writes exactly the successful new logNos of the processed pages, and max_logno is their maximum with last_seen |
| CrawlerIncremental.RunIncrementalCrawl | src/crawler_incremental.py:155-271 | raises when the state file cannot be read; raises when a list fetch raises (after the earlier pages' lines were written, with no checkpoint saved); otherwise the page walk above, new_count is the number written, and the state file is rewritten to max_logno only when it rose above last_seen, so reading it afterwards gives max_logno, never below last_seen |
| CrawlerIncremental.WrittenAreNew | src/crawler_incremental.py:202-240 | every written logNo is above last_seen, fetched successfully and listed on a visited page |
| CrawlerIncremental.NextRunSkipsWritten | src/crawler_incremental.py:202-256 | after the checkpoint advances, no logNo this run wrote counts as new |
| CrawlerStorage.Storage.constructor | src/crawler/storage.py:26-66 | a new database has no seen posts and the checkpoint row with last_logno 0 |
| CrawlerStorage.Storage.UpdateCheckpoint | src/crawler/storage.py:75-87 | the checkpoint is overwritten with the given logno and the total, new and updated stats (0 when absent), with no comparison against the stored logno; seen posts are unchanged |
| CrawlerStorage.Storage.AddSeenPost | src/crawler/storage.py:112-148 | the seen table changes and the status comes out as the add_seen_post classification says; the URL is then seen with this content's hash; the checkpoint is unchanged |
| CrawlerStorage.AddSeenClassifies | src/crawler/storage.py:112-148 | "new" exactly for an unseen URL, "updated" exactly for a seen URL with another hash (hash, title and is_updated replaced), "unchanged" otherwise (only last_seen_at moves); a seen URL keeps its logno and first_seen_at; other URLs are untouched |
| CrawlerStorage.AddSeenTwiceUnchanged | src/crawler/storage.py:112-148 | adding the same URL with the same content a second time reports "unchanged" |
| CrawlerStorage.UnknownIsUpdated | src/crawler/storage.py:99-110 | an unknown URL always counts as updated content |
| CrawlerStorage.StatsDisplay | src/crawler/naver_crawler.py:333-337 | the stats dict crawl_incremental passes reads back total, new and updated as the run's counts (with src/crawler/storage.py:75-87) |
| Embedder.Lookup | src/vector/embedder.py:71-93 | a hit exactly when a row for this hash and model exists; a hit returns its vector and raises its access_count by one; a miss leaves the table unchanged |
| Embedder.StoreReplacesOtherModel | src/vector/embedder.py:95-105 | the row is keyed by the hash alone, so caching a text for one model evicts the row another model stored for it and that model's next lookup misses |
| Embedder.GetOrComputeSpec | src/vector/embedder.py:107-130 | the hash of the text and a cached vector on a hit; on a miss the model's vector, stored with the text; either way the table then holds the returned vector for this model |
| Embedder.GetOrComputeTwice | src/vector/embedder.py:107-130 | a second get_or_compute of the same text is a hit with the same vector and hash, raising access_count by one; a first miss leaves access_count 1 |
| Embedder.GetOrComputeConsistent | src/vector/embedder.py:107-130 | a table whose rows sit under their text's hash stays so |
| Embedder.SameRowsKeep | src/vector/embedder.py:85-90 | access-count changes keep every cached row cached and a consistent table consistent |
| Embedder.ProbeSplits | src/vector/embedder.py:141-148 | the first loop splits the input: hits are exactly the texts cached for this model, misses the others, each in input order, and the table changes in access counts only |
| Embedder.HitVecs | src/vector/embedder.py:150-153 | the hit vectors in hit order |
| Embedder.HitHashes | src/vector/embedder.py:150-153 | the hit hashes in hit order |
| Embedder.MissTexts | src/vector/embedder.py:158 | the miss texts in miss order |
| Embedder.MissHashes | src/vector/embedder.py:159 | the miss hashes in miss order |
| Embedder.Encode | src/vector/embedder.py:162 | one vector per miss text, the same as encoding each text alone |
| Embedder.PyIndex | src/vector/embedder.py:172 | Python indexing succeeds exactly for -len <= j < len |
| Embedder.StoreMissesEffect | src/vector/embedder.py:166-172 | storing the misses keeps every cached row cached, caches every miss, and keeps a consistent table consistent when each miss carries its text's hash |
| Embedder.BatchAsWrittenReorders | src/vector/embedder.py:150-184 | as written, a miss followed by a hit comes back as [hit, miss] |
| Embedder.ProbeOfMiss | src/vector/embedder.py:141-148 | the first loop on one uncached text records one miss at index 0 |
| Embedder.BatchAsWrittenMiscaches | src/vector/embedder.py:166-172 | as written, for [miss a, hit b, miss c] the row under sha(a) stores text c, so the table no longer keys rows by their own text |
| Embedder.BatchAsWrittenIndexError | src/vector/embedder.py:172 | as written, a miss followed by two hits makes miss_texts[i - len(cache_hits)] out of range: IndexError |
| Embedder.BatchAsWrittenEmpty | src/vector/embedder.py:181 | as written, an empty batch divides by len(chunk_texts) == 0 |
| Embedder.EmbeddingCache.constructor | src/vector/embedder.py:23-31 | the cache holds the given model name, hash, model and table |
| Embedder.EmbeddingCache.GetCachedEmbedding | src/vector/embedder.py:71-93 | the result and the table afterwards are the lookup's |
| Embedder.EmbeddingCache.CacheEmbedding | src/vector/embedder.py:95-105 | the row under the hash is replaced by the text, vector and model with access_count 1 |
| Embedder.EmbeddingCache.GetOrCompute | src/vector/embedder.py:107-130 | the vector, hash and table afterwards are get_or_compute's |
| Embedder.EmbeddingCache.ProbeBatch | src/vector/embedder.py:141-148 | the first loop produces the hits, misses and table of the split |
| Embedder.EmbeddingCache.CacheMissesAsWritten | src/vector/embedder.py:166-172 | the caching loop as written, including its IndexError |
| Embedder.EmbeddingCache.BatchGetOrComputeAsWritten | src/vector/embedder.py:132-184 | batch_get_or_compute as written, with its reordering, miscaching and errors |
| Embedder.EmbeddingCache.CacheMisses | src/vector/embedder.py:166-172 | the corrected caching loop stores each miss under its own text |
| Embedder.EmbeddingCache.BatchGetOrCompute | src/vector/embedder.py:132-184 | corrected: one vector and hash per input text in input order, each the cached or computed vector of that text; every text is cached afterwards, every row cached before for the model stays cached, and consistency is kept |
| Embedder.PlaceResults | src/vector/embedder.py:150-179 | corrected assembly: every result lands at its input index |
| Embedder.ProbeCount | src/vector/embedder.py:141-148 | every text lands in exactly one of the two lists: hits plus misses is the number of texts |
| Embedder.ProbeRows | src/vector/embedder.py:141-148 | the probe loop changes access counts only |
| Embedder.ProbeHits | src/vector/embedder.py:141-148 | every hit names a text that was cached for the model, with its hash and its cached embedding |
| Embedder.ProbeMisses | src/vector/embedder.py:141-148 | every miss names a text that was not cached, with the text and its hash |
| Embedder.ProbeCovers | src/vector/embedder.py:141-148 | every text is listed as a hit when it was cached and as a miss otherwise |
| Embedder.AllCachedAfter | src/vector/embedder.py:155-170 | once the computed misses are stored on top of the old rows, every text of the batch is cached |
| EmbedEnhanced.Rescore | src/ingest/embed_to_chroma_enhanced.py:253-257 | the rescored hit keeps the vector result and its BM25 score, and its combined score is the vector score plus 0.3 times the BM25 score |
| EmbedEnhanced.Combine | src/ingest/embed_to_chroma_enhanced.py:251-257 | only results whose position has a BM25 score take part, each rescored with that position's score |
| EmbedEnhanced.InsertDesc | src/ingest/embed_to_chroma_enhanced.py:260 | inserting into a best-first list gives a best-first list with one more element and the same elements otherwise |
| EmbedEnhanced.SortDesc | src/ingest/embed_to_chroma_enhanced.py:260 | the sort gives a best-first permutation of its input |
| EmbedEnhanced.SortDescStable | src/ingest/embed_to_chroma_enhanced.py:260 | the sort is stable: hits with equal combined scores keep their input order |
| EmbedEnhanced.HybridSearch | src/ingest/embed_to_chroma_enhanced.py:241-262 | at most top_k results, at most as many as there are vector results and BM25 scores, best first |
| EmbedEnhanced.HybridSearchTopK | src/ingest/embed_to_chroma_enhanced.py:241-262 | the result is the best-first prefix of all rescored hits, of length min(top_k, rescored count); no dropped hit outscores a returned one; each returned hit is a rescored vector result at a position with a BM25 score |
| EmbedEnhanced.PrefixDominates | src/ingest/embed_to_chroma_enhanced.py:259-262 | in the ranking sorted by combined score, nothing after the top_k cut outscores anything before it |
| EmbedEnhanced.RankedFrom | src/ingest/embed_to_chroma_enhanced.py:249-262 | every hit of the returned prefix is one of the vector results, rescored with its own BM25 score |
| EmbedFinal.Count | src/ingest/embed_to_chroma_final.py:128-129 | the number of characters of a class is at most the text's length |
| EmbedFinal.DetectLanguage | src/ingest/embed_to_chroma_final.py:126-136 | 'ko' exactly when the syllables outnumber twice the Latin letters, 'en' exactly when the Latin letters outnumber twice the syllables, 'mixed' otherwise |
| EmbedFinal.LanguageOfConcat | src/ingest/embed_to_chroma_final.py:126-136 | two texts of the same language 'ko' or 'en' give that language together |
| EmbedFinal.EmbedTextRoundTrip | src/ingest/embed_to_chroma_final.py:223-226 | the prefix tells a query from a passage, and what follows it is the stripped chunk |
| EmbedFinal.ExpansionEmpty | src/ingest/embed_to_chroma_final.py:228-238 | with non-empty synonym lists the expansion is empty exactly when no dictionary term occurs |
| EmbedFinal.RewriteQueryShape | src/ingest/embed_to_chroma_final.py:228-238 | the query comes back unchanged exactly when no dictionary term occurs in it; otherwise it is followed by a space and the synonyms of the occurring terms in dictionary order |
| EmbedFinal.RemoveSpaces | src/ingest/embed_to_chroma_final.py:243 | removing whitespace leaves no whitespace and does not lengthen the text |
| EmbedFinal.Bigrams | src/ingest/embed_to_chroma_final.py:245 | len - 1 bigrams, the i-th being the two characters at i |
| EmbedFinal.KoBigrams | src/ingest/embed_to_chroma_final.py:240-245 | one bigram fewer than the lowered, space-free text has characters |
| EmbedFinal.BigramsRoundTrip | src/ingest/embed_to_chroma_final.py:245 | a string of two or more characters is determined by its bigrams |
| EmbedFinal.FirstBreak | src/ingest/embed_to_chroma_final.py:176 | the leftmost sentence break at or after the position, or none when there is none |
| EmbedFinal.SplitSentences | src/ingest/embed_to_chroma_final.py:176 | re.split gives at least one piece, and no piece holds a sentence break |
| EmbedFinal.OverlapText | src/ingest/embed_to_chroma_final.py:200 | the overlap text is a suffix of the current chunk |
| EmbedFinal.StripAll | src/ingest/embed_to_chroma_final.py:186 | every sentence stripped, in order |
| EmbedFinal.CreateSemanticChunks | src/ingest/embed_to_chroma_final.py:170-221 | the sentence loop computes create_semantic_chunks' specification |
| EmbedFinal.AddSentence | src/ingest/embed_to_chroma_final.py:185-210 | one turn of the sentence loop feeds the stripped sentence to the packer |
| EmbedFinal.FeedKeeps | src/ingest/embed_to_chroma_final.py:185-210 | feeding a sentence keeps every emitted chunk non-empty and inside its span, starts never decreasing |
| EmbedFinal.FeedEmits | src/ingest/embed_to_chroma_final.py:191-202 | closing the current chunk keeps that invariant |
| EmbedFinal.SemanticChunksShape | src/ingest/embed_to_chroma_final.py:170-221 | a text that fits is one chunk spanning [0, len); a longer one gives non-empty chunks within their spans, with non-decreasing starts |
| EmbedFinal.FullText | src/ingest/embed_to_chroma_final.py:292-296 | the stripped "title\n\ncontent" text, absent exactly when the title or the content is a truthy non-string, whose strip() raises AttributeError |
| EmbedFinal.BuildFinal | src/ingest/embed_to_chroma_final.py:290-344 | raises exactly when the title or the content is a truthy non-string; otherwise the chunk records of the cleaned text with its PII count |
| EmbedFinal.BuildEnhanced | src/ingest/embed_to_chroma_production.py:232-285 | raises exactly when the title or the content is a truthy non-string; otherwise the chunk records of the cleaned text |
| EmbedFinal.ChunkRecordsShape | src/ingest/embed_to_chroma_final.py:290-344 | an empty cleaned text gives no chunks; otherwise chunk i has id sha256(f"{doc_hash}-{i}"), index i, the total, its semantic chunk's text, the passage-prefixed embed text, the stripped title, and the post's original id and hash |
| EmbedFinal.ChunkIdInputsDistinct | src/ingest/embed_to_chroma_final.py:320 | different chunk indices hash different inputs, so ids collide only through the digest |
| EmbedFinal.OriginalIdPresent | src/ingest/embed_to_chroma_final.py:316 | the original id is never absent: with no id, logno or url it is "unknown" |
| GpuVectorizer.EmbedCall | src/modules/gpu_vectorizer.py:59-89 | no vectors for no input, otherwise one vector per text, the model's vector for that text; the batch size does not change them |
| GpuVectorizer.RecordsEmbedLikeCall | src/modules/gpu_vectorizer.py:59-83 | the collection embeds each chunk exactly as one batch call over all chunks would |
| GpuVectorizer.VectorizeDocuments | src/modules/gpu_vectorizer.py:173-247 | a post whose content or category does not convert stops everything and leaves the collection as it was; otherwise the batches are upserted, the count is at most the number of chunks, and with no lost upsert it equals that number and the collection holds every entry |
| GpuVectorizer.GpuErrors | src/modules/gpu_vectorizer.py:193-205 | the only errors come from the content or the category, never the logno |
| GpuVectorizer.GpuLognoChoice | src/modules/gpu_vectorizer.py:198-203 | a truthy logNo wins over logno; the stored logno is its digits' value, and 0 when its text is not all digits, as for a negative number |
| GpuVectorizer.UnknownLognosCollide | src/modules/gpu_vectorizer.py:198-199 | two posts without a truthy logNo or a logno both get the ids "unknown:000", ..., so the second overwrites the first |
| GpuVectorizer.GpuIdsDistinct | src/modules/gpu_vectorizer.py:193-212 | posts whose lognos print differently get pairwise different chunk ids |
| GpuVectorizer.EmbedCallSplit | src/modules/gpu_vectorizer.py:59-89 | the vectors do not depend on how the texts are grouped into batches: a call on a + b is the call on a followed by the call on b |
| EmbedIncremental.SimilarToSelf | src/ingest/embed_to_chroma_final.py:270-273 | with a threshold below 1 a hash is similar to itself (no differing bits give similarity 1.0) |
| EmbedIncremental.DedupUpTo | src/ingest/embed_to_chroma_final.py:260-283 | the positions kept so far all lie before the current chunk |
| EmbedIncremental.Pick | src/ingest/embed_to_chroma_final.py:280-283 | the kept chunks, in order of their positions |
| EmbedIncremental.DropOne | src/ingest/embed_to_chroma_final.py:268-276 | a chunk similar to a recorded hash of its original id is dropped and nothing is recorded |
| EmbedIncremental.SurvivesIfNoneSimilar | src/ingest/embed_to_chroma_final.py:265-283 | a chunk with no similar recorded hash of its original id survives |
| EmbedIncremental.KeepOne | src/ingest/embed_to_chroma_final.py:278-283 | a surviving chunk's position and hash are recorded under its original id |
| EmbedIncremental.DedupChunksSpec | src/ingest/embed_to_chroma_final.py:254-288 | the result is a subsequence of the input; a chunk is kept exactly when no earlier kept chunk of the same original id is similar to it; so the first chunk of every original id is kept |
| EmbedIncremental.DedupChunksLoop | src/ingest/embed_to_chroma_final.py:254-288 | the loop with its inner scan computes dedup_chunks' specification |
| EmbedIncremental.ScanSimilar | src/ingest/embed_to_chroma_final.py:268-276 | the inner scan finds a similar hash exactly when one of the recorded hashes is similar |
| EmbedIncremental.Zip | src/ingest/embed_to_chroma_final.py:449 | zip() stops at the shortest of the four lists and pairs their elements position by position |
| EmbedIncremental.KeysOf | src/ingest/embed_to_chroma_final.py:450 | one original id per item, in order |
| EmbedIncremental.ItemsOf | src/ingest/embed_to_chroma_final.py:449-453 | a group holds exactly the items with that original id |
| EmbedIncremental.GroupsCover | src/ingest/embed_to_chroma_final.py:448-453 | the group keys have no repeats, every group is non-empty, and every item is in the group of its original id |
| EmbedIncremental.IdsOf | src/ingest/embed_to_chroma_final.py:476 | one id per chunk of the group, in order |
| EmbedIncremental.RecordsOf | src/ingest/embed_to_chroma_final.py:477-481 | one stored record per chunk of the group, from its embedding, document and metadata |
| EmbedIncremental.GroupStep | src/ingest/embed_to_chroma_final.py:458-483 | one group keeps the collection well formed |
| EmbedIncremental.UpsertFrom | src/ingest/embed_to_chroma_final.py:458-483 | the remaining groups keep the collection well formed |
| EmbedIncremental.GroupStepEffect | src/ingest/embed_to_chroma_final.py:458-483 | when the stored doc_hash of the original id equals the new one or nothing is stored, nothing is deleted or counted; when it differs, every stored chunk of that original id that the group does not re-upsert is gone and the count is the number that were stored; the group's ids are stored afterwards |
| EmbedIncremental.GroupStepKeeps | src/ingest/embed_to_chroma_final.py:458-483 | a group's delete by its original id spares the records of every other original id, and its own ids are added |
| EmbedIncremental.DeleteSparesTagged | src/ingest/embed_to_chroma_final.py:470 | a delete by one original id spares every record tagged with another |
| EmbedIncremental.UpsertFromKeeps | src/ingest/embed_to_chroma_final.py:458-483 | the remaining groups keep every id already present and store their own |
| EmbedIncremental.IncrementalUpsertStoresAll | src/ingest/embed_to_chroma_final.py:445-485 | afterwards every chunk given is stored under its id, when each metadata names its own chunk's original id as the callers build them |
| EmbedIncremental.UpsertGroup | src/ingest/embed_to_chroma_final.py:458-483 | the loop body changes the collection and counters as one group step |
| EmbedIncremental.GroupByOriginal | src/ingest/embed_to_chroma_final.py:448-453 | the grouping loop builds chunks_by_original with its keys in first-seen order and each group's items in input order |
| EmbedIncremental.GroupOne | src/ingest/embed_to_chroma_final.py:449-453 | one turn of the grouping loop keeps the grouping invariant |
| EmbedIncremental.IncrementalUpsertLoop | src/ingest/embed_to_chroma_final.py:445-485 | the collection afterwards and the two logged counters are incremental_upsert's |
| JobMetrics.Latest | monitoring/job_metrics.py:35-37 | l[-n:] of a longer list is its latest n entries in order; a list of at most n entries is kept whole |
| JobMetrics.LatestAppend | monitoring/job_metrics.py:27-37 | cutting after every append keeps the same list as cutting the whole history once: the latest n entries of everything recorded |
| JobMetrics.SumOverBump | monitoring/job_metrics.py:29-33 | raising one operation's count by d raises the total by d |
| JobMetrics.SumOverNew | monitoring/job_metrics.py:29 | a new operation with count v raises the total by v |
| JobMetrics.MinOf | monitoring/job_metrics.py:66 | min() is at most every duration |
| JobMetrics.MaxOf | monitoring/job_metrics.py:67 | max() is at least every duration |
| JobMetrics.SuccessfulOf | monitoring/job_metrics.py:79 | the successful completions, each one of the given completions |
| JobMetrics.FailedOf | monitoring/job_metrics.py:80 | the failed completions, each one of the given completions |
| JobMetrics.SuccessfulPlusFailed | monitoring/job_metrics.py:79-88 | every completion is either successful or failed |
| JobMetrics.Durations | monitoring/job_metrics.py:83 | one duration per completion |
| JobMetrics.InsertDesc | monitoring/job_metrics.py:117 | inserting into a newest-first list keeps it newest first, with one more element and the same elements otherwise |
| JobMetrics.SortDesc | monitoring/job_metrics.py:117 | the sort gives a newest-first permutation of the jobs |
| JobMetrics.RecentJobsSpec | monitoring/job_metrics.py:96-118 | min(limit, jobs) jobs for a limit of 0 or more, newest first, each a registered job, and the newest of all |
| JobMetrics.Summaries | monitoring/job_metrics.py:100-114 | one summary per registered job |
| JobMetrics.CountRunning | monitoring/job_metrics.py:140 | no more running jobs than recent jobs |
| JobMetrics.RecordKeepsOk | monitoring/job_metrics.py:27-37 | record_operation keeps the per-operation tables consistent: every counted operation listed once, at most 100 timings, errors at most calls |
| JobMetrics.RecordTotals | monitoring/job_metrics.py:27-37 | record_operation raises the total of calls by one, and the total of errors by one exactly when it failed |
| JobMetrics.JobMetricsCollector.constructor | monitoring/job_metrics.py:19-25 | empty tables, the history size given, and the clock reading as start time |
| JobMetrics.JobMetricsCollector.RecordOperation | monitoring/job_metrics.py:27-37 | one more call, one more error exactly when it failed, the duration appended and the list cut to its latest 100; nothing else changes |
| JobMetrics.JobMetricsCollector.RecordJobCompletion | monitoring/job_metrics.py:39-49 | the completion is appended to its job type's list, which is then cut to its latest 50; nothing else changes |
| JobMetrics.JobMetricsCollector.OperationStatsSound | monitoring/job_metrics.py:51-71 | every recorded operation has an entry whose success count is calls minus errors and never negative, whose recent count is between 1 and 100 and at most its calls, and whose minimum is at most its maximum |
| JobMetrics.JobMetricsCollector.GetOperationStats | monitoring/job_metrics.py:51-71 | the loop gives the operation statistics |
| JobMetrics.JobMetricsCollector.JobStatsSound | monitoring/job_metrics.py:73-94 | every job type with a completion has an entry whose successful plus failed counts make its completions, at most 50 |
| JobMetrics.JobMetricsCollector.GetJobStats | monitoring/job_metrics.py:73-94 | the loop gives the job statistics |
| JobMetrics.JobMetricsCollector.GetRecentJobsAsWritten | monitoring/job_metrics.py:96-122 | as written, the result is always []: JobState has no created_at |
| JobMetrics.JobMetricsCollector.GetRecentJobs | monitoring/job_metrics.py:96-118 | corrected: the registered jobs, newest first by their creation time, cut at limit |
| JobMetrics.JobMetricsCollector.GetDashboardMetricsAsWritten | monitoring/job_metrics.py:124-165 | as written, the result is always {}: JobRegistry has no get_stats |
| JobMetrics.JobMetricsCollector.GetDashboardMetrics | monitoring/job_metrics.py:130-161 | corrected: the 10 newest jobs and how many of them run, the operation and job statistics, the totals of calls and errors, and the uptime |
| JobMetrics.RecentJobsNotEmpty | monitoring/job_metrics.py:96-118 | once a job is registered, the corrected list with a positive limit is not empty |
| Jobs.JobState.constructor | api/core/jobs.py:18-30 | a new job is queued with no timestamps, progress 0.0, all five counters zero and nothing in results, errors or events |
| Jobs.JobState.Push | api/core/jobs.py:32-35 | the event is appended to the log and returned; the log's earlier entries and every other field are unchanged |
| Jobs.JobRegistry.constructor | api/core/jobs.py:38-39 | the registry starts empty |
| Jobs.JobRegistry.Create | api/core/jobs.py:41-45 | a fresh queued job with zero counters is filed under the id, replacing any job with that id and leaving every other entry unchanged; get then returns it |
| Jobs.JobRegistry.Get | api/core/jobs.py:47-50 | the job filed under the id, and none exactly when the id is unknown |
| MergeToMaster.Lognos | src/modules/merge_to_master.py:136-178 | the lognos of the exported rows, in order |
| MergeToMaster.RowsOf | src/modules/merge_to_master.py:136-178 | each exported row is the table's row for its logno; the lognos are exactly the requested ones that exist, in ascending order |
| MergeToMaster.MasterDb.constructor | src/modules/merge_to_master.py:16-47 | a new database has an empty posts table |
| MergeToMaster.MasterDb.UpsertJsonl | src/modules/merge_to_master.py:49-134 | a missing file fails before any write; an exception the loop does not catch leaves the table as it was; otherwise the merged table is committed and the inserted lognos are returned |
| MergeToMaster.MasterDb.ExportNewPosts | src/modules/merge_to_master.py:136-178 | "" and no rows for an empty list; otherwise the export path new_for_index_<run_id>.jsonl and the table's rows of the given lognos that exist, ascending |
| MergeToMaster.MergeReturnsNewKeys | src/modules/merge_to_master.py:49-134 | the returned lognos are exactly the keys the call added, none there before and none twice, and new_count is their number |
| MergeToMaster.MergeKeys | src/modules/merge_to_master.py:72-121 | the keys afterwards are the keys before plus the lognos of the lines that reached the upsert |
| MergeToMaster.MergeOfKnownRows | src/modules/merge_to_master.py:72-121 | when every row's logno is already in the table nothing is inserted |
| MergeToMaster.AbortIndependent | src/modules/merge_to_master.py:72-124 | whether a line aborts the call does not depend on the table |
| MergeToMaster.MergeIdempotent | src/modules/merge_to_master.py:49-134 | merging the same file a second time succeeds again and returns no lognos |
| MergeToMaster.RecordClassified | src/modules/merge_to_master.py:78-120 | an absent logno is inserted and returned; a present one with another hash has content and hash replaced and counts as updated; with the same hash content and hash stay while url, title, category_no, posted_at and crawled_at are overwritten; other rows are untouched |
| MergeToMaster.SkippedLines | src/modules/merge_to_master.py:70-124 | a line that fails JSON parsing or int() of its logno or category_no is skipped and the later lines still merge; a record without post_no or logno merges under logno 0 |
| MergeToMaster.MergeKeepsInserted | src/modules/merge_to_master.py:72-121 | a merge that succeeds keeps the list of inserted lognos distinct, new to the table and equal in number to new_count, and the keys are the old keys plus those |
| Middleware.Recent | api/core/middleware.py:139-145 | the pruned record keeps exactly the timestamps less than a minute old, no more than there were, and all of them when none is stale |
| Middleware.Admit | api/core/middleware.py:139-174 | a request is allowed exactly when fewer than the limit remain after pruning; only an allowed one is recorded; everything on record is less than a minute old and the record never grows past the limit |
| Middleware.AdmitAll | api/core/middleware.py:136-174 | after any sequence of requests a client's record stays within the limit |
| Middleware.RateLimiter.constructor | api/core/middleware.py:131-134 | the given limit and no client on record |
| Middleware.RateLimiter.Dispatch | api/core/middleware.py:136-174 | the client's record is pruned or created, the request refused or recorded as Admit says, other clients' records untouched, and every record within the limit |
| Middleware.OperationFor | api/core/middleware.py:114-121 | the operation a path counts under is search if it contains /search, else generate, crawl or upload in that order of precedence, else none |
| Middleware.OperationMetrics.constructor | api/core/middleware.py:23 | all four counters start at zero |
| Middleware.OperationMetrics.IncrementOperationCounter | api/core/middleware.py:110-125 | exactly the path's operation counter goes up by one, and no counter moves for a path naming none |
| Middleware.OperationMetrics.Dispatch | api/core/middleware.py:26-108 | a handled request passes its status on and bumps its operation's counter; a raising handler gives a 500 and no counter changes |
| Middleware.IncrementTotal | api/core/middleware.py:110-125 | a request naming an operation raises the counters' total by exactly one |
| Middleware.LoadClass | api/core/middleware.py:6-24 | a class body loads exactly when every module-level name it reads is bound; otherwise it raises NameError for an unbound name it reads |
| Middleware.LoadAsWrittenFails | api/core/middleware.py:6-24 | as written, RequestLoggingMiddleware's class body reads threading, which lines 6-16 never bind, so loading the module raises NameError |
| Middleware.LoadWithImport | api/core/middleware.py:6-24 | with threading imported the class body runs |
| NaverCrawler.CategoryText | src/crawler/naver_crawler.py:68 | the text after categoryNo= up to the first & holds neither & nor categoryNo= and is a prefix of the text it was cut from |
| NaverCrawler.LinkCategories | src/crawler/naver_crawler.py:64-72 | exactly the categoryNos of the links whose number int() accepts |
| NaverCrawler.MaxLogno | src/crawler/naver_crawler.py:332 | the largest logNo of the list, and one of its posts has it |
| NaverCrawler.StatsOkMoreSeen | src/crawler/naver_crawler.py:250-308 | the statistics stay consistent when the storage gains posts: duplicate_content is 0, new_posts counts the collected posts, each collected post is new, stored and above the checkpoint, and collected plus failed is at most total_found |
| NaverCrawler.StatsOkAccumulate | src/crawler/naver_crawler.py:314-323 | adding one category's consistent statistics to consistent totals gives consistent totals |
| NaverCrawler.Crawler.constructor | src/crawler/naver_crawler.py:23-33 | the crawler holds the blog id, its own category and the storage |
| NaverCrawler.Crawler.BlogListUrl | src/crawler/naver_crawler.py:40-46 | the PostList URL with the blog id, the passed category or else the crawler's own, and the page number |
| NaverCrawler.Crawler.PostUrl | src/crawler/naver_crawler.py:48-50 | the PostView URL of the blog, ending with &logNo=<logno> |
| NaverCrawler.Crawler.FetchCategories | src/crawler/naver_crawler.py:52-84 | [0] when the request fails; otherwise the distinct categoryNos of the links in first-seen order, or [0] when there are none |
| NaverCrawler.Crawler.ProcessPosts | src/crawler/naver_crawler.py:250-308 | the per-post loop ends with the statistics and seen URLs of PassPosts over the filtered posts, consistent with the storage, and leaves the checkpoint alone |
| NaverCrawler.Crawler.CrawlOneCategory | src/crawler/naver_crawler.py:195-312 | one category's statistics and the seen URLs are CategoryPages from page 1 with the page walk of crawl_incremental, consistent with the storage, and the checkpoint is untouched |
| NaverCrawler.Crawler.CrawlIncremental | src/crawler/naver_crawler.py:151-341 | the totals and seen URLs are RunCategories over the crawler's own category or every fetched one; the checkpoint is rewritten to the page-1 list's largest logNo and the run's total, new and updated counts only when something was found and that list is not empty, even when that logNo is below the previous checkpoint |
| NaverCrawler.LinkCategoriesStep | src/crawler/naver_crawler.py:64-72 | one more link appends its categoryNo when it is new and leaves the list otherwise |
| NaverCrawler.AboveSpec | src/crawler/naver_crawler.py:243-245 | the logno filter keeps exactly the listed posts above the checkpoint, and no more posts than listed |
| NaverCrawler.PassPostsSpec | src/crawler/naver_crawler.py:250-308 | the seen URLs grow by exactly the collected ones; the collected URLs are distinct, all new, and exactly the listed unseen URLs whose fetch returns content; failed counts the unseen posts whose fetch returns nothing; collected plus failed is at most the posts listed |
| NaverCrawler.CategoryFound | src/crawler/naver_crawler.py:195-312 | the walk of one category visits pages 1..pages_processed, all listed, stops at max_pages or before the first empty page, total_found is the sum of the visited listings and the category counts once |
| NaverCrawler.CategoryFoundFrom | src/crawler/naver_crawler.py:209-312 | the same facts for the walk from any page whose predecessors were all listed and counted |
| NaverCrawler.RunCategoriesStep | src/crawler/naver_crawler.py:318-323 | the run over categories i.. is category i's walk, its statistics added to the totals key by key and collected_posts extended, then the run over the rest |
| NaverCrawler.Crawler.ProcessPost | src/crawler/naver_crawler.py:250-308 | one post: a seen URL changes nothing, an empty fetch adds one failure, any other post is stored and collected as new; the result is one PassOne step, consistent with the storage |
| NaverCrawler.Crawler.CrawlPage | src/crawler/naver_crawler.py:216-312 | one listed page within max_pages takes the category walk from that page to the next, keeping the statistics consistent and the checkpoint unchanged |
| NaverCrawler.Crawler.CrawlCategories | src/crawler/naver_crawler.py:187-326 | the category loop ends with the totals and seen URLs of RunCategories, and counts every category once |
| NaverCrawler.Crawler.CrawlNext | src/crawler/naver_crawler.py:187-326 | one pass of the category loop takes RunCategories one category further and counts one more category |
| Plag.NGrams | src/qc/plag.py:3-4 | empty exactly when there are fewer tokens than n; every n-gram has n tokens |
| Plag.WindowIsNGram | src/qc/plag.py:3-4 | every window of n tokens is one of the n-grams |
| Plag.NGramIndex | src/qc/plag.py:3-4 | every n-gram is the window at some position |
| Plag.NGramsAppend | src/qc/plag.py:15-18 | the n-grams of either part, and of a window across the join, are n-grams of the concatenation |
| Plag.Clean | src/qc/plag.py:8 | the cleaned text has the input's length |
| Plag.CleanShape | src/qc/plag.py:8 | a character is kept exactly when it is a word character or whitespace, and afterwards only such characters remain |
| Plag.TokensAreWords | src/qc/plag.py:6-9 | no token is empty and every token is made of word characters only |
| Plag.TokenizeJoin | src/qc/plag.py:6-9 | tokenising tokens joined by spaces gives the same tokens back |
| Plag.Round4Bounds | src/qc/plag.py:21 | the rounded count is within half a unit of a / b, and a share of at most one rounds to at most one |
| Plag.Round4Monotone | src/qc/plag.py:21 | a larger numerator never rounds lower |
| Plag.Score | src/qc/plag.py:11-21 | at most 10000 ten-thousandths, and 0 when either side has no 8-gram |
| Plag.Plag8gram | src/qc/plag.py:11-21 | between 0.0 and 1.0, the score in ten-thousandths scaled down |
| Plag.ScoreIsShare | src/qc/plag.py:20-21 | with 8-grams on both sides, the score is the share of the generated 8-grams found among the context 8-grams, rounded to four places |
| Plag.MoreContextsNeverLower | src/qc/plag.py:15-21 | adding contexts never lowers the score |
| Plag.Plag8gramOf | src/qc/plag.py:11-21 | the loop over the contexts computes plag_8gram |
| Plag.Round4NoTie | src/qc/plag.py:21 | away from an exact tie the rule for ties does not matter, and the result is the nearest count of ten-thousandths |
| PostJson.Field | src/modules/production_rag_generator.py:146 | a missing key gives the default |
| PostJson.PyInt | src/modules/production_rag_generator.py:153-155 | int() of an int is itself, of a digit string its value, and of null or a missing field raises |
| PostJson.Content | src/modules/production_rag_generator.py:120-123 | a missing content is "", a string is itself, and the chunker raises exactly on a truthy non-string |
| PostJson.ToMVal | src/modules/production_rag_generator.py:156-161 | a string or int is stored as that string or int, anything else as null |
| Providers.CountAvailable | src/llm/provider_manager.py:168-175 | the number of providers answering available never exceeds the number of providers |
| Providers.CountAvailableExtremes | src/llm/provider_manager.py:187-191 | the count is zero exactly when no provider answers available, and the total exactly when every one does |
| Providers.Status | src/llm/provider_manager.py:187-191 | unhealthy exactly when none is available, degraded exactly when some but not all are, healthy exactly when all are and there is at least one |
| Providers.ProviderManager.constructor | src/llm/provider_manager.py:19-51 | LLM_PROVIDER gemini (in any case) with a non-empty GEMINI_API_KEY and a Gemini client that constructs (geminiClientOk) registers only the Gemini provider as default; anything else, including a Gemini client that raises, registers only Ollama as default |
| Providers.ProviderManager.RegisterProvider | src/llm/provider_manager.py:70-76 | a non-provider is refused with nothing changed; a provider is filed under its name, replacing an earlier one, and a new name joins the insertion order |
| Providers.ProviderManager.SetDefaultProvider | src/llm/provider_manager.py:135-141 | an unregistered name is refused and the default kept; a registered one becomes the default; the registry is unchanged |
| Providers.ProviderManager.GetDefaultProviderName | src/llm/provider_manager.py:131-133 | the default provider's name, if any |
| Providers.ProviderManager.FindAvailableProvider | src/llm/provider_manager.py:104-112 | the first registered name in insertion order whose provider answers available, or none when no provider does |
| Providers.ProviderManager.GetProvider | src/llm/provider_manager.py:78-102 | a missing or empty name without a default is an error, an unregistered name is an error, a raising check surfaces, an available provider is returned, an unavailable one is replaced by the first available in insertion order or else an error; whatever is returned answers available |
| Providers.ProviderManager.ListProviders | src/llm/provider_manager.py:114-129 | one entry per registered name, each marked registered; available exactly when get_model_info succeeds (infoOk) and is_available answers available, errored exactly when get_model_info raises (not infoOk) or the availability check raises |
| Providers.ProviderManager.HealthCheck | src/llm/provider_manager.py:160-200 | every registered provider's answer, the available count out of the total registered, and the status that count gives |
| Providers.RegistrySize | src/llm/provider_manager.py:169 | a registry listed without repeats by its insertion order has as many providers as names listed |
| Providers.FirstAvailableUnique | src/llm/provider_manager.py:104-112 | the first available provider in registration order is one position, so the name _find_available_provider returns is determined |
| QualityGuard.SubheadingsBounds | src/llm/quality_guard.py:96 | at most one `^##\s+` match per position, and none are counted exactly when none starts there |
| QualityGuard.FoundFromIff | src/llm/quality_guard.py:143-153 | the scan finds a structure part exactly when its pattern matches at some position |
| QualityGuard.SubheadingCheck | src/llm/quality_guard.py:93-102 | content with no `^##\s+` line, or shorter than min_subheadings, fails whenever subheadings are required |
| QualityGuard.SectionChecks | src/llm/quality_guard.py:104-139 | a section that is not required passes; a required one passes exactly when one of its keywords occurs |
| QualityGuard.ToneCheck | src/llm/quality_guard.py:161-181 | passes exactly when an approved keyword occurs and no inappropriate one does |
| QualityGuard.StructureCheck | src/llm/quality_guard.py:141-159 | passes exactly when the title, the introduction and the closing each match somewhere |
| QualityGuard.Score | src/llm/quality_guard.py:83-181 | "통과" or "실패", and "실패" exactly when the check fails |
| QualityGuard.Failed | src/llm/quality_guard.py:33-75 | no more reasons than checks, each naming a check |
| QualityGuard.FailedIff | src/llm/quality_guard.py:33-75 | a check run is reported exactly when it fails |
| QualityGuard.FailedAbsent | src/llm/quality_guard.py:33-75 | a check not run is never reported |
| QualityGuard.FailedSnoc | src/llm/quality_guard.py:33-75 | running one more check appends its name exactly when it fails |
| QualityGuard.Verdict | src/llm/quality_guard.py:33-81 | over the six checks, a check is among the reasons exactly when it fails, and there are none exactly when every check passes |
| QualityGuard.FailedAll | src/llm/quality_guard.py:36-75 | the reasons are the failing checks in the fixed order length, subheadings, checklist, disclaimer, structure, tone |
| QualityGuard.ScoresNamed | src/llm/quality_guard.py:36-75 | the six scores are recorded under the six names and found there |
| QualityGuard.CheckContentQuality | src/llm/quality_guard.py:33-81 | scores under the six names, each that check's score; the reasons are the failing checks in order; passed exactly when there are none, that is when every check passes; retries 0 |
| QualityGuard.Suggestion | src/llm/quality_guard.py:183-201 | a suggestion exactly for a reason that names one of the six checks |
| QualityGuard.Suggestions | src/llm/quality_guard.py:183-201 | at most one suggestion per reason |
| QualityGuard.OneSuggestionEach | src/llm/quality_guard.py:183-201 | reasons that each name a check get exactly their own suggestion, in order |
| QualityGuard.FailedReasonsAreKnown | src/llm/quality_guard.py:33-201 | every reason check_content_quality reports gets a suggestion |
| QualityGuard.GetImprovementSuggestions | src/llm/quality_guard.py:183-201 | the loop returns the suggestions for the reasons, in order |
| QualityGuard.GenerateWithQualityGuard | src/llm/quality_guard.py:268-322 | with a negative max_retries the "생성 실패" result; otherwise the first passing attempt with its index as retries, or after max_retries failed retries the last content unpassed, or the last attempt's exception when it raised; every earlier attempt raised or failed a check |
| RagGenerator.StyleCollection | src/modules/production_rag_generator.py:96-98 | the name starts with style_cat_ and goes on after it |
| RagGenerator.StyleCollectionInjective | src/modules/production_rag_generator.py:96-98 | each category has its own style collection |
| RagGenerator.UpsertToChroma | src/modules/production_rag_generator.py:137-195 | a post that raises stops the call with its error and the collection unchanged; otherwise the collection is the batch loop's over the prepared entries, the count is at most their number, and when no item is lost every entry is stored and counted |
| RagGenerator.MissingLognoRaises | src/modules/production_rag_generator.py:148-149 | a post without a logno key raises KeyError before anything is stored |
| RagGenerator.First | src/modules/production_rag_generator.py:263-265 | result.get(key, [[]])[0]: [] for an absent key, IndexError exactly for a present empty list |
| RagGenerator.Zip3 | src/modules/production_rag_generator.py:272 | zip() of three lists: as long as the shortest, the k-th triple from position k |
| RagGenerator.Unzip | src/modules/production_rag_generator.py:270-287 | three equally long lists whose k-th entries form the k-th hit |
| RagGenerator.CountKey | src/modules/production_rag_generator.py:269-281 | no count exceeds the number of hits |
| RagGenerator.KeepCapped | src/modules/production_rag_generator.py:269-282 | no more hits are kept than given |
| RagGenerator.MergeResults | src/modules/production_rag_generator.py:260-287 | the loop computes _merge_results, including its IndexError |
| RagGenerator.FilterHits | src/modules/production_rag_generator.py:269-282 | the loop with its seen_lognos counts keeps the capped hits |
| RagGenerator.KeepStep | src/modules/production_rag_generator.py:272-281 | one more hit is kept exactly when fewer than two of its logno were kept |
| RagGenerator.CountSnoc | src/modules/production_rag_generator.py:273-281 | one more hit raises only the count of its own logno, by one |
| RagGenerator.KeepCappedCount | src/modules/production_rag_generator.py:268-282 | a logno keeps all its hits when it has at most two, and exactly two otherwise |
| RagGenerator.KeepCappedOrder | src/modules/production_rag_generator.py:268-282 | the kept hits are a subsequence of the merged hits, in order |
| RagGenerator.MergedHits | src/modules/production_rag_generator.py:262-266 | the merged hits are the main hits followed by the spillover hits, each at distance 0.5 |
| RagGenerator.RetrieveAsWrittenRaises | src/modules/production_rag_generator.py:231-266 | as written, every retrieval without a spillover search raises IndexError in the merge |
| RagGenerator.RetrieveWithoutSpillover | src/modules/production_rag_generator.py:229-246 | with the default corrected, a retrieval without spillover gives the main hits, at most two per post |
| RagGenerator.RetrieveWithSpillover | src/modules/production_rag_generator.py:229-246 | a retrieval with spillover gives the main hits, then the spillover hits at distance 0.5, at most two per post |
| RagGenerator.Truncate | src/modules/production_rag_generator.py:358-359 | a context within 2 * max_tokens characters is returned whole; a longer one is cut to that many with "..." appended |
| RagGenerator.BuildContext | src/modules/production_rag_generator.py:321-361 | the knowledge parts and the style part joined by newlines, then cut to the limit; at most 2 * max_tokens + 3 characters |
| RagGenerator.TruncatePrefix | src/modules/production_rag_generator.py:358-359 | a cut context keeps exactly the first 2 * max_tokens characters and ends in "..." |
| SafetyGuards.AfterCall | src/qc/production_safety_guards.py:33-65 | an open breaker whose timeout has not passed rejects the call and changes nothing; a success resets the count and ends closed; a failure is counted and stamped, opens the breaker at the threshold or from a half-open trial, and is re-raised; the invariant is kept |
| SafetyGuards.NeverHalfOpenAfterCall | src/qc/production_safety_guards.py:33-65 | after any call the breaker is closed or open, never half-open |
| SafetyGuards.HalfOpenFailureReopens | src/qc/production_safety_guards.py:35-65 | a failed trial call after the timeout reopens the breaker whatever the threshold, and re-raises |
| SafetyGuards.Run | src/qc/production_safety_guards.py:33-65 | a sequence of calls keeps the breaker's invariant |
| SafetyGuards.FailuresOpen | src/qc/production_safety_guards.py:33-65 | a closed breaker opens once enough consecutive failures bring its count to the threshold |
| SafetyGuards.StaysOpenOnFailures | src/qc/production_safety_guards.py:33-65 | an open breaker stays open while every call fails or is rejected |
| SafetyGuards.CircuitBreaker.constructor | src/qc/production_safety_guards.py:25-31 | a new breaker is closed with no failures and the given threshold and timeout |
| SafetyGuards.CircuitBreaker.OnSuccess | src/qc/production_safety_guards.py:51-56 | the count is reset, the failure time kept, and a half-open breaker becomes closed |
| SafetyGuards.CircuitBreaker.OnFailure | src/qc/production_safety_guards.py:58-65 | the count rises by one, the failure time is stamped, and reaching the threshold opens the breaker |
| SafetyGuards.CircuitBreaker.Call | src/qc/production_safety_guards.py:33-49 | the breaker's new fields and the outcome are those of the state machine step |
| SafetyGuards.Alerts | src/qc/production_safety_guards.py:451-467 | a warning for CPU above 80, memory above 85, disk above 90 and process memory above 2048 MB, each exactly then |
| SafetyGuards.RecentSamples | src/qc/production_safety_guards.py:474 | the last ten samples, or all when there are fewer |
| SafetyGuards.MetricsSummary | src/qc/production_safety_guards.py:469-483 | no data exactly for an empty history; otherwise a sample count between 1 and 10, the number of recent samples |
| SafetyGuards.SummaryIgnoresOldSamples | src/qc/production_safety_guards.py:474 | a sample older than the last ten does not change the summary |
| SafetyGuards.SystemMonitor.constructor | src/qc/production_safety_guards.py:381-385 | a new monitor keeps up to 100 samples and has none |
| SafetyGuards.SystemMonitor.RecordSample | src/qc/production_safety_guards.py:410-416 | the sample is appended and, when that makes the history too long, the oldest one dropped |
| SafetyGuards.SystemMonitor.GetMetricsSummary | src/qc/production_safety_guards.py:469-483 | the summary of the current history, no data exactly when it is empty |
| SafetyGuards.RecordedIsLatest | src/qc/production_safety_guards.py:410-416 | however many samples arrive, the history holds at most max_history of them, the latest ones in arrival order |
| SafetyGuards.AlertsCount | src/qc/production_safety_guards.py:451-467 | the number of warnings is the number of readings above their limits |
| SafetyGuards.AlertsMonotone | src/qc/production_safety_guards.py:451-467 | higher readings never silence a warning, and never give fewer warnings |
| SafetyGuards.RecordedNewest | src/qc/production_safety_guards.py:410-416 | recording samples one by one into a history of at most max_history gives the newest max_history entries of the history followed by the samples |
| SafetyGuards.TimeoutLetsTrialThrough | src/qc/production_safety_guards.py:35-55 | for any failure stamp t, 0.0 included, once more than recovery_timeout has passed since t the open breaker lets a trial call through, and a trial that returns closes it |
| Schemas.ValidateBlogId | api/schemas.py:26-31 | an absent blog id stays absent, a blank one is refused, any other is stored stripped |
| Schemas.ValidateCategoryNo | api/schemas.py:32-37 | an absent category number passes, a negative one is refused, any other is kept |
| Schemas.ValidateMaxPages | api/schemas.py:38-41 | an absent page limit passes, one outside 1..50 is refused, any other is kept |
| Schemas.ValidateNonBlank | api/schemas.py:64-67 | a blank run_id, query or title is refused; any other value is stored stripped |
| Schemas.NonBlankStripped | api/schemas.py:89-92 | a stored non-blank field is non-empty, has no whitespace at either end and is the stripped input |
| Schemas.ValidateContent | api/schemas.py:164-169 | content shorter than 100 characters once stripped is refused; longer content is stored stripped |
| Schemas.ContentIdempotent | api/schemas.py:164-169 | validating stored content again accepts it and changes nothing |
| Schemas.ValidateTags | api/schemas.py:170-178 | no list gives no tags; otherwise the tags kept are the input tags, stripped, cut to 20 characters, blank ones dropped, in input order |
| Schemas.CleanTagsShape | api/schemas.py:170-178 | every kept tag is a non-empty prefix of a stripped input tag and has at most 20 characters, and no more tags are kept than given |
| Schemas.CleanTagsAppend | api/schemas.py:170-178 | tags are cleaned one by one: cleaning two lists in a row is cleaning their concatenation |
| Schemas.CleanTagsKeepsGoodTags | api/schemas.py:170-178 | tags that are already stripped, non-empty and at most 20 characters long come back unchanged |
| Schemas.TagCut | api/schemas.py:174-177 | a tag without surrounding whitespace is kept as its first 20 characters |
| Schemas.LongTagCut | api/schemas.py:174-177 | a 25-letter tag is cut to its first 20 letters |
| Schemas.Bounded | api/schemas.py:88 | an absent optional number passes; a present one passes exactly when it lies within its declared bounds |
| Schemas.NewCrawlRequest | api/schemas.py:18-41 | a crawl request is built exactly when blog_id, category_no and max_pages all pass their validators; otherwise the error list is non-empty and names only those fields |
| Schemas.CrawlRequestValid | api/schemas.py:18-41 | an accepted crawl request holds a stripped non-blank blog id if any, a category of at least 0 and a page limit in 1..50 |
| Schemas.NewIndexRequest | api/schemas.py:58-67 | an index request is accepted exactly when run_id is not blank, and stores it stripped |
| Schemas.NewSearchRequest | api/schemas.py:81-92 | a search request needs a query of 1..500 characters that is not blank, and top_k in 1..20 when given; an accepted query is stored stripped |
| Schemas.NewGenerateRequest | api/schemas.py:115-128 | a generate request needs the query as for a search, max_tokens in 100..4000, temperature in 0..2 and max_retries in 0..5 when given |
| Schemas.NewUploadRequest | api/schemas.py:150-178 | an upload needs a title of 1..200 characters that is not blank and content of at least 100 characters both raw and stripped, at most 10 raw tags; title and content are stored stripped and tags cleaned |
| Schemas.UploadRequestValid | api/schemas.py:150-178 | an accepted upload carries at most 10 tags, each of at most 20 characters, and content of at least 100 characters |
| Schemas.OrDefault | api/schemas.py:61-122 | an omitted optional field takes its declared default, an explicit null stays absent, and a given value is kept |
| Schemas.SearchDefaults | api/schemas.py:83-86 | a search request with every optional field omitted is accepted with top_k 6, with_rerank true and law_topic 채권추심 |
| Schemas.GenerateDefaults | api/schemas.py:117-122 | a generate request with every optional field omitted is accepted with with_rag true, max_tokens 2000, temperature 0.7 and max_retries 2 |
| Security.Repeat | LSC_Core_Files/src/config/security_utils.py:96 | the mask character repeated n times has n characters, each of them the mask |
| Security.MaskMatch | LSC_Core_Files/src/config/security_utils.py:90-106 | a match of at most four characters becomes all mask; a longer one keeps its first two and last two characters with mask in between; a one-character mask keeps the match's length |
| Security.Substitute | LSC_Core_Files/src/config/security_utils.py:104 | a search with no matches leaves the text as it was |
| Security.SubstituteKeepsLength | LSC_Core_Files/src/config/security_utils.py:90-104 | with a one-character mask every substitution keeps the text's length |
| Security.SubstituteKeepsPrefix | LSC_Core_Files/src/config/security_utils.py:104 | the text before the first match is left untouched |
| Security.MaskTypeKeepsLength | LSC_Core_Files/src/config/security_utils.py:88-104 | with a one-character mask, running all of one type's patterns keeps the text's length |
| Security.MaskSpecShape | LSC_Core_Files/src/config/security_utils.py:82-106 | mask_counts holds only types from the table, each with a positive count, and a one-character mask keeps the text's length |
| Security.MaskTypes | LSC_Core_Files/src/config/security_utils.py:82-106 | the masked text and mask_counts the pattern table's loops compute, type by type and pattern by pattern |
| Security.MaskPii | LSC_Core_Files/src/config/security_utils.py:82-106 | mask_pii with the detector's own pattern table |
| Security.Matched | LSC_Core_Files/src/config/security_utils.py:68-80 | no matches pick out nothing; the first match's text is among those picked out |
| Security.Found | LSC_Core_Files/src/config/security_utils.py:68-80 | a type's matches are empty exactly when none of its patterns matches |
| Security.DetectFrom | LSC_Core_Files/src/config/security_utils.py:68-80 | every reported type has at least one match; every type with a match is reported; nothing is reported exactly when no pattern of any type matches |
| Security.SafeIffNoMatch | LSC_Core_Files/src/config/security_utils.py:108-111 | a text is safe for logging exactly when no pattern of any type matches it |
| Security.AccessController.constructor | LSC_Core_Files/src/config/security_utils.py:212-216 | empty request history and block list, limits of 100 a minute and 1000 an hour |
| Security.AccessController.CheckRateLimit | LSC_Core_Files/src/config/security_utils.py:218-240 | the IP's requests older than a minute are dropped; with 100 left it is refused and nothing recorded, otherwise the request is recorded and allowed; the block list is unchanged |
| Security.AccessController.BlockIp | LSC_Core_Files/src/config/security_utils.py:246-249 | the IP joins the block list and is then blocked; the rate history is unchanged |
| Security.AccessController.UnblockIp | LSC_Core_Files/src/config/security_utils.py:251-260 | the IP leaves the block list and is no longer blocked; unblocking an unblocked IP changes nothing |
| Security.BlockThenUnblock | LSC_Core_Files/src/config/security_utils.py:246-260 | unblocking an IP that was not blocked before undoes blocking it |
| SemanticChunking.SpecialCount | src/preprocess/chunking.py:140 | the matches of [^\w\s가-힣], non-ASCII symbols such as "…" included: no more than the characters of the text |
| SemanticChunking.SpecialCountExtremes | src/preprocess/chunking.py:140 | the count is 0 exactly when no character is special, and the length exactly when every character is |
| SemanticChunking.NonAsciiSymbolsCount | src/preprocess/chunking.py:140-143 | "…" and "·" are special while Hangul, letters and spaces are not; "가…·" has two special characters and six "…" estimate at 3 tokens |
| SemanticChunking.EstimateTokens | src/preprocess/chunking.py:131-143 | 0 for the empty text, and between 0.4 and 0.6 tokens per character, truncated |
| SemanticChunking.EstimateExtremes | src/preprocess/chunking.py:137-143 | a text with no special character gets int(len / 2.5), one made only of special characters int(1.5 * len / 2.5) |
| SemanticChunking.EstimateMonotone | src/preprocess/chunking.py:131-143 | appending text never lowers the estimate |
| SemanticChunking.CleanPieces | src/preprocess/chunking.py:107-127 | no more pieces than given, none empty |
| SemanticChunking.CleanPiecesStripped | src/preprocess/chunking.py:108-127 | every kept piece is already stripped |
| SemanticChunking.CleanPiecesSound | src/preprocess/chunking.py:108-127 | every kept piece is some input piece, stripped |
| SemanticChunking.CleanPiecesComplete | src/preprocess/chunking.py:108-127 | every non-blank input piece is kept, stripped |
| SemanticChunking.RefineBlock | src/preprocess/chunking.py:107-117 | what a block contributes is non-empty and stripped: its sentences when over 0.8 of the budget, else the block |
| SemanticChunking.Paragraphs | src/preprocess/chunking.py:100-119 | every paragraph is non-empty and stripped |
| SemanticChunking.SplitParagraphs | src/preprocess/chunking.py:100-119 | the loop over the blocks computes the refined paragraphs |
| SemanticChunking.ParagraphsShort | src/preprocess/chunking.py:113-117 | when no block is over 0.8 of the budget the paragraphs are the stripped non-blank blocks and the sentence split is never used |
| SemanticChunking.PackHead | src/preprocess/chunking.py:63-86 | a chunk under construction ends up at the head of the first group, with its start |
| SemanticChunking.PackCovers | src/preprocess/chunking.py:63-93 | every paragraph lands in exactly one group, in order |
| SemanticChunking.PackGroups | src/preprocess/chunking.py:69-86 | every group is non-empty and within the budget unless it is a single paragraph |
| SemanticChunking.PackMaximal | src/preprocess/chunking.py:69-86 | greedy: the first paragraph of each group would have pushed the previous group over the budget |
| SemanticChunking.PackStarts | src/preprocess/chunking.py:60-86 | every group after the first starts at the normalised text's length minus its first paragraph's length; the first starts at 0 unless its first paragraph alone is over budget |
| SemanticChunking.CreateChunk | src/preprocess/chunking.py:145-169 | the chunk's text, start and end; its id is source_url (or unknown) _ chunk_id; its metadata is the input's plus chunk_id, chunk_type semantic, law_topic, token_count and char_count, and keywords when any were found |
| SemanticChunking.Emit | src/preprocess/chunking.py:77-93 | one chunk per group |
| SemanticChunking.EmitSnoc | src/preprocess/chunking.py:77-93 | closing one more group appends its chunk, numbered by its position |
| SemanticChunking.EmitIdsDistinct | src/preprocess/chunking.py:78-166 | the chunk ids and chunk_id metadata of one text's chunks are pairwise distinct |
| SemanticChunking.MirrorCount | src/preprocess/chunking.py:210-215 | the matching words are counted from i while the last words of text1 equal the first words of text2, stopping at the first mismatch |
| SemanticChunking.TrimFront | src/preprocess/chunking.py:223-225 | a final segment of the words, within the target unless at most one word is left |
| SemanticChunking.OverlapTextShape | src/preprocess/chunking.py:203-228 | the overlap is a space-joined final segment of text1's words, within the target unless one word is left |
| SemanticChunking.CommonWords | src/preprocess/chunking.py:210-215 | the loop collects the matching final words of text1, in text1's order |
| SemanticChunking.TrimWords | src/preprocess/chunking.py:223-225 | the trimming loop drops words from the front while over target and more than one is left |
| SemanticChunking.GetOverlapText | src/preprocess/chunking.py:203-228 | _get_overlap_text computes the overlap of the two texts |
| SemanticChunking.TrimJoined | src/preprocess/chunking.py:218-226 | joining the common words and trimming them when over target gives the trimmed overlap |
| SemanticChunking.WithOverlap | src/preprocess/chunking.py:195-197 | the text stays a prefix; a non-empty overlap follows after a newline; an empty one changes nothing |
| SemanticChunking.SpanFrom | src/preprocess/chunking.py:185-187 | a non-empty overlap sets the span to the last characters of the text; nothing else changes |
| SemanticChunking.AppendedText | src/preprocess/chunking.py:190-197 | a chunk's text after its successor's overlap is appended starts with its old text |
| SemanticChunking.StepAt | src/preprocess/chunking.py:178-199 | one pass keeps the chunk's metadata, id and positions, and its old text as a prefix |
| SemanticChunking.OverlappedUpTo | src/preprocess/chunking.py:178-199 | the first n chunks after the loop keep their metadata, ids and positions, with their old texts as prefixes |
| SemanticChunking.Overlapped | src/preprocess/chunking.py:171-201 | as many chunks as given, returned as they are when at most one; every chunk keeps its metadata, id and positions, with its old text as a prefix |
| SemanticChunking.OverlappedUpToAt | src/preprocess/chunking.py:178-199 | each pass reads the already extended text of the chunk before it, and agrees with the closed form |
| SemanticChunking.StepAtClosed | src/preprocess/chunking.py:178-199 | a pass given the extended text of the previous chunk yields the closed form |
| SemanticChunking.AddOverlap | src/preprocess/chunking.py:171-201 | the loop computes the overlapped chunks |
| SemanticChunking.OverlapOne | src/preprocess/chunking.py:178-199 | one iteration computes the pass over chunk i |
| SemanticChunking.SpanOne | src/preprocess/chunking.py:180-187 | the first half of one iteration sets the span against the previous chunk's updated text |
| SemanticChunking.AppendOne | src/preprocess/chunking.py:189-197 | the second half appends the overlap with the next chunk |
| SemanticChunking.ChunkText | src/preprocess/chunking.py:45-98 | no chunks for blank text; otherwise the paragraphs of the normalised text packed greedily, made into chunks and given their overlaps |
| SemanticChunking.PackStepFrom | src/preprocess/chunking.py:63-86 | one more loop step leaves the closed groups followed by the packing of the rest unchanged |
| SemanticChunking.PackPrefixInv | src/preprocess/chunking.py:63-86 | the groups the loop has closed followed by the packing of the rest are the packing of all paragraphs |
| SemanticChunking.PackPrefixAll | src/preprocess/chunking.py:63-93 | closing the last group after the loop gives the greedy packing |
| SemanticChunking.EmitGroup | src/preprocess/chunking.py:77-93 | closing a group appends its chunk to the chunks so far |
| SemanticChunking.PackChunks | src/preprocess/chunking.py:57-93 | the packing loop emits the chunks of the greedy packing |
| SemanticChunking.TotalTokensBound | src/preprocess/chunking.py:241 | the summed estimate is at most 0.6 tokens per character of the chunks |
| SemanticChunking.GetChunkStats | src/preprocess/chunking.py:230-250 | all zero for no chunks; otherwise the chunk count and the token and character totals |
| SemanticChunking.ChunkStatsAverages | src/preprocess/chunking.py:246-247 | the averages are the floors of the totals over the chunk count |
| SimpleIndex.PrepareMetadata | src/vector/simple_index.py:170-188 | the metadata carries the content hash, and keywords exactly when the chunk's metadata has them, with the same value |
| SimpleIndex.ToProcess | src/vector/simple_index.py:119-136 | no more chunks pending than given |
| SimpleIndex.MatrixFor | src/vector/simple_index.py:89-105 | no matrix exactly when there are no documents; otherwise one row per doc_id, that document's embedding |
| SimpleIndex.ToProcessShape | src/vector/simple_index.py:119-136 | a chunk is pending exactly when it has a text whose hash was not a key, and it carries that hash |
| SimpleIndex.CountsCover | src/vector/simple_index.py:112-157 | every chunk is counted exactly once: pending, skipped or failed |
| SimpleIndex.ApplyEffect | src/vector/simple_index.py:141-157 | the second loop adds exactly the pending hashes, keeps every other document, and keeps the table keyed by the hash of each text |
| SimpleIndex.UpsertEffect | src/vector/simple_index.py:107-168 | every chunk with a text is stored under its hash; documents present before are kept as they were; nothing else is added; added, skipped and failed add up to the number of chunks |
| SimpleIndex.ToProcessFrom | src/vector/simple_index.py:119-136 | every pending entry comes from an input chunk with that text and hash |
| SimpleIndex.UpsertEmpty | src/vector/simple_index.py:109-110 | an empty input changes nothing and reports zeros |
| SimpleIndex.NothingPending | src/vector/simple_index.py:119-139 | when every text's hash is a key nothing is pending |
| SimpleIndex.UpsertTwice | src/vector/simple_index.py:107-168 | upserting the same chunks again leaves the table as it is, adds nothing and skips every chunk with a text |
| SimpleIndex.RepeatCountedTwice | src/vector/simple_index.py:119-157 | two chunks with one text both count as added while one document is stored |
| SimpleIndex.SimpleVectorIndex.constructor | src/vector/simple_index.py:25-46 | a new index without a saved file has no documents, no doc_ids and no matrix, and is valid |
| SimpleIndex.SimpleVectorIndex.UpdateEmbeddingsMatrix | src/vector/simple_index.py:89-105 | the documents stay; doc_ids becomes the sorted keys and the matrix their embeddings row by row |
| SimpleIndex.SimpleVectorIndex.ListKeys | src/vector/simple_index.py:97 | every key listed once |
| SimpleIndex.SimpleVectorIndex.Rows | src/vector/simple_index.py:100-104 | one row per id, that document's embedding, in order |
| SimpleIndex.SimpleVectorIndex.UpsertChunks | src/vector/simple_index.py:107-168 | the documents and the counts are the upsert's, and doc_ids and the matrix are rebuilt |
| SimpleIndex.SimpleVectorIndex.MatchesFilter | src/vector/simple_index.py:234-239 | true exactly when every filter key is in the metadata with an equal value |
| SimpleIndex.SimpleVectorIndex.DeleteDocuments | src/vector/simple_index.py:273-290 | exactly the given hashes that were present are dropped and counted; other documents are untouched; with nothing deleted the whole state stays as it was |
| SimpleIndex.SimpleVectorIndex.RemovePresent | src/vector/simple_index.py:277-281 | the deletion loop removes the present hashes and counts them |
| SimpleIndex.SimpleVectorIndex.ClearIndex | src/vector/simple_index.py:292-304 | no documents, no doc_ids, no matrix, and True |
| SimpleIndex.DocIdsDetermined | src/vector/simple_index.py:97 | doc_ids is determined by the keys: two sorted listings of the same keys are equal |
| SimpleIndex.SimpleVectorIndex.SortLexKeys | src/vector/simple_index.py:96 | sorting a distinct listing of the document keys gives doc_ids: the keys, each once, in string order |
| SimpleIndex.ImportName | src/vector/simple_index.py:13 | `from M import name` succeeds exactly when M binds the name, and otherwise fails naming it |
| SimpleIndex.LoadSimpleIndex | src/vector/simple_index.py:12-15 | the module loads exactly when EmbeddingService is bound in embedder under the relative or the plain import, and otherwise raises ImportError for EmbeddingService |
| SimpleIndex.LoadAsWrittenFails | src/vector/simple_index.py:12-15 | as written, embedder.py binds no EmbeddingService, so loading simple_index raises ImportError under both import paths |
| SimpleIndex.LoadWithService | src/vector/simple_index.py:12-15 | with an EmbeddingService defined in embedder.py the module loads |
| SimpleStore.IndexOf | simple_vector_store.py:26 | ids.index(): the first position holding the id |
| SimpleStore.Put | simple_vector_store.py:24-35 | one iteration keeps the four lists aligned |
| SimpleStore.PutAll | simple_vector_store.py:23-35 | the loop keeps the four lists aligned |
| SimpleStore.LastIndex | simple_vector_store.py:23-35 | the last batch position below n holding the id |
| SimpleStore.PutShape | simple_vector_store.py:24-35 | one iteration keeps the ids or appends the new one; the id's position holds the new entry and every other position its old one |
| SimpleStore.PutAllShape | simple_vector_store.py:21-35 | the old ids stay in place and the new ones are appended in order of first occurrence; each position holds the entry of the last batch item with its id, or its old entry |
| SimpleStore.AppendedKnown | simple_vector_store.py:24-29 | once every batch id is stored, the batch appends nothing |
| SimpleStore.AppendedCovers | simple_vector_store.py:23-35 | after the upsert the ids are exactly the old ones and the batch's |
| SimpleStore.SecondPass | simple_vector_store.py:21-35 | a second pass of the same batch finds every id and rewrites each position with what it holds |
| SimpleStore.UpsertIdempotent | simple_vector_store.py:21-35 | upserting the same batch twice is upserting it once |
| SimpleStore.VectorStore.constructor | simple_vector_store.py:14-19 | a new store has four empty lists |
| SimpleStore.VectorStore.Upsert | simple_vector_store.py:21-35 | the four lists afterwards are the upsert loop's, and stay aligned |
| SimpleStore.VectorStore.Query | simple_vector_store.py:37-58 | the empty store answers [[]] for all four lists; otherwise one list each of min(n_results, size) entries, the first ones of the ranking with Python's slice semantics for a negative n_results, aligned and with distinct ids |
| StateIo.LoadLastSeen | src/utils/state_io.py:14-24 | a missing or undecodable file gives 0, an object gives its last_seen or 0, and only a JSON value that is not an object raises |
| StateIo.GetStateInfo | src/utils/state_io.py:38-45 | succeeds exactly when loading does, reporting the loaded value, the state path, and whether the file exists |
| StateIo.SaveThenLoad | src/utils/state_io.py:26-36 | loading after saving n gives n back whatever was stored before, even a larger value, and the file then exists |
| StateIo.StateStore.constructor | src/utils/state_io.py:12 | the store holds the given file |
| StateIo.StateStore.Save | src/utils/state_io.py:26-36 | the file is overwritten with the new value, which loading then returns |
| Tasks.IndexOfChar | src/jobs/tasks.py:156 | the first position of the character, or None exactly when it does not occur |
| Tasks.StripTags | src/jobs/tasks.py:156 | the text does not grow |
| Tasks.StripTagsFrom | src/jobs/tasks.py:156 | every kept character comes from the input |
| Tasks.StripTagsNoTag | src/jobs/tasks.py:156 | no tag is left: a kept < is followed directly by > or by no > at all |
| Tasks.CleanHtmlShape | src/jobs/tasks.py:151-164 | no surrounding whitespace, every whitespace a plain space, every character an allowed one, and no < or > |
| Tasks.Process | src/jobs/tasks.py:30-57 | a post yields a document exactly when its cleaned html is non-empty and it has a url; the document has that url, the id md5(url), the cleaned text and source incremental_crawl |
| Tasks.ProcessAll | src/jobs/tasks.py:29-57 | no more documents than posts |
| Tasks.ProcessPosts | src/jobs/tasks.py:29-57 | the preprocessing loop computes the processed documents |
| Tasks.ProcessAllFrom | src/jobs/tasks.py:29-57 | every processed document comes from a post that is not skipped |
| Tasks.ProcessAllKeeps | src/jobs/tasks.py:29-57 | every post that is not skipped yields its document |
| Tasks.Urls | src/jobs/tasks.py:64 | the url of each document, in order |
| Tasks.Dedup | src/jobs/tasks.py:62-70 | no more documents than given |
| Tasks.DedupByUrl | src/jobs/tasks.py:62-70 | the dedup loop over a dict keyed by url computes the deduplicated list |
| Tasks.DedupPositions | src/jobs/tasks.py:62-70 | the kept documents are exactly those first with their url, in increasing order of position |
| Tasks.DedupCovers | src/jobs/tasks.py:62-70 | every url of the input is the url of a kept document |
| Tasks.DedupSpec | src/jobs/tasks.py:62-70 | every url is kept exactly once, with the first document carrying it, in order of appearance |
| Tasks.Step | src/jobs/tasks.py:189-218 | one iteration, with the existence check corrected to the store's ids, keeps the store's lists aligned |
| Tasks.Run | src/jobs/tasks.py:189-218 | the corrected loop keeps the store's lists aligned |
| Tasks.UpsertDocs | src/jobs/tasks.py:166-242 | when the store cannot be loaded the counters stay 0, a store error is reported and the store is unchanged; otherwise the counters and the store are the corrected loop's, with total the number of documents |
| Tasks.RunCounts | src/jobs/tasks.py:189-218 | success plus failed is the total, added plus updated is success, one error per failure, and added is how many ids the store gained |
| Tasks.RunStores | src/jobs/tasks.py:189-218 | stored ids stay, and every document that embeds is stored afterwards |
| Tasks.UpdatedIffExisting | src/jobs/tasks.py:197-212 | an embedded document counts as updated exactly when its id was stored before, as added exactly when it was not, and is stored afterwards |
| Tasks.RunAsWrittenStoresAtMostOne | src/jobs/tasks.py:198 | as written no update is ever counted and at most one document is stored per run, none when the store already holds one; all others count as failed |
| Tasks.SecondDocumentFails | src/jobs/tasks.py:198 | two documents with distinct ids on an empty store: as written the second fails, corrected both are added |
| Tasks.IncrementalPipeline | src/jobs/tasks.py:16-86 | nothing happens when no post survives preprocessing; otherwise the deduplicated documents are upserted and counted |
| Tasks.StepAsWritten | src/jobs/tasks.py:193-215 | one document as written keeps the store's lists aligned: it fails when encoding fails or the store already holds a document, and is otherwise added |
| Tasks.RunAsWritten | src/jobs/tasks.py:189-218 | the loop as written keeps the store's lists aligned |
| Tasks.MissingEncodeDocsFailsAll | src/jobs/tasks.py:193 | as written every document fails on the missing encode_docs, with its id recorded in order, and the store is unchanged, before the check on line 198 is reached (with src/search/embedding.py:13-31) |
| TextUtils.FormatPhoneNumber | LSC_Core_Files/src/generator/textutils.py:241-251 | ten digits give 12 characters with dashes after the third and sixth digit, eleven give 13 with dashes after the third and seventh; any other digit count returns the input unchanged |
| TextUtils.FormatPhoneKeepsDigits | LSC_Core_Files/src/generator/textutils.py:241-251 | a formatted number has the same digits as the input, so formatting it again changes nothing |
| TextUtils.FormatAmount | LSC_Core_Files/src/generator/textutils.py:254-267 | an amount without digits is returned unchanged; one with digits is shown ending in 원 |
| TextUtils.FormatAmountReadsBack | LSC_Core_Files/src/generator/textutils.py:254-267 | the digits of a formatted amount read back as amount // 10000 from 10000 on and as the amount below |
| TextUtils.FormatAmountUnitShown | LSC_Core_Files/src/generator/textutils.py:262-265 | exactly the amounts from 10000 on are shown in 만원 |
| TextUtils.Replacement | LSC_Core_Files/src/generator/textutils.py:119 | a word with an entry in the replacement table gets that entry, any other word "***" |
| TextUtils.FilterForbidden | LSC_Core_Files/src/generator/textutils.py:81-122 | as written: an empty text, a missing list or an empty list all return the text unchanged |
| TextUtils.FilterForbiddenWords | LSC_Core_Files/src/generator/textutils.py:81-122 | the guard and the loop over the given words compute FilterForbidden: each listed word that occurs is replaced everywhere by its replacement, in list order |
| TextUtils.ReplaceSelf | LSC_Core_Files/src/generator/textutils.py:120 | replacing a non-empty word by itself leaves every text unchanged |
| TextUtils.UnchangedWords | LSC_Core_Files/src/generator/textutils.py:117-122 | a list of words each either mapped to itself by the table or absent from the text leaves the text unchanged |
| TextUtils.AbsentWordSkipped | LSC_Core_Files/src/generator/textutils.py:118 | a word that does not occur is skipped even when it has no table entry |
| TextUtils.DefaultListUnused | LSC_Core_Files/src/generator/textutils.py:83-94 | as written, calling without a list does not filter: "무료상담" holds the first default forbidden word and comes back unchanged |
| TextUtils.FilterForbiddenIntended | LSC_Core_Files/src/generator/textutils.py:81-122 | corrected: an empty text or an empty list filters nothing, and a missing list runs the loop over the default list |
| TextUtils.IntendedAgreesWithList | LSC_Core_Files/src/generator/textutils.py:81-122 | with an explicit list the corrected filter gives the same text as the written one |
| TextUtils.DefaultListUsed | LSC_Core_Files/src/generator/textutils.py:86-94 | corrected, a text holding "무료상담" is filtered by the default list to "전문상담" |
| TextUtils.ReplaceWordsAppend | LSC_Core_Files/src/generator/textutils.py:117-120 | running the loop over a + b is running it over a and then over b |
| TextUtils.PiecesHaveNoTerminator | LSC_Core_Files/src/generator/textutils.py:131 | no piece of the split holds '.', '!' or '?' |
| TextUtils.Capitalize | LSC_Core_Files/src/generator/textutils.py:144-145 | the length and every character after the first are kept, and the first is not a lower-case letter |
| TextUtils.NormalizeSentences | LSC_Core_Files/src/generator/textutils.py:125-149 | an empty text is returned as it is; otherwise the result is the normalised non-empty sentences joined by single spaces |
| TextUtils.NormalizedSentenceShape | LSC_Core_Files/src/generator/textutils.py:134-147 | a piece is skipped exactly when blank; otherwise it becomes its stripped text plus '.', with no other terminator, the inner characters kept, starting neither with whitespace nor with a lower-case letter |
| TextUtils.EverySentenceEndsWithDot | LSC_Core_Files/src/generator/textutils.py:131-147 | every sentence normalize_sentences emits ends with '.' and holds no other terminator |
| TextUtils.TextSentencesEndWithDot | LSC_Core_Files/src/generator/textutils.py:125-149 | for any text, every emitted sentence has at least two characters, ends with '.' and holds no other terminator |
| TextUtils.RemoveTags | LSC_Core_Files/src/generator/textutils.py:42 | removing tags never lengthens the text |
| TextUtils.RemoveTagsPlain | LSC_Core_Files/src/generator/textutils.py:42 | a text without '<' has no tag to remove |
| TextUtils.RemoveTagsFrom | LSC_Core_Files/src/generator/textutils.py:42 | removing tags only deletes: every character of the result is a character of the text |
| TextUtils.CleanTextIsClean | LSC_Core_Files/src/generator/textutils.py:36-53 | clean_text returns only word characters, Hangul, `.,!?` and single spaces, with no space at either end |
| TextUtils.CleanTextIdempotent | LSC_Core_Files/src/generator/textutils.py:36-53 | cleaning an already clean text returns it unchanged |
| TextUtils.SyllableRun | LSC_Core_Files/src/generator/textutils.py:22 | the length of the run of Hangul syllables a string starts with, every character of it a syllable and the next one not |
| TextUtils.HangulWordsAreWords | LSC_Core_Files/src/generator/textutils.py:22 | every match of `[가-힣]{2,}` has at least two characters, all Hangul syllables |
| TextUtils.HangulWordsJoin | LSC_Core_Files/src/generator/textutils.py:22 | Hangul words joined by spaces are found again, in order: findall inverts the join |
| TextUtils.CountedWordsFrom | LSC_Core_Files/src/generator/textutils.py:26-28 | the words counted are words of the text that are not stopwords and have at least two characters |
| TextUtils.CountedWordCount | LSC_Core_Files/src/generator/textutils.py:26-28 | a word that counts is counted once per occurrence among the found words |
| TextUtils.FrequenciesCount | LSC_Core_Files/src/generator/textutils.py:25-28 | word_freq holds a word exactly when it was seen, mapped to the number of times it was seen |
| TextUtils.FrequenciesSnoc | LSC_Core_Files/src/generator/textutils.py:28 | one more occurrence raises that word's count by one and leaves every other entry unchanged |
| TextUtils.InsertDesc | LSC_Core_Files/src/generator/textutils.py:31 | inserting a word adds exactly that word: the multiset grows by it |
| TextUtils.SortDesc | LSC_Core_Files/src/generator/textutils.py:31 | sorting returns a permutation of the words |
| TextUtils.SortDescSorted | LSC_Core_Files/src/generator/textutils.py:31 | the sorted words come in non-increasing count order |
| TextUtils.SortDescStable | LSC_Core_Files/src/generator/textutils.py:31 | the sort is stable: words of equal count keep their input order |
| TextUtils.ExtractKeywords | LSC_Core_Files/src/generator/textutils.py:12-33 | findall, the counting loop, the stable sort by count and the slice give Keywords: the counted words once each, most frequent first, cut to max_keywords |
| TextUtils.CountedStep | LSC_Core_Files/src/generator/textutils.py:26-27 | one more word extends the counted words by that word exactly when it is counted |
| TextUtils.CountStep | LSC_Core_Files/src/generator/textutils.py:28 | one more counted word raises its count by one and joins the key order exactly when it is new |
| TextUtils.KeywordsPrefix | LSC_Core_Files/src/generator/textutils.py:31-33 | the keywords are the first max_keywords (clamped) of the sorted order, which holds each counted word exactly once, in non-increasing count order |
| TextUtils.KeywordsMeaning | LSC_Core_Files/src/generator/textutils.py:12-33 | the keywords are distinct Hangul words of the text, none a stopword, at most max_keywords of them |
| TextUtils.KeywordsByFrequency | LSC_Core_Files/src/generator/textutils.py:31-33 | the keywords come in non-increasing order of frequency |
| TextUtils.KeywordCount | LSC_Core_Files/src/generator/textutils.py:25-28 | a counted word's count is its number of occurrences among the found words |
| TextUtils.KeywordsAreTheMostFrequent | LSC_Core_Files/src/generator/textutils.py:12-33 | no counted word left out of the keywords is more frequent than any keyword |
| TextUtils.KeywordsStable | LSC_Core_Files/src/generator/textutils.py:31 | the words of any one count keep their first-seen order through the sort |
| UtilsText.CleanText | src/utils/utils_text.py:11-25 | the cleaned text is no longer than the input |
| UtilsText.CleanTextChars | src/utils/utils_text.py:17-23 | only allowed characters are kept, and the only whitespace left is a plain space |
| UtilsText.Window | src/utils/utils_text.py:50 | text[i:i+max_tokens], cut at the end of the text |
| UtilsText.DropBlank | src/utils/utils_text.py:51-52 | the windows that are not whitespace-only, each one of the windows |
| UtilsText.KeepWindows | src/utils/utils_text.py:49-56 | the loop keeps the non-blank windows in order |
| UtilsText.SplitChunks | src/utils/utils_text.py:27-58 | the loop with its early break computes split_chunks, including the range() error of a zero step |
| UtilsText.WindowAt | src/utils/utils_text.py:49-50 | window k begins at k * step inside the text and ends at min(len, k * step + max_tokens) |
| UtilsText.WindowFull | src/utils/utils_text.py:54-56 | every window but the last ends before the end of the text |
| UtilsText.WindowsLast | src/utils/utils_text.py:49-56 | there is at least one window and the last one reaches the end |
| UtilsText.WindowsCover | src/utils/utils_text.py:49-56 | every position lies in some window |
| UtilsText.AllWindowsBlank | src/utils/utils_text.py:51-58 | when every window is whitespace-only, so is the text |
| UtilsText.SplitChunksWindows | src/utils/utils_text.py:42-56 | for 0 <= overlap < max_tokens on a cleaned text longer than max_tokens: window k is text[k*step : k*step+max_tokens], none longer than max_tokens, all but the last full, consecutive windows sharing exactly overlap characters, the last reaching the end |
| UtilsText.SplitChunksCover | src/utils/utils_text.py:42-56 | every position of the cleaned text lies in some window |
| UtilsText.SplitChunksResult | src/utils/utils_text.py:42-58 | the non-blank windows in order, each at most max_tokens long and non-blank; [cleaned text] only when that text is whitespace |
| UtilsText.ContentHash | src/utils/utils_text.py:60-65 | "" exactly for empty content, otherwise a 64-character digest |
| UtilsText.ContentHashDetermined | src/utils/utils_text.py:60-65 | equal contents hash equally, so differing hashes mean differing contents |
| UtilsText.NormalizeCategoryName | src/utils/utils_text.py:81-99 | a non-empty given name is returned; otherwise the mapped name of a listed category, or 카테고리_<no>; never empty |
| UtilsText.DefaultNamesDistinct | src/utils/utils_text.py:99 | distinct unlisted category numbers get distinct default names |
| UtilsText.FirstLongLine | src/utils/utils_text.py:73-76 | the first line whose stripped form is longer than 10 characters, or None when there is none |
| UtilsText.ExtractTitleFromContent | src/utils/utils_text.py:67-79 | the scan of the lines computes the title |
| UtilsText.FirstLongLineIs | src/utils/utils_text.py:73-76 | a long line preceded only by short ones is the first long line |
| UtilsText.ExtractTitleShape | src/utils/utils_text.py:67-79 | "제목 없음" for empty content; otherwise the first long stripped line cut to max_length, or the content itself or its max_length prefix with "..." |
| Vectorize.Loaded | src/modules/vectorize_to_chroma.py:27-36 | no more documents than lines, each parsed from one of them |
| Vectorize.LoadNewDocs | src/modules/vectorize_to_chroma.py:22-38 | FileNotFoundError for a missing file; otherwise the loop loads the lines that parse, in order |
| Vectorize.LoadedAppend | src/modules/vectorize_to_chroma.py:29-35 | loading keeps the file's order: two stretches of lines load as their two results one after the other |
| Vectorize.LoadedAllParsed | src/modules/vectorize_to_chroma.py:29-35 | a file whose every line parses loads every line, in order |
| Vectorize.DocChunks | src/modules/vectorize_to_chroma.py:57 | split_chunks(content, 500, 100) always gives at least one chunk |
| Vectorize.SplitChunksOk | src/modules/vectorize_to_chroma.py:57 | split_chunks with 500 and 100 never raises and gives at least one chunk |
| Vectorize.ChunkMetaFields | src/modules/vectorize_to_chroma.py:63-78 | each chunk's metadata holds its logno, chunk_idx, chunk_count, run_id, source_file, post_type blog_post and category_no |
| Vectorize.PrepareSpec | src/modules/vectorize_to_chroma.py:40-86 | the ids, documents and metadatas stay the same length |
| Vectorize.PrepareChunks | src/modules/vectorize_to_chroma.py:40-86 | the nested loops compute the preparation, including the first int() that raises |
| Vectorize.Entries | src/modules/vectorize_to_chroma.py:59-82 | one id f"{logno}:{idx:03d}", the chunk itself and its metadata per chunk, in order |
| Vectorize.ErrorStays | src/modules/vectorize_to_chroma.py:51-54 | once a post raises, preparing the list raises that error whatever follows |
| Vectorize.DocPreparedShape | src/modules/vectorize_to_chroma.py:51-82 | a post that converts gives at least one entry, each with a well-formed id and provenance, the post's logno, and its own chunk_idx and chunk_count |
| Vectorize.PrepareShape | src/modules/vectorize_to_chroma.py:40-86 | three equally long lists, at least one entry per post, each entry with its provenance and an id of its own logno and chunk index |
| Vectorize.LognosOther | src/modules/vectorize_to_chroma.py:52 | a logno no post has is not among the posts' lognos |
| Vectorize.PrepareIdsDistinct | src/modules/vectorize_to_chroma.py:40-86 | posts with distinct lognos get distinct chunk ids |
| Vectorize.VerifyReport | src/modules/vectorize_to_chroma.py:170-199 | total_vectors is the collection's size; run_<id>_vectors and file_vectors are present exactly for a truthy run_id and source_file, with the matching counts capped by the get limit; category_6_vectors is always present |
| Vectorize.CountsAfterFreshRun | src/modules/vectorize_to_chroma.py:138-199 | after a fresh collection takes the entries of posts with distinct lognos and nothing is lost, the run count and the file count both equal the number of chunks |
| Vectorize.FreshStoreMetas | src/modules/vectorize_to_chroma.py:138-166 | a fresh collection that takes distinct ids lists them in order, each with its own metadata |

## Left out

- SQLite, ChromaDB, pickle files, JSONL files and the file system are not storage engines here. Each is a `map` or `seq` field, or a value passed in and returned.
- Vector search and nearest-neighbour ranking are not modelled. A query result is an input to the code that consumes it, such as _merge_results and build_context.
- SHA-256 and MD5 digests are not computed. They are uninterpreted functions from `Hashes`, and only their determinism is used.
- The embedding model is a function parameter. Its floating-point vectors are not interpreted.
- Regular expressions are not re-specified. Each `re` call a core function makes is a parameter or an abstract function. This covers utils_text's clean_text, the paragraph and sentence splits of the chunkers, normalize_html, extract_law_keywords, the PII patterns and the listing-page lognos.
- Strings.IsWordChar: `\w` is approximated by ASCII letters, digits, `_` and Hangul syllables. Python also counts other Unicode letters and digits, such as "é", as word characters. The same approximation holds in Plag.Clean, TextUtils.CleanChar, EmbedChunked.KeptHere and EmbedChunked.SafeId, so those remove characters that Python keeps.
- SemanticChunking.IsSpecialChar / SpecialCount / EstimateTokens: the class [^\w\s가-힣] is modelled as not whitespace, not a word character and not Hangul, so non-ASCII symbols such as "…" and "·" are counted. Under the `\w` approximation above, a non-ASCII letter or digit such as "é" is counted as special too, which Python does not do, so the estimate for such text is higher than the source's.
- TextUtils.Digits: `\D` is modelled for ASCII digits only. Python also keeps other Unicode decimal digits, such as full-width "０", so it formats a full-width phone number that the model leaves unchanged.
- Strings.ParseInt: only ASCII digits with an optional sign and surrounding whitespace are accepted. The forms int() also accepts, such as "8_000" and "٣", are not modelled.
- ChunkEntries.DigitsOrZero: isdigit() is modelled for ASCII digits only.
- TextUtils.Capitalize: only ASCII letters are upper-cased. Python gives "Élan" for "élan"; the model leaves it unchanged. Unicode case mapping is outside Dafny's strings.
- Strings.Lower: only ASCII letters are lower-cased, unlike str.lower().
- Exception messages and log output are not modelled. An exception is an `Err` value, a `Result` case or a flag.
- Clocks are integer or real parameters. This covers time.time(), datetime.now() and the circuit breaker's elapsed time. Random delays, uuid job ids and run ids are parameters too.
- HTTP, Selenium and BeautifulSoup are outside the model. Fetch results are inputs: listing pages, post details and category pages. fetch_post_detail and the crawlers' event callbacks are parameters.
- The crawler's sleep calls, `_random_delay`, the `time.sleep` pauses of the upserters and user-agent rotation have no effect on the model's state and are left out. The HTTP session's Retry adapter (src/crawler.py:34-35) is left out too: a fetch is one parameter call whose result already includes its retries. safe_encode's per-sample retries are modelled, in EmbedChunked.SampleVec.
- storage's get_crawl_stats, get_recent_posts and cleanup_old_posts are left out. They are reporting and clean-up queries that no core path calls.
- merge_to_master's get_database_stats (a reporting query) and its main() driver are left out.
- tasks' fetch_new_posts and cleanup_old_data are left out: the first reads the crawl output, and the second deletes old files. Tasks.IncrementalPipeline takes the fetched posts as a parameter.
- Python's str() of metadata values and the equality of 1, 1.0 and True as dict keys are not modelled. Metadata values are typed.
- Chroma raises DuplicateIDError when one call repeats an id. The model applies repeated ids in order instead.
- The fallbacks that recreate a Chroma collection, and get_or_create, are not modelled. Neither is the ImportError path when chromadb is unavailable.
- The GPU batch size and device selection are left out. They do not change which records are written.
- The JSONL main() drivers of the embed_to_chroma scripts are not modelled, and neither is their nDCG and recall evaluation. Their helpers are.
- The helpers of the production and enhanced copies have the same logic as the final script's: detect_language, dedup_chunks, the semantic chunker, to_embed_text, create_batches and incremental_upsert. They are modelled once, in `EmbedFinal`, `EmbedChunked` and `EmbedIncremental`.
- EmbedIncremental.IncrementalUpsert: the catch-all exception handler is not modelled. A failing collection call is not part of the collection model.
- ChromaIndex.UpsertChunks and ChromaIndex.ChromaIndexer.UpsertChunksInto: Chroma calls never fail in the model. Two failure paths are not modelled. A get that raises (src/vector/chroma_index.py:79-83) leaves existing_ids empty, so the whole batch is upserted. A batch upsert that raises is re-raised (:124-126) after the earlier batches were committed.
- ChromaIndex.DeleteByFilter: the handler that returns 0 when get or delete raises (src/vector/chroma_index.py:228-230) is not modelled.
- ChromaIndex.RecordFor: every chunk's created_at is the one `now` passed to the call. The source reads datetime.now() once per chunk.
- NaverCrawler.Crawler.CrawlIncremental and CrawlerCategory.WalkPages: a list-page fetch that raises is caught in the source and gives an empty list. The listing parameter returns that empty list, but the exception itself is not modelled.
- CrawlerIncremental.RunIncrementalCrawl: a raising list fetch is modelled (the ListFetchRaised failure, with no checkpoint saved); the exception's type and message, and the driver.quit() of the finally block, are not.
- MergeToMaster.LineOutcome: three kinds of input are not represented. A JSON null for content_text hashes as "" in calculate_content_hash and is stored as NULL. Field values of other JSON types are not represented. A logno outside SQLite's 64-bit INTEGER range raises an uncaught OverflowError in the source.
- EmbedEnhanced.ScoreOf: a result without a score counts as 0.0. An explicit null score, on which the source's sort raises TypeError, is not represented.
- PostJson.PyInt: the JSON values have no float or boolean, so `int(12.0)` and `int(True)` on such a logno are not represented; only integers, strings, null and a missing key are.
- NaverCrawler.Crawler.CrawlIncremental: lognos are integers in the model. A listed logno that int() refuses raises ValueError in the source, and the model does not represent that.
- CrawlerCategory.ListingPage: the listing is a finite sequence of pages, so every page past its end is empty. A site that lists posts on unboundedly many pages is not modelled. With effective_max_pages 0 the walk then ends by the empty-page rule.
- QualityGuard.GenerateWithQualityGuard: search_with_rerank and build_hyean_prompt (src/llm/quality_guard.py:270-276) run before the loop and outside any try. An exception from them leaves generate_with_quality_guard, and the model, which starts at the loop, does not represent it.
- Embedder.Encode, SimpleIndex.SimpleVectorIndex.UpsertChunks and GpuVectorizer.EmbedCall: a batched encode call is modelled as the model applied to each text on its own. A batch call that fails as a whole, and vectors that depend on the batch, are not modelled.
- SimpleIndex.SimpleVectorIndex.UpsertChunks: the handler of the second loop (src/vector/simple_index.py:146-156) is not modelled, because building a document entry has no failing step in the model. Metadata values are strings, as the return type of _prepare_metadata declares. A keywords value of another type is not modelled.
- production_rag_generator's _evaluate_quality is a parameter. It decides whether a spillover search runs and scores floating-point distances. get_style_context is left out because it only queries a collection.
- Averages, percentages and distances are Dafny `real`s. Floating-point rounding is not modelled.
- SafetyGuards.MetricsSummary: the contract states the sample count and the window. It does not state the four averages, because real division over a sum did not verify within the resource limit.
- JobMetrics.JobMetricsCollector.GetDashboardMetrics: recent_success_rate is not modelled. It is a floating-point percentage of success_count over total_count summed across operation_stats.
- JobMetrics.MinOf and JobMetrics.MaxOf state bounds only, not that the bound is attained.
- JobMetrics.JobMetricsCollector.RecordOperation states the new tables but neither requires nor ensures Valid. That the tables keep Valid is the separate lemma JobMetrics.RecordKeepsOk.
- The job registry's statistics are not modelled: JobRegistry has no get_stats method, and the dashboard finding below rests on that.
- defaultdict's creation of zero entries on read is not modelled. A missing key reads as 0 through `Count`.
- SimpleStore.VectorStore.Upsert and SimpleStore.WellFormed: the upsert requires the documents, embeddings and metadatas arguments to be at least as long as ids (Batch.WellFormed; longer ones have their tail ignored), and the store's own four lists to be of equal length with distinct ids (Lists.Valid). Python raises IndexError part-way through arguments shorter than ids, and the model does not follow that path.
- EmbedChunked.SafeEncode requires a non-empty batch, or an encoder that accepts the empty one. With an empty batch that always fails, the source splits `[]` into `[]` and `[]` forever.
- The SystemMonitor thread, psutil and the CircuitBreaker lock are left out. One sequential caller is modelled.
- WarmupManager, SegmentManager and LoggingGuard of production_safety_guards are outside the modelled core.
- SimpleIndex.SimpleVectorIndex.UpsertChunks: the embedding service is a parameter, and the model assumes the module loads, which needs an EmbeddingService in embedder (see Findings).
- Middleware.OperationMetrics.Dispatch: the model assumes the module loads, which needs an `import threading` (see Findings), and models the rate-limiter and counter logic behind it.
- FastAPI's async request plumbing is left out. call_next is a parameter that either returns a response or raises.
- LLM providers' generate is left out. Only availability, names and whether get_model_info raises matter to ProviderManager.
- Providers.ProviderManager.constructor: the Ollama provider's constructor has no failing step, so the branch where the Ollama fallback fails too (src/llm/provider_manager.py:50-51) cannot occur and is not modelled.
- validate_with_llm and the refinement prompt of quality_guard are left out. The LLM's answer for each attempt is a parameter of GenerateWithQualityGuard.
- TextUtils: mask_pii, extract_entities and validate_content_quality are not modelled. They are regular-expression substitutions and reports outside the modelled textutils functions.
- Security: the PII types of the detector's pattern table form a set. mask_pii's only option, mask_char, is modelled.
- Plag.Round4: n is a `nat`. round(x, 4) is modelled on the exact share, in ten-thousandths. Python rounds the binary double nearest the share, so at an exact decimal tie the result depends on which side of the tie the double falls. The model takes that side as the parameter tieUp and does not compute the double. Away from a tie the result is the nearest count, whatever tieUp says (Plag.Round4NoTie).
- Config: plain string settings are copied as given.
- Schemas: blog_url's HttpUrl validation is not modelled. temperature is a real, not a float.
- Schemas: auto_upload is modelled as a bool, not Optional[bool], so an explicit null for it is not represented.
- Config: is_development and is_production are not modelled. They are one string comparison each.
- Config: the string branch of get_cors_origins is modelled, but it is unreachable in the source, because the field is declared as a list.
- Config.ValidateSettings checks its rules in one loop over a rule table, in the source's order. It produces the same error list.
- Config: `llm_provider not in ["gemini", "ollama"]` is modelled as two inequalities.
- Schemas: pydantic v1 runs field validators in declaration order; the model assumes that order.
- Schemas.NewGenerateRequest: the provider field and the validation of its ProviderType enum value are not modelled.
- The web UI, API routes, scheduler, SSE streaming, logging setup, scripts and tests are outside the modelled core.
- GpuVectorizer.UnknownLognosCollide shows that two posts without a logno both get ids `unknown:000`, `unknown:001`, …. The later post overwrites the earlier one in the collection. Nothing in the source says whether that was intended, so no corrected version is modelled.

## Findings

| source | as written | input that shows it | evidently intended | confidence | as-written member | corrected member |
|---|---|---|---|---|---|---|
| src/ingest/embed_to_chroma_chunked.py:82-109 | safe_encode's fallback pushes the left half, then the right half, onto a stack and pops the right half first. The vectors come out in reverse order | a failing batch `[a, b]` whose single samples encode gives `[vb, va]` | one vector per text, in the order of the texts | not executed | EmbedChunked.FallbackAsWrittenReverses and EmbedChunked.SafeEncodeAsWritten | EmbedChunked.Fallback and EmbedChunked.SafeEncode |
| src/vector/embedder.py:132-184 | batch_get_or_compute appends the cache hits first and the computed vectors after them. It caches each new vector under the text at the miss's position in the full list, not the missed text | texts `[x, y]` with y cached and x not give `[v(y), v(x)]` | one vector per text, in order, each cached under its own text | not executed | Embedder.BatchAsWrittenReorders and Embedder.BatchAsWrittenMiscaches | Embedder.EmbeddingCache.BatchGetOrCompute |
| src/vector/embedder.py:132-184 | in some mixes of hits and misses the reconstruction indexes past the end of a list and raises IndexError. An empty list of texts divides by zero in the hit-rate log | the inputs of Embedder.BatchAsWrittenIndexError, and `[]` | no exception, and `[]` for `[]` | not executed | Embedder.BatchAsWrittenIndexError and Embedder.BatchAsWrittenEmpty | Embedder.EmbeddingCache.BatchGetOrCompute |
| monitoring/job_metrics.py:96-122 | get_recent_jobs reads `job.created_at` (line 105). JobState has no such field, so the AttributeError is caught and the result is always `[]` | one registered job and limit 20 give `[]` | the registered jobs, newest first, at most limit of them | not executed | JobMetrics.JobMetricsCollector.GetRecentJobsAsWritten | JobMetrics.JobMetricsCollector.GetRecentJobs and JobMetrics.RecentJobsNotEmpty |
| monitoring/job_metrics.py:124-165 | get_dashboard_metrics calls `JOBS.get_stats()` (line 128), which JobRegistry does not define, so the result is always `{}` | any registry state | the dashboard dictionary built on lines 130-161 | not executed | JobMetrics.JobMetricsCollector.GetDashboardMetricsAsWritten | JobMetrics.JobMetricsCollector.GetDashboardMetrics |
| src/modules/production_rag_generator.py:231-266 | when no spillover search runs, spillover is `{"documents": [], "metadatas": []}`, and _merge_results takes `[][0]`, which raises IndexError | any query for which _evaluate_quality says no spillover is needed | the main results alone, with no spillover entries | not executed | RagGenerator.RetrieveAsWrittenRaises | RagGenerator.RetrieveWithoutSpillover and RagGenerator.RetrieveWithSpillover |
| src/jobs/tasks.py:198 | upsert_docs checks `d["id"]` for each `d` in `store.documents`, a list of strings. Once one document is stored, every later upsert raises TypeError and counts as failed. With the store of simple_vector_store.py the encode_docs bug below pre-empts this one | two documents with different ids: the second fails | each document is added or updated, and updated exactly when its id was stored | not executed | Tasks.RunAsWrittenStoresAtMostOne and Tasks.SecondDocumentFails | Tasks.UpdatedIffExisting and Tasks.RunCounts |
| LSC_Core_Files/src/generator/textutils.py:81-94 | filter_forbidden_words returns early when forbidden_words is None, so the default list of forbidden words is never used | text "무료상담" with forbidden_words None is returned unchanged | None selects the default list | not executed | TextUtils.FilterForbidden and TextUtils.DefaultListUnused | TextUtils.FilterForbiddenIntended and TextUtils.DefaultListUsed |
| src/jobs/tasks.py:193 | upsert_docs calls `store.embedder.encode_docs`, but E5Embedder (src/search/embedding.py:13-31) defines only encode_query, encode_passage and encode. Every document raises AttributeError and counts as failed, before the line 198 check runs | any non-empty list of documents: all fail, nothing is stored | each document embedded as a passage and then upserted | not executed | Tasks.MissingEncodeDocsFailsAll | Tasks.UpsertDocs and Tasks.RunCounts |
| api/core/middleware.py:24 | the class body of RequestLoggingMiddleware calls `threading.Lock()`, but lines 6-16 never import threading, so loading the module raises NameError | importing api/core/middleware | the module loads, with one lock shared by the class | not executed | Middleware.LoadAsWrittenFails | Middleware.LoadWithImport and Middleware.OperationMetrics.Dispatch |
| src/vector/simple_index.py:12-15 | simple_index imports EmbeddingService from embedder under both import paths, but src/vector/embedder.py defines only EmbeddingCache (line 20) and embedding_cache (line 238), so the ImportError of the fallback import escapes and the module cannot be loaded | importing src/vector/simple_index | embedder provides EmbeddingService, and the index module loads | not executed | SimpleIndex.LoadAsWrittenFails | SimpleIndex.LoadWithService and SimpleIndex.SimpleVectorIndex.UpsertChunks |
