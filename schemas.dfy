/**
 * api/schemas.py: the field validators of the crawl, index, search, generate and upload requests.
 * A request is built from its raw field values: each field is checked against its declared bounds
 * first and then by its validator, and every field that fails is reported, in declaration order.
 */
module Schemas {
  import opened Wrappers
  import opened Strings

  /** Why one field was refused. */
  datatype Reason = Blank | Negative | OutOfRange | TooShort | TooLong | TooManyItems

  datatype FieldError = FieldError(field: string, reason: Reason)

  /** validate_blog_id: an absent id stays absent; a blank one is refused; otherwise it is stripped. */
  function ValidateBlogId(v: Option<string>): (r: Result<Option<string>, Reason>)
    ensures v.None? ==> r == Ok(None)
    ensures v.Some? ==> (r.Err? <==> IsBlank(v.value))
    ensures r.Ok? && v.Some? ==> r.value == Some(Strip(v.value)) && r.value.value != ""
  {
    match v
    case None => Ok(v)
    case Some(s) =>
      StripShape(s);
      if |Strip(s)| == 0 then Err(Blank) else if s != "" then Ok(Some(Strip(s))) else Ok(v)
  }

  /** validate_category_no: an absent number is fine, a negative one is refused. */
  function ValidateCategoryNo(v: Option<int>): (r: Result<Option<int>, Reason>)
    ensures r.Err? <==> v.Some? && v.value < 0
    ensures r.Ok? ==> r.value == v
  {
    if v.Some? && v.value < 0 then Err(Negative) else Ok(v)
  }

  /** validate_max_pages: an absent limit is fine, one outside 1..50 is refused. */
  function ValidateMaxPages(v: Option<int>): (r: Result<Option<int>, Reason>)
    ensures r.Err? <==> v.Some? && !(1 <= v.value <= 50)
    ensures r.Ok? ==> r.value == v
  {
    if v.Some? && (v.value < 1 || v.value > 50) then Err(OutOfRange) else Ok(v)
  }

  /** The run_id, query and title validators: a blank value is refused, any other is stripped. */
  function ValidateNonBlank(v: string): (r: Result<string, Reason>)
    ensures r.Err? <==> IsBlank(v)
    ensures r.Err? ==> r.error == Blank
  {
    StripShape(v);
    if v == "" || |Strip(v)| == 0 then Err(Blank) else Ok(Strip(v))
  }

  /** What a non-blank field stores: the stripped value, neither empty nor with whitespace at either end. */
  lemma NonBlankStripped(v: string)
    ensures ValidateNonBlank(v).Ok? ==>
      var t := ValidateNonBlank(v).value;
      && t == Strip(v) && t != "" && !IsSpace(t[0]) && !IsSpace(t[|t| - 1])
      && ValidateNonBlank(t) == Ok(t)
  {
    StripShape(v);
    if !IsBlank(v) {
      StripIdempotent(v);
      StripShape(Strip(v));
    }
  }

  /** The least content length, counted after stripping. */
  const MinContentLength := 100

  /** validate_content: a content shorter than 100 characters once stripped is refused; otherwise it is stripped. */
  function ValidateContent(v: string): (r: Result<string, Reason>)
    ensures r.Err? <==> |Strip(v)| < MinContentLength
    ensures r.Ok? ==> r.value == Strip(v)
  {
    if v == "" || |Strip(v)| < MinContentLength then Err(TooShort) else Ok(Strip(v))
  }

  /** Validating stored content again changes nothing. */
  lemma ContentIdempotent(v: string)
    ensures ValidateContent(v).Ok? ==> ValidateContent(ValidateContent(v).value) == ValidateContent(v)
  {
    StripIdempotent(v);
  }

  /** The most characters a tag keeps. */
  const MaxTagLength := 20

  /** One tag as validate_tags keeps it: stripped and cut to 20 characters; a blank tag is dropped. */
  function CleanTag(tag: string): Option<string>
  {
    if tag != "" && |Strip(tag)| > 0 then Some(Slice(Strip(tag), 0, MaxTagLength)) else None
  }

  /** The tags validate_tags keeps, each cleaned, in their order. */
  function CleanTags(tags: seq<string>): seq<string>
    decreases |tags|
  {
    if tags == [] then []
    else
      var t := CleanTag(tags[|tags| - 1]);
      CleanTags(tags[..|tags| - 1]) + (if t.Some? then [t.value] else [])
  }

  /** validate_tags: no list means no tags; otherwise the loop over the tags keeps the cleaned non-blank ones. */
  method ValidateTags(v: Option<seq<string>>) returns (r: seq<string>)
    ensures v.None? ==> r == []
    ensures v.Some? ==> r == CleanTags(v.value)
  {
    if v.None? {
      return [];
    }
    var tags := v.value;
    var validatedTags: seq<string> := [];
    for i := 0 to |tags|
      invariant validatedTags == CleanTags(tags[..i])
    {
      assert tags[..i + 1][..i] == tags[..i];
      var tag := tags[i];
      if tag != "" && |Strip(tag)| > 0 {
        validatedTags := validatedTags + [Slice(Strip(tag), 0, MaxTagLength)];
      }
    }
    assert tags[..|tags|] == tags;
    r := validatedTags;
  }

  /** Every kept tag is a non-empty prefix of a stripped input tag, at most 20 characters long. */
  lemma {:induction false} CleanTagsShape(tags: seq<string>)
    ensures |CleanTags(tags)| <= |tags|
    ensures forall k :: 0 <= k < |CleanTags(tags)| ==>
      && 0 < |CleanTags(tags)[k]| <= MaxTagLength
      && !IsSpace(CleanTags(tags)[k][0])
      && exists j :: 0 <= j < |tags| && !IsBlank(tags[j]) && IsPrefix(CleanTags(tags)[k], Strip(tags[j]))
    decreases |tags|
  {
    if tags != [] {
      var init := tags[..|tags| - 1];
      var last := tags[|tags| - 1];
      CleanTagsShape(init);
      var r := CleanTags(tags);
      forall k | 0 <= k < |r|
        ensures 0 < |r[k]| <= MaxTagLength && !IsSpace(r[k][0])
        ensures exists j :: 0 <= j < |tags| && !IsBlank(tags[j]) && IsPrefix(r[k], Strip(tags[j]))
      {
        if k < |CleanTags(init)| {
          assert r[k] == CleanTags(init)[k];
          var j :| 0 <= j < |init| && !IsBlank(init[j]) && IsPrefix(r[k], Strip(init[j]));
          assert tags[j] == init[j];
        } else {
          StripShape(last);
          assert IsPrefix(r[k], Strip(last));
          assert tags[|tags| - 1] == last;
        }
      }
    }
  }

  /** p is a prefix of s. */
  predicate IsPrefix(p: string, s: string)
  {
    |p| <= |s| && s[..|p|] == p
  }

  /** Tags are cleaned one by one: the cleaned tags of two lists are the two lists' cleaned tags, in order. */
  lemma {:induction false} CleanTagsAppend(a: seq<string>, b: seq<string>)
    ensures CleanTags(a + b) == CleanTags(a) + CleanTags(b)
    decreases |b|
  {
    if b == [] {
      assert a + b == a;
    } else {
      assert (a + b)[..|a + b| - 1] == a + b[..|b| - 1];
      CleanTagsAppend(a, b[..|b| - 1]);
    }
  }

  /** A list of tags that are already stripped, non-empty and short comes back unchanged. */
  lemma {:induction false} CleanTagsKeepsGoodTags(tags: seq<string>)
    requires forall k :: 0 <= k < |tags| ==> tags[k] != "" && Strip(tags[k]) == tags[k] && |tags[k]| <= MaxTagLength
    ensures CleanTags(tags) == tags
    decreases |tags|
  {
    if tags != [] {
      var init := tags[..|tags| - 1];
      forall k | 0 <= k < |init| ensures init[k] != "" && Strip(init[k]) == init[k] && |init[k]| <= MaxTagLength {
        assert init[k] == tags[k];
      }
      CleanTagsKeepsGoodTags(init);
      var last := tags[|tags| - 1];
      assert last != "" && Strip(last) == last && |last| <= MaxTagLength;
      assert Slice(last, 0, MaxTagLength) == last[0..|last|];
      assert last[0..|last|] == last;
      assert CleanTag(last) == Some(last);
      assert CleanTags(tags) == CleanTags(init) + [last];
      assert init + [last] == tags;
    }
  }

  /** A tag without whitespace is kept as its first 20 characters. */
  lemma TagCut(tag: string)
    requires tag != "" && forall i :: 0 <= i < |tag| ==> !IsSpace(tag[i])
    ensures CleanTags([tag]) == [if |tag| <= MaxTagLength then tag else tag[..MaxTagLength]]
  {
    assert LeadingSpaces(tag) == 0;
    assert tag[0..] == tag;
    assert TrailingSpaces(tag) == 0;
    assert Strip(tag) == tag;
    if |tag| <= MaxTagLength {
      assert tag[0..|tag|] == tag;
    }
    assert [tag][..0] == [];
  }

  /** A tag of 25 letters is cut to its first 20. */
  lemma LongTagCut()
    ensures CleanTags(["abcdefghijklmnopqrstuvwxy"]) == ["abcdefghijklmnopqrst"]
  {
    var tag := "abcdefghijklmnopqrstuvwxy";
    TagCut(tag);
    assert tag[..MaxTagLength] == "abcdefghijklmnopqrst";
  }

  /** The bound check of a declared length: too short or too long, counted on the raw value. */
  function LengthCheck(v: string, min: nat, max: int): Option<Reason>
  {
    if |v| < min then Some(TooShort) else if max >= 0 && |v| > max then Some(TooLong) else None
  }

  /** A field's outcome as the field's error, if any. */
  function ErrorOf<T>(field: string, r: Result<T, Reason>): seq<FieldError>
  {
    if r.Err? then [FieldError(field, r.error)] else []
  }

  /** A string field with declared bounds and then its validator. */
  function Checked(v: string, min: nat, max: int, validate: string -> Result<string, Reason>): Result<string, Reason>
  {
    var bound := LengthCheck(v, min, max);
    if bound.Some? then Err(bound.value) else validate(v)
  }

  /** An optional number with declared bounds; an absent one is not checked. */
  function Bounded(v: Option<int>, lo: int, hi: int): (r: Result<Option<int>, Reason>)
    ensures r.Err? <==> v.Some? && !(lo <= v.value <= hi)
    ensures r.Ok? ==> r.value == v
  {
    if v.Some? && !(lo <= v.value <= hi) then Err(OutOfRange) else Ok(v)
  }

  datatype CrawlRequest = CrawlRequest(blogId: Option<string>, categoryNo: Option<int>, maxPages: Option<int>)

  /** CrawlRequest: blog_id, category_no and max_pages through their validators (blog_url is not modelled). */
  function NewCrawlRequest(blogId: Option<string>, categoryNo: Option<int>, maxPages: Option<int>): (r: Result<CrawlRequest, seq<FieldError>>)
    ensures r.Ok? <==> ValidateBlogId(blogId).Ok? && ValidateCategoryNo(categoryNo).Ok? && ValidateMaxPages(maxPages).Ok?
    ensures r.Err? ==> r.error != [] && forall e :: e in r.error ==> e.field in {"blog_id", "category_no", "max_pages"}
  {
    var b := ValidateBlogId(blogId);
    var c := ValidateCategoryNo(categoryNo);
    var m := ValidateMaxPages(maxPages);
    var errors := ErrorOf("blog_id", b) + ErrorOf("category_no", c) + ErrorOf("max_pages", m);
    if errors == [] then Ok(CrawlRequest(b.value, c.value, m.value)) else Err(errors)
  }

  /** A valid crawl request holds a stripped non-blank id, if any, a category of at least zero and a page limit in 1..50. */
  lemma CrawlRequestValid(blogId: Option<string>, categoryNo: Option<int>, maxPages: Option<int>)
    ensures var r := NewCrawlRequest(blogId, categoryNo, maxPages);
      r.Ok? ==>
        && (r.value.blogId.Some? ==> blogId.Some? && r.value.blogId.value == Strip(blogId.value) && !IsBlank(blogId.value))
        && (r.value.categoryNo.Some? ==> r.value.categoryNo.value >= 0)
        && (r.value.maxPages.Some? ==> 1 <= r.value.maxPages.value <= 50)
  {
  }

  /**
   * The raw value of an optional field with a declared default: left out of the request, or given,
   * possibly as an explicit null.
   */
  datatype Field<T> = Omitted | Given(given: Option<T>)

  /** The value a field holds: its declared default when left out, otherwise what was given (null included). */
  function OrDefault<T>(f: Field<T>, default: T): (r: Option<T>)
    ensures r.None? <==> f == Given(None)
    ensures f.Given? && f.given.Some? ==> r == f.given
    ensures f.Omitted? ==> r == Some(default)
  {
    match f
    case Omitted => Some(default)
    case Given(v) => v
  }

  datatype IndexRequest = IndexRequest(runId: string, forceReindex: Option<bool>)

  /** IndexRequest: run_id must not be blank and is stored stripped; force_reindex defaults to false. */
  function NewIndexRequest(runId: string, forceReindex: Field<bool>): (r: Result<IndexRequest, seq<FieldError>>)
    ensures r.Err? <==> IsBlank(runId)
    ensures r.Ok? ==> r.value.runId == Strip(runId) && r.value.forceReindex == OrDefault(forceReindex, false)
    ensures r.Err? ==> r.error == [FieldError("run_id", Blank)]
  {
    var id := ValidateNonBlank(runId);
    if id.Err? then Err([FieldError("run_id", id.error)]) else Ok(IndexRequest(id.value, OrDefault(forceReindex, false)))
  }

  /** The longest query a search or generate request takes, counted before stripping. */
  const MaxQueryLength := 500

  /** The declared defaults of the search request. */
  const DefaultTopK := 6
  const DefaultLawTopic := "채권추심"

  datatype SearchRequest = SearchRequest(query: string, topK: Option<int>, withRerank: Option<bool>, lawTopic: Option<string>)

  /**
   * SearchRequest: a query of 1..500 characters that is not blank, stored stripped; top_k in 1..20
   * when it holds a number. Left-out fields take their defaults (top_k 6, with_rerank true, the debt
   * collection topic); an explicit null is stored as null and not checked.
   */
  function NewSearchRequest(query: string, topK: Field<int>, withRerank: Field<bool>, lawTopic: Field<string>)
    : (r: Result<SearchRequest, seq<FieldError>>)
    ensures r.Ok? <==>
      1 <= |query| <= MaxQueryLength && !IsBlank(query) && (topK.Given? && topK.given.Some? ==> 1 <= topK.given.value <= 20)
    ensures r.Ok? ==> r.value.query == Strip(query)
    ensures r.Ok? ==> r.value.topK == OrDefault(topK, DefaultTopK)
    ensures r.Ok? ==> r.value.withRerank == OrDefault(withRerank, true) && r.value.lawTopic == OrDefault(lawTopic, DefaultLawTopic)
  {
    var q := Checked(query, 1, MaxQueryLength, ValidateNonBlank);
    var k := Bounded(OrDefault(topK, DefaultTopK), 1, 20);
    var errors := ErrorOf("query", q) + ErrorOf("top_k", k);
    if errors == [] then Ok(SearchRequest(q.value, k.value, OrDefault(withRerank, true), OrDefault(lawTopic, DefaultLawTopic)))
    else Err(errors)
  }

  /** A search request that leaves every optional field out holds the declared defaults, which pass the bounds. */
  lemma SearchDefaults(query: string)
    requires 1 <= |query| <= MaxQueryLength && !IsBlank(query)
    ensures NewSearchRequest(query, Omitted, Omitted, Omitted) == Ok(SearchRequest(Strip(query), Some(6), Some(true), Some("채권추심")))
  {
  }

  /** The declared defaults of the generate request. */
  const DefaultMaxTokens := 2000
  const DefaultTemperature := 0.7
  const DefaultMaxRetries := 2

  datatype GenerateRequest = GenerateRequest(query: string, withRag: Option<bool>, maxTokens: Option<int>,
                                             temperature: Option<real>, maxRetries: Option<int>)

  /**
   * GenerateRequest: the query as in a search; max_tokens in 100..4000, temperature in 0..2 and
   * max_retries in 0..5 when they hold a value. Left-out fields take their defaults (with_rag true,
   * 2000 tokens, temperature 0.7, 2 retries); an explicit null is stored as null and not checked.
   */
  function NewGenerateRequest(query: string, withRag: Field<bool>, maxTokens: Field<int>, temperature: Field<real>,
                              maxRetries: Field<int>): (r: Result<GenerateRequest, seq<FieldError>>)
    ensures r.Ok? <==>
      && 1 <= |query| <= MaxQueryLength && !IsBlank(query)
      && (maxTokens.Given? && maxTokens.given.Some? ==> 100 <= maxTokens.given.value <= 4000)
      && (temperature.Given? && temperature.given.Some? ==> 0.0 <= temperature.given.value <= 2.0)
      && (maxRetries.Given? && maxRetries.given.Some? ==> 0 <= maxRetries.given.value <= 5)
    ensures r.Ok? ==> r.value.query == Strip(query) && r.value.withRag == OrDefault(withRag, true)
    ensures r.Ok? ==> r.value.maxTokens == OrDefault(maxTokens, DefaultMaxTokens)
    ensures r.Ok? ==> r.value.temperature == OrDefault(temperature, DefaultTemperature)
    ensures r.Ok? ==> r.value.maxRetries == OrDefault(maxRetries, DefaultMaxRetries)
  {
    var q := Checked(query, 1, MaxQueryLength, ValidateNonBlank);
    var m := Bounded(OrDefault(maxTokens, DefaultMaxTokens), 100, 4000);
    var temp := OrDefault(temperature, DefaultTemperature);
    var t: Result<Option<real>, Reason> := if temp.Some? && !(0.0 <= temp.value <= 2.0) then Err(OutOfRange) else Ok(temp);
    var n := Bounded(OrDefault(maxRetries, DefaultMaxRetries), 0, 5);
    var errors := ErrorOf("query", q) + ErrorOf("max_tokens", m) + ErrorOf("temperature", t) + ErrorOf("max_retries", n);
    if errors == [] then Ok(GenerateRequest(q.value, OrDefault(withRag, true), m.value, t.value, n.value)) else Err(errors)
  }

  /** A generate request that leaves every optional field out holds the declared defaults, which pass the bounds. */
  lemma GenerateDefaults(query: string)
    requires 1 <= |query| <= MaxQueryLength && !IsBlank(query)
    ensures NewGenerateRequest(query, Omitted, Omitted, Omitted, Omitted)
         == Ok(GenerateRequest(Strip(query), Some(true), Some(2000), Some(0.7), Some(2)))
  {
  }

  /** The most tags an upload request takes. */
  const MaxTags := 10

  datatype UploadRequest = UploadRequest(title: string, content: string, tags: seq<string>, autoUpload: bool)

  /**
   * UploadRequest: a title of 1..200 characters that is not blank and a content of at least 100 characters
   * before and after stripping, both stored stripped; at most 10 tags, cleaned as validate_tags does.
   */
  function NewUploadRequest(title: string, content: string, tags: Option<seq<string>>, autoUpload: bool): (r: Result<UploadRequest, seq<FieldError>>)
    ensures r.Ok? <==>
      && 1 <= |title| <= 200 && !IsBlank(title)
      && |content| >= MinContentLength && |Strip(content)| >= MinContentLength
      && (tags.Some? ==> |tags.value| <= MaxTags)
    ensures r.Ok? ==> r.value.title == Strip(title) && r.value.content == Strip(content) && r.value.autoUpload == autoUpload
    ensures r.Ok? ==> r.value.tags == if tags.None? then [] else CleanTags(tags.value)
  {
    var ti := Checked(title, 1, 200, ValidateNonBlank);
    var co := Checked(content, MinContentLength, -1, ValidateContent);
    var tg: Result<seq<string>, Reason> :=
      if tags.None? then Ok([]) else if |tags.value| > MaxTags then Err(TooManyItems) else Ok(CleanTags(tags.value));
    var errors := ErrorOf("title", ti) + ErrorOf("content", co) + ErrorOf("tags", tg);
    if errors == [] then Ok(UploadRequest(ti.value, co.value, tg.value, autoUpload)) else Err(errors)
  }

  /** An accepted upload carries at most 10 tags of at most 20 characters and a content of at least 100. */
  lemma UploadRequestValid(title: string, content: string, tags: Option<seq<string>>, autoUpload: bool)
    ensures var r := NewUploadRequest(title, content, tags, autoUpload);
      r.Ok? ==>
        && |r.value.tags| <= MaxTags
        && (forall k :: 0 <= k < |r.value.tags| ==> 0 < |r.value.tags[k]| <= MaxTagLength)
        && |r.value.content| >= MinContentLength
        && r.value.title != ""
  {
    if tags.Some? {
      CleanTagsShape(tags.value);
    }
  }
}
