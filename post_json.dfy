/**
 * A post as the loaders read it from JSON, and the Python conversions the vectorizing scripts
 * apply to its fields (doc.get, int(), the falsy-text rule of the chunkers, metadata values).
 */
module PostJson {
  import opened Wrappers
  import opened Strings
  import opened Chroma
  import J = EmbedChunked

  /** A post as json.loads returns it: keys to values (an absent key is simply not in the map). */
  type JDoc = map<string, J.Json>

  /** doc.get(key, default) */
  function Field(doc: JDoc, key: string, default: J.Json): (v: J.Json)
    ensures key !in doc ==> v == default
  {
    if key in doc then doc[key] else default
  }

  /** int(value): an int, or a string holding one (surrounding blanks allowed); anything else raises. */
  function PyInt(v: J.Json): (r: Option<int>)
    ensures v.Int? ==> r == Some(v.n)
    ensures v.Null? || v.Missing? ==> r.None?
    ensures v.Str? && AllDigits(v.s) ==> r == Some(ParseDigits(v.s) as int)
  {
    match v
    case Int(n) => Some(n)
    case Str(s) => ParseInt(s)
    case _ => None
  }

  /**
   * The text a chunker sees of doc.get("content", ""): a string as it is; any falsy value counts as
   * "" (`if not text: return [""]`); a truthy non-string makes the chunker raise.
   */
  function Content(doc: JDoc): (r: Option<string>)
    ensures "content" !in doc ==> r == Some("")
    ensures "content" in doc && doc["content"].Str? ==> r == Some(doc["content"].s)
    ensures r.None? <==> "content" in doc && !doc["content"].Str? && J.Truthy(doc["content"])
  {
    var c := Field(doc, "content", J.Str(""));
    if c.Str? then Some(c.s) else if J.Truthy(c) then None else Some("")
  }

  /** A JSON value stored as a metadata value (null stays null). */
  function ToMVal(v: J.Json): (m: MVal)
    ensures v.Str? ==> m == MStr(v.s)
    ensures v.Int? ==> m == MInt(v.n)
    ensures !v.Str? && !v.Int? ==> m == MNull
  {
    match v
    case Str(s) => MStr(s)
    case Int(n) => MInt(n)
    case _ => MNull
  }
}
