/** The contacts asset `emergency_contacts.json` after reading and JSON
    parsing, which are not modelled: whether the text could be read, whether
    it is a JSON object at all, and its top-level entries in the order
    `JSONObject.keys()` hands them out. */
module ParsedAsset {
  import opened JavaStrings

  /** The phone fields of one country object. `None` is an absent key; a
      value that is not a string stands for the text `optString` makes of it. */
  datatype RawFields = RawFields(
    police: Option<string>,
    ambulance: Option<string>,
    fire: Option<string>,
    general: Option<string>)

  /** One top-level entry. `fields` is `None` when the value is not a JSON
      object, so that `getJSONObject` throws on it. */
  datatype RawEntry = RawEntry(key: string, fields: Option<RawFields>)

  datatype Asset =
    | Unreadable                       // opening or reading the asset failed
    | Malformed                        // the text is not a JSON object
    | Document(entries: seq<RawEntry>)

  /** `optString(key, fallback)`: the field's text, or `fallback` when absent. */
  function OptString(f: Option<string>, fallback: string): (r: string)
    ensures f.Some? ==> r == f.value
    ensures f.None? ==> r == fallback
  {
    match f
    case Some(s) => s
    case None => fallback
  }

  /** How many entries a loop that calls `getJSONObject` on each in turn gets
      through before the first one that throws. */
  function ObjectPrefixLength(entries: seq<RawEntry>): (n: nat)
    ensures n <= |entries|
    ensures forall j :: 0 <= j < n ==> entries[j].fields.Some?
    ensures n < |entries| ==> entries[n].fields.None?
  {
    if entries == [] || entries[0].fields.None? then 0
    else 1 + ObjectPrefixLength(entries[1..])
  }

  predicate AllObjects(entries: seq<RawEntry>) {
    forall j :: 0 <= j < |entries| ==> entries[j].fields.Some?
  }
}
