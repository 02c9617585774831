/** What a file of the store can hold, and what `read` and the listing test make of it. */
module StoreRecords {
  import opened Prelude
  import opened JsonText
  import opened CacheEntry
  import opened StorePaths

  type Files = map<Path, Text>

  /** Something a `write` serialized: by this format under some build's stamp, or by an older format. */
  datatype Record =
    | Current(stamp: string, outcome: Outcome)
    | Old(version: real, stamp: string, body: seq<Field>)

  predicate WellFormed(r: Record) {
    match r
    case Current(_, outcome) => WellTyped(outcome)
    case Old(version, _, body) => version != 2.0 && body != []
  }

  function TextOf(r: Record): Text {
    match r
    case Current(stamp, outcome) => Stringify(EntryJson(stamp, outcome))
    case Old(version, stamp, body) => Stringify(JObj(Header(version, stamp) + body))
  }

  /** What `read` answers for a key, under a build's stamp. */
  function ReadFile(files: Files, stamp: string, key: string): Option<Outcome> {
    if !ValidKey(key) || Target(key) !in files then None
    else
      var v :- Parse(files[Target(key)]);
      if IsCached(v) && Lookup(v.fields, "stamp") == Some(JStr(stamp)) then Some(DecodeEntry(v)) else None
  }

  predicate Hit(files: Files, stamp: string, key: string) {
    ReadFile(files, stamp, key).Some?
  }

  /** A record is served exactly under its own stamp, if the numbers of its items were finite. */
  lemma RecordReads(files: Files, stamp: string, key: string, r: Record)
    requires ValidKey(key) && Target(key) in files && files[Target(key)] == TextOf(r) && WellFormed(r)
    ensures Hit(files, stamp, key) <==> r.Current? && r.stamp == stamp && Readable(r.outcome)
    ensures Hit(files, stamp, key) ==> ReadFile(files, stamp, key).value == AsStored(r.outcome)
  {
    match r
    case Current(s, outcome) =>
      ParseStringify(EntryJson(s, outcome));
      HeaderLookups(2.0, s, Body(outcome));
      WrittenEntryIsCachedIff(s, outcome);
      if Readable(outcome) {
        WrittenEntryDecodes(s, outcome);
      }
    case Old(version, s, body) =>
      ParseStringify(JObj(Header(version, s) + body));
      HeaderLookups(version, s, body);
  }

  /** The bounded test of `list` recognises exactly the records of this format and stamp. */
  lemma RecordListed(stamp: string, r: Record)
    requires WellFormed(r)
    ensures Prefix(stamp) <= TextOf(r) <==> r.Current? && r.stamp == stamp
  {
    match r
    case Current(s, outcome) => PrefixDecides(stamp, 2.0, s, Body(outcome));
    case Old(version, s, body) => PrefixDecides(stamp, version, s, body);
  }

  /**
   * Listing and reading agree on a written entry except in one case: an entry of this build with an item that
   * holds a number JSON cannot carry is listed and never read.
   */
  lemma ListedIffHitOrNotFinite(files: Files, stamp: string, key: string, r: Record)
    requires ValidKey(key) && Target(key) in files && files[Target(key)] == TextOf(r) && WellFormed(r)
    ensures Prefix(stamp) <= TextOf(r) <==>
      Hit(files, stamp, key) || (r.Current? && r.stamp == stamp && !Readable(r.outcome))
  {
    RecordReads(files, stamp, key, r);
    RecordListed(stamp, r);
  }
}
