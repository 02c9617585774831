/** The file-backed store of one process, call by call: `read`, `write` and `list` with its two sweeps. */
module AnchoredTextStore {
  import opened Prelude
  import opened LineCodec
  import opened JsonText
  import opened CacheEntry
  import opened StorePaths
  import opened StoreRecords

  /** How the file operations of one `write` turn out. */
  datatype Fault = NoFault | MkdirFails | CreateFails | AppendFails(written: nat) | RenameFails

  /** What `write` leaves behind; `stuck` says that removing the temporary file fails as well. */
  function Written(files: Files, stamp: string, key: string, outcome: Outcome, pid: string,
                   fault: Fault, stuck: bool): Files
  {
    if !ValidKey(key) then files
    else
      var temp, blob := Temp(key, pid), TextOf(Current(stamp, outcome));
      var failed :=
        match fault
        case AppendFails(n) => files[temp := if n <= |blob| then blob[..n] else blob]
        case RenameFails => files[temp := blob]
        case _ => files;
      if fault.NoFault? then (files - {temp})[Target(key) := blob]
      else if stuck then failed
      else files - {temp}
  }

  /** The files when a write has failed and not yet cleaned up, as its operations leave them one after another. */
  function LeftBehind(files: Files, temp: Path, blob: Text, fault: Fault): Files {
    match fault
    case AppendFails(n) => files[temp := []][temp := if n <= |blob| then blob[..n] else blob]
    case RenameFails => files[temp := []][temp := blob]
    case _ => files
  }

  lemma FailedWrite(files: Files, stamp: string, key: string, outcome: Outcome, pid: string, fault: Fault, stuck: bool)
    requires ValidKey(key) && !fault.NoFault?
    ensures var temp := Temp(key, pid);
      var left := LeftBehind(files, temp, TextOf(Current(stamp, outcome)), fault);
      Written(files, stamp, key, outcome, pid, fault, stuck) == if stuck then left else left - {temp}
  {
    var temp := Temp(key, pid);
    TempComesAndGoes(files, temp, []);
    TempComesAndGoes(files[temp := []], temp, TextOf(Current(stamp, outcome)));
    if fault.AppendFails? {
      var blob := TextOf(Current(stamp, outcome));
      TempComesAndGoes(files[temp := []], temp, if fault.written <= |blob| then blob[..fault.written] else blob);
    }
  }

  lemma SuccessfulWrite(files: Files, stamp: string, key: string, outcome: Outcome, pid: string, stuck: bool)
    requires ValidKey(key)
    ensures var temp, blob := Temp(key, pid), TextOf(Current(stamp, outcome));
      Written(files, stamp, key, outcome, pid, NoFault, stuck)
        == (files[temp := []][temp := blob] - {temp})[Target(key) := files[temp := []][temp := blob][temp]]
  {
    TempComesAndGoes(files, Temp(key, pid), []);
    TempComesAndGoes(files[Temp(key, pid) := []], Temp(key, pid), TextOf(Current(stamp, outcome)));
  }

  lemma TempComesAndGoes(files: Files, temp: Path, blob: Text)
    ensures files[temp := blob] - {temp} == files - {temp}
  {}

  /** `read`, where the paths in `denied` cannot be opened. */
  function ReadVia(files: Files, stamp: string, denied: set<Path>, key: string): Option<Outcome> {
    if Target(key) in denied then None else ReadFile(files, stamp, key)
  }

  /** The directories above a path can be read. */
  predicate Reachable(p: Path, denied: set<Path>)
    requires |p| == 3
  {
    [] !in denied && p[..1] !in denied && p[..2] !in denied
  }

  /** Swept away: flat entries at the root, and interim entries in the shards. */
  predicate Reaped(p: Path, denied: set<Path>) {
    && p !in denied
    && ((|p| == 1 && [] !in denied && JsonName(p[0]))
        || (Listable(p) && Reachable(p, denied) && HexName(Base(p[2]), 32)))
  }

  /** Listed: a shard file that is not interim, can be opened, and opens with the current prefix. */
  predicate Accepted(files: Files, stamp: string, denied: set<Path>, p: Path) {
    && p in files && p !in denied && Listable(p) && Reachable(p, denied)
    && !HexName(Base(p[2]), 32)
    && Prefix(stamp) <= files[p]
  }

  /** The files after the sweeps have dealt with the paths in `covered`. */
  function Swept(files: Files, denied: set<Path>, covered: set<Path>): Files {
    map p | p in files && !(p in covered && Reaped(p, denied)) :: files[p]
  }

  /** Names in a directory: first segments of the paths below it. */
  function Children(files: Files, dir: Path): set<string> {
    set p | p in files && |p| > |dir| && p[..|dir|] == dir :: p[|dir|]
  }

  /** How far a listing that started from `start` has come. */
  ghost predicate Progress(start: Files, stamp: string, denied: set<Path>, covered: set<Path>,
                           files: Files, keys: seq<string>, paths: seq<Path>) {
    && files == Swept(start, denied, covered)
    && |keys| == |paths|
    && (forall i :: 0 <= i < |paths| ==>
          paths[i] in covered && Accepted(start, stamp, denied, paths[i]) && keys[i] == Base(paths[i][2]))
    && (forall i, j :: 0 <= i < j < |paths| ==> paths[i] != paths[j])
    && (forall p :: p in covered && Accepted(start, stamp, denied, p) ==> p in paths)
  }

  /** Dealing with one more path: reap it, list it, or leave it. */
  lemma OneMore(start: Files, stamp: string, denied: set<Path>, covered: set<Path>,
                files: Files, keys: seq<string>, paths: seq<Path>, p: Path,
                files': Files, keys': seq<string>, paths': seq<Path>)
    requires Progress(start, stamp, denied, covered, files, keys, paths) && p !in covered
    requires files' == if Reaped(p, denied) then files - {p} else files
    requires if Accepted(start, stamp, denied, p) then keys' == keys + [Base(p[2])] && paths' == paths + [p]
             else keys' == keys && paths' == paths
    ensures Progress(start, stamp, denied, covered + {p}, files', keys', paths')
  {
    assert files' == Swept(start, denied, covered + {p});
    assert p !in paths;
  }

  /** What an uncovered path holds has not changed since the listing began. */
  lemma Untouched(start: Files, stamp: string, denied: set<Path>, covered: set<Path>,
                  files: Files, keys: seq<string>, paths: seq<Path>, p: Path)
    requires Progress(start, stamp, denied, covered, files, keys, paths) && p !in covered
    ensures p in files <==> p in start
    ensures p in files ==> files[p] == start[p]
  {}

  /** Paths below a directory that has not been entered yet. */
  predicate Fresh(covered: set<Path>, ab: string, cd: Option<string>) {
    forall p :: p in covered ==> !(|p| == 3 && p[0] == ab && (cd == None || p[1] == cd.value))
  }

  /** Everything `list` has to look at below a first-level directory, except below `names`, has been dealt with. */
  predicate ShardDone(start: Files, denied: set<Path>, covered: set<Path>, ab: string, names: set<string>) {
    forall p :: p in start && Listable(p) && Reachable(p, denied) && p[0] == ab && p[1] !in names ==> p in covered
  }

  lemma ShardBegins(start: Files, stamp: string, denied: set<Path>, covered: set<Path>,
                    files: Files, keys: seq<string>, paths: seq<Path>, ab: string)
    requires Progress(start, stamp, denied, covered, files, keys, paths)
    ensures ShardDone(start, denied, covered, ab, Children(files, [ab]))
  {
    NotBelow(start, stamp, denied, covered, files, keys, paths, [ab], Children(files, [ab]));
    assert forall p: Path :: |p| == 3 && p[0] == ab ==> p[..1] == [ab];
  }

  /** A directory is finished when its files are, and when `list` skips it. */
  lemma ShardAdvances(start: Files, denied: set<Path>, before: set<Path>, covered: set<Path>, ab: string,
                      names: set<string>, cd: string)
    requires ShardDone(start, denied, before, ab, names + {cd}) && before <= covered
    requires (forall p :: p in start && Listable(p) && p[0] == ab && p[1] == cd ==> p in covered)
          || !HexName(cd, 2) || [ab, cd] in denied
    ensures ShardDone(start, denied, covered, ab, names)
  {
    forall p | p in start && Listable(p) && Reachable(p, denied) && p[0] == ab && p[1] !in names
      ensures p in covered
    {
      if p[1] == cd {
        assert p[..2] == [ab, cd];
      }
    }
  }

  /** Every listable file of one directory, except those in `names`, has been dealt with. */
  predicate DirectoryDone(start: Files, covered: set<Path>, ab: string, cd: string, names: set<string>) {
    forall p :: p in start && Listable(p) && p[0] == ab && p[1] == cd && p[2] !in names ==> p in covered
  }

  lemma DirectoryBegins(start: Files, stamp: string, denied: set<Path>, covered: set<Path>,
                        files: Files, keys: seq<string>, paths: seq<Path>, ab: string, cd: string)
    requires Progress(start, stamp, denied, covered, files, keys, paths)
    ensures DirectoryDone(start, covered, ab, cd, Children(files, [ab, cd]))
  {
    NotBelow(start, stamp, denied, covered, files, keys, paths, [ab, cd], Children(files, [ab, cd]));
    assert forall p: Path :: |p| == 3 && p[0] == ab && p[1] == cd ==> p[..2] == [ab, cd];
  }

  lemma DirectoryAdvances(start: Files, before: set<Path>, covered: set<Path>, ab: string, cd: string,
                          names: set<string>, name: string)
    requires DirectoryDone(start, before, ab, cd, names + {name}) && before <= covered
    requires [ab, cd, name] in covered || !JsonName(name)
    ensures DirectoryDone(start, covered, ab, cd, names)
  {
    forall p | p in start && Listable(p) && p[0] == ab && p[1] == cd && p[2] !in names
      ensures p in covered
    {
      assert p == [ab, cd, p[2]];
    }
  }

  // ----- What a listing does, path by path -----

  predicate LowerHex(s: string, length: nat) {
    |s| == length && forall i :: 0 <= i < length ==> s[i] in "0123456789abcdef"
  }

  /** An entry of the first layout: a `.json` file at the root. */
  predicate FlatEntry(p: Path) {
    |p| == 1 && |p[0]| >= 5 && p[0][|p[0]| - 5..] == ".json"
  }

  /** A `.json` file two directories of two hex digits down, for this key. */
  predicate EntryFor(p: Path, key: string) {
    |p| == 3 && LowerHex(p[0], 2) && LowerHex(p[1], 2) && p[2] == key + ".json"
  }

  /** Neither the path nor a directory above it is inaccessible. */
  predicate Openable(p: Path, denied: set<Path>) {
    forall n :: 0 <= n <= |p| ==> p[..n] !in denied
  }

  ghost predicate SweptAway(p: Path, denied: set<Path>) {
    Openable(p, denied) && (FlatEntry(p) || exists key :: LowerHex(key, 32) && EntryFor(p, key))
  }

  /** Exactly the flat entries and the 32-hex entries that can be removed are gone; all else is as it was. */
  ghost predicate SweepsExactly(before: Files, after: Files, denied: set<Path>) {
    forall p: Path ::
      && (p in after <==> p in before && !SweptAway(p, denied))
      && (p in after ==> after[p] == before[p])
  }

  /** A file at the key's name that can be opened and begins with the prefix, the key not being 32 hex digits. */
  ghost predicate ListedAt(files: Files, stamp: string, denied: set<Path>, p: Path, key: string) {
    && p in files && EntryFor(p, key) && Openable(p, denied) && !LowerHex(key, 32)
    && Prefix(stamp) <= files[p]
  }

  /** Exactly the keys of such files are returned. */
  ghost predicate ListsExactly(files: Files, stamp: string, denied: set<Path>, keys: seq<string>) {
    forall key :: key in keys <==> exists p :: ListedAt(files, stamp, denied, p, key)
  }

  lemma HexIsHex(s: string, length: nat)
    ensures HexName(s, length) <==> LowerHex(s, length)
  {
    forall c: char
      ensures IsHex(c) <==> c in "0123456789abcdef"
    {
      OneHexDigit(c);
    }
  }

  lemma OneHexDigit(c: char)
    ensures IsHex(c) <==> c in "0123456789abcdef"
  {
    var digits := "0123456789abcdef";
    assert IsHex(c) ==> c == digits[if c <= '9' then c as int - 48 else c as int - 87];
  }

  lemma ReachableIsOpenable(p: Path, denied: set<Path>)
    ensures |p| == 3 ==> (Openable(p, denied) <==> p !in denied && Reachable(p, denied))
    ensures |p| == 1 ==> (Openable(p, denied) <==> p !in denied && [] !in denied)
  {
    assert p[..|p|] == p && p[..0] == [];
    assert |p| == 3 ==> p[..3] == p;
  }

  lemma ListableIsEntry(p: Path)
    ensures Listable(p) ==> EntryFor(p, Base(p[2]))
    ensures forall key :: EntryFor(p, key) ==> Listable(p) && Base(p[2]) == key
  {
    if |p| == 3 {
      HexIsHex(p[0], 2);
      HexIsHex(p[1], 2);
      if JsonName(p[2]) {
        assert p[2] == Base(p[2]) + ".json";
      }
    }
  }

  lemma ReapedIsSweptAway(p: Path, denied: set<Path>)
    ensures Reaped(p, denied) <==> SweptAway(p, denied)
  {
    ReachableIsOpenable(p, denied);
    ListableIsEntry(p);
    if Listable(p) {
      HexIsHex(Base(p[2]), 32);
    }
  }

  lemma ListSweepsExactly(files: Files, denied: set<Path>)
    ensures SweepsExactly(files, Swept(files, denied, files.Keys), denied)
  {
    forall p: Path
      ensures p in Swept(files, denied, files.Keys) <==> p in files && !SweptAway(p, denied)
    {
      ReapedIsSweptAway(p, denied);
    }
  }

  lemma AcceptedIsListed(files: Files, stamp: string, denied: set<Path>, p: Path)
    ensures Accepted(files, stamp, denied, p) ==> ListedAt(files, stamp, denied, p, Base(p[2]))
    ensures forall key :: ListedAt(files, stamp, denied, p, key) ==>
      Accepted(files, stamp, denied, p) && Base(p[2]) == key
  {
    ReachableIsOpenable(p, denied);
    ListableIsEntry(p);
    if Listable(p) {
      HexIsHex(Base(p[2]), 32);
    }
  }

  lemma KeysAreListed(files: Files, stamp: string, denied: set<Path>, keys: seq<string>, paths: seq<Path>)
    requires |keys| == |paths|
    requires forall i :: 0 <= i < |keys| ==> Accepted(files, stamp, denied, paths[i]) && keys[i] == Base(paths[i][2])
    requires forall p :: Accepted(files, stamp, denied, p) ==> p in paths
    ensures ListsExactly(files, stamp, denied, keys)
  {
    forall key
      ensures key in keys <==> exists p :: ListedAt(files, stamp, denied, p, key)
    {
      if key in keys {
        var i :| 0 <= i < |keys| && keys[i] == key;
        AcceptedIsListed(files, stamp, denied, paths[i]);
      }
      if p :| ListedAt(files, stamp, denied, p, key) {
        AcceptedIsListed(files, stamp, denied, p);
        var i :| 0 <= i < |paths| && paths[i] == p;
        assert keys[i] == key;
      }
    }
  }

  class Store {
    const stamp: string
    var files: Files

    constructor (stamp: string, files: Files)
      ensures this.stamp == stamp && this.files == files
    {
      this.stamp := stamp;
      this.files := files;
    }

    method Read(key: string, denied: set<Path>) returns (r: Option<Outcome>)
      ensures r == ReadVia(files, stamp, denied, key)
    {
      var file := FileFor(key);
      if file == None || file.value in denied || file.value !in files {
        return None;
      }
      var parsed := Parse(files[file.value]);
      if parsed == None || !IsCached(parsed.value) || Lookup(parsed.value.fields, "stamp") != Some(JStr(stamp)) {
        return None;
      }
      var hit := parsed.value;
      var declined := Lookup(hit.fields, "declined");
      if declined.Some? {
        return Some(Declined(declined.value));
      }
      var items := DecodeLines(LinesOfJson(Lookup(hit.fields, "lines").value.elems));
      return Some(Extracted(Lookup(hit.fields, "text").value.s, items, Rest(hit.fields)));
    }

    method Serialize(outcome: Outcome) returns (blob: Text)
      ensures blob == TextOf(Current(stamp, outcome))
    {
      match outcome {
        case Declined(reason) =>
          blob := Stringify(JObj(Header(2.0, stamp) + [Field("declined", reason)]));
        case Extracted(text, items, provenance) =>
          var lines := EncodeLines(items);
          var body := [Field("text", JStr(text)), Field("lines", JArr(LinesJson(lines)))] + provenance;
          blob := Stringify(JObj(Header(2.0, stamp) + body));
      }
    }

    method Write(key: string, outcome: Outcome, pid: string, fault: Fault, stuck: bool)
      modifies this`files
      ensures files == Written(old(files), stamp, key, outcome, pid, fault, stuck)
    {
      var target := FileFor(key);
      if target == None {
        return;
      }
      var blob := Serialize(outcome);
      var temp := Temp(key, pid);
      ghost var before := files;
      var failed := fault.MkdirFails? || fault.CreateFails?;
      if !failed {
        files := files[temp := []];
        failed := fault.AppendFails?;
        files := files[temp := if failed && fault.written <= |blob| then blob[..fault.written] else blob];
        if !failed {
          failed := fault.RenameFails?;
          if !failed {
            files := (files - {temp})[target.value := files[temp]];
            SuccessfulWrite(before, stamp, key, outcome, pid, stuck);
          }
        }
      }
      if failed {
        assert files == LeftBehind(before, temp, blob, fault);
        FailedWrite(before, stamp, key, outcome, pid, fault, stuck);
        if !stuck {
          files := files - {temp};
        }
      }
    }

    method List(denied: set<Path>) returns (keys: seq<string>, ghost paths: seq<Path>)
      modifies this`files
      ensures files == Swept(old(files), denied, old(files).Keys)
      ensures |keys| == |paths|
      ensures forall i :: 0 <= i < |keys| ==>
        Accepted(old(files), stamp, denied, paths[i]) && keys[i] == Base(paths[i][2])
      ensures forall i, j :: 0 <= i < j < |paths| ==> paths[i] != paths[j]
      ensures forall p :: Accepted(old(files), stamp, denied, p) ==> p in paths
      ensures SweepsExactly(old(files), files, denied)
      ensures ListsExactly(old(files), stamp, denied, keys)
    {
      keys, paths := [], [];
      ghost var start := files;
      if [] in denied {
        assert forall p :: p in start ==> !Reaped(p, denied);
      } else {
        var rootNames := Children(files, []);
        ghost var covered := SweepRoot(rootNames, denied);
        keys, paths := ListShards(rootNames, denied, start, covered);
      }
      ListSweepsExactly(start, denied);
      KeysAreListed(start, stamp, denied, keys, paths);
    }

    /** The second loop over the root, and all below it. */
    method ListShards(rootNames: set<string>, denied: set<Path>, ghost start: Files, ghost covered0: set<Path>)
      returns (keys: seq<string>, ghost paths: seq<Path>)
      requires rootNames == Children(start, []) && [] !in denied
      requires Progress(start, stamp, denied, covered0, files, [], [])
      requires forall p :: p in covered0 <==> |p| == 1 && p[0] in rootNames && JsonName(p[0])
      modifies this`files
      ensures files == Swept(start, denied, start.Keys)
      ensures |keys| == |paths|
      ensures forall i :: 0 <= i < |keys| ==>
        Accepted(start, stamp, denied, paths[i]) && keys[i] == Base(paths[i][2])
      ensures forall i, j :: 0 <= i < j < |paths| ==> paths[i] != paths[j]
      ensures forall p :: Accepted(start, stamp, denied, p) ==> p in paths
    {
      keys, paths := [], [];
      ghost var covered := covered0;
      var names := rootNames;
      while names != {}
        invariant names <= rootNames
        invariant Progress(start, stamp, denied, covered, files, keys, paths)
        invariant forall p :: p in covered ==> |p| == 1 || (|p| == 3 && p[0] !in names)
        invariant forall name :: name in rootNames && JsonName(name) ==> [name] in covered
        invariant forall p :: p in start && Listable(p) && Reachable(p, denied) && p[0] !in names ==> p in covered
        decreases names
      {
        var ab :| ab in names;
        names := names - {ab};
        if !HexName(ab, 2) || [ab] in denied {
          assert forall p :: Listable(p) && Reachable(p, denied) && p[0] == ab ==> p[..1] == [ab];
          continue;
        }
        keys, paths, covered := ListShard(ab, denied, start, covered, keys, paths);
      }
      AllDealtWith(start, stamp, denied, covered, files, keys, paths);
    }

    /** The first sweep: flat entries at the root. */
    method SweepRoot(rootNames: set<string>, denied: set<Path>) returns (ghost covered: set<Path>)
      requires [] !in denied
      modifies this`files
      ensures Progress(old(files), stamp, denied, covered, files, [], [])
      ensures forall p :: p in covered <==> |p| == 1 && p[0] in rootNames && JsonName(p[0])
    {
      ghost var start := files;
      covered := {};
      var names := rootNames;
      while names != {}
        invariant names <= rootNames
        invariant Progress(start, stamp, denied, covered, files, [], [])
        invariant forall p :: p in covered <==> |p| == 1 && p[0] in rootNames - names && JsonName(p[0])
        decreases names
      {
        var name :| name in names;
        names := names - {name};
        assert forall p: Path :: |p| == 1 && p[0] == name <==> p == [name];
        if JsonName(name) {
          ghost var before := files;
          if [name] !in denied {
            files := files - {[name]};
          }
          OneMore(start, stamp, denied, covered, before, [], [], [name], files, [], []);
          covered := covered + {[name]};
        }
      }
    }

    method ListShard(ab: string, denied: set<Path>, ghost start: Files, ghost covered0: set<Path>,
                     keys0: seq<string>, ghost paths0: seq<Path>)
      returns (keys: seq<string>, ghost paths: seq<Path>, ghost covered: set<Path>)
      requires HexName(ab, 2) && [] !in denied && [ab] !in denied && Fresh(covered0, ab, None)
      requires Progress(start, stamp, denied, covered0, files, keys0, paths0)
      modifies this`files
      ensures Progress(start, stamp, denied, covered, files, keys, paths)
      ensures covered0 <= covered && forall p :: p in covered - covered0 ==> |p| == 3 && p[0] == ab
      ensures forall p :: p in start && Listable(p) && Reachable(p, denied) && p[0] == ab ==> p in covered
    {
      keys, paths, covered := keys0, paths0, covered0;
      var cdNames := Children(files, [ab]);
      var names := cdNames;
      ShardBegins(start, stamp, denied, covered, files, keys, paths, ab);
      while names != {}
        invariant names <= cdNames
        invariant Progress(start, stamp, denied, covered, files, keys, paths)
        invariant covered0 <= covered
        invariant forall p :: p in covered - covered0 ==> |p| == 3 && p[0] == ab && p[1] !in names
        invariant ShardDone(start, denied, covered, ab, names)
        decreases names
      {
        var cd :| cd in names;
        assert names == (names - {cd}) + {cd};
        names := names - {cd};
        ghost var before := covered;
        if HexName(cd, 2) && [ab, cd] !in denied {
          keys, paths, covered := ListDirectory(ab, cd, denied, start, covered, keys, paths);
        }
        ShardAdvances(start, denied, before, covered, ab, names, cd);
      }
    }

    method ListDirectory(ab: string, cd: string, denied: set<Path>, ghost start: Files, ghost covered0: set<Path>,
                         keys0: seq<string>, ghost paths0: seq<Path>)
      returns (keys: seq<string>, ghost paths: seq<Path>, ghost covered: set<Path>)
      requires HexName(ab, 2) && HexName(cd, 2) && [] !in denied && [ab] !in denied && [ab, cd] !in denied
      requires Fresh(covered0, ab, Some(cd))
      requires Progress(start, stamp, denied, covered0, files, keys0, paths0)
      modifies this`files
      ensures Progress(start, stamp, denied, covered, files, keys, paths)
      ensures covered0 <= covered && forall p :: p in covered - covered0 ==> |p| == 3 && p[0] == ab && p[1] == cd
      ensures forall p :: p in start && Listable(p) && p[0] == ab && p[1] == cd ==> p in covered
    {
      keys, paths, covered := keys0, paths0, covered0;
      var all := Children(files, [ab, cd]);
      var names := all;
      DirectoryBegins(start, stamp, denied, covered, files, keys, paths, ab, cd);
      while names != {}
        invariant names <= all
        invariant Progress(start, stamp, denied, covered, files, keys, paths)
        invariant covered0 <= covered
        invariant forall p :: p in covered - covered0 ==> |p| == 3 && p[0] == ab && p[1] == cd && p[2] !in names
        invariant DirectoryDone(start, covered, ab, cd, names)
        decreases names
      {
        var name :| name in names;
        assert names == (names - {name}) + {name};
        names := names - {name};
        if !JsonName(name) {
          DirectoryAdvances(start, covered, covered, ab, cd, names, name);
          continue;
        }
        var p := [ab, cd, name];
        assert p[..1] == [ab] && p[..2] == [ab, cd];
        ghost var files1, keys1, paths1 := files, keys, paths;
        keys, paths := VisitFile(p, denied, start, covered, keys, paths);
        OneMore(start, stamp, denied, covered, files1, keys1, paths1, p, files, keys, paths);
        DirectoryAdvances(start, covered, covered + {p}, ab, cd, names, name);
        covered := covered + {p};
      }
    }

    method VisitFile(p: Path, denied: set<Path>, ghost start: Files, ghost covered: set<Path>,
                     keys0: seq<string>, ghost paths0: seq<Path>)
      returns (keys: seq<string>, ghost paths: seq<Path>)
      requires Listable(p) && Reachable(p, denied) && p !in covered
      requires Progress(start, stamp, denied, covered, files, keys0, paths0)
      modifies this`files
      ensures files == if Reaped(p, denied) then old(files) - {p} else old(files)
      ensures if Accepted(start, stamp, denied, p) then keys == keys0 + [Base(p[2])] && paths == paths0 + [p]
              else keys == keys0 && paths == paths0
    {
      keys, paths := keys0, paths0;
      var base := Base(p[2]);
      Untouched(start, stamp, denied, covered, files, keys, paths, p);
      if HexName(base, 32) {
        if p !in denied {
          files := files - {p};
        }
      } else if p !in denied && p in files && Prefix(stamp) <= files[p] {
        keys := keys + [base];
        paths := paths + [p];
      }
    }
  }

  /** A path below a directory that was not there when the directory was read had been dealt with before. */
  lemma NotBelow(start: Files, stamp: string, denied: set<Path>, covered: set<Path>,
                 files: Files, keys: seq<string>, paths: seq<Path>, dir: Path, names: set<string>)
    requires Progress(start, stamp, denied, covered, files, keys, paths)
    requires names == Children(files, dir)
    ensures forall p :: p in start && |p| > |dir| && p[..|dir|] == dir && p[|dir|] !in names ==> p in covered
  {
    forall p | p in start && |p| > |dir| && p[..|dir|] == dir && p[|dir|] !in names
      ensures p in covered
    {
      if p !in covered {
        Untouched(start, stamp, denied, covered, files, keys, paths, p);
      }
    }
  }

  lemma AllDealtWith(start: Files, stamp: string, denied: set<Path>, covered: set<Path>,
                     files: Files, keys: seq<string>, paths: seq<Path>)
    requires Progress(start, stamp, denied, covered, files, keys, paths)
    requires forall name :: name in Children(start, []) && JsonName(name) ==> [name] in covered
    requires forall p :: p in start && Listable(p) && Reachable(p, denied) ==> p in covered
    ensures files == Swept(start, denied, start.Keys)
    ensures forall p :: Accepted(start, stamp, denied, p) ==> p in paths
  {
    forall p | p in start && Reaped(p, denied)
      ensures p in covered
    {
      if |p| == 1 {
        assert p == [p[0]] && p[..0] == [] && p[0] in Children(start, []);
      }
    }
  }
}
