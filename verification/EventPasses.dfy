/** The rewriting passes: renaming and flattening, stripping chain metadata, stripping embedding events. */
module EventPasses {
  import opened Prelude
  import opened EventLog

  type Fields = map<string, Value>

  /** `{ event: {...}, metadata: ... }` without a type of its own. */
  predicate Nested(m: Fields) {
    "event" in m && "metadata" in m && ObjectLike(m["event"]) && "type" !in m
  }

  function WithoutMetadata(m: Fields, name: string): Fields {
    if "metadata" in m && m["metadata"].Obj? && name in m["metadata"].fields
    then m["metadata" := Obj(m["metadata"].fields - {name})]
    else m
  }

  /** Assigning what the table lookup found; a function does not survive serialization, the prototype becomes `{}`. */
  function SetType(m: Fields, found: Found): Fields {
    match found
    case Missing => m
    case Renamed(to) => m["type" := Str(to)]
    case Inherited => m - {"type"}
    case Prototype => m["type" := Obj(map[])]
  }

  /** What the lookup finds for a string type. */
  function TypeFound(m: Fields): Found {
    if "type" in m && m["type"].Str? then LookUp(m["type"].s) else Missing
  }

  /** What the lookup finds for any truthy type; none when converting it to a property name throws. */
  function CoercedTypeFound(m: Fields): Option<Found> {
    if "type" in m && Truthy(m["type"]) then
      var key :- ToKey(m["type"]);
      Some(LookUp(key))
    else Some(Missing)
  }

  /** The event's own fields, the metadata, the rest of the envelope, and a signature worth keeping. */
  function Joined(m: Fields): Fields
    requires Nested(m)
  {
    var rest := m - {"event", "metadata", "signature"};
    var flat := (Spread(m["event"]) + map["metadata" := m["metadata"]]) + rest;
    if "signature" in m && Truthy(m["signature"]) then flat["signature" := m["signature"]] else flat
  }

  function FlattenEvent(m: Fields): Fields
    requires Nested(m)
  {
    var dated := WithoutMetadata(Joined(m), "timestamp");
    SetType(dated, TypeFound(dated))
  }

  /** `migrateLine` on a parsed object: the object written back, and whether it was written back at all. */
  function MigrateFields(m: Fields): (Fields, bool) {
    if Nested(m) then (FlattenEvent(m), true)
    else
      match CoercedTypeFound(m)
      case None => (m, false)
      case Some(found) =>
        var renamed := SetType(m, found);
        var dated := WithoutMetadata(renamed, "timestamp");
        (dated, found != Missing || dated != renamed)
  }

  function Migrate(line: Line): (Line, bool) {
    if line.Event? && line.value.Obj? then
      var (m, changed) := MigrateFields(line.value.fields);
      if changed then (Event(Obj(m)), true) else (line, false)
    else (line, false)
  }

  function StripChain(line: Line): (Line, bool) {
    if line.Event? && line.value.Obj? then
      var m := line.value.fields;
      var m' := WithoutMetadata(WithoutMetadata(m, "checksum"), "prevEventHash");
      if m' != m then (Event(Obj(m')), true) else (line, false)
    else (line, false)
  }

  /** A line whose type is one of the two embedding events. */
  predicate IsEmbedding(line: Line) {
    && line.Event? && line.value.Obj? && "type" in line.value.fields
    && (line.value.fields["type"] == Str("embedding:computed") || line.value.fields["type"] == Str("embedding:deleted"))
  }

  function StripEmbeddings(lines: seq<Line>): seq<Line> {
    if lines == [] then []
    else StripEmbeddings(Front(lines)) + if IsEmbedding(Last(lines)) then [] else [Last(lines)]
  }

  method MigrateLine(line: Line) returns (migrated: Line, changed: bool)
    ensures (migrated, changed) == Migrate(line)
  {
    if !line.Event? || !line.value.Obj? {
      return line, false;
    }
    var obj := line.value.fields;
    changed := false;
    if "event" in obj && "metadata" in obj && ObjectLike(obj["event"]) && "type" !in obj {
      var flat := Spread(obj["event"]);
      flat := flat + map["metadata" := obj["metadata"]];
      flat := flat + (obj - {"event", "metadata", "signature"});
      if "signature" in obj && Truthy(obj["signature"]) {
        flat := flat["signature" := obj["signature"]];
      }
      if flat["metadata"].Obj? && "timestamp" in flat["metadata"].fields {
        flat := flat["metadata" := Obj(flat["metadata"].fields - {"timestamp"})];
      }
      if "type" in flat && flat["type"].Str? {
        flat := SetType(flat, LookUp(flat["type"].s));
      }
      return Event(Obj(flat)), true;
    }
    if "type" in obj && Truthy(obj["type"]) {
      var key := ToKey(obj["type"]);
      if key == None {
        return line, false;
      }
      var found := LookUp(key.value);
      if found != Missing {
        obj := SetType(obj, found);
        changed := true;
      }
    }
    if "metadata" in obj && obj["metadata"].Obj? && "timestamp" in obj["metadata"].fields {
      ghost var before := obj;
      obj := obj["metadata" := Obj(obj["metadata"].fields - {"timestamp"})];
      assert before["metadata"] != obj["metadata"];
      changed := true;
    }
    if changed {
      return Event(Obj(obj)), true;
    }
    return line, false;
  }

  function MigrateAll(lines: seq<Line>): (r: seq<Line>)
    ensures |r| == |lines| && forall i :: 0 <= i < |lines| ==> r[i] == Migrate(lines[i]).0
  {
    seq(|lines|, i requires 0 <= i < |lines| => Migrate(lines[i]).0)
  }

  function StripChainAll(lines: seq<Line>): (r: seq<Line>)
    ensures |r| == |lines| && forall i :: 0 <= i < |lines| ==> r[i] == StripChain(lines[i]).0
  {
    seq(|lines|, i requires 0 <= i < |lines| => StripChain(lines[i]).0)
  }

  function ChangedLines(lines: seq<Line>): nat {
    if lines == [] then 0 else ChangedLines(Front(lines)) + if Migrate(Last(lines)).1 then 1 else 0
  }

  lemma MigratedSoFar(lines: seq<Line>, i: nat)
    requires i < |lines|
    ensures MigrateAll(lines)[..i + 1] == MigrateAll(lines)[..i] + [Migrate(lines[i]).0]
    ensures ChangedLines(lines[..i + 1]) == ChangedLines(lines[..i]) + if Migrate(lines[i]).1 then 1 else 0
  {
    assert Front(lines[..i + 1]) == lines[..i];
  }

  lemma {:induction false} UncountedIsUnchanged(lines: seq<Line>)
    ensures ChangedLines(lines) == 0 ==> MigrateAll(lines) == lines
  {
    if lines != [] && ChangedLines(lines) == 0 {
      UncountedIsUnchanged(Front(lines));
      assert Migrate(Last(lines)).0 == Last(lines);
      forall i | 0 <= i < |lines|
        ensures MigrateAll(lines)[i] == lines[i]
      {
        assert i < |lines| - 1 ==> MigrateAll(Front(lines))[i] == Front(lines)[i];
      }
    }
  }

  /** The per-file loop: every line in place, a count of the changed ones, and whether to write the file. */
  method MigrateFile(lines: seq<Line>) returns (migrated: seq<Line>, totalChanged: nat, fileChanged: bool)
    ensures migrated == MigrateAll(lines)
    ensures totalChanged == ChangedLines(lines) && fileChanged == (totalChanged > 0)
    ensures !fileChanged ==> migrated == lines
  {
    migrated, totalChanged, fileChanged := [], 0, false;
    for i := 0 to |lines|
      invariant migrated == MigrateAll(lines)[..i]
      invariant totalChanged == ChangedLines(lines[..i]) && fileChanged == (totalChanged > 0)
    {
      var line, changed := MigrateLine(lines[i]);
      MigratedSoFar(lines, i);
      if changed {
        totalChanged := totalChanged + 1;
        fileChanged := true;
      }
      migrated := migrated + [line];
    }
    assert lines[..|lines|] == lines;
    UncountedIsUnchanged(lines);
  }

  method StripChainLine(line: Line) returns (stripped: Line, changed: bool)
    ensures (stripped, changed) == StripChain(line)
  {
    if !line.Event? || !line.value.Obj? {
      return line, false;
    }
    var obj := line.value.fields;
    if "metadata" !in obj || !obj["metadata"].Obj? {
      return line, false;
    }
    var metadata := obj["metadata"].fields;
    changed := false;
    if "checksum" in metadata {
      metadata := metadata - {"checksum"};
      changed := true;
    }
    if "prevEventHash" in metadata {
      metadata := metadata - {"prevEventHash"};
      changed := true;
    }
    ghost var kept := obj["metadata"].fields - {"checksum"} - {"prevEventHash"};
    assert metadata == kept && (changed <==> metadata != obj["metadata"].fields);
    assert obj["metadata" := Obj(metadata)] == Stripped(obj);
    assert changed ==> Stripped(obj)["metadata"] != obj["metadata"];
    stripped := if changed then Event(Obj(obj["metadata" := Obj(metadata)])) else line;
  }

  /** Every line in place, and whether any of them changed. */
  method StripChainFile(lines: seq<Line>) returns (stripped: seq<Line>, fileChanged: bool)
    ensures stripped == StripChainAll(lines)
    ensures fileChanged == (stripped != lines)
  {
    stripped, fileChanged := [], false;
    for i := 0 to |lines|
      invariant stripped == StripChainAll(lines)[..i]
      invariant fileChanged == (stripped != lines[..i])
    {
      var line, changed := StripChainLine(lines[i]);
      StrippedDiffers(lines[i]);
      assert lines[..i + 1] == lines[..i] + [lines[i]];
      assert (stripped + [line])[..i] == stripped && lines[..i + 1][..i] == lines[..i];
      assert (stripped + [line])[i] == line && lines[..i + 1][i] == lines[i];
      fileChanged := fileChanged || changed;
      stripped := stripped + [line];
    }
    assert lines[..|lines|] == lines;
  }

  lemma StrippedDiffers(line: Line)
    ensures StripChain(line).1 <==> StripChain(line).0 != line
  {}

  method StripFile(lines: seq<Line>) returns (kept: seq<Line>, totalStripped: nat, fileChanged: bool)
    ensures kept == StripEmbeddings(lines)
    ensures totalStripped == |lines| - |kept| && fileChanged == (totalStripped > 0)
    ensures !fileChanged ==> kept == lines
  {
    kept, totalStripped, fileChanged := [], 0, false;
    for i := 0 to |lines|
      invariant kept == StripEmbeddings(lines[..i])
      invariant totalStripped == i - |kept| && fileChanged == (totalStripped > 0)
      invariant !fileChanged ==> kept == lines[..i]
    {
      assert Front(lines[..i + 1]) == lines[..i];
      if IsEmbedding(lines[i]) {
        totalStripped := totalStripped + 1;
        fileChanged := true;
      } else {
        kept := kept + [lines[i]];
      }
    }
    assert lines[..|lines|] == lines;
  }

  // ----- Idempotence -----

  /**
   * The lines on which a second pass would still find something to do: an event without a type that itself
   * wraps an event; a type that is not a string but turns into a known name; a type named like an inherited
   * function, which is lost and leaves an envelope behind.
   */
  predicate Unstable(m: Fields) {
    if Nested(m) then
      var e := Spread(m["event"]);
      || (("type" !in e || TypeFound(e) == Inherited) && "event" in e && ObjectLike(e["event"]))
      || ("type" in e && !e["type"].Str? && CoercedTypeFound(e).Some? && CoercedTypeFound(e).value != Missing)
    else
      CoercedTypeFound(m) == Some(Inherited) && "event" in m && "metadata" in m && ObjectLike(m["event"])
  }

  lemma JoinedFields(m: Fields)
    requires Nested(m)
    ensures var e, j := Spread(m["event"]), Joined(m);
      && "metadata" in j && j["metadata"] == m["metadata"]
      && ("event" in j <==> "event" in e) && ("event" in e ==> j["event"] == e["event"])
      && ("type" in j <==> "type" in e) && ("type" in e ==> j["type"] == e["type"])
      && ("payload" in j <==> "payload" in e || "payload" in m)
      && ("payload" in e && "payload" !in m ==> j["payload"] == e["payload"])
      && ("payload" in m ==> j["payload"] == m["payload"])
  {
    var rest := m - {"event", "metadata", "signature"};
    assert "type" !in rest && "event" !in rest && "metadata" !in rest;
    assert "payload" in rest <==> "payload" in m;
  }

  lemma DatedFields(m: Fields)
    ensures var d := WithoutMetadata(m, "timestamp");
      && d.Keys == m.Keys && WithoutMetadata(d, "timestamp") == d
      && forall k :: k in m && k != "metadata" ==> d[k] == m[k]
  {}

  lemma TypedFields(m: Fields, found: Found)
    requires "type" in m || found == Missing
    ensures var t := SetType(m, found);
      && (forall k :: k != "type" ==> (k in t <==> k in m) && (k in m ==> t[k] == m[k]))
      && ("type" in t <==> "type" in m && found != Inherited)
  {}

  lemma FlattenedFields(m: Fields)
    requires Nested(m)
    ensures var e, flat := Spread(m["event"]), FlattenEvent(m);
      && "metadata" in flat && WithoutMetadata(flat, "timestamp") == flat
      && ("event" in flat <==> "event" in e) && ("event" in e ==> flat["event"] == e["event"])
      && ("type" in flat <==> "type" in e && TypeFound(e) != Inherited)
      && ("type" in flat ==> flat["type"] == SetType(e, TypeFound(e))["type"])
      && ("payload" in flat <==> "payload" in e || "payload" in m)
      && ("payload" in e && "payload" !in m ==> flat["payload"] == e["payload"])
      && ("payload" in m ==> flat["payload"] == m["payload"])
  {
    var dated := WithoutMetadata(Joined(m), "timestamp");
    JoinedFields(m);
    DatedFields(Joined(m));
    assert TypeFound(dated) == TypeFound(Spread(m["event"]));
    TypedFields(dated, TypeFound(dated));
  }

  /** After one pass a string type is settled. */
  lemma SettledType(e: Fields)
    requires "type" in e && e["type"].Str? && TypeFound(e) != Inherited
    ensures CoercedTypeFound(SetType(e, TypeFound(e))) == Some(Missing)
  {
    var s := e["type"].s;
    if s in MAPPING {
      RenamingDoesNotChain(s);
    }
    assert LookUp("[object Object]") == Missing;
  }

  lemma NestedIdempotenceIff(m: Fields)
    requires Nested(m)
    ensures MigrateFields(FlattenEvent(m)).1 <==> Unstable(m)
  {
    var e, flat := Spread(m["event"]), FlattenEvent(m);
    FlattenedFields(m);
    if "type" in flat {
      if e["type"].Str? {
        SettledType(e);
        assert CoercedTypeFound(flat) == CoercedTypeFound(SetType(e, TypeFound(e)));
      } else {
        assert CoercedTypeFound(flat) == CoercedTypeFound(e);
      }
    }
  }

  /** Once the type has been assigned, a lookup finds nothing more, unless the type was lost. */
  lemma AssignedTypeSettles(m: Fields, found: Found)
    requires CoercedTypeFound(m) == Some(found)
    ensures found != Inherited ==> CoercedTypeFound(SetType(m, found)) == Some(Missing)
    ensures found == Inherited ==> "type" in m && "type" !in SetType(m, found)
  {
    if found.Renamed? {
      RenamingDoesNotChain(ToKey(m["type"]).value);
    } else if found.Prototype? {
      assert LookUp("[object Object]") == Missing;
    }
  }

  lemma FlatIdempotenceIff(m: Fields)
    requires !Nested(m) && MigrateFields(m).1
    ensures MigrateFields(MigrateFields(m).0).1 <==> Unstable(m)
  {
    var found := CoercedTypeFound(m).value;
    var typed := SetType(m, found);
    AssignedTypeSettles(m, found);
    assert "type" !in m ==> found == Missing;
    TypedFields(m, found);
    DatedFields(typed);
    assert CoercedTypeFound(WithoutMetadata(typed, "timestamp")) == CoercedTypeFound(typed);
  }

  /** An envelope cannot come out of its own flattening: its event would have to contain itself. */
  lemma FlatteningDiffers(m: Fields)
    requires Nested(m)
    ensures FlattenEvent(m) != m
  {
    FlattenedFields(m);
    if m["event"].Obj? && "event" in m["event"].fields {
      assert m["event"].fields["event"] != m["event"];
    }
  }

  /** A line reported as changed did change. */
  lemma ChangedDiffers(m: Fields)
    ensures MigrateFields(m).1 <==> MigrateFields(m).0 != m
  {
    if Nested(m) {
      FlatteningDiffers(m);
    } else if CoercedTypeFound(m).Some? {
      FlatChangeDiffers(m, CoercedTypeFound(m).value);
    }
  }

  lemma FlatChangeDiffers(m: Fields, found: Found)
    requires CoercedTypeFound(m) == Some(found)
    ensures var typed := SetType(m, found);
      WithoutMetadata(typed, "timestamp") == m <==> found == Missing && WithoutMetadata(typed, "timestamp") == typed
  {
    var typed := SetType(m, found);
    AssignedTypeSettles(m, found);
    DatedFields(typed);
    if found != Missing {
      assert "type" in m;
      assert "type" in typed ==> WithoutMetadata(typed, "timestamp")["type"] == typed["type"];
      assert found.Inherited? ==> "type" !in WithoutMetadata(typed, "timestamp");
      assert !found.Inherited? ==> CoercedTypeFound(m) != CoercedTypeFound(typed) && typed["type"] != m["type"];
    }
  }

  predicate UnstableLine(line: Line) {
    line.Event? && line.value.Obj? && Unstable(line.value.fields)
  }

  /**
   * Running the pass again gives the same output exactly on the lines that are not unstable, and the flag it
   * reports is right about that.
   */
  lemma MigrateIsIdempotentIff(line: Line)
    ensures var once := Migrate(line).0;
      && (Migrate(once).0 == once <==> !UnstableLine(line))
      && (Migrate(once).1 <==> UnstableLine(line))
  {
    if line.Event? && line.value.Obj? {
      var m := line.value.fields;
      ChangedDiffers(m);
      ChangedDiffers(MigrateFields(m).0);
      if Nested(m) {
        NestedIdempotenceIff(m);
      } else if MigrateFields(m).1 {
        FlatIdempotenceIff(m);
      }
    }
  }

  /** A whole file comes out the same the second time exactly if it has no unstable line. */
  lemma FileIsStableIff(lines: seq<Line>)
    ensures MigrateAll(MigrateAll(lines)) == MigrateAll(lines)
       <==> forall line :: line in lines ==> !UnstableLine(line)
  {
    var once := MigrateAll(lines);
    forall i | 0 <= i < |lines|
      ensures MigrateAll(once)[i] == once[i] <==> !UnstableLine(lines[i])
    {
      MigrateIsIdempotentIff(lines[i]);
    }
    if MigrateAll(once) == once {
      forall line | line in lines
        ensures !UnstableLine(line)
      {
        var i :| 0 <= i < |lines| && lines[i] == line;
        assert MigrateAll(once)[i] == once[i];
      }
    }
    if forall line :: line in lines ==> !UnstableLine(line) {
      forall i | 0 <= i < |lines|
        ensures MigrateAll(once)[i] == once[i]
      {
        assert lines[i] in lines;
      }
    }
  }

  /** An envelope whose event has no type and wraps another event: each pass takes off one layer. */
  lemma WrappedTwiceIsUnstable(v: Value, inner: Value)
    requires ObjectLike(inner)
    ensures UnstableLine(Event(Obj(map["event" := Obj(map["event" := inner]), "metadata" := v])))
  {}

  /** An envelope around an event whose type is a list that spells a name the lookup finds: the first pass skips it. */
  lemma ListTypeIsUnstable(name: string, v: Value)
    requires LookUp(name) != Missing
    ensures UnstableLine(Event(Obj(map["event" := Obj(map["type" := Arr([Str(name)])]), "metadata" := v])))
  {
    assert ToKey([Str(name)][0]) == Some(name);
    assert ToKey(Arr([Str(name)])) == Some(name);
  }

  /** A flat line with an inherited name for its type loses it and becomes an envelope. */
  lemma InheritedTypeIsUnstable(name: string, event: Value, v: Value)
    requires name in INHERITED && ObjectLike(event)
    ensures UnstableLine(Event(Obj(map["type" := Str(name), "event" := event, "metadata" := v])))
  {
    InheritedIsNotMapped(name);
    var m: Fields := map["type" := Str(name), "event" := event, "metadata" := v];
    assert CoercedTypeFound(m) == Some(LookUp(name));
  }

  lemma InheritedIsNotMapped(name: string)
    requires name in INHERITED
    ensures name != "" && name !in MAPPING
  {
    InheritedInitial(name);
    if name in MAPPING {
      MappedInitial(name);
      assert false;
    }
  }

  lemma MappedInitial(key: string)
    requires key in MAPPING
    ensures key != "" && key[0] in {'r', 'a', 'e', 'm', 'j'}
  {}

  lemma InheritedInitial(name: string)
    requires name in INHERITED
    ensures name != "" && name[0] in {'c', 'h', 'i', 'p', 't', 'v', '_'}
  {}

  /** An event that carries a string type not named like an inherited function is never unstable. */
  lemma StringTypesAreStable(m: Fields)
    requires var e := if Nested(m) then Spread(m["event"]) else m;
      "type" in e && e["type"].Str? && LookUp(e["type"].s) != Inherited
    ensures !Unstable(m)
  {}

  // ----- The passes together -----

  lemma MetadataDropsCommute(m: Fields, a: string, b: string)
    ensures WithoutMetadata(WithoutMetadata(m, a), b) == WithoutMetadata(WithoutMetadata(m, b), a)
  {
    if "metadata" in m && m["metadata"].Obj? {
      var d := m["metadata"].fields;
      assert d - {a} - {b} == d - {b} - {a};
    }
  }

  function Stripped(m: Fields): Fields {
    WithoutMetadata(WithoutMetadata(m, "checksum"), "prevEventHash")
  }

  lemma StrippedAndDated(m: Fields)
    ensures WithoutMetadata(Stripped(m), "timestamp") == Stripped(WithoutMetadata(m, "timestamp"))
  {
    MetadataDropsCommute(WithoutMetadata(m, "checksum"), "prevEventHash", "timestamp");
    MetadataDropsCommute(m, "checksum", "timestamp");
  }

  lemma StrippedAndTyped(m: Fields, found: Found)
    ensures Stripped(SetType(m, found)) == SetType(Stripped(m), found)
  {}

  lemma NestedCommutes(m: Fields)
    requires Nested(m)
    ensures Nested(Stripped(m)) && FlattenEvent(Stripped(m)) == Stripped(FlattenEvent(m))
  {
    StrippedJoin(m);
    StrippedAndDated(Joined(m));
    var dated := WithoutMetadata(Joined(m), "timestamp");
    assert TypeFound(Stripped(dated)) == TypeFound(dated);
    StrippedAndTyped(dated, TypeFound(dated));
  }

  lemma PutBetween(e: Fields, v: Value, w: Value, rest: Fields)
    requires "metadata" !in rest
    ensures (e + map["metadata" := w]) + rest == ((e + map["metadata" := v]) + rest)["metadata" := w]
  {}

  lemma PutsCommute(m: Fields, a: string, v: Value, b: string, w: Value)
    requires a != b
    ensures m[a := v][b := w] == m[b := w][a := v]
  {}

  lemma MetadataPassesThrough(m: Fields, v: Value)
    requires Nested(m)
    ensures Nested(m["metadata" := v]) && Joined(m["metadata" := v]) == Joined(m)["metadata" := v]
  {
    var rest := m - {"event", "metadata", "signature"};
    assert m["metadata" := v] - {"event", "metadata", "signature"} == rest;
    PutBetween(Spread(m["event"]), m["metadata"], v, rest);
    if "signature" in m {
      PutsCommute((Spread(m["event"]) + map["metadata" := m["metadata"]]) + rest,
                  "metadata", v, "signature", m["signature"]);
    }
  }

  lemma DropInJoin(m: Fields, name: string)
    requires Nested(m)
    ensures Nested(WithoutMetadata(m, name)) && Joined(WithoutMetadata(m, name)) == WithoutMetadata(Joined(m), name)
  {
    JoinedFields(m);
    if WithoutMetadata(m, name) != m {
      MetadataPassesThrough(m, Obj(m["metadata"].fields - {name}));
    }
  }

  lemma StrippedJoin(m: Fields)
    requires Nested(m)
    ensures Nested(Stripped(m)) && Joined(Stripped(m)) == Stripped(Joined(m))
  {
    DropInJoin(m, "checksum");
    DropInJoin(WithoutMetadata(m, "checksum"), "prevEventHash");
  }

  lemma FlatCommutes(m: Fields)
    requires !Nested(m)
    ensures !Nested(Stripped(m)) && MigrateFields(Stripped(m)).0 == Stripped(MigrateFields(m).0)
  {
    assert CoercedTypeFound(Stripped(m)) == CoercedTypeFound(m);
    if CoercedTypeFound(m).Some? {
      StrippedAndTyped(m, CoercedTypeFound(m).value);
      StrippedAndDated(SetType(m, CoercedTypeFound(m).value));
    }
  }

  /** Renaming and chain stripping may run in either order. */
  lemma PassesCommute(line: Line)
    ensures StripChain(Migrate(line).0).0 == Migrate(StripChain(line).0).0
  {
    if line.Event? && line.value.Obj? {
      var m := line.value.fields;
      if Nested(m) {
        NestedCommutes(m);
      } else {
        FlatCommutes(m);
        UnchangedIsSame(m);
        UnchangedIsSame(Stripped(m));
      }
    }
  }

  lemma UnchangedIsSame(m: Fields)
    ensures !MigrateFields(m).1 ==> MigrateFields(m).0 == m
  {}

  /** Stripping chain metadata again changes nothing. */
  lemma StripChainIsIdempotent(line: Line)
    ensures StripChain(StripChain(line).0) == (StripChain(line).0, false)
  {}

  /** An embedding event at the top level, under its old or its new name. */
  predicate NamesEmbedding(line: Line) {
    && line.Event? && line.value.Obj? && "type" in line.value.fields
    && line.value.fields["type"] in {Str("embedding:computed"), Str("embedding:deleted"),
                                     Str("embedding.computed"), Str("embedding.deleted")}
  }

  lemma FoundNamesAreNew(key: string)
    ensures LookUp(key).Renamed? ==> NewName(LookUp(key).to)
  {
    if key in MAPPING {
      TableLeadsToNewNames(key);
    }
  }

  /** Renaming leaves no string type that is an old embedding name. */
  lemma RenamedTypeIsNotOld(m: Fields, found: Found)
    requires "type" in m && m["type"].Str? ==> found == LookUp(m["type"].s)
    requires found.Renamed? ==> NewName(found.to)
    ensures var m' := SetType(m, found);
      "type" in m' && "type" in m ==>
        m'["type"] != Str("embedding.computed") && m'["type"] != Str("embedding.deleted")
  {
    assert LookUp("embedding.computed") == Renamed("embedding:computed");
    assert LookUp("embedding.deleted") == Renamed("embedding:deleted");
    OldNamesAreNotNew("embedding.computed");
    OldNamesAreNotNew("embedding.deleted");
  }

  lemma MigratedNamesAreNew(line: Line)
    ensures NamesEmbedding(Migrate(line).0) ==> IsEmbedding(Migrate(line).0)
  {
    if line.Event? && line.value.Obj? {
      var m := line.value.fields;
      UnchangedIsSame(m);
      if Nested(m) {
        var dated := WithoutMetadata(Joined(m), "timestamp");
        if "type" in dated && dated["type"].Str? {
          FoundNamesAreNew(dated["type"].s);
        }
        RenamedTypeIsNotOld(dated, TypeFound(dated));
      } else if CoercedTypeFound(m).Some? {
        if "type" in m && Truthy(m["type"]) {
          FoundNamesAreNew(ToKey(m["type"]).value);
        }
        RenamedTypeIsNotOld(m, CoercedTypeFound(m).value);
      }
    }
  }

  lemma {:induction false} StripKeepsOthers(lines: seq<Line>)
    ensures forall line :: line in StripEmbeddings(lines) ==> line in lines && !IsEmbedding(line)
  {
    if lines != [] {
      StripKeepsOthers(Front(lines));
    }
  }

  /** Renamed, then stripped: no embedding event is left under either naming. */
  lemma NoEmbeddingIsLeft(lines: seq<Line>)
    ensures forall line :: line in StripEmbeddings(MigrateAll(lines)) ==> !NamesEmbedding(line)
  {
    StripKeepsOthers(MigrateAll(lines));
    forall line | line in StripEmbeddings(MigrateAll(lines))
      ensures !NamesEmbedding(line)
    {
      var i :| 0 <= i < |lines| && MigrateAll(lines)[i] == line;
      MigratedNamesAreNew(lines[i]);
    }
  }
}
