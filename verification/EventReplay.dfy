/** Replaying a resource's events: the fold of the cleanup script, and what the rewriting passes leave of it. */
module EventReplay {
  import opened Prelude
  import opened EventLog
  import opened EventPasses

  /** What one event does to the replay. `Crash`: reading `payload` of a `null` line throws. */
  datatype Effect =
    | Crash
    | Store(uri: Option<string>, name: Option<string>)
    | Move(to: Option<string>)
    | Archive
    | Unarchive
    | Skip

  function StringField(payload: Value, name: string): Option<string> {
    if payload.Obj? && name in payload.fields && payload.fields[name].Str? then Some(payload.fields[name].s) else None
  }

  function TypedEffect(kind: Value, payload: Value): Effect {
    if !kind.Str? then Skip
    else if kind.s == "yield:created" || kind.s == "yield:cloned" then
      Store(StringField(payload, "storageUri"), StringField(payload, "name"))
    else if kind.s == "yield:moved" then Move(StringField(payload, "toUri"))
    else if kind.s == "mark:archived" then Archive
    else if kind.s == "mark:unarchived" then Unarchive
    else Skip
  }

  function FieldOr(m: Fields, name: string): Value {
    if name in m then m[name] else Null
  }

  function EffectOf(v: Value): Effect {
    match v
    case Null => Crash
    case Obj(m) => TypedEffect(FieldOr(m, "type"), FieldOr(m, "payload"))
    case _ => Skip
  }

  /** The effects of the lines that parse. */
  function Effects(lines: seq<Line>): seq<Effect> {
    if lines == [] then []
    else Effects(Front(lines)) + if Last(lines).Event? then [EffectOf(Last(lines).value)] else []
  }

  datatype Replay = Replay(uri: Option<string>, archived: bool, name: string)

  function Step(r: Replay, e: Effect): Replay {
    match e
    case Store(uri, name) =>
      Replay(if uri.Some? then uri else r.uri, r.archived, if name.Some? then name.value else r.name)
    case Move(to) => r.(uri := if to.Some? then to else r.uri)
    case Archive => r.(archived := true)
    case Unarchive => r.(archived := false)
    case _ => r
  }

  function Fold(effects: seq<Effect>): Replay {
    if effects == [] then Replay(None, false, "") else Step(Fold(Front(effects)), Last(effects))
  }

  // ----- What the fold means -----

  function SetsUri(e: Effect): Option<string> {
    match e
    case Store(uri, _) => uri
    case Move(to) => to
    case _ => None
  }

  predicate SetsArchived(e: Effect) {
    e.Archive? || e.Unarchive?
  }

  /** Effect `i` sets the location, and none after it does. */
  predicate LastLocation(effects: seq<Effect>, i: nat) {
    && i < |effects| && SetsUri(effects[i]) != None
    && forall j :: i < j < |effects| ==> SetsUri(effects[j]) == None
  }

  /** Effect `i` archives, and none after it archives or unarchives. */
  predicate LastArchive(effects: seq<Effect>, i: nat) {
    && i < |effects| && effects[i].Archive?
    && forall j :: i < j < |effects| ==> !SetsArchived(effects[j])
  }

  predicate NoLocation(effects: seq<Effect>) {
    forall i :: 0 <= i < |effects| ==> SetsUri(effects[i]) == None
  }

  lemma LocationSnoc(effects: seq<Effect>, e: Effect, i: nat)
    ensures NoLocation(effects + [e]) <==> NoLocation(effects) && SetsUri(e) == None
    ensures i < |effects| ==>
      (LastLocation(effects + [e], i) <==> LastLocation(effects, i) && SetsUri(e) == None)
  {
    var all := effects + [e];
    assert forall j :: 0 <= j < |effects| ==> all[j] == effects[j];
    assert all[|effects|] == e;
  }

  lemma StepSetsLocation(r: Replay, e: Effect)
    ensures Step(r, e).uri == if SetsUri(e).Some? then SetsUri(e) else r.uri
  {}

  lemma {:induction false} LocationSetAt(effects: seq<Effect>, i: nat)
    requires LastLocation(effects, i)
    ensures Fold(effects).uri == SetsUri(effects[i])
  {
    var before, e := Front(effects), Last(effects);
    assert effects == before + [e];
    StepSetsLocation(Fold(before), e);
    LocationSnoc(before, e, i);
    if i < |before| {
      LocationSetAt(before, i);
    }
  }

  lemma {:induction false} LocationNeverSet(effects: seq<Effect>)
    ensures Fold(effects).uri == None <==> NoLocation(effects)
  {
    if effects != [] {
      var before, e := Front(effects), Last(effects);
      LocationNeverSet(before);
      StepSetsLocation(Fold(before), e);
      LocationSnoc(before, e, 0);
      assert effects == before + [e];
    }
  }

  /** The location is the one set last. */
  lemma FoldTakesTheLastLocation(effects: seq<Effect>)
    ensures Fold(effects).uri == None <==> NoLocation(effects)
    ensures forall i: nat :: LastLocation(effects, i) ==> Fold(effects).uri == SetsUri(effects[i])
  {
    LocationNeverSet(effects);
    forall i: nat | LastLocation(effects, i)
      ensures Fold(effects).uri == SetsUri(effects[i])
    {
      LocationSetAt(effects, i);
    }
  }

  /** The resource is archived exactly if the last word on it is an archiving. */
  lemma {:induction false} FoldTakesTheLastArchive(effects: seq<Effect>)
    ensures Fold(effects).archived <==> exists i: nat :: LastArchive(effects, i)
  {
    if effects != [] {
      var before, n := Front(effects), |effects| - 1;
      FoldTakesTheLastArchive(before);
      if effects[n].Archive? {
        assert LastArchive(effects, n);
      } else {
        forall i: nat
          ensures LastArchive(effects, i) <==> !SetsArchived(effects[n]) && LastArchive(before, i)
        {
          assert forall j :: 0 <= j < n ==> before[j] == effects[j];
        }
      }
    }
  }

  /** Effects the replay does not see can be left out. */
  lemma {:induction false} FoldSkips(effects: seq<Effect>)
    ensures Fold(Visible(effects)) == Fold(effects)
  {
    if effects != [] {
      FoldSkips(Front(effects));
      var v := Visible(Front(effects));
      if Last(effects) == Skip {
        assert v + [] == v;
      } else {
        assert Front(v + [Last(effects)]) == v;
      }
    }
  }

  function Visible(effects: seq<Effect>): seq<Effect> {
    if effects == [] then [] else Visible(Front(effects)) + if Last(effects) == Skip then [] else [Last(effects)]
  }

  // ----- The replay loop -----

  lemma OneLineMore(lines: seq<Line>, i: nat)
    requires i < |lines|
    ensures Effects(lines[..i + 1])
         == Effects(lines[..i]) + if lines[i].Event? then [EffectOf(lines[i].value)] else []
  {
    assert Front(lines[..i + 1]) == lines[..i];
  }

  lemma FoldSnoc(effects: seq<Effect>, e: Effect)
    ensures Fold(effects + [e]) == Step(Fold(effects), e)
  {
    assert Front(effects + [e]) == effects;
  }

  /** The effects of the parsed lines, in order. */
  method ReadEvents(lines: seq<Line>) returns (effects: seq<Effect>)
    ensures effects == Effects(lines)
  {
    effects := [];
    for i := 0 to |lines|
      invariant effects == Effects(lines[..i])
    {
      OneLineMore(lines, i);
      if lines[i].Event? {
        effects := effects + [EffectOf(lines[i].value)];
      }
    }
    assert lines[..|lines|] == lines;
  }

  method ReplayEvents(effects: seq<Effect>) returns (r: Option<Replay>)
    ensures r == if Crash in effects then None else Some(Fold(effects))
  {
    var storageUri: Option<string>, isArchived, name := None, false, "";
    for i := 0 to |effects|
      invariant Crash !in effects[..i]
      invariant Replay(storageUri, isArchived, name) == Fold(effects[..i])
    {
      assert effects[..i + 1] == effects[..i] + [effects[i]];
      FoldSnoc(effects[..i], effects[i]);
      match effects[i] {
        case Crash =>
          return None;
        case Store(uri, n) =>
          storageUri := if uri.Some? then uri else storageUri;
          name := if n.Some? then n.value else name;
        case Move(to) =>
          storageUri := if to.Some? then to else storageUri;
        case Archive =>
          isArchived := true;
        case Unarchive =>
          isArchived := false;
        case Skip =>
      }
    }
    assert effects[..|effects|] == effects;
    r := Some(Replay(storageUri, isArchived, name));
  }

  // ----- The passes preserve the replay -----

  /** The event a line of the original log stands for: unwrapped, with its string type read through the table. */
  function OriginalEffect(v: Value): Effect {
    if !v.Obj? then EffectOf(v)
    else
      var e := if Nested(v.fields) then Spread(v.fields["event"]) else v.fields;
      var kind := FieldOr(e, "type");
      TypedEffect(NewType(kind), FieldOr(e, "payload"))
  }

  function OriginalEffects(lines: seq<Line>): seq<Effect> {
    if lines == [] then []
    else OriginalEffects(Front(lines)) + if Last(lines).Event? then [OriginalEffect(Last(lines).value)] else []
  }

  /** The names the replay reacts to. */
  predicate ReplayName(s: string) {
    s == "yield:created" || s == "yield:cloned" || s == "yield:moved" || s == "mark:archived" || s == "mark:unarchived"
  }

  function NewType(kind: Value): Value {
    if kind.Str? && kind.s in MAPPING then Str(MAPPING[kind.s]) else kind
  }

  /** The payload fields the replay reads from an event of a type. */
  function FieldsRead(kind: Value): set<string> {
    if kind == Str("yield:created") || kind == Str("yield:cloned") then {"storageUri", "name"}
    else if kind == Str("yield:moved") then {"toUri"}
    else {}
  }

  /**
   * An envelope with a payload of its own agrees with the event's on what the replay reads, and a type that is
   * not a string does not spell the old name of a type the replay reacts to.
   */
  predicate KeepsItsEvent(line: Line) {
    line.Event? && line.value.Obj? ==>
      var m := line.value.fields;
      if Nested(m) then
        var e := Spread(m["event"]);
        "payload" in m ==>
          forall f :: f in FieldsRead(NewType(FieldOr(e, "type"))) ==>
            StringField(m["payload"], f) == StringField(FieldOr(e, "payload"), f)
      else
        "type" in m && !m["type"].Str? && CoercedTypeFound(m).Some? && CoercedTypeFound(m).value.Renamed? ==>
          !ReplayName(CoercedTypeFound(m).value.to)
  }

  /** An event under an old name has the effect its new name has. */
  lemma OldNamesKeepTheirMeaning(payload: Value)
    ensures TypedEffect(NewType(Str("resource.created")), payload) == TypedEffect(Str("yield:created"), payload)
    ensures TypedEffect(NewType(Str("resource.cloned")), payload) == TypedEffect(Str("yield:cloned"), payload)
    ensures TypedEffect(NewType(Str("resource.moved")), payload) == TypedEffect(Str("yield:moved"), payload)
    ensures TypedEffect(NewType(Str("resource.archived")), payload) == Archive
    ensures TypedEffect(NewType(Str("resource.unarchived")), payload) == Unarchive
  {
    assert MAPPING["resource.created"] == "yield:created" && MAPPING["resource.cloned"] == "yield:cloned";
    assert MAPPING["resource.moved"] == "yield:moved";
    assert MAPPING["resource.archived"] == "mark:archived" && MAPPING["resource.unarchived"] == "mark:unarchived";
  }

  /** Every other old name stays out of the replay. */
  lemma OtherOldNamesAreSkipped(name: string, payload: Value)
    requires name in MAPPING
    requires name !in {"resource.created", "resource.cloned", "resource.moved",
                       "resource.archived", "resource.unarchived"}
    ensures TypedEffect(NewType(Str(name)), payload) == Skip
  {
    assert !ReplayName(MAPPING[name]);
  }

  lemma InheritedIsNoReplayName(s: string)
    requires s in INHERITED || s == "__proto__"
    ensures !ReplayName(s)
  {
    InheritedNamesAreNotNew(s);
  }

  /** Setting the type the lookup found has the effect of reading the type through the table. */
  lemma RenamedEffect(kind: string, m: Fields, payload: Value)
    requires "type" in m && m["type"] == Str(kind)
    ensures TypedEffect(FieldOr(SetType(m, LookUp(kind)), "type"), payload)
         == TypedEffect(NewType(Str(kind)), payload)
  {
    if kind !in MAPPING && (kind in INHERITED || kind == "__proto__") {
      InheritedIsNoReplayName(kind);
    }
  }

  lemma SameFieldsSameEffect(kind: Value, p: Value, q: Value)
    ensures TypedEffect(kind, p) == TypedEffect(kind, q)
      <==> forall f :: f in FieldsRead(kind) ==> StringField(p, f) == StringField(q, f)
  {}

  lemma FlattenedEffect(m: Fields)
    requires Nested(m)
    ensures var e := Spread(m["event"]);
      EffectOf(Obj(FlattenEvent(m)))
        == TypedEffect(NewType(FieldOr(e, "type")), if "payload" in m then m["payload"] else FieldOr(e, "payload"))
  {
    var e, flat := Spread(m["event"]), FlattenEvent(m);
    FlattenedFields(m);
    var payload := FieldOr(flat, "payload");
    assert payload == if "payload" in m then m["payload"] else FieldOr(e, "payload");
    if "type" in e && e["type"].Str? {
      FlattenedType(m);
      RenamedEffect(e["type"].s, e, payload);
    } else {
      assert FieldOr(flat, "type") == FieldOr(e, "type");
    }
  }

  lemma FlattenedType(m: Fields)
    requires Nested(m) && "type" in Spread(m["event"]) && Spread(m["event"])["type"].Str?
    ensures var e := Spread(m["event"]);
      FieldOr(FlattenEvent(m), "type") == FieldOr(SetType(e, LookUp(e["type"].s)), "type")
  {
    FlattenedFields(m);
  }

  lemma NestedEffect(m: Fields)
    requires Nested(m)
    ensures EffectOf(Obj(FlattenEvent(m))) == OriginalEffect(Obj(m)) <==> KeepsItsEvent(Event(Obj(m)))
  {
    var e := Spread(m["event"]);
    FlattenedEffect(m);
    if "payload" in m {
      SameFieldsSameEffect(NewType(FieldOr(e, "type")), m["payload"], FieldOr(e, "payload"));
    }
  }

  lemma ReplayNamesAreSeen(kind: Value, payload: Value)
    ensures TypedEffect(kind, payload) != Skip <==> kind.Str? && ReplayName(kind.s)
  {}

  lemma FlatEffect(m: Fields)
    requires !Nested(m)
    ensures EffectOf(Obj(MigrateFields(m).0)) == OriginalEffect(Obj(m)) <==> KeepsItsEvent(Event(Obj(m)))
  {
    var payload := FieldOr(m, "payload");
    if CoercedTypeFound(m).Some? {
      var found := CoercedTypeFound(m).value;
      var renamed := SetType(m, found);
      DatedFields(renamed);
      assert FieldOr(WithoutMetadata(renamed, "timestamp"), "type") == FieldOr(renamed, "type");
      assert FieldOr(WithoutMetadata(renamed, "timestamp"), "payload") == payload;
      if "type" in m && m["type"].Str? && Truthy(m["type"]) {
        RenamedEffect(m["type"].s, m, payload);
      } else if "type" in m && m["type"].Str? {
        EmptyTypeIsUnknown();
      } else {
        ReplayNamesAreSeen(FieldOr(renamed, "type"), payload);
      }
    }
  }

  lemma EmptyTypeIsUnknown()
    ensures "" !in MAPPING
  {
    if "" in MAPPING {
      OldNamesAreNotNew("");
    }
  }

  /** Renaming a line keeps the effect of its event exactly under that condition. */
  lemma MigrationKeepsTheEffectIff(line: Line)
    requires line.Event?
    ensures Migrate(line).0.Event?
    ensures EffectOf(Migrate(line).0.value) == OriginalEffect(line.value) <==> KeepsItsEvent(line)
  {
    if line.value.Obj? {
      var m := line.value.fields;
      UnchangedIsSame(m);
      if Nested(m) {
        NestedEffect(m);
      } else {
        FlatEffect(m);
      }
    }
  }

  lemma StrippedEffect(line: Line)
    ensures StripChain(line).0.Event? <==> line.Event?
    ensures line.Event? ==> EffectOf(StripChain(line).0.value) == EffectOf(line.value)
  {}

  lemma SnocAgrees(a: seq<Effect>, b: seq<Effect>, x: Effect, y: Effect)
    requires |a| == |b|
    ensures a + [x] == b + [y] <==> a == b && x == y
  {
    if a + [x] == b + [y] {
      assert (a + [x])[..|a|] == a && (b + [y])[..|a|] == b;
      assert (a + [x])[|a|] == x && (b + [y])[|a|] == y;
    }
  }

  predicate AllKeepTheirEvents(lines: seq<Line>) {
    forall line :: line in lines ==> KeepsItsEvent(line)
  }

  lemma LastOfRewritten(lines: seq<Line>)
    requires lines != []
    ensures var all := StripChainAll(MigrateAll(lines));
      Front(all) == StripChainAll(MigrateAll(Front(lines))) && Last(all) == StripChain(Migrate(Last(lines)).0).0
  {}

  /** The last line keeps its event exactly if its effect is the original one. */
  lemma LastKeepsItsEvent(before: seq<Effect>, original: seq<Effect>, line: Line)
    requires |before| == |original|
    ensures var line' := StripChain(Migrate(line).0).0;
      var after := before + if line'.Event? then [EffectOf(line'.value)] else [];
      var originally := original + if line.Event? then [OriginalEffect(line.value)] else [];
      |after| == |originally| && (after == originally <==> before == original && KeepsItsEvent(line))
  {
    StrippedEffect(Migrate(line).0);
    if line.Event? {
      MigrationKeepsTheEffectIff(line);
      SnocAgrees(before, original, EffectOf(StripChain(Migrate(line).0).0.value), OriginalEffect(line.value));
    } else {
      assert before + [] == before && original + [] == original;
    }
  }

  lemma AllKeepSnoc(lines: seq<Line>)
    requires lines != []
    ensures AllKeepTheirEvents(lines) <==> AllKeepTheirEvents(Front(lines)) && KeepsItsEvent(Last(lines))
  {
    assert lines == Front(lines) + [Last(lines)];
  }

  /** Renaming and chain stripping give the original effects exactly if every line keeps its event. */
  lemma {:induction false} RewritingKeepsTheEffectsIff(lines: seq<Line>)
    ensures |Effects(StripChainAll(MigrateAll(lines)))| == |OriginalEffects(lines)|
    ensures Effects(StripChainAll(MigrateAll(lines))) == OriginalEffects(lines) <==> AllKeepTheirEvents(lines)
  {
    if lines != [] {
      RewritingKeepsTheEffectsIff(Front(lines));
      LastOfRewritten(lines);
      AllKeepSnoc(lines);
      LastKeepsItsEvent(Effects(StripChainAll(MigrateAll(Front(lines)))), OriginalEffects(Front(lines)), Last(lines));
    }
  }

  /** Embedding events are invisible to the replay. */
  lemma {:induction false} StrippingIsInvisible(lines: seq<Line>)
    ensures Visible(Effects(StripEmbeddings(lines))) == Visible(Effects(lines))
  {
    if lines != [] {
      StrippingIsInvisible(Front(lines));
      var kept := StripEmbeddings(Front(lines));
      VisibleSnoc(kept, Last(lines));
      VisibleSnoc(Front(lines), Last(lines));
      assert Front(lines) + [Last(lines)] == lines;
      if IsEmbedding(Last(lines)) {
        assert EffectOf(Last(lines).value) == Skip;
        assert kept + [] == kept;
      }
    }
  }

  lemma VisibleSnoc(lines: seq<Line>, line: Line)
    ensures Visible(Effects(lines + [line])) == Visible(Effects(lines))
      + if line.Event? && EffectOf(line.value) != Skip then [EffectOf(line.value)] else []
  {
    assert Front(lines + [line]) == lines;
    var before := Effects(lines);
    if line.Event? {
      assert Front(before + [EffectOf(line.value)]) == before;
      assert Visible(before) + [] == Visible(before);
    } else {
      assert before + [] == before && Visible(before) + [] == Visible(before);
    }
  }

  lemma {:induction false} VisibleKeepsCrash(effects: seq<Effect>)
    ensures Crash in Visible(effects) <==> Crash in effects
  {
    if effects != [] {
      VisibleKeepsCrash(Front(effects));
      assert effects == Front(effects) + [Last(effects)];
    }
  }

  /** All three passes, one after the other. */
  function Rewritten(lines: seq<Line>): seq<Line> {
    StripEmbeddings(StripChainAll(MigrateAll(lines)))
  }

  /**
   * Replaying the rewritten log gives what the original events say, and fails on exactly the same logs: same
   * location, same archived flag, same name.
   */
  lemma RewritingPreservesReplay(lines: seq<Line>)
    requires AllKeepTheirEvents(lines)
    ensures Fold(Effects(Rewritten(lines))) == Fold(OriginalEffects(lines))
    ensures Crash in Effects(Rewritten(lines)) <==> Crash in OriginalEffects(lines)
  {
    var middle := StripChainAll(MigrateAll(lines));
    RewritingKeepsTheEffectsIff(lines);
    StrippingIsInvisible(middle);
    FoldSkips(Effects(Rewritten(lines)));
    FoldSkips(Effects(middle));
    VisibleKeepsCrash(Effects(Rewritten(lines)));
    VisibleKeepsCrash(Effects(middle));
  }

  /** An envelope that carries its own payload overrides the event's: the move is lost. */
  lemma OverridingEnvelopeLosesTheMove(uri: string)
    ensures var payload := Obj(map["toUri" := Str(uri)]);
      var event := Obj(map["type" := Str("resource.moved"), "payload" := payload]);
      var line := Event(Obj(map["event" := event, "metadata" := Null, "payload" := Null]));
      !KeepsItsEvent(line) && OriginalEffect(line.value) == Move(Some(uri))
      && EffectOf(Migrate(line).0.value) == Move(None)
  {
    var event: Fields := map["type" := Str("resource.moved"), "payload" := Obj(map["toUri" := Str(uri)])];
    var m: Fields := map["event" := Obj(event), "metadata" := Null, "payload" := Null];
    assert MAPPING["resource.moved"] == "yield:moved";
    FlattenedEffect(m);
    MigrationKeepsTheEffectIff(Event(Obj(m)));
  }

  /** A one-element list that spells an old name becomes an event that was not there. */
  lemma ListTypeBecomesAnEvent()
    ensures var line := Event(Obj(map["type" := Arr([Str("resource.archived")])]));
      !KeepsItsEvent(line) && OriginalEffect(line.value) == Skip && EffectOf(Migrate(line).0.value) == Archive
  {
    var m: Fields := map["type" := Arr([Str("resource.archived")])];
    assert ToKey(m["type"]) == Some("resource.archived");
    assert LookUp("resource.archived") == Renamed("mark:archived");
  }
}
