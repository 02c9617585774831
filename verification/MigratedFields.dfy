/** What the rewriting passes leave of a line, field by field. */
module MigratedFields {
  import opened Prelude
  import opened EventLog
  import opened EventPasses

  /** Everything of `before` except the dropped names, and nothing else. */
  ghost predicate Without(before: Fields, after: Fields, dropped: set<string>) {
    && (forall k :: k in after <==> k in before && k !in dropped)
    && (forall k :: k in after ==> after[k] == before[k])
  }

  /** Metadata that is an object loses the dropped names; any other is kept. */
  ghost predicate MetadataWithout(before: Value, after: Value, dropped: set<string>) {
    if before.Obj? then after.Obj? && Without(before.fields, after.fields, dropped) else after == before
  }

  /** The metadata of a line without the dropped names, or still missing. */
  ghost predicate LineMetadataWithout(before: Fields, after: Fields, dropped: set<string>) {
    && ("metadata" in after <==> "metadata" in before)
    && ("metadata" in before ==> MetadataWithout(before["metadata"], after["metadata"], dropped))
  }

  /** How a string type comes out: renamed if old, lost or replaced if it names what every object has, else kept. */
  predicate TypeComesOut(s: string, after: Fields) {
    if s in MAPPING then "type" in after && after["type"] == Str(MAPPING[s])
    else if s in INHERITED then "type" !in after
    else if s == "__proto__" then "type" in after && after["type"] == Obj(map[])
    else "type" in after && after["type"] == Str(s)
  }

  predicate SameField(k: string, before: Fields, after: Fields) {
    (k in after <==> k in before) && (k in before ==> after[k] == before[k])
  }

  lemma DroppedFromMetadata(m: Fields, name: string)
    ensures LineMetadataWithout(m, WithoutMetadata(m, name), {name})
    ensures forall k :: k != "metadata" ==> SameField(k, m, WithoutMetadata(m, name))
  {}

  lemma TypeAssigned(m: Fields, s: string)
    requires "type" in m && m["type"] == Str(s)
    ensures TypeComesOut(s, SetType(m, LookUp(s)))
  {}

  lemma OnlyTheType(m: Fields, found: Found)
    requires "type" in m || found == Missing
    ensures forall k :: k != "type" ==> SameField(k, m, SetType(m, found))
  {}

  // ----- A nested line -----

  /** What an envelope is: an event and metadata, and no type of its own. */
  predicate IsEnvelope(m: Fields) {
    && "event" in m && (m["event"].Obj? || m["event"].Arr? || m["event"].Null?)
    && "metadata" in m && "type" !in m
  }

  /** A field of the envelope other than the event, otherwise of the event. */
  predicate FromBoth(k: string, e: Fields, m: Fields, after: Fields) {
    && (k in after <==> k in e || (k in m && k != "event"))
    && (k in after ==> after[k] == if k in m && k != "event" then m[k] else e[k])
  }

  lemma JoinedFromBoth(m: Fields, k: string)
    requires Nested(m) && k !in {"signature", "metadata"}
    ensures FromBoth(k, Spread(m["event"]), m, Joined(m))
  {
    var rest := m - {"event", "metadata", "signature"};
    assert k in rest <==> k in m && k != "event";
  }

  lemma JoinedSignature(m: Fields)
    requires Nested(m)
    ensures var e, j := Spread(m["event"]), Joined(m);
      if "signature" in m && Truthy(m["signature"])
      then "signature" in j && j["signature"] == m["signature"] else SameField("signature", e, j)
  {
    var rest := m - {"event", "metadata", "signature"};
    assert "signature" !in rest;
  }

  lemma JoinedMetadata(m: Fields)
    requires Nested(m)
    ensures "metadata" in Joined(m) && Joined(m)["metadata"] == m["metadata"]
  {
    var rest := m - {"event", "metadata", "signature"};
    assert "metadata" !in rest;
  }

  lemma OneStepOf(m: Fields, k: string)
    requires Nested(m) && k != "type" && k != "metadata"
    ensures SameField(k, Joined(m), FlattenEvent(m))
  {
    var dated := WithoutMetadata(Joined(m), "timestamp");
    DroppedFromMetadata(Joined(m), "timestamp");
    OnlyTheType(dated, TypeFound(dated));
    assert SameField(k, Joined(m), dated) && SameField(k, dated, FlattenEvent(m));
  }

  lemma FlattenedMetadata(m: Fields)
    requires Nested(m)
    ensures LineMetadataWithout(m, FlattenEvent(m), {"timestamp"})
  {
    var dated := WithoutMetadata(Joined(m), "timestamp");
    JoinedMetadata(m);
    DroppedFromMetadata(Joined(m), "timestamp");
    OnlyTheType(dated, TypeFound(dated));
    assert SameField("metadata", dated, FlattenEvent(m));
  }

  lemma FlattenedTypeComesOut(m: Fields)
    requires Nested(m)
    ensures var e, after := Spread(m["event"]), FlattenEvent(m);
      if "type" in e && e["type"].Str? then TypeComesOut(e["type"].s, after) else SameField("type", e, after)
  {
    var e, dated := Spread(m["event"]), WithoutMetadata(Joined(m), "timestamp");
    JoinedFromBoth(m, "type");
    DroppedFromMetadata(Joined(m), "timestamp");
    assert SameField("type", Joined(m), dated);
    if "type" in e && e["type"].Str? {
      TypeAssigned(dated, e["type"].s);
    }
  }

  /**
   * A flattened line, whole: the event's fields, overridden by the envelope's; a signature of the envelope only if
   * it is truthy; metadata without its timestamp; a string type renamed.
   */
  lemma FlattenedLine(m: Fields)
    requires IsEnvelope(m)
    ensures Migrate(Event(Obj(m))).0.Event? && Migrate(Event(Obj(m))).0.value.Obj? && Migrate(Event(Obj(m))).1
    ensures var e, after := Spread(m["event"]), Migrate(Event(Obj(m))).0.value.fields;
      && (forall k :: k !in {"type", "metadata", "signature"} ==> FromBoth(k, e, m, after))
      && (if "signature" in m && Truthy(m["signature"])
          then "signature" in after && after["signature"] == m["signature"] else SameField("signature", e, after))
      && LineMetadataWithout(m, after, {"timestamp"})
      && (if "type" in e && e["type"].Str? then TypeComesOut(e["type"].s, after) else SameField("type", e, after))
  {
    forall k | k !in {"type", "metadata", "signature"}
      ensures FromBoth(k, Spread(m["event"]), m, FlattenEvent(m))
    {
      JoinedFromBoth(m, k);
      OneStepOf(m, k);
    }
    JoinedSignature(m);
    OneStepOf(m, "signature");
    FlattenedMetadata(m);
    FlattenedTypeComesOut(m);
  }

  /** What is spread: the fields of an object, nothing of `null`. */
  lemma SpreadOfObjects(v: Value)
    ensures v.Obj? ==> Spread(v) == v.fields
    ensures v.Null? ==> Spread(v) == map[]
  {}

  // ----- A flat line -----

  /**
   * Any other line, whole: only the type and the metadata's timestamp can change, and neither does if the type
   * cannot be turned into a name.
   */
  lemma FlatLine(m: Fields)
    requires !IsEnvelope(m)
    ensures Migrate(Event(Obj(m))).0.Event? && Migrate(Event(Obj(m))).0.value.Obj?
    ensures var after := Migrate(Event(Obj(m))).0.value.fields;
      && (forall k :: k !in {"type", "metadata"} ==> SameField(k, m, after))
      && (if "type" in m && Truthy(m["type"]) && ToKey(m["type"]) == None then after == m
          else LineMetadataWithout(m, after, {"timestamp"}))
      && (if "type" in m && Truthy(m["type"]) && ToKey(m["type"]).Some? && LookUp(ToKey(m["type"]).value) != Missing
          then TypeComesOut(ToKey(m["type"]).value, after) else SameField("type", m, after))
  {
    UnchangedIsSame(m);
    if CoercedTypeFound(m).Some? {
      var found := CoercedTypeFound(m).value;
      var typed := SetType(m, found);
      OnlyTheType(m, found);
      DroppedFromMetadata(typed, "timestamp");
      forall k | k !in {"type", "metadata"}
        ensures SameField(k, m, WithoutMetadata(typed, "timestamp"))
      {
        assert SameField(k, m, typed);
      }
      assert SameField("metadata", m, typed);
      assert SameField("type", typed, WithoutMetadata(typed, "timestamp"));
    }
  }

  // ----- The other passes -----

  /** Chain stripping takes exactly the checksum and the previous hash out of the metadata, and touches nothing else. */
  lemma StrippedLine(m: Fields)
    ensures StripChain(Event(Obj(m))).0.Event? && StripChain(Event(Obj(m))).0.value.Obj?
    ensures var after := StripChain(Event(Obj(m))).0.value.fields;
      && (forall k :: k != "metadata" ==> SameField(k, m, after))
      && LineMetadataWithout(m, after, {"checksum", "prevEventHash"})
  {
    var once := WithoutMetadata(m, "checksum");
    DroppedFromMetadata(m, "checksum");
    DroppedFromMetadata(once, "prevEventHash");
    forall k | k != "metadata"
      ensures SameField(k, m, WithoutMetadata(once, "prevEventHash"))
    {
      assert SameField(k, m, once) && SameField(k, once, WithoutMetadata(once, "prevEventHash"));
    }
  }

  /** A line that the embedding pass strips. */
  predicate HoldsEmbedding(line: Line) {
    exists kind :: kind in {"embedding:computed", "embedding:deleted"} &&
      line.Event? && line.value.Obj? && "type" in line.value.fields && line.value.fields["type"] == Str(kind)
  }

  lemma {:induction false} StrippingAppends(a: seq<Line>, b: seq<Line>)
    ensures StripEmbeddings(a + b) == StripEmbeddings(a) + StripEmbeddings(b)
  {
    if b == [] {
      assert a + b == a;
    } else {
      assert Front(a + b) == a + Front(b) && Last(a + b) == Last(b);
      StrippingAppends(a, Front(b));
    }
  }

  /** Line by line: an embedding event goes, any other line stays where it is among the rest. */
  lemma StripsExactlyEmbeddings(before: seq<Line>, line: Line, after: seq<Line>)
    ensures StripEmbeddings(before + [line] + after)
         == StripEmbeddings(before) + (if HoldsEmbedding(line) then [] else [line]) + StripEmbeddings(after)
  {
    StrippingAppends(before + [line], after);
    StrippingAppends(before, [line]);
    assert Front([line]) == [] && Last([line]) == line;
    assert StripEmbeddings([]) == [];
    if IsEmbedding(line) {
      assert line.value.fields["type"].s in {"embedding:computed", "embedding:deleted"};
    }
  }

  // ----- Values -----

  /** What counts as absent: `null`, false, zero and the empty string. */
  lemma FalsyValues(v: Value)
    ensures !Truthy(v) <==> v in {Null, Bool(false), Num("0"), Num("-0"), Str("")}
  {}

  function DecimalValue(s: string): nat
    requires forall i :: 0 <= i < |s| ==> '0' <= s[i] <= '9'
  {
    if s == [] then 0 else 10 * DecimalValue(Front(s)) + (Last(s) as nat - '0' as nat)
  }

  lemma DigitChar(n: nat)
    requires n < 10
    ensures '0' <= HexDigit(n) <= '9' && HexDigit(n) as nat - '0' as nat == n
  {}

  lemma DecimalSplits(n: nat)
    ensures Front(Decimal(n)) == (if n >= 10 then Decimal(n / 10) else []) && Last(Decimal(n)) == HexDigit(n % 10)
  {}

  lemma {:induction false} DecimalIsItsValue(n: nat)
    ensures DecimalValue(Decimal(n)) == n
  {
    DecimalSplits(n);
    DigitChar(n % 10);
    if n >= 10 {
      DecimalIsItsValue(n / 10);
    }
  }

  lemma DecimalsDiffer(i: nat, j: nat)
    ensures Decimal(i) == Decimal(j) <==> i == j
  {
    DecimalIsItsValue(i);
    DecimalIsItsValue(j);
  }

  lemma {:induction false} SpreadElemsAt(elems: seq<Value>, i: nat)
    ensures Decimal(i) in SpreadElems(elems) <==> i < |elems|
    ensures i < |elems| ==> SpreadElems(elems)[Decimal(i)] == elems[i]
  {
    if elems != [] {
      var before := SpreadElems(Front(elems));
      SpreadElemsAt(Front(elems), i);
      DecimalsDiffer(i, |elems| - 1);
      assert SpreadElems(elems) == before[Decimal(|elems| - 1) := Last(elems)];
    }
  }

  /** An array is spread under its indices. */
  lemma SpreadOfArrays(elems: seq<Value>, i: nat)
    ensures Decimal(i) in Spread(Arr(elems)) <==> i < |elems|
    ensures i < |elems| ==> Spread(Arr(elems))[Decimal(i)] == elems[i]
  {
    SpreadElemsAt(elems, i);
  }
}
