/** Packing items into line records and back: `encodeLines` and `decodeLines`. */
module LineCodec {
  import opened Prelude
  import opened PdfItems

  datatype Word = Word(x: Num, width: Num, start: Num, end: Num)

  /** One line record: the page, baseline and height its words share, then the words. */
  datatype Line = Line(p: Num, y: Num, h: Num, words: seq<Word>)

  function WordOf(item: Item): Word {
    Word(item.x, item.width, item.start, item.end)
  }

  function ItemOf(line: Line, w: Word): Item {
    Item(w.start, w.end, line.p, w.x, line.y, w.width, line.h)
  }

  /** The test that lets an item join the last record. */
  predicate Joins(line: Line, item: Item) {
    StrictEq(line.p, item.page) && StrictEq(line.y, item.y) && StrictEq(line.h, item.height)
  }

  function Push(lines: seq<Line>, item: Item): seq<Line> {
    if lines != [] && Joins(Last(lines), item)
    then Front(lines) + [Last(lines).(words := Last(lines).words + [WordOf(item)])]
    else lines + [Line(item.page, item.y, item.height, [WordOf(item)])]
  }

  function Encode(items: seq<Item>): seq<Line> {
    if items == [] then [] else Push(Encode(Front(items)), Last(items))
  }

  function ItemsOf(line: Line): (items: seq<Item>)
    ensures |items| == |line.words|
    ensures forall i :: 0 <= i < |items| ==> items[i] == ItemOf(line, line.words[i])
  {
    seq(|line.words|, i requires 0 <= i < |line.words| => ItemOf(line, line.words[i]))
  }

  function Decode(lines: seq<Line>): seq<Item> {
    if lines == [] then [] else Decode(Front(lines)) + ItemsOf(Last(lines))
  }

  method EncodeLines(items: seq<Item>) returns (lines: seq<Line>)
    ensures lines == Encode(items)
  {
    lines := [];
    for i := 0 to |items|
      invariant lines == Encode(items[..i])
    {
      var item := items[i];
      if lines != [] && Joins(Last(lines), item) {
        var last := Last(lines);
        lines := lines[|lines| - 1 := last.(words := last.words + [WordOf(item)])];
      } else {
        lines := lines + [Line(item.page, item.y, item.height, [WordOf(item)])];
      }
      assert Front(items[..i + 1]) == items[..i];
    }
    assert items[..|items|] == items;
  }

  method DecodeLines(lines: seq<Line>) returns (items: seq<Item>)
    ensures items == Decode(lines)
  {
    items := [];
    for i := 0 to |lines|
      invariant items == Decode(lines[..i])
    {
      var line := lines[i];
      for j := 0 to |line.words|
        invariant items == Decode(lines[..i]) + ItemsOf(line)[..j]
      {
        items := items + [ItemOf(line, line.words[j])];
      }
      assert Front(lines[..i + 1]) == lines[..i];
      assert ItemsOf(line)[..|line.words|] == ItemsOf(line);
    }
    assert lines[..|lines|] == lines;
  }

  lemma DecodePush(lines: seq<Line>, item: Item)
    ensures Decode(Push(lines, item)) == Decode(lines) + [item]
  {
    var pushed := Push(lines, item);
    if lines != [] && Joins(Last(lines), item) {
      assert Front(pushed) == Front(lines);
      assert ItemsOf(Last(pushed)) == ItemsOf(Last(lines)) + [item];
    } else {
      assert Front(pushed) == lines;
      assert ItemsOf(Last(pushed)) == [item];
    }
  }

  /** The codec loses nothing and keeps the order, whatever the numbers are. */
  lemma {:induction false} RoundTrip(items: seq<Item>)
    ensures Decode(Encode(items)) == items
  {
    if items != [] {
      RoundTrip(Front(items));
      DecodePush(Encode(Front(items)), Last(items));
      assert Front(items) + [Last(items)] == items;
    }
  }

  /** The same page, baseline and height, NaN included: one record could hold both. */
  predicate SharesHeader(a: Item, b: Item) {
    a.page == b.page && a.y == b.y && a.height == b.height
  }

  predicate NanHeader(item: Item) {
    item.page.NaN? || item.y.NaN? || item.height.NaN?
  }

  /** Neighbours that one record could hold always pass the encoder's `===` tests. */
  predicate NoRepeatedNan(items: seq<Item>) {
    forall i :: 0 < i < |items| && SharesHeader(items[i - 1], items[i]) ==> !NanHeader(items[i])
  }

  /** A block of items with one header costs at most one more record. */
  lemma {:induction false} BlockCostsOneRecord(items: seq<Item>, block: seq<Item>)
    requires forall i :: 0 <= i < |block| ==> SharesHeader(block[0], block[i])
    requires NoRepeatedNan(block)
    ensures |Encode(items + block)| <= |Encode(items)| + 1
    ensures block != [] ==> Encode(items + block) != []
    ensures |block| > 1 ==> Joins(Last(Encode(items + block)), block[0])
  {
    if block == [] {
      assert items + block == items;
    } else {
      var whole := items + block;
      assert Front(whole) == items + Front(block);
      assert Last(whole) == Last(block);
      BlockCostsOneRecord(items, Front(block));
      if |block| > 1 {
        assert SharesHeader(block[|block| - 2], block[|block| - 1]);
        LastRecordHolds(Front(whole));
      }
    }
  }

  /** The last record carries the last item's header. */
  lemma LastRecordHolds(items: seq<Item>)
    requires items != []
    ensures Encode(items) != []
    ensures SharesHeader(Last(items), ItemOf(Last(Encode(items)), WordOf(Last(items))))
  {}

  /** Whether an item joins depends on the header of the item before it alone. */
  lemma JoinsByHeader(a: seq<Item>, b: seq<Item>, item: Item, item': Item)
    requires a != [] && b != [] && SharesHeader(Last(a), Last(b)) && SharesHeader(item, item')
    ensures Encode(a) != [] && Encode(b) != []
    ensures Joins(Last(Encode(a)), item) <==> Joins(Last(Encode(b)), item')
  {
    LastRecordHolds(a);
    LastRecordHolds(b);
  }

  lemma EncodeSnoc(items: seq<Item>, item: Item)
    ensures |Encode(items + [item])|
         == |Encode(items)| + if Encode(items) != [] && Joins(Last(Encode(items)), item) then 0 else 1
  {
    assert Front(items + [item]) == items;
  }

  /** The number of records depends on the headers alone. */
  lemma {:induction false} RecordsByHeaders(a: seq<Item>, b: seq<Item>)
    requires |a| == |b| && forall i :: 0 <= i < |a| ==> SharesHeader(a[i], b[i])
    ensures |Encode(a)| == |Encode(b)|
    decreases |a|
  {
    if a != [] {
      assert Front(a) + [Last(a)] == a && Front(b) + [Last(b)] == b;
      RecordsByHeaders(Front(a), Front(b));
      EncodeSnoc(Front(a), Last(a));
      EncodeSnoc(Front(b), Last(b));
      if |a| > 1 {
        JoinsByHeader(Front(a), Front(b), Last(a), Last(b));
      }
    }
  }

  /** Encoding two lists together never costs more records than apart. */
  lemma {:induction false} TogetherCostsNoMore(a: seq<Item>, b: seq<Item>)
    ensures |Encode(a + b)| <= |Encode(a)| + |Encode(b)|
    decreases |b|
  {
    if b == [] {
      assert a + b == a;
    } else {
      var before := Front(b);
      assert (a + before) + [Last(b)] == a + b && before + [Last(b)] == b;
      TogetherCostsNoMore(a, before);
      EncodeSnoc(a + before, Last(b));
      EncodeSnoc(before, Last(b));
      if before != [] {
        assert Last(a + before) == Last(before);
        JoinsByHeader(a + before, before, Last(b), Last(b));
      }
    }
  }

  lemma {:induction false} EncodeBeatsAnyDecoding(items: seq<Item>, lines: seq<Line>)
    requires NoRepeatedNan(items) && Decode(lines) == items
    ensures |Encode(items)| <= |lines|
    decreases |lines|
  {
    if lines != [] {
      var before := Decode(Front(lines));
      var block := ItemsOf(Last(lines));
      assert forall i :: 0 <= i < |before| ==> before[i] == items[i];
      assert forall i :: 0 <= i < |block| ==> block[i] == items[|before| + i];
      EncodeBeatsAnyDecoding(before, Front(lines));
      BlockCostsOneRecord(before, block);
    }
  }

  lemma PushOnTheRight(left: seq<Line>, right: seq<Line>, item: Item)
    requires right != []
    ensures Push(left + right, item) == left + Push(right, item)
    ensures Push(right, item)[0].(words := right[0].words) == right[0]
  {
    assert Last(left + right) == Last(right);
    assert Front(left + right) == left + Front(right);
  }

  lemma {:induction false} EncodeSplits(a: seq<Item>, b: seq<Item>)
    requires a != [] && b != [] && !Joins(Last(Encode(a)), b[0])
    ensures Encode(b) != []
    ensures Encode(a + b) == Encode(a) + Encode(b)
    ensures SharesHeader(b[0], ItemOf(Encode(b)[0], WordOf(b[0])))
    decreases |b|
  {
    assert Front(a + b) == a + Front(b);
    assert Last(a + b) == Last(b);
    if |b| == 1 {
      assert a + Front(b) == a;
      assert Encode(Front(b)) == [];
      assert Encode(b) == [Line(b[0].page, b[0].y, b[0].height, [WordOf(b[0])])];
    } else {
      EncodeSplits(a, Front(b));
      PushOnTheRight(Encode(a), Encode(Front(b)), Last(b));
    }
  }

  lemma {:induction false} DecodeAppend(a: seq<Line>, b: seq<Line>)
    ensures Decode(a + b) == Decode(a) + Decode(b)
    decreases |b|
  {
    if b == [] {
      assert a + b == a;
    } else {
      assert Front(a + b) == a + Front(b);
      assert Last(a + b) == Last(b);
      DecodeAppend(a, Front(b));
      assert Decode(a) + Decode(Front(b)) + ItemsOf(Last(b)) == Decode(a) + (Decode(Front(b)) + ItemsOf(Last(b)));
    }
  }

  lemma DecodeOne(line: Line)
    ensures Decode([line]) == ItemsOf(line)
  {
    assert Front([line]) == [];
  }

  /** Two records with one raw header can be written as one. */
  lemma MergeRecords(before: seq<Line>, a: Line, b: Line, after: seq<Line>)
    requires a.(words := b.words) == b
    ensures Decode(before + [a.(words := a.words + b.words)] + after) == Decode((before + [a]) + ([b] + after))
  {
    var merged := a.(words := a.words + b.words);
    calc {
      Decode(before + [merged] + after);
      { DecodeAppend(before + [merged], after); DecodeAppend(before, [merged]); DecodeOne(merged); }
      Decode(before) + ItemsOf(merged) + Decode(after);
      { assert ItemsOf(merged) == ItemsOf(a) + ItemsOf(b); }
      Decode(before) + (ItemsOf(a) + ItemsOf(b)) + Decode(after);
      (Decode(before) + ItemsOf(a)) + (ItemsOf(b) + Decode(after));
      { DecodeAppend(before, [a]); DecodeOne(a); DecodeAppend([b], after); DecodeOne(b); }
      Decode(before + [a]) + Decode([b] + after);
      { DecodeAppend(before + [a], [b] + after); }
      Decode((before + [a]) + ([b] + after));
    }
  }

  /** One record fewer, when two neighbours share a header that is not equal to itself. */
  lemma MergeRepeatedNan(items: seq<Item>, i: nat) returns (lines: seq<Line>)
    requires 0 < i < |items| && SharesHeader(items[i - 1], items[i]) && NanHeader(items[i])
    ensures Decode(lines) == items && |lines| < |Encode(items)|
  {
    var a, b := items[..i], items[i..];
    assert items == a + b && Last(a) == items[i - 1] && b[0] == items[i];
    LastRecordHolds(a);
    EncodeSplits(a, b);
    var left, right := Encode(a), Encode(b);
    MergeRecords(Front(left), Last(left), right[0], right[1..]);
    assert Front(left) + [Last(left)] == left && [right[0]] + right[1..] == right;
    RoundTrip(items);
    lines := Front(left) + [Last(left).(words := Last(left).words + right[0].words)] + right[1..];
  }

  /** Nothing that decodes to these items is shorter, exactly when no neighbours share a NaN header. */
  lemma MinimalIffNoRepeatedNan(items: seq<Item>)
    ensures (forall lines :: Decode(lines) == items ==> |Encode(items)| <= |lines|) <==> NoRepeatedNan(items)
  {
    if NoRepeatedNan(items) {
      forall lines | Decode(lines) == items
        ensures |Encode(items)| <= |lines|
      {
        EncodeBeatsAnyDecoding(items, lines);
      }
    } else {
      var i :| 0 < i < |items| && SharesHeader(items[i - 1], items[i]) && NanHeader(items[i]);
      var lines := MergeRepeatedNan(items, i);
      assert Decode(lines) == items;
    }
  }

  /** Records that `encodeLines` could have written. */
  predicate Canonical(lines: seq<Line>) {
    && (forall i :: 0 <= i < |lines| ==> lines[i].words != [])
    && (forall i :: 0 < i < |lines| ==> !Joins(lines[i - 1], ItemOf(lines[i], lines[i].words[0])))
    && (forall i :: 0 <= i < |lines| && |lines[i].words| > 1 ==>
          !lines[i].p.NaN? && !lines[i].y.NaN? && !lines[i].h.NaN?)
  }

  lemma PushKeepsCanonical(lines: seq<Line>, item: Item)
    requires Canonical(lines)
    ensures Canonical(Push(lines, item))
  {
    var pushed := Push(lines, item);
    if lines != [] && Joins(Last(lines), item) {
      var k := |lines| - 1;
      assert pushed[k].words[0] == lines[k].words[0];
      assert forall i :: 0 <= i < k ==> pushed[i] == lines[i];
      assert ItemOf(pushed[k], pushed[k].words[0]) == ItemOf(lines[k], lines[k].words[0]);
    } else {
      assert forall i :: 0 <= i < |lines| ==> pushed[i] == lines[i];
      assert ItemOf(Last(pushed), Last(pushed).words[0]) == item;
    }
  }

  lemma {:induction false} EncodeIsCanonical(items: seq<Item>)
    ensures Canonical(Encode(items))
  {
    if items != [] {
      EncodeIsCanonical(Front(items));
      PushKeepsCanonical(Encode(Front(items)), Last(items));
    }
  }

  /** A record that is being filled takes the next of its words. */
  lemma NextWordJoins(lines: seq<Line>, line: Line, n: nat)
    requires 0 < n < |line.words|
    requires !line.p.NaN? && !line.y.NaN? && !line.h.NaN?
    ensures Push(lines + [line.(words := line.words[..n])], ItemOf(line, line.words[n]))
         == lines + [line.(words := line.words[..n + 1])]
  {
    var filling := lines + [line.(words := line.words[..n])];
    assert Front(filling) == lines && line.words[..n] + [line.words[n]] == line.words[..n + 1];
  }

  lemma {:induction false} EncodeBlock(items: seq<Item>, line: Line, n: nat)
    requires 0 < n <= |line.words|
    requires n > 1 ==> !line.p.NaN? && !line.y.NaN? && !line.h.NaN?
    requires var lines := Encode(items); lines == [] || !Joins(Last(lines), ItemOf(line, line.words[0]))
    ensures Encode(items + ItemsOf(line)[..n]) == Encode(items) + [line.(words := line.words[..n])]
  {
    var whole := items + ItemsOf(line)[..n];
    assert Front(whole) == items + ItemsOf(line)[..n - 1];
    if n == 1 {
      assert Front(whole) == items;
      assert line.words[..1] == [line.words[0]];
    } else {
      EncodeBlock(items, line, n - 1);
      NextWordJoins(Encode(items), line, n - 1);
    }
  }

  /** Decoding then encoding gives the records back exactly when they are canonical. */
  lemma {:induction false} CanonicalIffStable(lines: seq<Line>)
    ensures Encode(Decode(lines)) == lines <==> Canonical(lines)
    decreases |lines|
  {
    EncodeIsCanonical(Decode(lines));
    if Canonical(lines) && lines != [] {
      assert Canonical(Front(lines)) && Front(lines) + [Last(lines)] == lines;
      CanonicalIffStable(Front(lines));
      LastRecordComesBack(Front(lines), Last(lines));
    }
  }

  lemma LastRecordComesBack(before: seq<Line>, line: Line)
    requires Canonical(before + [line]) && Encode(Decode(before)) == before
    ensures Encode(Decode(before + [line])) == before + [line]
  {
    var lines := before + [line];
    assert lines[|before|] == line && (before != [] ==> lines[|before| - 1] == Last(before));
    EncodeBlock(Decode(before), line, |line.words|);
    assert ItemsOf(line)[..|line.words|] == ItemsOf(line) && line.words[..|line.words|] == line.words;
    assert Front(lines) == before;
  }
}
