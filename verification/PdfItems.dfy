/** Positioned text runs: `PdfTextItem`, in two precisions. */
module PdfItems {

  /** An ECMAScript number. Only the store sees non-finite ones: geometry is computed over `real`. */
  datatype Num = Fin(r: real) | PosInf | NegInf | NaN

  /** `===` on numbers: NaN differs from itself. */
  predicate StrictEq(a: Num, b: Num) {
    a == b && !a.NaN?
  }

  /** An item as the store receives it: every field is whatever number the caller computed. */
  datatype Item = Item(start: Num, end: Num, page: Num, x: Num, y: Num, width: Num, height: Num) {
    predicate Finite() {
      start.Fin? && end.Fin? && page.Fin? && x.Fin? && y.Fin? && width.Fin? && height.Fin?
    }
  }

  predicate AllFinite(items: seq<Item>) {
    forall i :: 0 <= i < |items| ==> items[i].Finite()
  }

  /** An item as the extractor builds it: offsets are string positions, geometry is exact. */
  datatype Run = Run(start: nat, end: nat, page: nat, x: real, y: real, width: real, height: real) {
    function ToItem(): Item {
      Item(Fin(start as real), Fin(end as real), Fin(page as real), Fin(x), Fin(y), Fin(width), Fin(height))
    }

    function Shift(offset: nat): Run {
      this.(start := start + offset, end := end + offset)
    }
  }

  /** Text with the items that index it. */
  datatype Anchored = Anchored(text: string, items: seq<Run>)

  function ToItems(runs: seq<Run>): (items: seq<Item>)
    ensures |items| == |runs| && forall i :: 0 <= i < |runs| ==> items[i] == runs[i].ToItem()
  {
    seq(|runs|, i requires 0 <= i < |runs| => runs[i].ToItem())
  }

  function ShiftAll(runs: seq<Run>, offset: nat): (shifted: seq<Run>)
    ensures |shifted| == |runs| && forall i :: 0 <= i < |runs| ==> shifted[i] == runs[i].Shift(offset)
  {
    seq(|runs|, i requires 0 <= i < |runs| => runs[i].Shift(offset))
  }

  /** Adds page-local items where their page lands. */
  method PushShifted(items0: seq<Run>, local: seq<Run>, offset: nat) returns (items: seq<Run>)
    ensures items == items0 + ShiftAll(local, offset)
  {
    items := items0;
    for i := 0 to |local|
      invariant items == items0 + ShiftAll(local, offset)[..i]
    {
      items := items + [local[i].Shift(offset)];
    }
  }

  /** Where an item is, whatever it selects. */
  datatype Rect = Rect(page: nat, x: real, y: real, width: real, height: real)

  function Rects(runs: seq<Run>): (rects: seq<Rect>)
    ensures |rects| == |runs|
    ensures forall i :: 0 <= i < |runs| ==>
      rects[i] == Rect(runs[i].page, runs[i].x, runs[i].y, runs[i].width, runs[i].height)
  {
    seq(|runs|, i requires 0 <= i < |runs| =>
      Rect(runs[i].page, runs[i].x, runs[i].y, runs[i].width, runs[i].height))
  }

  lemma RectsAppend(a: seq<Run>, b: seq<Run>)
    ensures Rects(a + b) == Rects(a) + Rects(b)
  {}

  lemma RectsShift(runs: seq<Run>, offset: nat)
    ensures Rects(ShiftAll(runs, offset)) == Rects(runs)
  {}

  /** `run` selects exactly `word`, which is not empty, out of `text`. */
  predicate Selects(text: string, run: Run, word: string) {
    run.start < run.end <= |text| && text[run.start..run.end] == word
  }

  /** Run by run, the items of a text select the given words; they are in order and never overlap. */
  predicate Anchors(text: string, runs: seq<Run>, words: seq<string>) {
    && |runs| == |words|
    && (forall i :: 0 <= i < |runs| ==> Selects(text, runs[i], words[i]))
    && (forall i, j :: 0 <= i < j < |runs| ==> runs[i].end <= runs[j].start)
  }

  /** The items of a text select exactly these words, one by one. */
  predicate Exact(a: Anchored, words: seq<string>) {
    Anchors(a.text, a.items, words)
  }

  predicate HasItemOn(items: seq<Run>, page: nat) {
    exists i :: 0 <= i < |items| && items[i].page == page
  }

  /** Appending a text with its own page-local items, shifted by where it lands, keeps every anchor exact. */
  lemma AnchorsAppend(text: string, runs: seq<Run>, words: seq<string>,
                      separator: string, text': string, runs': seq<Run>, words': seq<string>, after: string)
    requires Anchors(text, runs, words)
    requires Anchors(text', runs', words')
    ensures Anchors(text + separator + text' + after,
                    runs + ShiftAll(runs', |text + separator|),
                    words + words')
  {
    var offset := |text + separator|;
    var whole := text + separator + text' + after;
    var all := runs + ShiftAll(runs', offset);
    forall i | 0 <= i < |all|
      ensures Selects(whole, all[i], (words + words')[i])
    {
      if i < |runs| {
        assert Selects(text, runs[i], words[i]);
        assert whole[all[i].start..all[i].end] == text[runs[i].start..runs[i].end];
      } else {
        var k := i - |runs|;
        assert Selects(text', runs'[k], words'[k]);
        assert whole[all[i].start..all[i].end] == text'[runs'[k].start..runs'[k].end];
      }
    }
    forall i, j | 0 <= i < j < |all|
      ensures all[i].end <= all[j].start
    {
      if i < |runs| <= j {
        assert Selects(text, runs[i], words[i]);
      }
    }
  }

  lemma AnchorAt(text: string, runs: seq<Run>, words: seq<string>, k: nat)
    requires Anchors(text, runs, words) && k < |runs|
    ensures Selects(text, runs[k], words[k])
  {}

  lemma WordsNeedText(a: Anchored, words: seq<string>)
    requires Exact(a, words)
    ensures words != [] ==> a.text != []
    ensures |a.items| == |words|
  {
    if words != [] {
      AnchorAt(a.text, a.items, words, 0);
    }
  }
}
