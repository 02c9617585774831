/** Mapping recognised pixel boxes onto the page: `toPagePoint` and `mapWordsToItems`. */
module OcrGeometry {
  import opened Prelude
  import opened PdfItems
  import opened LineCodec
  import opened OcrAssembly

  /** An image's pixel size and the six numbers of the matrix that placed it. */
  datatype Placement = Placement(width: real, height: real, a: real, b: real, c: real, d: real, e: real, f: real) {
    predicate Sized() {
      width > 0.0 && height > 0.0
    }
  }

  datatype Point = Point(x: real, y: real)

  /** Unit square with y flipped, then the matrix. */
  function ToPagePoint(px: real, py: real, pl: Placement): Point
    requires pl.Sized()
  {
    var u, v := px / pl.width, 1.0 - py / pl.height;
    Point(Transform(u, v, pl.a, pl.c, pl.e), Transform(u, v, pl.b, pl.d, pl.f))
  }

  /** One row of the matrix. */
  function Transform(u: real, v: real, k: real, m: real, n: real): real {
    u * k + v * m + n
  }

  function MapWord(w: OcrWord, pl: Placement, page: nat, textOffset: nat): Run
    requires pl.Sized()
  {
    var p, q := ToPagePoint(w.bbox.x0, w.bbox.y0, pl), ToPagePoint(w.bbox.x1, w.bbox.y1, pl);
    Run(w.start + textOffset, w.end + textOffset, page,
        Min(p.x, q.x), Min(p.y, q.y), Abs(q.x - p.x), Abs(q.y - p.y))
  }

  function MapWordsToItems(words: seq<OcrWord>, pl: Placement, page: nat, textOffset: nat): (runs: seq<Run>)
    ensures |runs| == if pl.Sized() then |words| else 0
  {
    if !pl.Sized() then []
    else seq(|words|, i requires 0 <= i < |words| => MapWord(words[i], pl, page, textOffset))
  }

  // ----- When the rectangle bounds the word -----

  predicate Between(a: real, m: real, b: real) {
    a <= m <= b || b <= m <= a
  }

  predicate InRect(r: Run, p: Point) {
    r.x <= p.x <= r.x + r.width && r.y <= p.y <= r.y + r.height
  }

  /** Every pixel point of the word's box lands inside its item's rectangle. */
  ghost predicate Covers(w: OcrWord, pl: Placement)
    requires pl.Sized()
  {
    forall px, py :: Between(w.bbox.x0, px, w.bbox.x1) && Between(w.bbox.y0, py, w.bbox.y1) ==>
      InRect(MapWord(w, pl, 0, 0), ToPagePoint(px, py, pl))
  }

  /** One page coordinate as an affine function of the pixel. */
  function Affine(k: real, m: real, n: real, px: real, py: real): real {
    k * px + m * py + n
  }

  lemma PagePointIsAffine(px: real, py: real, pl: Placement)
    requires pl.Sized()
    ensures ToPagePoint(px, py, pl).x == Affine(pl.a / pl.width, -pl.c / pl.height, pl.c + pl.e, px, py)
    ensures ToPagePoint(px, py, pl).y == Affine(pl.b / pl.width, -pl.d / pl.height, pl.d + pl.f, px, py)
  {
    CoordinateIsAffine(px, py, pl.width, pl.height, pl.a, pl.c, pl.e);
    CoordinateIsAffine(px, py, pl.width, pl.height, pl.b, pl.d, pl.f);
  }

  lemma CoordinateIsAffine(px: real, py: real, w: real, h: real, a: real, c: real, e: real)
    requires w > 0.0 && h > 0.0
    ensures Transform(px / w, 1.0 - py / h, a, c, e) == Affine(a / w, -c / h, c + e, px, py)
  {
    QuotientMoves(px, a, w);
    QuotientMoves(py, c, h);
  }

  lemma QuotientMoves(p: real, a: real, w: real)
    requires w > 0.0
    ensures p / w * a == a / w * p
    ensures (1.0 - p / w) * a == (-a / w) * p + a
  {
    var q, r := p / w, a / w;
    assert q * w == p && r * w == a;
    assert q * a == q * (r * w) == r * (q * w) == r * p;
    assert -a / w == -r by {
      assert (-r) * w == -a;
    }
    assert (1.0 - q) * a == a - q * a;
  }

  /** What moving a pixel coordinate from `a` to `b` does to a page coordinate. */
  function Pull(k: real, a: real, b: real): real {
    k * (b - a)
  }

  lemma AffineStep(k: real, m: real, n: real, px: real, py: real, qx: real, qy: real)
    ensures Affine(k, m, n, qx, qy) == Affine(k, m, n, px, py) + Pull(k, px, qx) + Pull(m, py, qy)
  {
    assert k * (qx - px) == k * qx - k * px;
    assert m * (qy - py) == m * qy - m * py;
  }

  lemma ScaledBetween(k: real, a: real, m: real, b: real)
    requires Between(a, m, b)
    ensures Between(0.0, Pull(k, a, m), Pull(k, a, b))
  {
    var dm, db := m - a, b - a;
    if k >= 0.0 {
      assert if a <= m <= b then 0.0 <= k * dm <= k * db else 0.0 >= k * dm >= k * db;
    } else {
      assert if a <= m <= b then 0.0 >= k * dm >= k * db else 0.0 <= k * dm <= k * db;
    }
  }

  predicate AxisCovers(k: real, m: real, n: real, box: BBox, px: real, py: real) {
    Between(Affine(k, m, n, box.x0, box.y0), Affine(k, m, n, px, py), Affine(k, m, n, box.x1, box.y1))
  }

  predicate SameSign(p: real, q: real) {
    (p >= 0.0 && q >= 0.0) || (p <= 0.0 && q <= 0.0)
  }

  lemma SameSignIff(p: real, q: real)
    ensures SameSign(p, q) <==> p * q >= 0.0
  {}

  lemma SumBetween(base: real, p: real, p1: real, q: real, q1: real)
    requires Between(0.0, p, p1) && Between(0.0, q, q1) && SameSign(p1, q1)
    ensures Between(base, base + p + q, base + p1 + q1)
  {}

  /** The two pixel axes move a page coordinate the same way across the box. */
  predicate PullsTogether(k: real, m: real, box: BBox) {
    SameSign(Pull(k, box.x0, box.x1), Pull(m, box.y0, box.y1))
  }

  lemma AxisCoversAll(k: real, m: real, n: real, box: BBox, px: real, py: real)
    requires Between(box.x0, px, box.x1) && Between(box.y0, py, box.y1)
    requires PullsTogether(k, m, box)
    ensures AxisCovers(k, m, n, box, px, py)
  {
    ScaledBetween(k, box.x0, px, box.x1);
    ScaledBetween(m, box.y0, py, box.y1);
    AffineStep(k, m, n, box.x0, box.y0, px, py);
    AffineStep(k, m, n, box.x0, box.y0, box.x1, box.y1);
    SumBetween(Affine(k, m, n, box.x0, box.y0), Pull(k, box.x0, px), Pull(k, box.x0, box.x1),
               Pull(m, box.y0, py), Pull(m, box.y0, box.y1));
  }

  /** When the two contributions pull in opposite directions, another corner sticks out. */
  lemma AxisMissesACorner(k: real, m: real, n: real, box: BBox)
    requires !PullsTogether(k, m, box)
    ensures !AxisCovers(k, m, n, box, box.x1, box.y0)
  {
    AffineStep(k, m, n, box.x0, box.y0, box.x1, box.y0);
    AffineStep(k, m, n, box.x0, box.y0, box.x1, box.y1);
    assert Pull(m, box.y0, box.y0) == 0.0;
  }

  /** How far the box is wide and high at once, with a sign when its corners are given crosswise. */
  function SignedArea(box: BBox): real {
    (box.x1 - box.x0) * (box.y1 - box.y0)
  }

  lemma SignOfPull(a: real, c: real, pl: Placement, box: BBox)
    requires pl.Sized()
    ensures PullsTogether(a / pl.width, -c / pl.height, box) <==> a * c * SignedArea(box) <= 0.0
  {
    var w, h := pl.width, pl.height;
    var r, s := a / w, -c / h;
    var dx, dy := box.x1 - box.x0, box.y1 - box.y0;
    assert r * w == a && s * h == -c;
    var pull := (r * dx) * (s * dy);
    calc {
      a * c * SignedArea(box);
      (r * w) * (-(s * h)) * (dx * dy);
      -((r * dx) * (s * dy) * (w * h));
      -(pull * (w * h));
    }
    SameSignIff(r * dx, s * dy);
    var area := w * h;
    assert area > 0.0;
    assert pull >= 0.0 ==> pull * area >= 0.0;
    assert pull < 0.0 ==> pull * area < 0.0;
  }

  /**
   * The rectangle through two opposite corners bounds the whole word box exactly when, on each page
   * axis, the matrix entries that feed it do not pull the two corners apart: `a*c <= 0` and `b*d <= 0`
   * for a box given top-left to bottom-right. Quarter turns, mirrors and scalings always satisfy it.
   */
  lemma CoversIff(w: OcrWord, pl: Placement)
    requires pl.Sized()
    ensures Covers(w, pl) <==>
      && pl.a * pl.c * SignedArea(w.bbox) <= 0.0
      && pl.b * pl.d * SignedArea(w.bbox) <= 0.0
  {
    var box := w.bbox;
    SignOfPull(pl.a, pl.c, pl, box);
    SignOfPull(pl.b, pl.d, pl, box);
    if && PullsTogether(pl.a / pl.width, -pl.c / pl.height, box)
       && PullsTogether(pl.b / pl.width, -pl.d / pl.height, box) {
      forall px, py | Between(box.x0, px, box.x1) && Between(box.y0, py, box.y1)
        ensures InRect(MapWord(w, pl, 0, 0), ToPagePoint(px, py, pl))
      {
        PulledTogetherCovers(w, pl, px, py);
      }
    } else {
      assert Between(box.x0, box.x1, box.x1) && Between(box.y0, box.y0, box.y1);
      PulledApartMisses(w, pl);
    }
  }

  lemma PulledTogetherCovers(w: OcrWord, pl: Placement, px: real, py: real)
    requires pl.Sized()
    requires PullsTogether(pl.a / pl.width, -pl.c / pl.height, w.bbox)
    requires PullsTogether(pl.b / pl.width, -pl.d / pl.height, w.bbox)
    requires Between(w.bbox.x0, px, w.bbox.x1) && Between(w.bbox.y0, py, w.bbox.y1)
    ensures InRect(MapWord(w, pl, 0, 0), ToPagePoint(px, py, pl))
  {
    AxisCoversAll(pl.a / pl.width, -pl.c / pl.height, pl.c + pl.e, w.bbox, px, py);
    AxisCoversAll(pl.b / pl.width, -pl.d / pl.height, pl.d + pl.f, w.bbox, px, py);
    InRectByAxis(w, pl, px, py);
  }

  lemma PulledApartMisses(w: OcrWord, pl: Placement)
    requires pl.Sized()
    requires !PullsTogether(pl.a / pl.width, -pl.c / pl.height, w.bbox)
          || !PullsTogether(pl.b / pl.width, -pl.d / pl.height, w.bbox)
    ensures !InRect(MapWord(w, pl, 0, 0), ToPagePoint(w.bbox.x1, w.bbox.y0, pl))
  {
    if !PullsTogether(pl.a / pl.width, -pl.c / pl.height, w.bbox) {
      AxisMissesACorner(pl.a / pl.width, -pl.c / pl.height, pl.c + pl.e, w.bbox);
    } else {
      AxisMissesACorner(pl.b / pl.width, -pl.d / pl.height, pl.d + pl.f, w.bbox);
    }
    InRectByAxis(w, pl, w.bbox.x1, w.bbox.y0);
  }

  lemma InRectByAxis(w: OcrWord, pl: Placement, px: real, py: real)
    requires pl.Sized()
    ensures InRect(MapWord(w, pl, 0, 0), ToPagePoint(px, py, pl)) <==>
      && AxisCovers(pl.a / pl.width, -pl.c / pl.height, pl.c + pl.e, w.bbox, px, py)
      && AxisCovers(pl.b / pl.width, -pl.d / pl.height, pl.d + pl.f, w.bbox, px, py)
  {
    PagePointIsAffine(px, py, pl);
    PagePointIsAffine(w.bbox.x0, w.bbox.y0, pl);
    PagePointIsAffine(w.bbox.x1, w.bbox.y1, pl);
  }

  /** Mirrors, quarter turns and non-uniform scale: the matrix maps the page axes to the page axes. */
  predicate AxisPreserving(pl: Placement) {
    (pl.b == 0.0 && pl.c == 0.0) || (pl.a == 0.0 && pl.d == 0.0)
  }

  /** Then the rectangle is the tightest one: it bounds the box and a corner of the box attains each edge. */
  lemma AxisPreservingIsTight(w: OcrWord, pl: Placement)
    requires pl.Sized() && AxisPreserving(pl)
    ensures Covers(w, pl)
    ensures var r := MapWord(w, pl, 0, 0);
      var p, q := ToPagePoint(w.bbox.x0, w.bbox.y0, pl), ToPagePoint(w.bbox.x1, w.bbox.y1, pl);
      && ((p.x == r.x && q.x == r.x + r.width) || (q.x == r.x && p.x == r.x + r.width))
      && ((p.y == r.y && q.y == r.y + r.height) || (q.y == r.y && p.y == r.y + r.height))
  {
    CoversIff(w, pl);
  }

  // ----- Anchors and records -----

  /** Shifting on the way through the matrix is shifting afterwards. */
  lemma MappedItemsShift(words: seq<OcrWord>, pl: Placement, page: nat, textOffset: nat)
    ensures MapWordsToItems(words, pl, page, textOffset) == ShiftAll(MapWordsToItems(words, pl, page, 0), textOffset)
  {}

  /** The items of one image select exactly the recognised words. */
  lemma MappedItemsAnchor(blocks: Option<seq<Block>>, pl: Placement, page: nat)
    requires pl.Sized()
    ensures var p := Assemble(blocks);
      Anchors(p.text, MapWordsToItems(p.words, pl, page, 0), Texts(p.words))
  {
    AssembledWordsAreExact(blocks);
    var p := Assemble(blocks);
    forall i | 0 <= i < |p.words|
      ensures Selects(p.text, MapWord(p.words[i], pl, page, 0), p.words[i].text)
    {
      assert WordAt(p.text, p.words, Places(blocks), i);
    }
  }

  function LinesWithWords(lines: seq<OcrLine>, paragraph: nat): nat {
    if lines == [] then 0
    else
      var readings := LineReadings(Last(lines), Last(lines).words, Place(paragraph, |lines| - 1));
      LinesWithWords(Front(lines), paragraph) + (if readings == [] then 0 else 1)
  }

  /** How many lines of the tree carry a word. */
  function WordedLines(paragraphs: seq<Paragraph>): nat {
    if paragraphs == [] then 0
    else WordedLines(Front(paragraphs)) + LinesWithWords(Last(paragraphs).lines, |paragraphs| - 1)
  }

  /** The words read off a list of readings: same boxes. */
  predicate SameBoxes(words: seq<OcrWord>, readings: seq<Reading>) {
    |words| == |readings| && forall i :: 0 <= i < |words| ==> words[i].bbox == readings[i].bbox
  }

  lemma SameBoxesSplit(words: seq<OcrWord>, a: seq<Reading>, b: seq<Reading>)
    requires SameBoxes(words, a + b)
    ensures SameBoxes(words[..|a|], a) && SameBoxes(words[|a|..], b)
    ensures words == words[..|a|] + words[|a|..]
  {
    forall i | 0 <= i < |b|
      ensures words[|a|..][i].bbox == b[i].bbox
    {
      assert words[|a| + i].bbox == (a + b)[|a| + i].bbox;
    }
  }

  lemma {:induction false} LineReadingsShareHeight(line: OcrLine, words: seq<WordBox>, place: Place)
    ensures forall i :: 0 <= i < |LineReadings(line, words, place)| ==>
      var box := LineReadings(line, words, place)[i].bbox; box.y0 == line.bbox.y0 && box.y1 == line.bbox.y1
  {
    if words != [] {
      LineReadingsShareHeight(line, words[1..], place);
    }
  }

  /** With `b == 0` the page height of a word depends on its pixel rows alone. */
  lemma UprightHeaders(w: OcrWord, v: OcrWord, pl: Placement, page: nat, offset: nat)
    requires pl.Sized() && pl.b == 0.0
    requires w.bbox.y0 == v.bbox.y0 && w.bbox.y1 == v.bbox.y1
    ensures SharesHeader(MapWord(w, pl, page, offset).ToItem(), MapWord(v, pl, page, offset).ToItem())
  {}

  function ItemsFor(words: seq<OcrWord>, pl: Placement, page: nat, offset: nat): seq<Item> {
    ToItems(MapWordsToItems(words, pl, page, offset))
  }

  /** How many records the mapped words are stored in. */
  function Records(words: seq<OcrWord>, pl: Placement, page: nat, offset: nat): nat {
    |Encode(ItemsFor(words, pl, page, offset))|
  }

  lemma ItemsForAppend(before: seq<OcrWord>, words: seq<OcrWord>, pl: Placement, page: nat, offset: nat)
    ensures ItemsFor(before + words, pl, page, offset)
         == ItemsFor(before, pl, page, offset) + ItemsFor(words, pl, page, offset)
  {}

  lemma LineSharesHeaders(words: seq<OcrWord>, line: OcrLine, place: Place, pl: Placement, page: nat, offset: nat)
    requires pl.Sized() && pl.b == 0.0
    requires SameBoxes(words, LineReadings(line, line.words, place))
    ensures var block := ItemsFor(words, pl, page, offset);
      forall i :: 0 <= i < |block| ==> SharesHeader(block[0], block[i])
  {
    LineReadingsShareHeight(line, line.words, place);
    forall i | 0 <= i < |words|
      ensures SharesHeader(MapWord(words[0], pl, page, offset).ToItem(), MapWord(words[i], pl, page, offset).ToItem())
    {
      UprightHeaders(words[0], words[i], pl, page, offset);
    }
  }

  lemma OneLineCostsOneRecord(before: seq<OcrWord>, words: seq<OcrWord>, line: OcrLine, place: Place,
                              pl: Placement, page: nat, offset: nat)
    requires pl.Sized() && pl.b == 0.0
    requires SameBoxes(words, LineReadings(line, line.words, place))
    ensures Records(before + words, pl, page, offset)
         <= Records(before, pl, page, offset) + if LineReadings(line, line.words, place) == [] then 0 else 1
  {
    if words == [] {
      assert before + words == before;
    } else {
      ItemsForAppend(before, words, pl, page, offset);
      LineSharesHeaders(words, line, place, pl, page, offset);
      BlockCostsOneRecord(ItemsFor(before, pl, page, offset), ItemsFor(words, pl, page, offset));
    }
  }

  lemma CutTwice<T>(s: seq<T>, n: nat, k: nat)
    requires n + k <= |s|
    ensures s[..n + k][n..] == s[n..][..k] && s[n + k..] == s[n..][k..]
    ensures s[..n + k][..n] == s[..n] && s[..n + k] + s[n + k..] == s
  {}

  /** Where the words of the last line begin. */
  lemma CutAtLastLine(words: seq<OcrWord>, n: nat, lines: seq<OcrLine>, paragraph: nat) returns (m: nat)
    requires lines != []
    requires n <= |words| && SameBoxes(words[n..], ParagraphReadings(lines, paragraph, 0))
    ensures n <= m <= |words| && words[..m][..n] == words[..n] && words[..m] + words[m..] == words
    ensures SameBoxes(words[..m][n..], ParagraphReadings(Front(lines), paragraph, 0))
    ensures SameBoxes(words[m..], LineReadings(Last(lines), Last(lines).words, Place(paragraph, |lines| - 1)))
  {
    var earlier := ParagraphReadings(Front(lines), paragraph, 0);
    var last := LineReadings(Last(lines), Last(lines).words, Place(paragraph, |lines| - 1));
    ParagraphReadingsSnoc(lines, paragraph, 0);
    assert ParagraphReadings(lines, paragraph, 0) == earlier + last;
    SameBoxesSplit(words[n..], earlier, last);
    m := n + |earlier|;
    CutTwice(words, n, |earlier|);
  }

  lemma {:induction false} LinesCostOneRecordEach(words: seq<OcrWord>, n: nat, lines: seq<OcrLine>, paragraph: nat,
                                                  pl: Placement, page: nat, offset: nat)
    requires pl.Sized() && pl.b == 0.0
    requires n <= |words| && SameBoxes(words[n..], ParagraphReadings(lines, paragraph, 0))
    ensures Records(words, pl, page, offset) <= Records(words[..n], pl, page, offset) + LinesWithWords(lines, paragraph)
    decreases |lines|
  {
    if lines == [] {
      assert words[..n] == words;
    } else {
      var m := CutAtLastLine(words, n, lines, paragraph);
      LinesCostOneRecordEach(words[..m], n, Front(lines), paragraph, pl, page, offset);
      OneLineCostsOneRecord(words[..m], words[m..], Last(lines), Place(paragraph, |lines| - 1), pl, page, offset);
    }
  }

  lemma {:induction false} ParagraphsCostOneRecordPerLine(words: seq<OcrWord>, paragraphs: seq<Paragraph>,
                                                          pl: Placement, page: nat, offset: nat)
    requires pl.Sized() && pl.b == 0.0
    requires SameBoxes(words, Readings(paragraphs, 0))
    ensures Records(words, pl, page, offset) <= WordedLines(paragraphs)
    decreases |paragraphs|
  {
    if paragraphs == [] {
      assert ItemsFor(words, pl, page, offset) == [];
    } else {
      ReadingsSnoc(paragraphs, 0);
      var earlier := Readings(Front(paragraphs), 0);
      SameBoxesSplit(words, earlier, ParagraphReadings(Last(paragraphs).lines, |paragraphs| - 1, 0));
      ParagraphsCostOneRecordPerLine(words[..|earlier|], Front(paragraphs), pl, page, offset);
      LinesCostOneRecordEach(words, |earlier|, Last(paragraphs).lines, |paragraphs| - 1, pl, page, offset);
    }
  }

  lemma AssembledBoxes(blocks: Option<seq<Block>>)
    ensures SameBoxes(Assemble(blocks).words, Readings(Tree(blocks), 0))
  {
    var l := PutParagraphs(Tree(blocks));
    AssembledWordsAreTheReadings(Tree(blocks));
    forall i | 0 <= i < |l.words|
      ensures l.words[i].bbox == Readings(Tree(blocks), 0)[i].bbox
    {
      assert Strip(l)[i].bbox == l.words[i].bbox;
    }
  }

  /** On an upright page the stored form has at most one record per recognised line that carries a word. */
  lemma OneRecordPerLine(blocks: Option<seq<Block>>, pl: Placement, page: nat, offset: nat)
    requires pl.Sized() && pl.b == 0.0
    ensures Records(Assemble(blocks).words, pl, page, offset) <= WordedLines(Tree(blocks))
  {
    AssembledBoxes(blocks);
    ParagraphsCostOneRecordPerLine(Assemble(blocks).words, Tree(blocks), pl, page, offset);
  }
}
