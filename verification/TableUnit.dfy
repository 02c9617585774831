/** The unit that scales the table detection: the middle one of the page's positive text heights. */
module TableUnit {
  import opened PdfItems
  import opened Sorting
  import opened PdfTables

  /** How many runs have some height. */
  function Tall(items: seq<Run>): nat {
    if items == [] then 0 else (if items[0].height > 0.0 then 1 else 0) + Tall(items[1..])
  }

  /** How many runs have some height, but less than this. */
  function Lower(items: seq<Run>, unit: real): nat {
    if items == [] then 0 else (if 0.0 < items[0].height < unit then 1 else 0) + Lower(items[1..], unit)
  }

  /** How many runs are higher than this. */
  function Higher(items: seq<Run>, unit: real): nat {
    if items == [] then 0 else (if items[0].height > unit then 1 else 0) + Higher(items[1..], unit)
  }

  function Below(values: seq<real>, v: real): nat {
    if values == [] then 0 else (if values[0] < v then 1 else 0) + Below(values[1..], v)
  }

  function Above(values: seq<real>, v: real): nat {
    if values == [] then 0 else (if values[0] > v then 1 else 0) + Above(values[1..], v)
  }

  lemma KeysCons(items: seq<Run>)
    requires items != []
    ensures Keys(items, Height) == [items[0].height] + Keys(items[1..], Height)
  {}

  lemma PositiveCons(v: real, values: seq<real>)
    ensures Positive([v] + values) == (if v > 0.0 then [v] else []) + Positive(values)
  {
    assert ([v] + values)[1..] == values;
  }

  lemma {:induction false} HeightsCount(items: seq<Run>, unit: real)
    requires unit >= 0.0
    ensures var values := Positive(Keys(items, Height));
      |values| == Tall(items) && Below(values, unit) == Lower(items, unit) && Above(values, unit) == Higher(items, unit)
  {
    if items != [] {
      var h, rest := items[0].height, Positive(Keys(items[1..], Height));
      HeightsCount(items[1..], unit);
      KeysCons(items);
      PositiveCons(h, Keys(items[1..], Height));
      assert h > 0.0 ==> ([h] + rest)[1..] == rest;
      assert [] + rest == rest;
    } else {
      assert Keys(items, Height) == [];
    }
  }

  lemma {:induction false} HeightIsOfARun(items: seq<Run>, v: real)
    requires v in Positive(Keys(items, Height))
    ensures v > 0.0 && exists r :: r in items && r.height == v
  {
    KeysCons(items);
    PositiveCons(items[0].height, Keys(items[1..], Height));
    if v in Positive(Keys(items[1..], Height)) {
      HeightIsOfARun(items[1..], v);
      var r :| r in items[1..] && r.height == v;
      assert r in items;
    } else {
      assert items[0] in items && items[0].height == v;
    }
  }

  lemma {:induction false} BelowAppend(a: seq<real>, b: seq<real>, v: real)
    ensures Below(a + b, v) == Below(a, v) + Below(b, v) && Above(a + b, v) == Above(a, v) + Above(b, v)
  {
    if a == [] {
      assert a + b == b;
    } else {
      assert (a + b)[1..] == a[1..] + b;
      BelowAppend(a[1..], b, v);
    }
  }

  lemma {:induction false} NoMoreThanThereAre(values: seq<real>, v: real)
    ensures Below(values, v) <= |values| && Above(values, v) <= |values|
  {
    if values != [] {
      NoMoreThanThereAre(values[1..], v);
    }
  }

  lemma {:induction false} NoneBelow(values: seq<real>, v: real)
    requires forall i :: 0 <= i < |values| ==> values[i] >= v
    ensures Below(values, v) == 0
  {
    if values != [] {
      NoneBelow(values[1..], v);
    }
  }

  lemma {:induction false} NoneAbove(values: seq<real>, v: real)
    requires forall i :: 0 <= i < |values| ==> values[i] <= v
    ensures Above(values, v) == 0
  {
    if values != [] {
      NoneAbove(values[1..], v);
    }
  }

  lemma WithoutOne(b: seq<real>, k: nat, v: real)
    requires k < |b|
    ensures Below(b, v) == Below(b[..k] + b[k + 1..], v) + Below([b[k]], v)
    ensures Above(b, v) == Above(b[..k] + b[k + 1..], v) + Above([b[k]], v)
  {
    assert b == (b[..k] + [b[k]]) + b[k + 1..];
    BelowAppend(b[..k], b[k + 1..], v);
    BelowAppend(b[..k] + [b[k]], b[k + 1..], v);
    BelowAppend(b[..k], [b[k]], v);
  }

  lemma {:induction false} BelowOfRearranged(a: seq<real>, b: seq<real>, v: real)
    requires multiset(a) == multiset(b)
    ensures Below(a, v) == Below(b, v) && Above(a, v) == Above(b, v)
    decreases |a|
  {
    if a == [] {
      assert |multiset(b)| == 0;
    } else {
      var k := TakeOut(a, b);
      BelowOfRearranged(a[1..], b[..k] + b[k + 1..], v);
      WithoutOne(a, 0, v);
      WithoutOne(b, k, v);
      assert a[..0] + a[0 + 1..] == a[1..];
    }
  }

  /** In a sorted list, at most the elements before a place are smaller, and at most those behind it are greater. */
  lemma RankInSorted(sorted: seq<real>, i: nat)
    requires Sorted(sorted, Identity) && i < |sorted|
    ensures Below(sorted, sorted[i]) <= i && Above(sorted, sorted[i]) <= |sorted| - 1 - i
  {
    var v, before, after := sorted[i], sorted[..i], sorted[i + 1..];
    assert sorted == before + sorted[i..] && sorted == sorted[..i + 1] + after;
    BelowAppend(before, sorted[i..], v);
    BelowAppend(sorted[..i + 1], after, v);
    forall j | i <= j < |sorted|
      ensures sorted[j] >= v
    {
      assert i < j ==> Identity(sorted[i]) <= Identity(sorted[j]);
    }
    forall j | 0 <= j <= i
      ensures sorted[j] <= v
    {
      assert j < i ==> Identity(sorted[j]) <= Identity(sorted[i]);
    }
    NoneBelow(sorted[i..], v);
    NoneAbove(sorted[..i + 1], v);
    NoMoreThanThereAre(before, v);
    NoMoreThanThereAre(after, v);
  }

  /**
   * If some run has a height, the unit is the height of one, with at most half of the positive heights below it and
   * fewer than half above it; if none has, it is 12.
   */
  lemma UnitIsTheMiddleHeight(items: seq<Run>)
    ensures var n, unit := Tall(items), Unit(items);
      if n == 0 then unit == 12.0
      else
        && unit > 0.0 && (exists r :: r in items && r.height == unit)
        && Lower(items, unit) <= n / 2 && Higher(items, unit) <= (n - 1) / 2
  {
    var values := Positive(Keys(items, Height));
    var sorted := Sort(values, Identity);
    SortSorts(values, Identity);
    HeightsCount(items, 0.0);
    assert |sorted| == |values| by {
      assert |multiset(sorted)| == |multiset(values)|;
    }
    if values != [] {
      var i := |sorted| / 2;
      assert sorted[i] in multiset(values);
      HeightIsOfARun(items, sorted[i]);
      RankInSorted(sorted, i);
      BelowOfRearranged(sorted, values, sorted[i]);
      HeightsCount(items, sorted[i]);
    }
  }
}
