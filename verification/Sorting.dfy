/** `Array.prototype.sort` by a numeric key: ascending, stable, and how much of it depends on the input order. */
module Sorting {

  function Insert<T>(x: T, s: seq<T>, key: T -> real): seq<T> {
    if s == [] || key(x) <= key(s[0]) then [x] + s else [s[0]] + Insert(x, s[1..], key)
  }

  function Sort<T>(s: seq<T>, key: T -> real): seq<T> {
    if s == [] then [] else Insert(s[0], Sort(s[1..], key), key)
  }

  predicate Sorted<T>(s: seq<T>, key: T -> real) {
    forall i, j :: 0 <= i < j < |s| ==> key(s[i]) <= key(s[j])
  }

  function Keys<T>(s: seq<T>, key: T -> real): (keys: seq<real>)
    ensures |keys| == |s| && forall i :: 0 <= i < |s| ==> keys[i] == key(s[i])
  {
    seq(|s|, i requires 0 <= i < |s| => key(s[i]))
  }

  lemma SortedCons<T>(x: T, s: seq<T>, key: T -> real)
    requires Sorted(s, key) && (s != [] ==> key(x) <= key(s[0]))
    ensures Sorted([x] + s, key)
  {
    forall i, j | 0 <= i < j < |s| + 1
      ensures key(([x] + s)[i]) <= key(([x] + s)[j])
    {
      assert i > 0 ==> key(s[i - 1]) <= key(s[j - 1]);
      assert j > 1 ==> key(s[0]) <= key(s[j - 1]);
    }
  }

  lemma {:induction false} InsertSorts<T>(x: T, s: seq<T>, key: T -> real)
    requires Sorted(s, key)
    ensures Sorted(Insert(x, s, key), key)
  {
    if s == [] || key(x) <= key(s[0]) {
      SortedCons(x, s, key);
    } else {
      assert Sorted(s[1..], key);
      InsertSorts(x, s[1..], key);
      assert |s| > 1 ==> key(s[0]) <= key(s[1]);
      SortedCons(s[0], Insert(x, s[1..], key), key);
    }
  }

  lemma {:induction false} InsertAdds<T>(x: T, s: seq<T>, key: T -> real)
    ensures multiset(Insert(x, s, key)) == multiset{x} + multiset(s)
  {
    if s != [] && key(x) > key(s[0]) {
      InsertAdds(x, s[1..], key);
      assert s == [s[0]] + s[1..];
    }
  }

  lemma {:induction false} SortSorts<T>(s: seq<T>, key: T -> real)
    ensures Sorted(Sort(s, key), key)
    ensures multiset(Sort(s, key)) == multiset(s)
  {
    if s != [] {
      SortSorts(s[1..], key);
      InsertSorts(s[0], Sort(s[1..], key), key);
      InsertAdds(s[0], Sort(s[1..], key), key);
      assert s == [s[0]] + s[1..];
    }
  }

  function WithKey<T>(s: seq<T>, key: T -> real, v: real): seq<T> {
    if s == [] then [] else (if key(s[0]) == v then [s[0]] else []) + WithKey(s[1..], key, v)
  }

  lemma {:induction false} InsertIsStable<T>(x: T, s: seq<T>, key: T -> real, v: real)
    ensures WithKey(Insert(x, s, key), key, v) == WithKey([x] + s, key, v)
  {
    assert ([x] + s)[1..] == s;
    if s != [] && key(x) > key(s[0]) {
      InsertIsStable(x, s[1..], key, v);
      assert ([x] + s[1..])[1..] == s[1..];
      assert ([s[0]] + Insert(x, s[1..], key))[1..] == Insert(x, s[1..], key);
    }
  }

  /** Elements with equal keys keep their order. */
  lemma {:induction false} SortIsStable<T>(s: seq<T>, key: T -> real, v: real)
    ensures WithKey(Sort(s, key), key, v) == WithKey(s, key, v)
  {
    if s != [] {
      SortIsStable(s[1..], key, v);
      InsertIsStable(s[0], Sort(s[1..], key), key, v);
      assert ([s[0]] + Sort(s[1..], key))[1..] == Sort(s[1..], key);
    }
  }

  function Identity(r: real): real {
    r
  }

  /** Two ascending lists of the same numbers are the same list. */
  lemma {:induction false} SortedNumbersAgree(a: seq<real>, b: seq<real>)
    requires Sorted(a, Identity) && Sorted(b, Identity)
    requires multiset(a) == multiset(b)
    ensures a == b
  {
    if a == [] {
      assert |multiset(b)| == |b|;
    } else {
      HeadsAgree(a, b);
      TailOf(a);
      TailOf(b);
      SortedNumbersAgree(a[1..], b[1..]);
      assert a == [a[0]] + a[1..] && b == [b[0]] + b[1..];
    }
  }

  lemma TailOf<T>(s: seq<T>)
    requires s != []
    ensures multiset(s[1..]) == multiset(s) - multiset{s[0]}
  {
    assert s == [s[0]] + s[1..];
  }

  lemma HeadsAgree(a: seq<real>, b: seq<real>)
    requires Sorted(a, Identity) && Sorted(b, Identity)
    requires multiset(a) == multiset(b) && a != []
    ensures b != [] && a[0] == b[0]
  {
    assert a[0] in multiset(b);
    var j :| 0 <= j < |b| && b[j] == a[0];
    assert b[0] in multiset(a);
    var i :| 0 <= i < |a| && a[i] == b[0];
    assert Identity(a[0]) <= Identity(a[i]) && Identity(b[0]) <= Identity(b[j]);
  }

  /** Taking the same element out of two rearrangements leaves rearrangements. */
  lemma TakeOut<T>(s: seq<T>, t: seq<T>) returns (k: nat)
    requires s != [] && multiset(s) == multiset(t)
    ensures k < |t| && t[k] == s[0] && multiset(s[1..]) == multiset(t[..k] + t[k + 1..])
  {
    assert s[0] in multiset(t);
    k :| k < |t| && t[k] == s[0];
    TailOf(s);
    assert t == t[..k] + [t[k]] + t[k + 1..];
    assert multiset(t) == multiset(t[..k]) + multiset{t[k]} + multiset(t[k + 1..]);
    assert multiset(t[..k] + t[k + 1..]) == multiset(t) - multiset{s[0]};
  }

  lemma {:induction false} KeysOfRearrangement<T>(s: seq<T>, t: seq<T>, key: T -> real)
    requires multiset(s) == multiset(t)
    ensures multiset(Keys(s, key)) == multiset(Keys(t, key))
  {
    if s == [] {
      assert |multiset(s)| == 0 && |multiset(t)| == |t|;
    } else {
      var k := TakeOut(s, t);
      var t' := t[..k] + t[k + 1..];
      KeysOfRearrangement(s[1..], t', key);
      var ks, kt := Keys(s, key), Keys(t, key);
      assert ks == [key(s[0])] + Keys(s[1..], key);
      assert kt == Keys(t[..k], key) + [key(t[k])] + Keys(t[k + 1..], key);
      assert Keys(t', key) == Keys(t[..k], key) + Keys(t[k + 1..], key);
    }
  }

  lemma KeysSorted<T>(s: seq<T>, key: T -> real)
    requires Sorted(s, key)
    ensures Sorted(Keys(s, key), Identity)
  {}

  /** Sorted rearrangements agree key by key. */
  lemma SortedKeysAgree<T>(a: seq<T>, b: seq<T>, key: T -> real)
    requires Sorted(a, key) && Sorted(b, key) && multiset(a) == multiset(b)
    ensures |a| == |b| && forall i :: 0 <= i < |a| ==> key(a[i]) == key(b[i])
  {
    KeysOfRearrangement(a, b, key);
    KeysSorted(a, key);
    KeysSorted(b, key);
    SortedNumbersAgree(Keys(a, key), Keys(b, key));
    assert |Keys(a, key)| == |Keys(b, key)|;
    assert forall i :: 0 <= i < |a| ==> Keys(a, key)[i] == key(a[i]);
  }

  /** Elements with the same key are the same element. */
  predicate TiesAreEqual<T(==)>(s: seq<T>, key: T -> real) {
    forall i, j :: 0 <= i < j < |s| && key(s[i]) == key(s[j]) ==> s[i] == s[j]
  }

  /** A strict cut of two sorted rearrangements cuts off the same elements. */
  lemma CutsAgree<T>(a: seq<T>, b: seq<T>, key: T -> real, n: nat)
    requires Sorted(a, key) && Sorted(b, key) && multiset(a) == multiset(b)
    requires n <= |a| && (0 < n < |a| ==> key(a[n - 1]) < key(a[n]))
    ensures n <= |b| && multiset(a[..n]) == multiset(b[..n]) && multiset(a[n..]) == multiset(b[n..])
  {
    SortedKeysAgree(a, b, key);
    if 0 < n < |a| {
      forall e: T
        ensures multiset(a[..n])[e] == multiset(b[..n])[e]
      {
        CutCount(a, key, n, e);
        CutCount(b, key, n, e);
      }
      assert multiset(a[..n]) == multiset(b[..n]);
    } else if n == 0 {
      assert a[..n] == b[..n] == [];
    } else {
      assert a[..n] == a && b[..n] == b;
    }
    RestOf(a, n);
    RestOf(b, n);
  }

  lemma RestOf<T>(s: seq<T>, n: nat)
    requires n <= |s|
    ensures multiset(s[n..]) == multiset(s) - multiset(s[..n])
    ensures multiset(s) == multiset(s[..n]) + multiset(s[n..])
  {
    assert s == s[..n] + s[n..];
  }

  /** Which elements a strict cut cuts off depends on their keys alone. */
  lemma CutCount<T>(a: seq<T>, key: T -> real, n: nat, e: T)
    requires Sorted(a, key) && 0 < n < |a| && key(a[n - 1]) < key(a[n])
    ensures multiset(a[..n])[e] == if key(e) <= key(a[n - 1]) then multiset(a)[e] else 0
  {
    RestOf(a, n);
    if key(e) <= key(a[n - 1]) {
      NotAbove(a, key, n, e);
    } else {
      forall y | y in a[..n]
        ensures y != e
      {
        var i :| 0 <= i < n && a[i] == y;
        assert key(a[i]) <= key(a[n - 1]);
      }
      assert e !in a[..n];
    }
  }

  lemma NotAbove<T>(a: seq<T>, key: T -> real, n: nat, e: T)
    requires Sorted(a, key) && 0 < n < |a| && key(a[n - 1]) < key(a[n]) && key(e) <= key(a[n - 1])
    ensures multiset(a[n..])[e] == 0
  {
    forall y | y in a[n..]
      ensures y != e
    {
      var i :| n <= i < |a| && a[i] == y;
      assert key(a[n]) <= key(a[i]);
    }
  }

  lemma SortForgetsOrder<T>(s: seq<T>, t: seq<T>, key: T -> real)
    requires multiset(s) == multiset(t) && TiesAreEqual(s, key)
    ensures Sort(s, key) == Sort(t, key)
  {
    var a, b := Sort(s, key), Sort(t, key);
    SortSorts(s, key);
    SortSorts(t, key);
    SortedKeysAgree(a, b, key);
    forall i | 0 <= i < |a|
      ensures a[i] == b[i]
    {
      assert a[i] in multiset(a) && b[i] in multiset(b);
      assert a[i] in s && b[i] in s;
    }
  }

  /** Bringing one element to the front. */
  function ToFront<T>(s: seq<T>, i: nat): (t: seq<T>)
    requires i < |s|
    ensures multiset(t) == multiset(s)
  {
    assert s == s[..i] + [s[i]] + s[i + 1..];
    [s[i]] + s[..i] + s[i + 1..]
  }

  lemma FrontComesFirst<T>(s: seq<T>, i: nat, key: T -> real)
    requires i < |s|
    ensures var first := WithKey(Sort(ToFront(s, i), key), key, key(s[i])); first != [] && first[0] == s[i]
  {
    SortIsStable(ToFront(s, i), key, key(s[i]));
  }

  /** Sorting forgets the input order exactly when elements with equal keys are equal. */
  lemma SortForgetsOrderIff<T(!new)>(s: seq<T>, key: T -> real)
    ensures (forall t :: multiset(t) == multiset(s) ==> Sort(t, key) == Sort(s, key)) <==> TiesAreEqual(s, key)
  {
    if TiesAreEqual(s, key) {
      forall t | multiset(t) == multiset(s)
        ensures Sort(t, key) == Sort(s, key)
      {
        SortForgetsOrder(s, t, key);
      }
    } else {
      var i, j :| 0 <= i < j < |s| && key(s[i]) == key(s[j]) && s[i] != s[j];
      FrontComesFirst(s, i, key);
      FrontComesFirst(s, j, key);
      assert Sort(ToFront(s, i), key) != Sort(ToFront(s, j), key);
    }
  }
}
