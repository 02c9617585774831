/** Deriving the storage URI of a resource from its name. Lower-casing is a parameter: it needs Unicode tables. */
module StorageUri {
  import opened Prelude
  import opened Strings

  predicate Alnum(c: char) {
    'a' <= c <= 'z' || '0' <= c <= '9'
  }

  /** Where a greedy match of alphanumerics, or of everything else, ends. */
  function RunEnd(s: string, from: nat, alnum: bool): (end: nat)
    requires from <= |s|
    ensures from <= end <= |s|
    ensures forall i :: from <= i < end ==> Alnum(s[i]) == alnum
    ensures end < |s| ==> Alnum(s[end]) != alnum
    decreases |s| - from
  {
    if from < |s| && Alnum(s[from]) == alnum then RunEnd(s, from + 1, alnum) else from
  }

  /** `replace(/[^a-z0-9]+/g, '-')`, from a position on. */
  function Collapse(s: string, from: nat): string
    requires from <= |s|
    decreases |s| - from
  {
    if from == |s| then []
    else if Alnum(s[from]) then [s[from]] + Collapse(s, from + 1)
    else "-" + Collapse(s, RunEnd(s, from, false))
  }

  function StripFirst(s: string): string {
    if s != [] && s[0] == '-' then s[1..] else s
  }

  function StripLast(s: string): string {
    if s != [] && Last(s) == '-' then Front(s) else s
  }

  /** `replace(/^-|-$/g, '')` */
  function StripEnds(s: string): string {
    StripLast(StripFirst(s))
  }

  function Slug(name: string, lower: string -> string): string {
    StripEnds(Collapse(lower(name), 0))
  }

  function DeriveStorageUri(name: string, extension: string, lower: string -> string): string {
    "file://" + Slug(name, lower) + extension
  }

  // ----- The runs of a name -----

  /** A run of alphanumerics that cannot be extended on either side. */
  predicate MaximalRun(s: string, start: nat, end: nat) {
    && start < end <= |s| && (forall i :: start <= i < end ==> Alnum(s[i]))
    && (start == 0 || !Alnum(s[start - 1])) && (end == |s| || !Alnum(s[end]))
  }

  datatype Span = Span(start: nat, end: nat)

  /** The maximal runs from a position on that does not split one. */
  function RunsFrom(s: string, from: nat): (spans: seq<Span>)
    requires from <= |s|
    ensures forall k :: 0 <= k < |spans| ==> from <= spans[k].start < spans[k].end <= |s|
    decreases |s| - from
  {
    if from == |s| then []
    else if !Alnum(s[from]) then RunsFrom(s, from + 1)
    else
      var end := RunEnd(s, from, true);
      [Span(from, end)] + RunsFrom(s, end)
  }

  predicate Starts(s: string, from: nat) {
    from <= |s| && (0 < from < |s| ==> !(Alnum(s[from - 1]) && Alnum(s[from])))
  }

  predicate Apart(spans: seq<Span>) {
    forall k :: 1 <= k < |spans| ==> spans[k - 1].end < spans[k].start
  }

  lemma {:induction false} RunsAreApart(s: string, from: nat)
    requires from <= |s|
    ensures Apart(RunsFrom(s, from))
    decreases |s| - from
  {
    if from < |s| && !Alnum(s[from]) {
      RunsAreApart(s, from + 1);
    } else if from < |s| {
      var end := RunEnd(s, from, true);
      RunsAreApart(s, end);
      assert end < |s| ==> RunsFrom(s, end) == RunsFrom(s, end + 1);
    }
  }

  /** From a position that does not split a run, the spans are exactly the maximal runs. */
  lemma {:induction false} MaximalFrom(s: string, from: nat, start: nat, end: nat)
    requires Starts(s, from)
    ensures Span(start, end) in RunsFrom(s, from) <==> from <= start && MaximalRun(s, start, end)
    decreases |s| - from
  {
    if from < |s| && !Alnum(s[from]) {
      MaximalFrom(s, from + 1, start, end);
    } else if from < |s| {
      MaximalFrom(s, RunEnd(s, from, true), start, end);
      FirstRun(s, from, start, end);
    }
  }

  /** The runs of a name: exactly its maximal ones, in order and apart. */
  lemma RunsAreMaximal(s: string)
    ensures Apart(RunsFrom(s, 0))
    ensures forall start: nat, end: nat :: Span(start, end) in RunsFrom(s, 0) <==> MaximalRun(s, start, end)
  {
    RunsAreApart(s, 0);
    forall start: nat, end: nat
      ensures Span(start, end) in RunsFrom(s, 0) <==> MaximalRun(s, start, end)
    {
      MaximalFrom(s, 0, start, end);
    }
  }

  /** A maximal run from a position that starts one is that run or lies behind it. */
  lemma FirstRun(s: string, from: nat, start: nat, end: nat)
    requires Starts(s, from) && from < |s| && Alnum(s[from])
    ensures var e := RunEnd(s, from, true);
      from <= start && MaximalRun(s, start, end) <==>
        (start, end) == (from, e) || (e <= start && MaximalRun(s, start, end))
  {
    var e := RunEnd(s, from, true);
    assert MaximalRun(s, from, e);
    assert from < start <= e ==> Alnum(s[start - 1]);
    assert from <= end < e ==> Alnum(s[end]);
    assert e < |s| ==> !Alnum(s[e]);
  }

  function Pieces(s: string, spans: seq<Span>): (pieces: seq<string>)
    requires forall k :: 0 <= k < |spans| ==> spans[k].start <= spans[k].end <= |s|
  {
    if spans == [] then [] else [s[spans[0].start..spans[0].end]] + Pieces(s, spans[1..])
  }

  function Runs(s: string): seq<string> {
    Pieces(s, RunsFrom(s, 0))
  }

  /** Not empty, and alphanumeric throughout. */
  predicate Word(w: string) {
    w != [] && forall i :: 0 <= i < |w| ==> Alnum(w[i])
  }

  lemma {:induction false} RunsAreWords(s: string, from: nat)
    requires from <= |s|
    ensures forall w :: w in Pieces(s, RunsFrom(s, from)) ==> Word(w)
    decreases |s| - from
  {
    if from < |s| {
      if !Alnum(s[from]) {
        RunsAreWords(s, from + 1);
      } else {
        var end := RunEnd(s, from, true);
        RunsAreWords(s, end);
        assert forall i :: 0 <= i < end - from ==> s[from..end][i] == s[from + i];
        assert RunsFrom(s, from)[1..] == RunsFrom(s, end);
      }
    }
  }

  // ----- The slug -----

  /** Words joined by single hyphens: letters and digits at both ends, and no two hyphens in a row. */
  predicate Slugged(t: string) {
    && (forall i :: 0 <= i < |t| ==> Alnum(t[i]) || t[i] == '-')
    && (t != [] ==> Alnum(t[0]) && Alnum(Last(t)))
    && (forall i :: 0 < i < |t| ==> Alnum(t[i - 1]) || Alnum(t[i]))
  }

  lemma {:induction false} JoinIsSlugged(words: seq<string>)
    requires forall w :: w in words ==> Word(w)
    ensures Slugged(Join(words, "-"))
    ensures words != [] ==> Join(words, "-") != []
  {
    if |words| >= 1 {
      assert Word(words[0]);
    }
    if |words| > 1 {
      JoinIsSlugged(words[1..]);
      assert Word(words[1]);
    }
  }

  lemma ConsTake(s: string, from: nat, end: nat, tail: string)
    requires from < end <= |s|
    ensures [s[from]] + (s[from + 1..end] + tail) == s[from..end] + tail
  {
    assert [s[from]] + s[from + 1..end] == s[from..end];
  }

  lemma {:induction false} CollapseRun(s: string, from: nat)
    requires from <= |s|
    ensures var end := RunEnd(s, from, true); Collapse(s, from) == s[from..end] + Collapse(s, end)
    decreases |s| - from
  {
    if from < |s| && Alnum(s[from]) {
      var end := RunEnd(s, from, true);
      CollapseRun(s, from + 1);
      ConsTake(s, from, end, Collapse(s, end));
    }
  }

  lemma {:induction false} RunsSkip(s: string, from: nat, end: nat)
    requires from <= end <= |s| && forall i :: from <= i < end ==> !Alnum(s[i])
    ensures RunsFrom(s, from) == RunsFrom(s, end)
    decreases end - from
  {
    if from < end {
      RunsSkip(s, from + 1, end);
    }
  }

  /** The hyphen a run of other characters leaves. */
  function Hyphen(present: bool): string {
    if present then "-" else []
  }

  function Collapsed(runs: seq<string>, s: string, from: nat): string
    requires from < |s|
  {
    Hyphen(!Alnum(s[from])) + if runs == [] then [] else Join(runs, "-") + Hyphen(!Alnum(Last(s)))
  }

  /** Collapsing leaves the runs, hyphens between, and a hyphen at an end that is not alphanumeric. */
  lemma {:induction false} CollapseJoins(s: string, from: nat)
    requires from < |s|
    ensures Collapse(s, from) == Collapsed(Pieces(s, RunsFrom(s, from)), s, from)
    decreases |s| - from
  {
    if Alnum(s[from]) {
      CollapseFirst(s, from);
    } else {
      var next := RunEnd(s, from, false);
      RunsSkip(s, from, next);
      if next < |s| {
        CollapseJoins(s, next);
      }
    }
  }

  lemma {:induction false} CollapseFirst(s: string, from: nat)
    requires from < |s| && Alnum(s[from])
    ensures Collapse(s, from) == Collapsed(Pieces(s, RunsFrom(s, from)), s, from)
    decreases |s| - from, 0
  {
    var end := RunEnd(s, from, true);
    CollapseRun(s, from);
    var word, rest := s[from..end], Pieces(s, RunsFrom(s, end));
    assert RunsFrom(s, from)[1..] == RunsFrom(s, end);
    assert Pieces(s, RunsFrom(s, from)) == [word] + rest;
    if end < |s| {
      CollapseJoins(s, end);
      WordThenRest(word, rest, Hyphen(!Alnum(Last(s))));
    }
  }

  lemma WordThenRest(word: string, rest: seq<string>, tail: string)
    ensures rest != [] ==> word + ("-" + (Join(rest, "-") + tail)) == Join([word] + rest, "-") + tail
    ensures rest == [] ==> Join([word] + rest, "-") == word
  {
    assert ([word] + rest)[1..] == rest;
  }

  lemma FirstHyphen(before: bool, t: string)
    requires t == [] || t[0] != '-'
    ensures StripFirst(Hyphen(before) + t) == t
  {}

  lemma LastHyphen(t: string, after: bool)
    requires t == [] || Last(t) != '-'
    ensures StripLast(t + Hyphen(after)) == t
  {}

  lemma StripHyphens(before: bool, t: string, after: bool)
    requires Slugged(t) && (t == [] ==> !after)
    ensures StripEnds(Hyphen(before) + (t + Hyphen(after))) == t
  {
    assert t != [] ==> (t + Hyphen(after))[0] == t[0];
    FirstHyphen(before, t + Hyphen(after));
    LastHyphen(t, after);
  }

  /** The slug is the maximal alphanumeric runs of the lower-cased name, joined by hyphens. */
  lemma SlugJoinsTheRuns(name: string, lower: string -> string)
    ensures Slug(name, lower) == Join(Runs(lower(name)), "-")
    ensures Slugged(Slug(name, lower))
  {
    var s := lower(name);
    var runs := Runs(s);
    RunsAreWords(s, 0);
    JoinIsSlugged(runs);
    if s != [] {
      CollapseJoins(s, 0);
      StripHyphens(!Alnum(s[0]), Join(runs, "-"), runs != [] && !Alnum(Last(s)));
      assert runs == [] ==> Hyphen(!Alnum(s[0])) + ([] + []) == Hyphen(!Alnum(s[0])) + [];
    }
  }

  lemma SluggedHyphen(t: string, i: nat)
    requires Slugged(t) && i < |t| && !Alnum(t[i])
    ensures t[i] == '-' && i + 1 < |t| && Alnum(t[i + 1]) && RunEnd(t, i, false) == i + 1
  {
    assert i != |t| - 1;
    assert RunEnd(t, i + 1, false) == i + 1;
  }

  lemma {:induction false} CollapseKeeps(t: string, from: nat)
    requires from <= |t| && Slugged(t)
    ensures Collapse(t, from) == t[from..]
    decreases |t| - from
  {
    if from < |t| {
      CollapseKeeps(t, from + 1);
      assert [t[from]] + t[from + 1..] == t[from..];
      if !Alnum(t[from]) {
        SluggedHyphen(t, from);
      }
    }
  }

  /** What lower-casing leaves alone is its own slug exactly if it is already hyphen-joined words. */
  lemma SlugFixesExactly(t: string, lower: string -> string)
    requires lower(t) == t
    ensures Slug(t, lower) == t <==> Slugged(t)
  {
    SlugJoinsTheRuns(t, lower);
    if Slugged(t) {
      CollapseKeeps(t, 0);
    }
  }

  /** Slugging twice is slugging once. */
  lemma SlugIsIdempotent(name: string, lower: string -> string)
    requires forall t :: Slugged(t) ==> lower(t) == t
    ensures Slug(Slug(name, lower), lower) == Slug(name, lower)
  {
    SlugJoinsTheRuns(name, lower);
    SlugFixesExactly(Slug(name, lower), lower);
  }

  lemma RunsFromSlug(runs: seq<string>)
    requires forall w :: w in runs ==> Word(w)
    ensures runs == if Join(runs, "-") == [] then [] else Split(Join(runs, "-"), '-')
  {
    JoinIsSlugged(runs);
    if runs != [] {
      SplitJoin(runs, '-');
    }
  }

  function FirstDot(s: string): nat {
    if s == [] || s[0] == '.' then 0 else 1 + FirstDot(s[1..])
  }

  lemma {:induction false} DotAfter(stem: string, extension: string)
    requires '.' !in stem && extension != [] && extension[0] == '.'
    ensures FirstDot(stem + extension) == |stem|
  {
    if stem == [] {
      assert stem + extension == extension;
    } else {
      assert (stem + extension)[1..] == stem[1..] + extension;
      DotAfter(stem[1..], extension);
    }
  }

  lemma StemAndExtension(a: string, b: string, x: string, y: string)
    requires '.' !in a && '.' !in b && x != [] && y != [] && x[0] == '.' && y[0] == '.'
    ensures a + x == b + y <==> a == b && x == y
  {
    DotAfter(a, x);
    DotAfter(b, y);
    assert (a + x)[..|a|] == a && (b + y)[..|b|] == b && (a + x)[|a|..] == x && (b + y)[|b|..] == y;
  }

  lemma SameSlugIff(a: string, b: string, lower: string -> string)
    ensures Slug(a, lower) == Slug(b, lower) <==> Runs(lower(a)) == Runs(lower(b))
  {
    SlugJoinsTheRuns(a, lower);
    SlugJoinsTheRuns(b, lower);
    RunsAreWords(lower(a), 0);
    RunsAreWords(lower(b), 0);
    RunsFromSlug(Runs(lower(a)));
    RunsFromSlug(Runs(lower(b)));
  }

  /**
   * Two resources get the same URI exactly if their lower-cased names have the same alphanumeric runs and their
   * formats the same extension: nothing else of a name matters, and no two extensions are confused.
   */
  lemma SameUriIff(a: string, x: string, b: string, y: string, lower: string -> string)
    requires x != [] && y != [] && x[0] == '.' && y[0] == '.'
    ensures DeriveStorageUri(a, x, lower) == DeriveStorageUri(b, y, lower)
       <==> Runs(lower(a)) == Runs(lower(b)) && x == y
  {
    var s, t := Slug(a, lower), Slug(b, lower);
    SlugJoinsTheRuns(a, lower);
    SlugJoinsTheRuns(b, lower);
    SameSlugIff(a, b, lower);
    StemAndExtension(s, t, x, y);
    SchemeIsConstant(s, x);
    SchemeIsConstant(t, y);
  }

  lemma SchemeIsConstant(slug: string, extension: string)
    ensures ("file://" + slug + extension)[7..] == slug + extension
  {}

  lemma AlnumIs(c: char)
    ensures Alnum(c) <==> c in DIGITS || c in LOWER_CASE
  {
    DigitIs(c);
    LowerCaseIs(c);
  }

  /** The whole URI: the scheme, the runs of the lower-cased name joined by hyphens, the extension. */
  lemma UriJoinsTheRuns(name: string, extension: string, lower: string -> string)
    ensures DeriveStorageUri(name, extension, lower) == "file://" + Join(Runs(lower(name)), "-") + extension
  {
    SlugJoinsTheRuns(name, lower);
  }
}
