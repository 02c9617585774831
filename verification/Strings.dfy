/** The parts of ECMAScript's String.prototype that the extraction code relies on. */
module Strings {
  import opened Prelude

  /** White space and line terminators, as `trim` and `trimEnd` see them. */
  predicate IsSpace(c: char) {
    var n := c as int;
    || 9 <= n <= 13 || n == 0x20 || n == 0xA0 || n == 0x1680 || 0x2000 <= n <= 0x200A
    || n == 0x2028 || n == 0x2029 || n == 0x202F || n == 0x205F || n == 0x3000 || n == 0xFEFF
  }

  predicate AllSpace(s: string) {
    forall i :: 0 <= i < |s| ==> IsSpace(s[i])
  }

  /** Not blank, and neither end is white space: what a non-empty `trim` returns. */
  predicate Tight(s: string) {
    s != [] && !IsSpace(s[0]) && !IsSpace(Last(s))
  }

  function TrimStart(s: string): string {
    if s != [] && IsSpace(s[0]) then TrimStart(s[1..]) else s
  }

  function TrimEnd(s: string): string {
    if s != [] && IsSpace(Last(s)) then TrimEnd(Front(s)) else s
  }

  function Trim(s: string): (t: string)
    ensures t == [] || Tight(t)
  {
    TrimEndKeepsFirst(TrimStart(s));
    TrimStartStops(s);
    TrimEnd(TrimStart(s))
  }

  lemma TrimStartStops(s: string)
    ensures TrimStart(s) == [] || !IsSpace(TrimStart(s)[0])
  {}

  lemma TrimEndKeepsFirst(s: string)
    ensures TrimEnd(s) <= s
    ensures TrimEnd(s) == [] || !IsSpace(Last(TrimEnd(s)))
  {}

  /** Trailing white space is all that `trimEnd` removes, and it removes all of it. */
  lemma {:induction false} TrimEndSpec(s: string, tail: string)
    requires s == [] || !IsSpace(Last(s))
    requires AllSpace(tail)
    ensures TrimEnd(s + tail) == s
  {
    if tail == [] {
      assert s + tail == s;
    } else {
      assert Front(s + tail) == s + Front(tail);
      TrimEndSpec(s, Front(tail));
    }
  }

  lemma {:induction false} TrimTight(s: string)
    requires s == [] || Tight(s)
    ensures Trim(s) == s
  {}

  lemma {:induction false} TrimPadded(before: string, s: string, after: string)
    requires s == [] || Tight(s)
    requires AllSpace(before) && AllSpace(after)
    ensures Trim(before + s + after) == s
  {
    if s == [] {
      assert before + s + after == before + after;
      TrimStartBlank(before + after);
    } else {
      TrimStartSpec(before, s + after);
      assert before + s + after == before + (s + after);
      TrimEndSpec(s, after);
    }
  }

  lemma {:induction false} TrimStartSpec(before: string, s: string)
    requires AllSpace(before) && (s == [] || !IsSpace(s[0]))
    ensures TrimStart(before + s) == s
  {
    if before == [] {
      assert before + s == s;
    } else {
      assert (before + s)[1..] == before[1..] + s;
      TrimStartSpec(before[1..], s);
    }
  }

  lemma {:induction false} TrimStartBlank(s: string)
    requires AllSpace(s)
    ensures TrimStart(s) == []
  {
    TrimStartSpec(s, []);
    assert s + [] == s;
  }

  /** `slice` with non-negative arguments: clamped, and empty when they cross. */
  function Slice(s: string, start: nat, end: nat): string {
    var b := if end <= |s| then end else |s|;
    if start < b then s[start..b] else []
  }

  function Repeat(s: string, n: nat): string {
    if n == 0 then [] else s + Repeat(s, n - 1)
  }

  function Join(parts: seq<string>, separator: string): string {
    if parts == [] then []
    else if |parts| == 1 then parts[0]
    else parts[0] + separator + Join(parts[1..], separator)
  }

  /** `split` on a one-character separator: always at least one piece. */
  function Split(s: string, separator: char): (pieces: seq<string>)
    ensures |pieces| >= 1
  {
    if s == [] then [[]]
    else
      var rest := Split(s[1..], separator);
      if s[0] == separator then [[]] + rest else [[s[0]] + rest[0]] + rest[1..]
  }

  lemma {:induction false} SplitFirst(piece: string, separator: char, rest: string)
    requires separator !in piece
    ensures Split(piece + [separator] + rest, separator) == [piece] + Split(rest, separator)
  {
    var s := piece + [separator] + rest;
    if piece == [] {
      assert s[1..] == rest;
    } else {
      assert s[1..] == piece[1..] + [separator] + rest;
      SplitFirst(piece[1..], separator, rest);
      assert [piece[0]] + piece[1..] == piece;
    }
  }

  lemma {:induction false} SplitNone(piece: string, separator: char)
    requires separator !in piece
    ensures Split(piece, separator) == [piece]
  {
    if piece != [] {
      SplitNone(piece[1..], separator);
      assert [piece[0]] + piece[1..] == piece;
    }
  }

  /** No piece contains the separator, and a character of a piece comes from the text. */
  lemma {:induction false} SplitPieces(s: string, separator: char)
    ensures forall piece :: piece in Split(s, separator) ==> separator !in piece
    ensures forall piece, c :: piece in Split(s, separator) && c in piece ==> c in s
  {
    if s != [] {
      SplitPieces(s[1..], separator);
      var rest := Split(s[1..], separator);
      forall piece | piece in Split(s, separator)
        ensures separator !in piece && forall c :: c in piece ==> c in s
      {
        if s[0] != separator && piece !in rest {
          assert piece == [s[0]] + rest[0];
          assert rest[0] in rest;
        }
      }
    }
  }

  lemma {:induction false} SplitAppend(a: string, separator: char, b: string)
    ensures Split(a + [separator] + b, separator) == Split(a, separator) + Split(b, separator)
  {
    var s := a + [separator] + b;
    if a == [] {
      assert s[1..] == b;
    } else {
      assert s[1..] == a[1..] + [separator] + b;
      SplitAppend(a[1..], separator, b);
    }
  }

  lemma {:induction false} SplitJoin(words: seq<string>, separator: char)
    requires words != [] && forall w :: w in words ==> separator !in w
    ensures Split(Join(words, [separator]), separator) == words
  {
    if |words| == 1 {
      SplitNone(words[0], separator);
    } else {
      SplitFirst(words[0], separator, Join(words[1..], [separator]));
      SplitJoin(words[1..], separator);
    }
  }

  lemma {:induction false} JoinSnoc(words: seq<string>, word: string, separator: string)
    ensures Join(words + [word], separator) == if words == [] then word else Join(words, separator) + separator + word
  {
    if |words| > 1 {
      assert (words + [word])[1..] == words[1..] + [word];
      JoinSnoc(words[1..], word, separator);
    } else if |words| == 1 {
      assert (words + [word])[1..] == [word];
    }
  }

  lemma {:induction false} JoinHas(words: seq<string>, separator: string, c: char)
    requires c in Join(words, separator)
    ensures c in separator || exists w :: w in words && c in w
  {
    if |words| > 1 && c !in words[0] && c !in separator {
      JoinHas(words[1..], separator, c);
      var w :| w in words[1..] && c in w;
      assert w in words;
    } else if |words| >= 1 && c in words[0] {
      assert words[0] in words;
    }
  }

  /** Text in which every piece so far has been closed by the separator. */
  predicate Closed(text: string, separator: char) {
    text == [] || Last(text) == separator
  }

  lemma LastPieceOfClosed(text: string, separator: char)
    requires Closed(text, separator)
    ensures Last(Split(text, separator)) == []
  {
    if text != [] {
      SplitAppend(Front(text), separator, []);
      assert Front(text) + [separator] + [] == text;
    }
  }

  /** Writing one more piece and closing it adds exactly that piece. */
  lemma AppendPiece(text: string, separator: char, piece: string)
    requires Closed(text, separator) && separator !in piece
    ensures Closed(text + piece + [separator], separator)
    ensures Front(Split(text + piece + [separator], separator)) == Front(Split(text, separator)) + [piece]
  {
    var after := piece + [separator];
    SplitFirst(piece, separator, []);
    assert piece + [separator] + [] == after;
    if text == [] {
      assert text + piece + [separator] == after;
    } else {
      SplitAppend(Front(text), separator, after);
      assert Front(text) + [separator] + after == text + piece + [separator];
      SplitAppend(Front(text), separator, []);
      assert Front(text) + [separator] + [] == text;
    }
  }

  const DIGITS := "0123456789"
  const LOWER_CASE := "abcdefghijklmnopqrstuvwxyz"
  const UPPER_CASE := "ABCDEFGHIJKLMNOPQRSTUVWXYZ"

  lemma DigitIs(c: char)
    ensures '0' <= c <= '9' <==> c in DIGITS
  {
    assert '0' <= c <= '9' ==> c == DIGITS[c as int - 48];
  }

  lemma LowerCaseIs(c: char)
    ensures 'a' <= c <= 'z' <==> c in LOWER_CASE
  {
    assert 'a' <= c <= 'z' ==> c == LOWER_CASE[c as int - 97];
  }

  lemma UpperCaseIs(c: char)
    ensures 'A' <= c <= 'Z' <==> c in UPPER_CASE
  {
    assert 'A' <= c <= 'Z' ==> c == UPPER_CASE[c as int - 65];
  }
}
