/** How a stored entry looks from outside: its names, its opening, and the numbers of its items in their places. */
module RecordLayout {
  import opened Prelude
  import opened Strings
  import opened PdfItems
  import opened LineCodec
  import opened JsonText
  import opened CacheEntry
  import opened StorePaths

  function Names(fields: seq<Field>): (names: seq<string>)
    ensures |names| == |fields| && forall i :: 0 <= i < |names| ==> names[i] == fields[i].name
  {
    seq(|fields|, i requires 0 <= i < |fields| => fields[i].name)
  }

  /** The names come in this order, the version is 2, and provenance is kept as it is. */
  lemma EntryNames(stamp: string, o: Outcome)
    ensures var fields := EntryJson(stamp, o).fields;
      && |fields| >= 3 && fields[0] == Field("v", JNum(Fin(2.0))) && fields[1] == Field("stamp", JStr(stamp))
      && (o.Declined? ==> |fields| == 3 && fields[2] == Field("declined", o.reason))
      && (o.Extracted? ==>
            && |fields| == 4 + |o.provenance| && fields[2] == Field("text", JStr(o.text))
            && fields[3].name == "lines" && fields[3].value.JArr? && fields[4..] == o.provenance)
  {}

  lemma NameTexts()
    ensures [Ch('{')] + Quote("v") + [Ch(':')] == Chars("{\"v\":")
    ensures [Ch(',')] + (Quote("stamp") + [Ch(':')]) == Chars(",\"stamp\":")
  {
    QuotedName("v");
    QuotedName("stamp");
    assert Quote("v") == Chars("\"v\"") && Quote("stamp") == Chars("\"stamp\"");
  }

  lemma OpeningOfNames()
    ensures Opening(2.0) == Chars("{\"v\":") + [Lit(2.0)] + Chars(",\"stamp\":")
  {
    NameTexts();
    Bracketed([Ch('{')] + Quote("v"), Ch(':'), Lit(2.0), Ch(','), Quote("stamp") + [Ch(':')]);
    Regrouped([Ch('{')] + Quote("v") + [Ch(':'), Lit(2.0), Ch(',')], Quote("stamp"), [Ch(':')]);
  }

  lemma Regrouped(a: Text, b: Text, c: Text)
    ensures a + b + c == a + (b + c)
  {}

  lemma Bracketed(a: Text, x: Sym, y: Sym, z: Sym, b: Text)
    ensures a + [x, y, z] + b == (a + [x]) + [y] + ([z] + b)
  {}

  /** What the listing compares is the literal opening of an entry. */
  lemma PrefixIsTheOpening(stamp: string)
    ensures Prefix(stamp)
         == (Chars("{\"v\":") + [Lit(2.0)] + Chars(",\"stamp\":")) + (Quote(stamp) + [Ch(',')])
  {
    PrefixText(stamp);
    OpeningOfNames();
  }

  predicate Plain(s: string) {
    forall i :: 0 <= i < |s| ==> 'a' <= s[i] <= 'z'
  }

  lemma {:induction false} PlainIsNotEscaped(s: string)
    requires Plain(s)
    ensures EscapeAll(s) == s
  {
    if s != [] {
      PlainIsNotEscaped(s[1..]);
      assert Escape(s[0]) == [s[0]] && [s[0]] + s[1..] == s;
    }
  }

  lemma QuotedName(s: string)
    requires Plain(s)
    ensures Quote(s) == Chars(['"'] + s + ['"'])
  {
    PlainIsNotEscaped(s);
  }

  // ----- Items -----

  /** An item's numbers: page, baseline and height from its line, then left, width, start and end. */
  function Numbers(item: Item): seq<Json> {
    [JNum(item.page), JNum(item.y), JNum(item.height),
     JNum(item.x), JNum(item.width), JNum(item.start), JNum(item.end)]
  }

  function AllNumbers(items: seq<Item>): (numbers: seq<seq<Json>>)
    ensures |numbers| == |items| && forall i :: 0 <= i < |items| ==> numbers[i] == Numbers(items[i])
  {
    seq(|items|, i requires 0 <= i < |items| => Numbers(items[i]))
  }

  /** The numbers of one word of a line object, as any reader of the format finds them. */
  function WordNumbers(fields: seq<Field>, word: Json): seq<Json> {
    if Lookup(fields, "p").Some? && Lookup(fields, "y").Some? && Lookup(fields, "h").Some? && word.JArr?
    then [Lookup(fields, "p").value, Lookup(fields, "y").value, Lookup(fields, "h").value] + word.elems
    else []
  }

  function LineNumbers(line: Json): seq<seq<Json>> {
    if line.JObj? && Lookup(line.fields, "words").Some? && Lookup(line.fields, "words").value.JArr? then
      var words := Lookup(line.fields, "words").value.elems;
      seq(|words|, i requires 0 <= i < |words| => WordNumbers(line.fields, words[i]))
    else []
  }

  function AllLineNumbers(lines: seq<Json>): seq<seq<Json>> {
    if lines == [] then [] else AllLineNumbers(Front(lines)) + LineNumbers(Last(lines))
  }

  lemma LineHoldsNumbers(line: Line)
    ensures LineNumbers(LineJson(line)) == AllNumbers(ItemsOf(line))
  {
    LineLookups(line);
    var words := WordsJson(line.words);
    forall i | 0 <= i < |line.words|
      ensures WordNumbers(LineJson(line).fields, words[i]) == Numbers(ItemsOf(line)[i])
    {
      assert words[i] == WordJson(line.words[i]);
    }
  }

  lemma NumbersAppend(a: seq<Item>, b: seq<Item>)
    ensures AllNumbers(a + b) == AllNumbers(a) + AllNumbers(b)
  {}

  lemma LinesJsonSnoc(lines: seq<Line>)
    requires lines != []
    ensures Front(LinesJson(lines)) == LinesJson(Front(lines)) && Last(LinesJson(lines)) == LineJson(Last(lines))
  {}

  lemma {:induction false} LinesHoldNumbers(lines: seq<Line>)
    ensures AllLineNumbers(LinesJson(lines)) == AllNumbers(Decode(lines))
  {
    if lines != [] {
      LinesHoldNumbers(Front(lines));
      LineHoldsNumbers(Last(lines));
      LinesJsonSnoc(lines);
      NumbersAppend(Decode(Front(lines)), ItemsOf(Last(lines)));
    }
  }

  /** Read off the stored lines in order, the numbers are those of the items. */
  lemma StoredNumbersAreTheItems(items: seq<Item>)
    ensures AllLineNumbers(LinesJson(Encode(items))) == AllNumbers(items)
  {
    LinesHoldNumbers(Encode(items));
    RoundTrip(items);
  }

  /** A text entry that passes the shape check names its method. */
  lemma AcceptedNamesItsMethod(v: Json)
    requires IsCached(v) && Lookup(v.fields, "declined").None?
    ensures DecodeEntry(v).Extracted? && HasString(DecodeEntry(v).provenance, "method")
    ensures HasString(v.fields, "text") && DecodeEntry(v).text == Lookup(v.fields, "text").value.s
  {
    RestFinds(v.fields, "method");
  }

  lemma {:induction false} RestFinds(fields: seq<Field>, name: string)
    requires name !in {"v", "stamp", "lines", "text"}
    ensures Lookup(Rest(fields), name) == Lookup(fields, name)
  {
    if fields != [] {
      RestFinds(fields[1..], name);
      var rest := Rest(fields[1..]);
      assert ([fields[0]] + rest)[1..] == rest && [] + rest == rest;
    }
  }

  // ----- Paths -----

  /** The key's hash without any width: the usual polynomial in 31. */
  function Polynomial(key: string): int {
    if key == [] then 0 else 31 * Polynomial(Front(key)) + Last(key) as int
  }

  lemma ToInt32Wraps(n: int) returns (turns: int)
    ensures ToInt32(n) == n - turns * 0x1_0000_0000 && -0x8000_0000 <= ToInt32(n) < 0x8000_0000
  {
    turns := n / 0x1_0000_0000 + if n % 0x1_0000_0000 >= 0x8000_0000 then 1 else 0;
  }

  /** The hash is that polynomial, wrapped to 32 bits with a sign. */
  lemma {:induction false} HashIsThePolynomial(key: string) returns (turns: int)
    ensures Hash(key) == Polynomial(key) - turns * 0x1_0000_0000
    ensures -0x8000_0000 <= Hash(key) < 0x8000_0000
  {
    if key == [] {
      turns := 0;
    } else {
      var before := HashIsThePolynomial(Front(key));
      var h := Hash(Front(key));
      var shift := ToInt32Wraps(h * 32);
      var wrap := ToInt32Wraps(ToInt32(h * 32) - h + Last(key) as int);
      turns := 31 * before + shift + wrap;
    }
  }

  function DigitValue(c: char): nat
    requires IsHex(c)
  {
    if c <= '9' then c as nat - '0' as nat else c as nat - 'a' as nat + 10
  }

  function TwoDigits(s: string): nat
    requires HexName(s, 2)
  {
    16 * DigitValue(s[0]) + DigitValue(s[1])
  }

  lemma HexDigitValue(n: nat)
    requires n < 16
    ensures IsHex(HexDigit(n)) && DigitValue(HexDigit(n)) == n
  {}

  lemma FourDigits(shard: nat)
    requires shard < 65536
    ensures shard / 4096 < 16 && 16 * (shard / 4096) + shard / 256 % 16 == shard / 256
    ensures 16 * (shard / 16 % 16) + shard % 16 == shard % 256
  {}

  lemma TwoDigitsAre(hi: nat, lo: nat)
    requires hi < 16 && lo < 16
    ensures HexName([HexDigit(hi), HexDigit(lo)], 2) && TwoDigits([HexDigit(hi), HexDigit(lo)]) == 16 * hi + lo
  {
    HexDigitValue(hi);
    HexDigitValue(lo);
  }

  lemma ShardDigits(shard: nat)
    requires shard < 65536
    ensures var p := ShardNames(shard); TwoDigits(p.0) == shard / 256 && TwoDigits(p.1) == shard % 256
  {
    FourDigits(shard);
    TwoDigitsAre(shard / 4096, shard / 256 % 16);
    TwoDigitsAre(shard / 16 % 16, shard % 16);
  }

  /** An entry lies under the high and the low byte of its key's hash, and is written beside itself first. */
  lemma EntriesLieUnderTheirHash(key: string, pid: string)
    ensures var t, shard := Target(key), (if Hash(key) < 0 then -Hash(key) else Hash(key)) % 65536;
      && |t| == 3 && HexName(t[0], 2) && HexName(t[1], 2) && t[2] == key + ".json"
      && TwoDigits(t[0]) == shard / 256 && TwoDigits(t[1]) == shard % 256
      && Temp(key, pid) == [t[0], t[1], t[2] + "." + pid + ".tmp"]
  {
    ShardDigits((if Hash(key) < 0 then -Hash(key) else Hash(key)) % 65536);
    assert key + ".json." + pid + ".tmp" == key + ".json" + "." + pid + ".tmp";
  }

  /** A key is refused exactly if it is empty or has a character other than letters, digits, `_` and `-`. */
  lemma KeyIsValidIff(key: string)
    ensures ValidKey(key) <==>
      key != "" && forall i :: 0 <= i < |key| ==>
        key[i] in DIGITS || key[i] in LOWER_CASE || key[i] in UPPER_CASE || key[i] in "_-"
  {
    forall i | 0 <= i < |key|
      ensures KeyChar(key[i]) <==>
        key[i] in DIGITS || key[i] in LOWER_CASE || key[i] in UPPER_CASE || key[i] in "_-"
    {
      DigitIs(key[i]);
      LowerCaseIs(key[i]);
      UpperCaseIs(key[i]);
      assert key[i] in "_-" <==> key[i] == "_-"[0] || key[i] == "_-"[1];
    }
  }
}
