/**
 * JSON text as `JSON.stringify` writes it and `JSON.parse` reads it back. A numeric literal is one symbol, so
 * number formatting is not modelled; everything else is character by character.
 */
module JsonText {
  import opened Prelude
  import opened PdfItems

  datatype Sym = Ch(c: char) | Lit(n: real)
  type Text = seq<Sym>

  /** A value in memory; only there can a number fail to be finite. */
  datatype Json =
    | JNull
    | JBool(b: bool)
    | JNum(n: Num)
    | JStr(s: string)
    | JArr(elems: seq<Json>)
    | JObj(fields: seq<Field>)
  datatype Field = Field(name: string, value: Json)

  function Chars(s: string): (t: Text)
    ensures |t| == |s| && forall i :: 0 <= i < |s| ==> t[i] == Ch(s[i])
  {
    seq(|s|, i requires 0 <= i < |s| => Ch(s[i]))
  }

  // ----- Strings (section 7 of RFC 8259) -----

  function HexValue(c: char): Option<nat> {
    if '0' <= c <= '9' then Some((c - '0') as nat)
    else if 'a' <= c <= 'f' then Some((c - 'a') as nat + 10)
    else if 'A' <= c <= 'F' then Some((c - 'A') as nat + 10)
    else None
  }

  /** The letter of a two-character escape, for the characters that have one. */
  function ShortEscape(c: char): Option<char> {
    match c as int
    case 34 => Some('"')
    case 92 => Some('\\')
    case 8 => Some('b')
    case 12 => Some('f')
    case 10 => Some('n')
    case 13 => Some('r')
    case 9 => Some('t')
    case _ => None
  }

  function ShortUnescape(c: char): Option<char> {
    match c
    case '"' => Some('"')
    case '\\' => Some('\\')
    case '/' => Some('/')
    case 'b' => Some(8 as char)
    case 'f' => Some(12 as char)
    case 'n' => Some(10 as char)
    case 'r' => Some(13 as char)
    case 't' => Some(9 as char)
    case _ => None
  }

  function Escape(c: char): (s: string)
    ensures s != []
  {
    if ShortEscape(c).Some? then ['\\', ShortEscape(c).value]
    else if (c as int) < 32 then ['\\', 'u', '0', '0', HexDigit(c as int / 16), HexDigit(c as int % 16)]
    else [c]
  }

  function EscapeAll(s: string): string {
    if s == [] then [] else Escape(s[0]) + EscapeAll(s[1..])
  }

  function Quote(s: string): Text {
    Chars(['"'] + EscapeAll(s) + ['"'])
  }

  /** Four hexadecimal digits, when they name a character and not half of a surrogate pair. */
  function UnicodeEscape(t: Text): Option<char> {
    if |t| < 4 || !t[0].Ch? || !t[1].Ch? || !t[2].Ch? || !t[3].Ch? then None
    else
      var a :- HexValue(t[0].c);
      var b :- HexValue(t[1].c);
      var d :- HexValue(t[2].c);
      var e :- HexValue(t[3].c);
      var n := a * 4096 + b * 256 + d * 16 + e;
      if n < 0xD800 || 0xE000 <= n then Some(n as char) else None
  }

  /** Reads one possibly escaped character of a string: the character and how many symbols it took. */
  function ReadChar(t: Text): (r: Option<(char, nat)>)
    ensures r.Some? ==> 1 <= r.value.1 <= |t|
  {
    if t == [] || !t[0].Ch? || t[0].c == '"' || (t[0].c as int) < 32 then None
    else if t[0].c != '\\' then Some((t[0].c, 1))
    else if |t| < 2 || !t[1].Ch? then None
    else if t[1].c == 'u' then
      var c :- UnicodeEscape(t[2..]);
      Some((c, 6))
    else
      var c :- ShortUnescape(t[1].c);
      Some((c, 2))
  }

  /** Reads the rest of a string after its opening quote. */
  function Unquote(t: Text): (r: Option<(string, Text)>)
    ensures r.Some? ==> |r.value.1| < |t|
  {
    if t == [] then None
    else if t[0] == Ch('"') then Some(([], t[1..]))
    else
      var (c, n) :- ReadChar(t);
      var (s, rest) :- Unquote(t[n..]);
      Some(([c] + s, rest))
  }

  lemma HexDigitsRead(n: nat)
    requires n < 16
    ensures HexValue(HexDigit(n)) == Some(n)
  {}

  lemma EscapedCharReads(c: char, rest: Text)
    ensures var e := Chars(Escape(c));
      && ReadChar(e + rest) == Some((c, |e|))
      && (e + rest)[0] != Ch('"') && (e + rest)[|e|..] == rest
  {
    var t := Chars(Escape(c)) + rest;
    if ShortEscape(c).Some? {
      assert t[0] == Ch('\\') && t[1] == Ch(ShortEscape(c).value);
    } else if (c as int) < 32 {
      HexDigitsRead(c as int / 16);
      HexDigitsRead(c as int % 16);
      var u := t[2..];
      assert t[0] == Ch('\\') && t[1] == Ch('u');
      assert u[0] == Ch('0') && u[1] == Ch('0');
      assert u[2] == Ch(HexDigit(c as int / 16)) && u[3] == Ch(HexDigit(c as int % 16));
    } else {
      assert t[0] == Ch(c);
    }
  }

  lemma CharsAppend(a: string, b: string)
    ensures Chars(a + b) == Chars(a) + Chars(b)
  {}

  lemma EscapedText(s: string, tail: Text)
    requires s != []
    ensures Chars(EscapeAll(s)) + [Ch('"')] + tail
         == Chars(Escape(s[0])) + (Chars(EscapeAll(s[1..])) + [Ch('"')] + tail)
  {
    CharsAppend(Escape(s[0]), EscapeAll(s[1..]));
  }

  lemma OneCharMore(c: char, t: Text, s: string, rest: Text)
    requires Unquote(t) == Some((s, rest))
    ensures Unquote(Chars(Escape(c)) + t) == Some(([c] + s, rest))
  {
    EscapedCharReads(c, t);
  }

  lemma {:induction false} QuoteReads(s: string, rest: Text)
    ensures Unquote(Chars(EscapeAll(s)) + [Ch('"')] + rest) == Some((s, rest))
  {
    if s == [] {
      assert Chars(EscapeAll(s)) + [Ch('"')] + rest == [Ch('"')] + rest;
    } else {
      QuoteReads(s[1..], rest);
      EscapedText(s, rest);
      OneCharMore(s[0], Chars(EscapeAll(s[1..])) + [Ch('"')] + rest, s[1..], rest);
      assert [s[0]] + s[1..] == s;
    }
  }

  // ----- Values -----

  function Stringify(v: Json): Text
    decreases v, 1
  {
    match v
    case JNull => Chars("null")
    case JBool(b) => Chars(if b then "true" else "false")
    case JNum(n) => if n.Fin? then [Lit(n.r)] else Chars("null")
    case JStr(s) => Quote(s)
    case JArr(elems) => [Ch('[')] + StringifyAll(elems) + [Ch(']')]
    case JObj(fields) => [Ch('{')] + StringifyFields(fields) + [Ch('}')]
  }

  function StringifyAll(elems: seq<Json>): Text
    decreases elems, 0
  {
    if elems == [] then []
    else if |elems| == 1 then Stringify(elems[0])
    else Stringify(elems[0]) + [Ch(',')] + StringifyAll(elems[1..])
  }

  function StringifyField(f: Field): Text
    decreases f, 2
  {
    Quote(f.name) + [Ch(':')] + Stringify(f.value)
  }

  function StringifyFields(fields: seq<Field>): Text
    decreases fields, 0
  {
    if fields == [] then []
    else if |fields| == 1 then StringifyField(fields[0])
    else StringifyField(fields[0]) + [Ch(',')] + StringifyFields(fields[1..])
  }

  /** What serialization makes of a value: numbers that are not finite turn into `null`. */
  function Carried(v: Json): Json
    decreases v, 1
  {
    match v
    case JNum(n) => if n.Fin? then v else JNull
    case JArr(elems) => JArr(CarriedAll(elems))
    case JObj(fields) => JObj(CarriedFields(fields))
    case _ => v
  }

  function CarriedAll(elems: seq<Json>): seq<Json>
    decreases elems, 0
  {
    if elems == [] then [] else [Carried(elems[0])] + CarriedAll(elems[1..])
  }

  function CarriedField(f: Field): Field
    decreases f, 2
  {
    Field(f.name, Carried(f.value))
  }

  function CarriedFields(fields: seq<Field>): seq<Field>
    decreases fields, 0
  {
    if fields == [] then [] else [CarriedField(fields[0])] + CarriedFields(fields[1..])
  }

  /** The first value of a text, and what follows it. */
  function ParseValue(t: Text): (r: Option<(Json, Text)>)
    ensures r.Some? ==> |r.value.1| < |t|
    decreases |t|, 1
  {
    if t == [] then None
    else
      match t[0]
      case Lit(n) => Some((JNum(Fin(n)), t[1..]))
      case Ch(c) =>
        if c == '"' then
          var (s, rest) :- Unquote(t[1..]);
          Some((JStr(s), rest))
        else if c == 'n' then
          if Chars("null") <= t then Some((JNull, t[4..])) else None
        else if c == 't' then
          if Chars("true") <= t then Some((JBool(true), t[4..])) else None
        else if c == 'f' then
          if Chars("false") <= t then Some((JBool(false), t[5..])) else None
        else if c == '[' then
          if |t| > 1 && t[1] == Ch(']') then Some((JArr([]), t[2..]))
          else
            var (elems, rest) :- ParseElems(t[1..]);
            Some((JArr(elems), rest))
        else if c == '{' then
          if |t| > 1 && t[1] == Ch('}') then Some((JObj([]), t[2..]))
          else
            var (fields, rest) :- ParseFields(t[1..]);
            Some((JObj(fields), rest))
        else None
  }

  /** One or more elements and the closing bracket. */
  function ParseElems(t: Text): (r: Option<(seq<Json>, Text)>)
    ensures r.Some? ==> |r.value.1| < |t|
    decreases |t|, 2
  {
    var (v, after) :- ParseValue(t);
    if after == [] then None
    else if after[0] == Ch(']') then Some(([v], after[1..]))
    else if after[0] == Ch(',') then
      var (vs, rest) :- ParseElems(after[1..]);
      Some(([v] + vs, rest))
    else None
  }

  function ParseField(t: Text): (r: Option<(Field, Text)>)
    ensures r.Some? ==> |r.value.1| < |t|
    decreases |t|, 2
  {
    if t == [] || t[0] != Ch('"') then None
    else
      var (name, after) :- Unquote(t[1..]);
      if after == [] || after[0] != Ch(':') then None
      else
        var (v, rest) :- ParseValue(after[1..]);
        Some((Field(name, v), rest))
  }

  function ParseFields(t: Text): (r: Option<(seq<Field>, Text)>)
    ensures r.Some? ==> |r.value.1| < |t|
    decreases |t|, 3
  {
    var (f, after) :- ParseField(t);
    if after == [] then None
    else if after[0] == Ch('}') then Some(([f], after[1..]))
    else if after[0] == Ch(',') then
      var (fs, rest) :- ParseFields(after[1..]);
      Some(([f] + fs, rest))
    else None
  }

  function Parse(t: Text): Option<Json> {
    match ParseValue(t)
    case None => None
    case Some((v, rest)) => if rest == [] then Some(v) else None
  }

  /** A value's text does not begin with a closing bracket. */
  lemma ValueOpens(v: Json)
    ensures Stringify(v) != [] && Stringify(v)[0] != Ch(']')
  {
    match v
    case JStr(s) => assert Quote(s)[0] == Ch('"');
    case _ =>
  }

  lemma WordReads(word: string, rest: Text)
    ensures Chars(word) <= Chars(word) + rest && (Chars(word) + rest)[|word|..] == rest
  {}

  lemma NullReads(rest: Text)
    ensures ParseValue(Chars("null") + rest) == Some((JNull, rest))
  {
    WordReads("null", rest);
  }

  lemma BoolReads(b: bool, rest: Text)
    ensures ParseValue(Stringify(JBool(b)) + rest) == Some((JBool(b), rest))
  {
    WordReads(if b then "true" else "false", rest);
  }

  lemma NumReads(n: Num, rest: Text)
    ensures ParseValue(Stringify(JNum(n)) + rest) == Some((Carried(JNum(n)), rest))
  {
    if n.Fin? {
      assert ([Lit(n.r)] + rest)[1..] == rest;
    } else {
      NullReads(rest);
    }
  }

  lemma StringReads(s: string, rest: Text)
    ensures ParseValue(Quote(s) + rest) == Some((JStr(s), rest))
  {
    QuotedFieldReads(s, rest);
  }

  /** Whatever follows, the parser reads back exactly the value that was written, as it is carried. */
  lemma {:induction false} ValueReads(v: Json, rest: Text)
    ensures ParseValue(Stringify(v) + rest) == Some((Carried(v), rest))
    decreases v, 1
  {
    match v
    case JNull => NullReads(rest);
    case JBool(b) => BoolReads(b, rest);
    case JNum(n) => NumReads(n, rest);
    case JStr(s) => StringReads(s, rest);
    case JArr(elems) =>
      ArrayReads(elems, rest);
      assert Stringify(v) + rest == [Ch('[')] + ElemsText(elems, rest);
    case JObj(fields) =>
      ObjectReads(fields, rest);
      assert Stringify(v) + rest == [Ch('{')] + FieldsText(fields, rest);
  }

  lemma {:induction false} ArrayReads(elems: seq<Json>, rest: Text)
    ensures ParseValue([Ch('[')] + ElemsText(elems, rest)) == Some((JArr(CarriedAll(elems)), rest))
    decreases elems, 1
  {
    var inner := ElemsText(elems, rest);
    if elems == [] {
      assert [Ch('[')] + inner == [Ch('['), Ch(']')] + rest;
    } else {
      ElemsRead(elems, rest);
      ElemsOpen(elems);
      OpenedArrayReads(inner);
    }
  }

  lemma OpenedArrayReads(inner: Text)
    requires inner != [] && inner[0] != Ch(']') && ParseElems(inner).Some?
    ensures ParseValue([Ch('[')] + inner) == Some((JArr(ParseElems(inner).value.0), ParseElems(inner).value.1))
  {
    var t := [Ch('[')] + inner;
    assert t[0] == Ch('[') && t[1] == inner[0] && t[1..] == inner;
  }

  lemma {:induction false} ObjectReads(fields: seq<Field>, rest: Text)
    ensures ParseValue([Ch('{')] + FieldsText(fields, rest)) == Some((JObj(CarriedFields(fields)), rest))
    decreases fields, 1
  {
    var inner := FieldsText(fields, rest);
    if fields == [] {
      assert [Ch('{')] + inner == [Ch('{'), Ch('}')] + rest;
    } else {
      FieldsRead(fields, rest);
      FieldsOpen(fields);
      OpenedObjectReads(inner);
    }
  }

  lemma OpenedObjectReads(inner: Text)
    requires inner != [] && inner[0] == Ch('"') && ParseFields(inner).Some?
    ensures ParseValue([Ch('{')] + inner) == Some((JObj(ParseFields(inner).value.0), ParseFields(inner).value.1))
  {
    assert ([Ch('{')] + inner)[1..] == inner;
  }

  lemma QuoteText(s: string)
    ensures Quote(s) == [Ch('"')] + (Chars(EscapeAll(s)) + [Ch('"')])
  {
    CharsAppend(['"'] + EscapeAll(s), ['"']);
    CharsAppend(['"'], EscapeAll(s));
    assert Chars(['"']) == [Ch('"')];
  }

  lemma TailAfter(first: Sym, mid: Text, rest: Text)
    ensures ([first] + mid + rest)[0] == first && ([first] + mid + rest)[1..] == mid + rest
  {}

  lemma QuotedFieldReads(s: string, rest: Text)
    ensures var t := Quote(s) + rest;
      t != [] && t[0] == Ch('"') && Unquote(t[1..]) == Some((s, rest))
  {
    QuoteReads(s, rest);
    QuoteText(s);
    TailAfter(Ch('"'), Chars(EscapeAll(s)) + [Ch('"')], rest);
  }

  lemma ElemsOpen(elems: seq<Json>)
    requires elems != []
    ensures StringifyAll(elems) != [] && StringifyAll(elems)[0] != Ch(']')
  {
    ValueOpens(elems[0]);
  }

  lemma FieldsOpen(fields: seq<Field>)
    requires fields != []
    ensures StringifyFields(fields) != [] && StringifyFields(fields)[0] == Ch('"')
  {
    assert Quote(fields[0].name)[0] == Ch('"');
  }

  /** The text of some elements, the closing bracket, and what follows. */
  function ElemsText(elems: seq<Json>, rest: Text): Text {
    StringifyAll(elems) + [Ch(']')] + rest
  }

  lemma ElemsTextOpens(elems: seq<Json>, rest: Text)
    requires elems != []
    ensures ElemsText(elems, rest)
         == Stringify(elems[0])
          + if |elems| == 1 then [Ch(']')] + rest else [Ch(',')] + ElemsText(elems[1..], rest)
  {}

  lemma {:induction false} ElemsRead(elems: seq<Json>, rest: Text)
    requires elems != []
    ensures ParseElems(ElemsText(elems, rest)) == Some((CarriedAll(elems), rest))
    decreases elems, 0
  {
    ElemsTextOpens(elems, rest);
    if |elems| == 1 {
      assert CarriedAll(elems) == [Carried(elems[0])];
      ValueReads(elems[0], [Ch(']')] + rest);
      LastElemReads(ElemsText(elems, rest), Carried(elems[0]), rest);
    } else {
      var tail := ElemsText(elems[1..], rest);
      ValueReads(elems[0], [Ch(',')] + tail);
      ElemsRead(elems[1..], rest);
      NextElemReads(ElemsText(elems, rest), Carried(elems[0]), tail);
    }
  }

  lemma LastElemReads(t: Text, v: Json, rest: Text)
    requires ParseValue(t) == Some((v, [Ch(']')] + rest))
    ensures ParseElems(t) == Some(([v], rest))
  {
    assert ([Ch(']')] + rest)[1..] == rest;
  }

  lemma NextElemReads(t: Text, v: Json, tail: Text)
    requires ParseValue(t) == Some((v, [Ch(',')] + tail)) && ParseElems(tail).Some?
    ensures ParseElems(t) == Some(([v] + ParseElems(tail).value.0, ParseElems(tail).value.1))
  {
    assert ([Ch(',')] + tail)[1..] == tail;
  }

  lemma FieldText(f: Field, rest: Text)
    ensures StringifyField(f) + rest == Quote(f.name) + ([Ch(':')] + Stringify(f.value) + rest)
  {}

  lemma {:induction false} FieldReads(f: Field, rest: Text)
    ensures ParseField(StringifyField(f) + rest) == Some((CarriedField(f), rest))
    decreases f, 2
  {
    var after := [Ch(':')] + Stringify(f.value) + rest;
    FieldText(f, rest);
    QuotedFieldReads(f.name, after);
    ValueReads(f.value, rest);
    TailAfter(Ch(':'), Stringify(f.value), rest);
  }

  /** The text of some fields, the closing brace, and what follows. */
  function FieldsText(fields: seq<Field>, rest: Text): Text {
    StringifyFields(fields) + [Ch('}')] + rest
  }

  lemma FieldsTextOpens(fields: seq<Field>, rest: Text)
    requires fields != []
    ensures FieldsText(fields, rest)
         == StringifyField(fields[0])
          + if |fields| == 1 then [Ch('}')] + rest else [Ch(',')] + FieldsText(fields[1..], rest)
  {}

  lemma {:induction false} FieldsRead(fields: seq<Field>, rest: Text)
    requires fields != []
    ensures ParseFields(FieldsText(fields, rest)) == Some((CarriedFields(fields), rest))
    decreases fields, 0
  {
    FieldsTextOpens(fields, rest);
    if |fields| == 1 {
      assert CarriedFields(fields) == [CarriedField(fields[0])];
      FieldReads(fields[0], [Ch('}')] + rest);
      LastFieldReads(FieldsText(fields, rest), CarriedField(fields[0]), rest);
    } else {
      var tail := FieldsText(fields[1..], rest);
      FieldReads(fields[0], [Ch(',')] + tail);
      FieldsRead(fields[1..], rest);
      NextFieldReads(FieldsText(fields, rest), CarriedField(fields[0]), tail);
    }
  }

  lemma LastFieldReads(t: Text, f: Field, rest: Text)
    requires ParseField(t) == Some((f, [Ch('}')] + rest))
    ensures ParseFields(t) == Some(([f], rest))
  {
    assert ([Ch('}')] + rest)[1..] == rest;
  }

  lemma NextFieldReads(t: Text, f: Field, tail: Text)
    requires ParseField(t) == Some((f, [Ch(',')] + tail)) && ParseFields(tail).Some?
    ensures ParseFields(t) == Some(([f] + ParseFields(tail).value.0, ParseFields(tail).value.1))
  {
    assert ([Ch(',')] + tail)[1..] == tail;
  }

  /** No number in the value fails to be finite. */
  predicate AllCarried(v: Json)
    decreases v, 1
  {
    match v
    case JNum(n) => n.Fin?
    case JArr(elems) => forall i :: 0 <= i < |elems| ==> AllCarried(elems[i])
    case JObj(fields) => AllFieldsCarried(fields)
    case _ => true
  }

  predicate AllFieldsCarried(fields: seq<Field>)
    decreases fields, 0
  {
    forall i :: 0 <= i < |fields| ==> FieldIsCarried(fields[i])
  }

  predicate FieldIsCarried(f: Field)
    decreases f, 2
  {
    AllCarried(f.value)
  }

  lemma {:induction false} CarriedUnchangedIff(v: Json)
    ensures Carried(v) == v <==> AllCarried(v)
    decreases v, 1
  {
    match v
    case JArr(elems) => ElemsUnchangedIff(elems);
    case JObj(fields) => FieldsUnchangedIff(fields);
    case _ =>
  }

  lemma {:induction false} ElemsUnchangedIff(elems: seq<Json>)
    ensures CarriedAll(elems) == elems <==> forall i :: 0 <= i < |elems| ==> AllCarried(elems[i])
    decreases elems, 0
  {
    if elems != [] {
      CarriedUnchangedIff(elems[0]);
      ElemsUnchangedIff(elems[1..]);
      assert elems == [elems[0]] + elems[1..];
      if CarriedAll(elems) == elems {
        assert CarriedAll(elems)[1..] == CarriedAll(elems[1..]);
      }
      if forall i :: 0 <= i < |elems| ==> AllCarried(elems[i]) {
        assert forall i :: 0 <= i < |elems[1..]| ==> elems[1..][i] == elems[i + 1];
      }
    }
  }

  lemma {:induction false} FieldsUnchangedIff(fields: seq<Field>)
    ensures CarriedFields(fields) == fields <==> AllFieldsCarried(fields)
    decreases fields, 0
  {
    if fields != [] {
      CarriedUnchangedIff(fields[0].value);
      FieldsUnchangedIff(fields[1..]);
      assert fields == [fields[0]] + fields[1..];
      if CarriedFields(fields) == fields {
        assert CarriedFields(fields)[1..] == CarriedFields(fields[1..]);
      }
      if AllFieldsCarried(fields) {
        assert forall i :: 0 <= i < |fields[1..]| ==> fields[1..][i] == fields[i + 1];
      }
    }
  }

  /** `JSON.parse` undoes `JSON.stringify`, exactly if every number is finite; the others come back as `null`. */
  lemma ParseStringify(v: Json)
    ensures Parse(Stringify(v)) == Some(Carried(v))
    ensures Parse(Stringify(v)) == Some(v) <==> AllCarried(v)
  {
    ValueReads(v, []);
    assert Stringify(v) + [] == Stringify(v);
    CarriedUnchangedIff(v);
  }

  /** Quoting is injective and prefix-free: two quoted strings cannot begin one text. */
  lemma QuotesArePrefixFree(a: string, b: string, restA: Text, restB: Text)
    requires Quote(a) + restA == Quote(b) + restB
    ensures a == b && restA == restB
  {
    QuotedFieldReads(a, restA);
    QuotedFieldReads(b, restB);
  }

  const LETTERS := "\"\\/bfnrt"
  const MEANINGS: seq<int> := [34, 92, 47, 8, 12, 10, 13, 9]

  /** The two-character escapes mean what section 7 of RFC 8259 says, and no others are read. */
  lemma ShortEscapesAreStandard(c: char)
    ensures forall i :: 0 <= i < 8 ==> ShortUnescape(LETTERS[i]) == Some(MEANINGS[i] as char)
    ensures ShortUnescape(c).Some? ==> c in LETTERS
    ensures ShortEscape(c).Some? ==> ShortUnescape(ShortEscape(c).value) == Some(c)
  {
    assert ShortUnescape(c).Some? ==>
      c == LETTERS[0] || c == LETTERS[1] || c == LETTERS[2] || c == LETTERS[3]
      || c == LETTERS[4] || c == LETTERS[5] || c == LETTERS[6] || c == LETTERS[7];
  }

  /** Only quotes, backslashes and control characters are escaped, and what is written has no control characters. */
  lemma OnlyControlsAreEscaped(c: char)
    ensures Escape(c) == [c] <==> c != '"' && c != '\\' && c as int >= 32
    ensures forall i :: 0 <= i < |Escape(c)| ==> Escape(c)[i] as int >= 32
  {}

  function Texts(elems: seq<Json>): (texts: seq<Text>)
    ensures |texts| == |elems| && forall i :: 0 <= i < |elems| ==> texts[i] == Stringify(elems[i])
  {
    seq(|elems|, i requires 0 <= i < |elems| => Stringify(elems[i]))
  }

  /** A field is its quoted name, a colon, and its value. */
  function FieldTexts(fields: seq<Field>): (texts: seq<Text>)
    ensures |texts| == |fields|
    ensures forall i :: 0 <= i < |fields| ==>
      texts[i] == Quote(fields[i].name) + Chars(":") + Stringify(fields[i].value)
  {
    seq(|fields|, i requires 0 <= i < |fields| =>
      Quote(fields[i].name) + Chars(":") + Stringify(fields[i].value))
  }

  function Commas(texts: seq<Text>): Text {
    if texts == [] then [] else if |texts| == 1 then texts[0] else texts[0] + Chars(",") + Commas(texts[1..])
  }

  lemma {:induction false} ElemsAreJoined(elems: seq<Json>)
    ensures StringifyAll(elems) == Commas(Texts(elems))
  {
    if elems != [] {
      ElemsAreJoined(elems[1..]);
      assert Texts(elems)[1..] == Texts(elems[1..]) && Chars(",") == [Ch(',')];
    }
  }

  lemma {:induction false} FieldsAreJoined(fields: seq<Field>)
    ensures StringifyFields(fields) == Commas(FieldTexts(fields))
  {
    if fields != [] {
      FieldsAreJoined(fields[1..]);
      assert FieldTexts(fields)[1..] == FieldTexts(fields[1..]);
      assert Chars(",") == [Ch(',')] && Chars(":") == [Ch(':')];
    }
  }

  /** Arrays and objects are written as section 2 of RFC 8259 has them, without white space. */
  lemma TextsAreStandard(elems: seq<Json>, fields: seq<Field>)
    ensures Stringify(JArr(elems)) == Chars("[") + Commas(Texts(elems)) + Chars("]")
    ensures Stringify(JObj(fields)) == Chars("{") + Commas(FieldTexts(fields)) + Chars("}")
    ensures Stringify(JNull) == Chars("null")
    ensures Stringify(JBool(true)) == Chars("true") && Stringify(JBool(false)) == Chars("false")
  {
    ElemsAreJoined(elems);
    FieldsAreJoined(fields);
    assert Chars("[") == [Ch('[')] && Chars("]") == [Ch(']')] && Chars("{") == [Ch('{')] && Chars("}") == [Ch('}')];
  }
}
