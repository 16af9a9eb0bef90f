/** A JSON reader (RFC 8259). Numbers with a fraction or an exponent are refused: the canonical
    printer never writes one, so a text holding one is refused by every caller in any case. */
module JsonParser {
  import opened Text
  import opened CanonicalJson
  import StableSort

  datatype Parsed<+T> = NoParse | Parsed(value: T, rest: Str)

  predicate IsSpace(c: CodeUnit) { c == 9 || c == 10 || c == 13 || c == 32 }

  function SkipSpace(s: Str): (r: Str)
    ensures |r| <= |s|
    ensures r != [] ==> !IsSpace(r[0])
  {
    if s != [] && IsSpace(s[0]) then SkipSpace(s[1..]) else s
  }

  predicate StartsWith(s: Str, prefix: Str) { |prefix| <= |s| && s[..|prefix|] == prefix }

  predicate IsDigit(c: CodeUnit) { 48 <= c <= 57 }

  function DigitSpan(s: Str): (n: nat)
    ensures n <= |s|
  {
    if s != [] && IsDigit(s[0]) then 1 + DigitSpan(s[1..]) else 0
  }

  predicate AllDigits(s: Str) { forall i :: 0 <= i < |s| ==> IsDigit(s[i]) }

  function DigitsValue(s: Str): nat
    requires AllDigits(s)
  {
    if s == [] then 0 else 10 * DigitsValue(s[..|s| - 1]) + (s[|s| - 1] - 48)
  }

  lemma {:induction false} DigitSpanIsDigits(s: Str)
    ensures AllDigits(s[..DigitSpan(s)])
  {
    if s != [] && IsDigit(s[0]) {
      DigitSpanIsDigits(s[1..]);
      assert s[..DigitSpan(s)] == [s[0]] + s[1..][..DigitSpan(s[1..])];
    }
  }

  function ParseNatural(s: Str): (r: Parsed<nat>)
    ensures r.Parsed? ==> |r.rest| < |s|
  {
    var n := DigitSpan(s);
    if n == 0 || (n > 1 && s[0] == 48) then NoParse
    else if n < |s| && s[n] in {0x2E, 0x45, 0x65} then NoParse
    else
      DigitSpanIsDigits(s);
      Parsed(DigitsValue(s[..n]), s[n..])
  }

  function HexDigitValue(c: CodeUnit): Option<nat> {
    if 48 <= c <= 57 then Some(c - 48)
    else if 97 <= c <= 102 then Some(c - 87)
    else if 65 <= c <= 70 then Some(c - 55)
    else None
  }

  function HexValue(a: CodeUnit, b: CodeUnit, c: CodeUnit, d: CodeUnit): Option<CodeUnit> {
    match (HexDigitValue(a), HexDigitValue(b), HexDigitValue(c), HexDigitValue(d))
    case (Some(w), Some(x), Some(y), Some(z)) =>
      var n := 4096 * w + 256 * x + 16 * y + z;
      if n < 0x10000 then Some(n) else None
    case _ => None
  }

  /** What a two-character escape stands for. */
  function ShortEscape(c: CodeUnit): Option<CodeUnit> {
    if c == QUOTE || c == BACKSLASH || c == 0x2F then Some(c)
    else if c == 0x62 then Some(8)
    else if c == 0x66 then Some(12)
    else if c == 0x6E then Some(10)
    else if c == 0x72 then Some(13)
    else if c == 0x74 then Some(9)
    else None
  }

  /** String contents up to and including the closing quote. */
  function ParseChars(s: Str): (r: Parsed<Str>)
    ensures r.Parsed? ==> |r.rest| < |s|
  {
    if s == [] || s[0] < 0x20 then NoParse
    else if s[0] == QUOTE then Parsed([], s[1..])
    else if s[0] != BACKSLASH then Prepend(s[0], ParseChars(s[1..]))
    else if |s| >= 6 && s[1] == LETTER_U then
      match HexValue(s[2], s[3], s[4], s[5])
      case Some(c) => Prepend(c, ParseChars(s[6..]))
      case None => NoParse
    else if |s| >= 2 && ShortEscape(s[1]).Some? then
      Prepend(ShortEscape(s[1]).value, ParseChars(s[2..]))
    else NoParse
  }

  function Prepend(c: CodeUnit, p: Parsed<Str>): Parsed<Str> {
    if p.Parsed? then Parsed([c] + p.value, p.rest) else NoParse
  }

  /** Own-property assignment: a repeated key keeps its place and takes the later value. */
  function Assign(fields: seq<Field>, key: Str, value: Value): seq<Field> {
    if fields == [] then [Field(key, value)]
    else if fields[0].key == key then [Field(key, value)] + fields[1..]
    else [fields[0]] + Assign(fields[1..], key, value)
  }

  function ParseValue(s: Str): (r: Parsed<Value>)
    ensures r.Parsed? ==> |r.rest| < |s|
    decreases |s|, 1
  {
    var t := SkipSpace(s);
    if t == [] then NoParse
    else if t[0] == OPEN_BRACE then
      var u := SkipSpace(t[1..]);
      if u != [] && u[0] == CLOSE_BRACE then Parsed(Obj([]), u[1..])
      else
        match ParseMembers(u, [])
        case NoParse => NoParse
        case Parsed(fields, rest) => Parsed(Obj(fields), rest)
    else if t[0] == OPEN_BRACKET then
      var u := SkipSpace(t[1..]);
      if u != [] && u[0] == CLOSE_BRACKET then Parsed(Arr([]), u[1..])
      else
        match ParseItems(u)
        case NoParse => NoParse
        case Parsed(items, rest) => Parsed(Arr(items), rest)
    else if t[0] == QUOTE then
      match ParseChars(t[1..])
      case NoParse => NoParse
      case Parsed(text, rest) => Parsed(Chars(text), rest)
    else if t[0] == MINUS then
      match ParseNatural(t[1..])
      case NoParse => NoParse
      case Parsed(n, rest) => Parsed(Num(0 - n), rest)
    else if IsDigit(t[0]) then
      match ParseNatural(t)
      case NoParse => NoParse
      case Parsed(n, rest) => Parsed(Num(n), rest)
    else if StartsWith(t, Ascii("null")) then Parsed(Null, t[4..])
    else if StartsWith(t, Ascii("true")) then Parsed(Bool(true), t[4..])
    else if StartsWith(t, Ascii("false")) then Parsed(Bool(false), t[5..])
    else NoParse
  }

  /** One or more array items up to and including the closing bracket. */
  function ParseItems(s: Str): (r: Parsed<seq<Value>>)
    ensures r.Parsed? ==> |r.rest| < |s|
    decreases |s|, 2
  {
    match ParseValue(s)
    case NoParse => NoParse
    case Parsed(item, rest) =>
      var u := SkipSpace(rest);
      if u == [] then NoParse
      else if u[0] == CLOSE_BRACKET then Parsed([item], u[1..])
      else if u[0] != COMMA then NoParse
      else
        match ParseItems(u[1..])
        case NoParse => NoParse
        case Parsed(items, end) => Parsed([item] + items, end)
  }

  /** One or more record members up to and including the closing brace. */
  function ParseMembers(s: Str, fields: seq<Field>): (r: Parsed<seq<Field>>)
    ensures r.Parsed? ==> |r.rest| < |s|
    decreases |s|, 0
  {
    var t := SkipSpace(s);
    if t == [] || t[0] != QUOTE then NoParse
    else
      match ParseChars(t[1..])
      case NoParse => NoParse
      case Parsed(key, afterKey) =>
        var u := SkipSpace(afterKey);
        if u == [] || u[0] != COLON then NoParse
        else
          match ParseValue(u[1..])
          case NoParse => NoParse
          case Parsed(value, rest) =>
            var w := SkipSpace(rest);
            if w == [] then NoParse
            else if w[0] == CLOSE_BRACE then Parsed(Assign(fields, key, value), w[1..])
            else if w[0] != COMMA then NoParse
            else ParseMembers(w[1..], Assign(fields, key, value))
  }

  /** JSON.parse: one value, with nothing but white space around it. */
  function JsonParse(s: Str): Option<Value> {
    match ParseValue(s)
    case NoParse => None
    case Parsed(v, rest) => if SkipSpace(rest) == [] then Some(v) else None
  }

  // ----- reading back what was printed

  /** What may follow a printed value. */
  predicate Ends(rest: Str) {
    rest == [] || rest[0] == COMMA || rest[0] == CLOSE_BRACKET || rest[0] == CLOSE_BRACE
  }

  lemma {:induction false} DigitSpanOf(digits: Str, rest: Str)
    requires AllDigits(digits)
    requires rest == [] || !IsDigit(rest[0])
    ensures DigitSpan(digits + rest) == |digits|
  {
    if digits == [] {
      assert digits + rest == rest;
    } else {
      DigitSpanOf(digits[1..], rest);
      assert (digits + rest)[1..] == digits[1..] + rest;
    }
  }

  lemma {:induction false} DecimalValue(n: nat)
    ensures Decimal(n) != [] && AllDigits(Decimal(n)) && DigitsValue(Decimal(n)) == n
    ensures |Decimal(n)| > 1 ==> Decimal(n)[0] != 48
    ensures n > 0 ==> Decimal(n)[0] != 48
  {
    if n < 10 {
      assert Decimal(n)[..0] == [];
    } else {
      DecimalValue(n / 10);
      var d := Decimal(n);
      assert d[..|d| - 1] == Decimal(n / 10);
    }
  }

  lemma {:induction false} ParseDecimal(n: nat, rest: Str)
    requires Ends(rest)
    ensures ParseNatural(Decimal(n) + rest) == Parsed(n, rest)
  {
    DecimalValue(n);
    DigitSpanOf(Decimal(n), rest);
    var s := Decimal(n) + rest;
    assert s[..|Decimal(n)|] == Decimal(n) && s[|Decimal(n)|..] == rest;
  }

  lemma {:induction false} HexDigitRoundTrip(d: nat)
    requires d < 16
    ensures HexDigitValue(HexDigit(d)) == Some(d)
  {}

  lemma {:induction false} ParseEscapedUnit(c: CodeUnit, tail: Str)
    ensures ParseChars(EscapeUnit(c) + tail) == Prepend(c, ParseChars(tail))
  {
    if |EscapeUnit(c)| == 6 {
      ParseLongEscape(c, tail);
    } else if |EscapeUnit(c)| == 2 {
      ParseShortEscape(c, tail);
    } else {
      assert EscapeUnit(c) == [c];
      assert ([c] + tail)[1..] == tail;
    }
  }

  lemma {:induction false} ParseLongEscape(c: CodeUnit, tail: Str)
    requires |EscapeUnit(c)| == 6
    ensures ParseChars(EscapeUnit(c) + tail) == Prepend(c, ParseChars(tail))
  {
    var s := EscapeUnit(c) + tail;
    var w, x, y, z := c / 4096, c / 256 % 16, c / 16 % 16, c % 16;
    assert s[0] == BACKSLASH && s[1] == LETTER_U;
    assert s[2] == HexDigit(w) && s[3] == HexDigit(x) && s[4] == HexDigit(y) && s[5] == HexDigit(z);
    assert s[6..] == tail;
    HexDigitsRoundTrip(c);
    hide HexValue, HexDigit;
  }

  lemma {:induction false} HexDigitsRoundTrip(c: CodeUnit)
    ensures HexValue(HexDigit(c / 4096), HexDigit(c / 256 % 16), HexDigit(c / 16 % 16), HexDigit(c % 16)) == Some(c)
  {
    hide HexDigit, HexDigitValue;
    var w, x, y, z := c / 4096, c / 256 % 16, c / 16 % 16, c % 16;
    FourDigits(c);
    HexDigitRoundTrip(w);
    HexDigitRoundTrip(x);
    HexDigitRoundTrip(y);
    HexDigitRoundTrip(z);
  }

  lemma {:induction false} FourDigits(c: CodeUnit)
    ensures c == 4096 * (c / 4096) + 256 * (c / 256 % 16) + 16 * (c / 16 % 16) + c % 16
    ensures c / 4096 < 16
  {
    var q, r := c / 16, c / 256;
    assert c == 16 * q + c % 16 && q / 16 == r && q == 16 * r + q % 16;
    assert r / 16 == c / 4096 && r == 16 * (r / 16) + r % 16;
  }

  lemma {:induction false} ParseShortEscape(c: CodeUnit, tail: Str)
    requires |EscapeUnit(c)| == 2
    ensures ParseChars(EscapeUnit(c) + tail) == Prepend(c, ParseChars(tail))
  {
    var s := EscapeUnit(c) + tail;
    assert s[0] == BACKSLASH && s[1] == EscapeUnit(c)[1];
    assert s[1] != LETTER_U;
    assert ShortEscape(s[1]) == Some(c);
    assert s[2..] == tail;
  }

  lemma {:induction false} ParsePlainUnit(c: CodeUnit, tail: Str)
    requires c >= 0x20 && c != QUOTE && c != BACKSLASH
    ensures ParseChars([c] + tail) == Prepend(c, ParseChars(tail))
  {
    assert ([c] + tail)[1..] == tail;
  }

  lemma {:induction false} ParsePair(a: CodeUnit, b: CodeUnit, tail: Str)
    requires IsHighSurrogate(a) && IsLowSurrogate(b)
    ensures ParseChars([a, b] + tail) == Prepend(a, Prepend(b, ParseChars(tail)))
  {
    ParsePlainUnit(b, tail);
    ParsePlainUnit(a, [b] + tail);
    assert [a, b] + tail == [a] + ([b] + tail);
  }

  lemma {:induction false} ParseEscaped(text: Str, rest: Str)
    ensures ParseChars(Escape(text) + ([QUOTE] + rest)) == Parsed(text, rest)
  {
    var end := [QUOTE] + rest;
    if text == [] {
      assert Escape(text) + end == end;
      assert end[1..] == rest;
    } else if StartsWithPair(text) {
      ParseEscaped(text[2..], rest);
      Cat3([text[0], text[1]], Escape(text[2..]), end);
      ParsePair(text[0], text[1], Escape(text[2..]) + end);
      PairInFront(text);
    } else {
      ParseEscaped(text[1..], rest);
      Cat3(EscapeUnit(text[0]), Escape(text[1..]), end);
      ParseEscapedUnit(text[0], Escape(text[1..]) + end);
      assert [text[0]] + text[1..] == text;
    }
  }

  lemma {:induction false} PairInFront(text: Str)
    requires |text| >= 2
    ensures [text[0]] + ([text[1]] + text[2..]) == text
  {}

  lemma {:induction false} ParseQuoted(text: Str, rest: Str)
    ensures Quoted(text) + rest == [QUOTE] + (Escape(text) + ([QUOTE] + rest))
    ensures ParseChars((Quoted(text) + rest)[1..]) == Parsed(text, rest)
  {
    var body := Escape(text) + ([QUOTE] + rest);
    assert Quoted(text) + rest == [QUOTE] + body;
    assert ([QUOTE] + body)[1..] == body;
    ParseEscaped(text, rest);
  }

  // The parser on each kind of text, one step at a time.

  lemma {:induction false} ParseNumber(n: int, rest: Str)
    requires Ends(rest)
    ensures Render(Num(n)) != [] && (Render(Num(n))[0] == MINUS || IsDigit(Render(Num(n))[0]))
    ensures ParseValue(Render(Num(n)) + rest) == Parsed(Num(n), rest)
  {
    hide ParseValue, Decimal, ParseNatural, DigitSpan;
    if n < 0 {
      ParseNegative(n, rest);
    } else {
      ParsePositive(n, rest);
    }
  }

  lemma {:induction false} ParsePositive(n: nat, rest: Str)
    requires Ends(rest)
    ensures Decimal(n) != [] && IsDigit(Decimal(n)[0])
    ensures ParseValue(Decimal(n) + rest) == Parsed(Num(n), rest)
  {
    hide Decimal, ParseNatural, DigitSpan, Ends, DigitsValue;
    DecimalValue(n);
    ParseDecimal(n, rest);
    var s := Decimal(n) + rest;
    assert s[0] == Decimal(n)[0] && IsDigit(s[0]);
    assert SkipSpace(s) == s;
  }

  lemma {:induction false} ParseNegative(n: int, rest: Str)
    requires Ends(rest) && n < 0
    ensures ParseValue([MINUS] + Decimal(-n) + rest) == Parsed(Num(n), rest)
  {
    hide Decimal, ParseNatural, DigitSpan, Ends, DigitsValue;
    DecimalValue(-n);
    ParseDecimal(-n, rest);
    var s := [MINUS] + Decimal(-n) + rest;
    assert SkipSpace(s) == s;
    assert s[1..] == Decimal(-n) + rest;
  }

  lemma {:induction false} ParseString(text: Str, rest: Str)
    ensures ParseValue(Quoted(text) + rest) == Parsed(Chars(text), rest)
  {
    var s := Quoted(text) + rest;
    ParseQuoted(text, rest);
    assert s[0] == QUOTE;
    assert SkipSpace(s) == s;
  }

  lemma {:induction false} ParseArray(body: Str, items: seq<Value>, rest: Str)
    requires body != [] && !IsSpace(body[0])
    requires if body[0] == CLOSE_BRACKET then items == [] && body[1..] == rest
             else ParseItems(body) == Parsed(items, rest)
    ensures ParseValue([OPEN_BRACKET] + body) == Parsed(Arr(items), rest)
  {
    var s := [OPEN_BRACKET] + body;
    assert SkipSpace(s) == s && s[1..] == body && SkipSpace(body) == body;
  }

  lemma {:induction false} ParseRecord(body: Str, fields: seq<Field>, rest: Str)
    requires body != [] && !IsSpace(body[0])
    requires if body[0] == CLOSE_BRACE then fields == [] && body[1..] == rest
             else ParseMembers(body, []) == Parsed(fields, rest)
    ensures ParseValue([OPEN_BRACE] + body) == Parsed(Obj(fields), rest)
  {
    var s := [OPEN_BRACE] + body;
    assert SkipSpace(s) == s && s[1..] == body && SkipSpace(body) == body;
  }

  lemma {:induction false} ParseLastItem(s: Str, item: Value, rest: Str)
    requires ParseValue(s) == Parsed(item, [CLOSE_BRACKET] + rest)
    ensures ParseItems(s) == Parsed([item], rest)
  {
    var u := [CLOSE_BRACKET] + rest;
    assert SkipSpace(u) == u && u[1..] == rest;
  }

  lemma {:induction false} ParseNextItem(s: Str, item: Value, tail: Str, items: seq<Value>, rest: Str)
    requires ParseValue(s) == Parsed(item, [COMMA] + tail)
    requires ParseItems(tail) == Parsed(items, rest)
    ensures ParseItems(s) == Parsed([item] + items, rest)
  {
    var u := [COMMA] + tail;
    assert SkipSpace(u) == u && u[1..] == tail;
  }

  lemma {:induction false} ParseMember(before: seq<Field>, key: Str, text: Str, value: Value, close: CodeUnit, end: Str)
    requires !IsSpace(close) && !IsSpace(COLON)
    requires ParseValue(text) == Parsed(value, [close] + end)
    ensures var r := ParseMembers(Quoted(key) + ([COLON] + text), before);
            r == if close == CLOSE_BRACE then Parsed(Assign(before, key, value), end)
                 else if close == COMMA then ParseMembers(end, Assign(before, key, value))
                 else NoParse
  {
    var afterKey := [COLON] + text;
    var s := Quoted(key) + afterKey;
    ParseQuoted(key, afterKey);
    assert s[0] == QUOTE;
    assert SkipSpace(s) == s;
    assert SkipSpace(afterKey) == afterKey && afterKey[1..] == text;
    var w := [close] + end;
    assert SkipSpace(w) == w && w[1..] == end;
  }

  /** JSON text is read back as the value it was printed from, whatever closes it. */
  lemma {:induction false} ParseRendered(v: Value, rest: Str)
    requires WellFormed(v) && Printable(v) && Ends(rest)
    ensures Render(v) != [] && !IsSpace(Render(v)[0])
    ensures Render(v)[0] != CLOSE_BRACKET && Render(v)[0] != CLOSE_BRACE
    ensures ParseValue(Render(v) + rest) == Parsed(v, rest)
    decreases v, 2
  {
    match v
    case Null => ParseNull(rest);
    case Bool(b) => ParseBool(b, rest);
    case Num(n) => ParseNumber(n, rest);
    case Chars(text) => ParseString(text, rest);
    case Arr(items) => ParseRenderedArray(items, rest);
    case Obj(fields) => ParseRenderedRecord(fields, rest);
  }

  lemma {:induction false} ParseRenderedArray(items: seq<Value>, rest: Str)
    requires forall i :: 0 <= i < |items| ==> WellFormed(items[i]) && Printable(items[i])
    ensures ParseValue(Render(Arr(items)) + rest) == Parsed(Arr(items), rest)
    decreases items, 2
  {
    var end := [CLOSE_BRACKET] + rest;
    Cat4([OPEN_BRACKET], RenderItems(items), [CLOSE_BRACKET], rest);
    if items == [] {
      EmptyBody(end);
      ParseArray(RenderItems(items) + end, items, rest);
    } else {
      ParseRenderedItems(items, rest);
      ParseArray(RenderItems(items) + end, items, rest);
    }
  }

  lemma {:induction false} EmptyBody(end: Str)
    requires end != []
    ensures [] + end == end && end == [end[0]] + end[1..]
  {}

  lemma {:induction false} ParseRenderedRecord(fields: seq<Field>, rest: Str)
    requires DistinctKeys(fields)
    requires forall i :: 0 <= i < |fields| ==>
               WellFormed(fields[i].value) && Printable(fields[i].value)
    ensures ParseValue(Render(Obj(fields)) + rest) == Parsed(Obj(fields), rest)
    decreases fields, 2
  {
    hide ParseValue, ParseMembers;
    var end := [CLOSE_BRACE] + rest;
    Cat4([OPEN_BRACE], RenderFields(fields), [CLOSE_BRACE], rest);
    if fields == [] {
      EmptyBody(end);
      ParseRecord(RenderFields(fields) + end, fields, rest);
    } else {
      assert ParseMembers(RenderFields(fields) + end, []) == Parsed(fields, rest)
             && RenderFields(fields) != [] && RenderFields(fields)[0] == QUOTE by {
        assert [] + fields == fields;
        ParseRenderedMembers([], fields, rest);
      }
      ParseRecord(RenderFields(fields) + end, fields, rest);
    }
  }

  lemma {:induction false} ParseNull(rest: Str)
    ensures ParseValue(Render(Null) + rest) == Parsed(Null, rest)
  {
    var s := Render(Null) + rest;
    assert s[..4] == Ascii("null") && s[4..] == rest;
    assert s[0] == 0x6E;
    assert SkipSpace(s) == s;
  }

  lemma {:induction false} ParseBool(b: bool, rest: Str)
    ensures ParseValue(Render(Bool(b)) + rest) == Parsed(Bool(b), rest)
  {
    var s := Render(Bool(b)) + rest;
    if b {
      assert s[..4] == Ascii("true") && s[4..] == rest;
      assert s[0] == 0x74;
    } else {
      assert s[..5] == Ascii("false") && s[5..] == rest;
      assert s[0] == 0x66;
    }
    assert SkipSpace(s) == s;
  }

  lemma {:induction false} ParseRenderedItems(items: seq<Value>, rest: Str)
    requires items != []
    requires forall i :: 0 <= i < |items| ==> WellFormed(items[i]) && Printable(items[i])
    ensures RenderItems(items) != [] && !IsSpace(RenderItems(items)[0])
    ensures RenderItems(items)[0] != CLOSE_BRACKET
    ensures ParseItems(RenderItems(items) + ([CLOSE_BRACKET] + rest)) == Parsed(items, rest)
    decreases items, 1
  {
    var end := [CLOSE_BRACKET] + rest;
    var s := RenderItems(items) + end;
    if |items| == 1 {
      ParseRendered(items[0], end);
      ParseLastItem(s, items[0], rest);
      assert items == [items[0]];
    } else {
      var tail := RenderItems(items[1..]) + end;
      ParseRendered(items[0], [COMMA] + tail);
      ParseRenderedItems(items[1..], rest);
      Cat4(Render(items[0]), [COMMA], RenderItems(items[1..]), end);
      ParseNextItem(s, items[0], tail, items[1..], rest);
      assert items == [items[0]] + items[1..];
    }
  }

  lemma {:induction false} AssignFresh(fields: seq<Field>, key: Str, value: Value)
    requires forall i :: 0 <= i < |fields| ==> fields[i].key != key
    ensures Assign(fields, key, value) == fields + [Field(key, value)]
  {
    if fields != [] {
      AssignFresh(fields[1..], key, value);
      assert fields + [Field(key, value)] == [fields[0]] + (fields[1..] + [Field(key, value)]);
    }
  }

  /** The text of the first member, and what follows it. */
  lemma {:induction false} FirstMember(fields: seq<Field>, end: Str)
    requires fields != []
    ensures RenderFields(fields) != [] && RenderFields(fields)[0] == QUOTE
    ensures RenderFields(fields) + end
         == Quoted(fields[0].key) + ([COLON] + (Render(fields[0].value) + AfterFirst(fields, end)))
  {
    var f := fields[0];
    if |fields| > 1 {
      Cat4(RenderField(f), [COMMA], RenderFields(fields[1..]), end);
    }
    Cat4(Quoted(f.key), [COLON], Render(f.value), AfterFirst(fields, end));
  }

  function AfterFirst(fields: seq<Field>, end: Str): Str
    requires fields != []
  {
    if |fields| == 1 then end else [COMMA] + (RenderFields(fields[1..]) + end)
  }

  lemma {:induction false} ParseRenderedMembers(before: seq<Field>, fields: seq<Field>, rest: Str)
    requires fields != [] && DistinctKeys(before + fields)
    requires forall i :: 0 <= i < |fields| ==>
               WellFormed(fields[i].value) && Printable(fields[i].value)
    ensures RenderFields(fields) != [] && RenderFields(fields)[0] == QUOTE
    ensures ParseMembers(RenderFields(fields) + ([CLOSE_BRACE] + rest), before)
         == Parsed(before + fields, rest)
    decreases fields, 1
  {
    var f := fields[0];
    var end := [CLOSE_BRACE] + rest;
    var after := AfterFirst(fields, end);
    FirstMember(fields, end);
    KeyIsFresh(before, fields);
    ParseRendered(f.value, after);
    if |fields| == 1 {
      ParseOneMember(before, f, after, CLOSE_BRACE, rest);
      assert fields == [f];
    } else {
      var grown := before + [f];
      assert grown + fields[1..] == before + fields;
      ParseRenderedMembers(grown, fields[1..], rest);
      ParseOneMember(before, f, after, COMMA, RenderFields(fields[1..]) + end);
    }
  }

  lemma {:induction false} ParseOneMember(
      before: seq<Field>, f: Field, after: Str, close: CodeUnit, end: Str)
    requires close == CLOSE_BRACE || close == COMMA
    requires after == [close] + end
    requires forall i :: 0 <= i < |before| ==> before[i].key != f.key
    requires ParseValue(Render(f.value) + after) == Parsed(f.value, after)
    ensures ParseMembers(Quoted(f.key) + ([COLON] + (Render(f.value) + after)), before)
         == if close == CLOSE_BRACE then Parsed(before + [f], end)
            else ParseMembers(end, before + [f])
  {
    AssignFresh(before, f.key, f.value);
    assert Field(f.key, f.value) == f;
    ParseMember(before, f.key, Render(f.value) + after, f.value, close, end);
  }

  lemma {:induction false} KeyIsFresh(before: seq<Field>, fields: seq<Field>)
    requires fields != [] && DistinctKeys(before + fields)
    ensures forall i :: 0 <= i < |before| ==> before[i].key != fields[0].key
  {
    forall i | 0 <= i < |before|
      ensures before[i].key != fields[0].key
    {
      assert (before + fields)[i] == before[i] && (before + fields)[|before|] == fields[0];
    }
  }

  /** JSON.parse undoes the printer, key order included. */
  lemma {:induction false} JsonParseRendered(v: Value)
    requires WellFormed(v) && Printable(v)
    ensures JsonParse(Render(v)) == Some(v)
  {
    ParseRendered(v, []);
    assert Render(v) + [] == Render(v);
  }

  /** The canonical text determines the value up to the order of record keys, and nothing else:
      the injectivity under every hash of the program. */
  lemma {:induction false} CanonicalizeInjective(a: Value, b: Value)
    requires WellFormed(a) && WellFormed(b)
    requires Canonicalize(a).Success? && Canonicalize(b).Success?
    ensures Canonicalize(a) == Canonicalize(b) <==> SameValue(a, b)
  {
    ObstacleIffUnprintable(Normalize(a));
    ObstacleIffUnprintable(Normalize(b));
    NormalizedWellFormed(a);
    NormalizedWellFormed(b);
    NormalizeDecidesSameValue(a, b);
    JsonParseRendered(Normalize(a));
    JsonParseRendered(Normalize(b));
  }

  /** Printing succeeds exactly on JSON data, and reading the text gives the value back. */
  lemma {:induction false} CanonicalizeRoundTrip(v: Value)
    requires WellFormed(v)
    ensures Canonicalize(v).Success? <==> Printable(v)
    ensures Printable(v) ==>
              JsonParse(Canonicalize(v).value).Some?
              && SameValue(JsonParse(Canonicalize(v).value).value, v)
              && NoControls(Canonicalize(v).value)
  {
    ObstacleIffUnprintable(Normalize(v));
    NormalizedWellFormed(v);
    if Printable(v) {
      JsonParseRendered(Normalize(v));
      NormalizeIdempotent(v);
      NormalizeDecidesSameValue(Normalize(v), v);
      RenderNoControls(Normalize(v));
    }
  }

  /** If a record prints, so does every value in it. */
  lemma {:induction false} CanonicalRecordPrintable(keys: seq<Str>, vs: seq<Value>)
    requires |keys| == |vs| && AllDistinct(keys)
    requires forall i :: 0 <= i < |vs| ==> WellFormed(vs[i])
    ensures Canonicalize(Obj(Zip(keys, vs))).Success?
       <==> forall i :: 0 <= i < |vs| ==> Printable(vs[i])
  {
    RecordWellFormedPrintable(keys, vs);
    CanonicalizeRoundTrip(Obj(Zip(keys, vs)));
  }

  lemma {:induction false} NormalizeIdempotent(v: Value)
    requires WellFormed(v)
    ensures Normalize(Normalize(v)) == Normalize(v)
    decreases v
  {
    match v
    case Arr(items) =>
      forall i | 0 <= i < |items|
        ensures Normalize(Normalize(items[i])) == Normalize(items[i])
      {
        NormalizeIdempotent(items[i]);
      }
      assert NormalizeItems(NormalizeItems(items)) == NormalizeItems(items);
    case Obj(fields) =>
      var mapped := NormalizeFields(fields);
      var sorted := StableSort.Sort(mapped, KEY_ORDER);
      StableSort.SortMembers(mapped, KEY_ORDER);
      forall i | 0 <= i < |sorted|
        ensures Normalize(sorted[i].value) == sorted[i].value
      {
        assert sorted[i] in mapped;
        var k :| 0 <= k < |mapped| && mapped[k] == sorted[i];
        NormalizeIdempotent(fields[k].value);
      }
      assert NormalizeFields(sorted) == sorted;
      KeyOrderIsTotal();
      StableSort.SortSorted(mapped, KEY_ORDER);
      StableSort.SortFixed(sorted, KEY_ORDER);
    case _ =>
  }
}
