/** What a canonical text looks like: ascending keys at every depth, and the shortest escapes. */
module CanonicalForm {
  import opened Text
  import opened CanonicalJson
  import opened JsonParser
  import opened StableSort

  // ----- the order of keys

  /** The first n units agree, and then the first text ends or has the smaller unit. */
  predicate ComesBeforeAt(a: Str, b: Str, n: nat) {
    n <= |a| && n < |b| && a[..n] == b[..n] && (n == |a| || a[n] < b[n])
  }

  predicate ComesBefore(a: Str, b: Str) {
    exists n: nat :: n < |b| && ComesBeforeAt(a, b, n)
  }

  /** The keys of every record, at every depth, ascend strictly. */
  predicate KeysAscend(v: Value)
    decreases v, 1
  {
    match v
    case Arr(items) => forall i :: 0 <= i < |items| ==> KeysAscend(items[i])
    case Obj(fields) =>
      && (forall i, j :: 0 <= i < j < |fields| ==> ComesBefore(fields[i].key, fields[j].key))
      && forall i :: 0 <= i < |fields| ==> KeysAscend(fields[i].value)
    case _ => true
  }

  lemma {:induction false} LexLeOrders(a: Str, b: Str)
    ensures LexLe(a, b) <==> a == b || ComesBefore(a, b)
  {
    if a == [] {
      assert b != [] ==> ComesBeforeAt(a, b, 0);
    } else if b != [] && a[0] == b[0] {
      LexLeOrders(a[1..], b[1..]);
      assert a == [a[0]] + a[1..] && b == [b[0]] + b[1..];
      if ComesBefore(a[1..], b[1..]) {
        var n: nat :| n < |b[1..]| && ComesBeforeAt(a[1..], b[1..], n);
        assert a[..n + 1] == [a[0]] + a[1..][..n] && b[..n + 1] == [b[0]] + b[1..][..n];
        assert ComesBeforeAt(a, b, n + 1);
      }
      if ComesBefore(a, b) {
        var n: nat :| n < |b| && ComesBeforeAt(a, b, n);
        assert n > 0;
        assert a[1..][..n - 1] == a[..n][1..] && b[1..][..n - 1] == b[..n][1..];
        assert ComesBeforeAt(a[1..], b[1..], n - 1);
      }
    } else if b != [] {
      assert a[0] < b[0] ==> ComesBeforeAt(a, b, 0);
      if ComesBefore(a, b) {
        FirstUnitsDecide(a, b);
      }
    }
  }

  lemma {:induction false} FirstUnitsDecide(a: Str, b: Str)
    requires a != [] && b != [] && a[0] != b[0] && ComesBefore(a, b)
    ensures a[0] < b[0]
  {
    var n: nat :| n < |b| && ComesBeforeAt(a, b, n);
    if n > 0 {
      SameHeads(a, b, n);
    }
  }

  lemma {:induction false} SameHeads(a: Str, b: Str, n: nat)
    requires 0 < n <= |a| && n <= |b| && a[..n] == b[..n]
    ensures a[0] == b[0]
  {
    assert a[0] == a[..n][0];
  }

  lemma {:induction false} NormalizedAscends(v: Value)
    requires WellFormed(v)
    ensures KeysAscend(Normalize(v))
    decreases v
  {
    match v
    case Arr(items) =>
      forall i | 0 <= i < |items|
        ensures KeysAscend(Normalize(items[i]))
      {
        NormalizedAscends(items[i]);
      }
    case Obj(fields) =>
      var mapped := NormalizeFields(fields);
      forall i | 0 <= i < |fields|
        ensures KeysAscend(mapped[i].value)
      {
        NormalizedAscends(fields[i].value);
      }
      SortedAscends(mapped);
    case _ =>
  }

  lemma {:induction false} SortedAscends(mapped: seq<Field>)
    requires DistinctKeys(mapped) && forall i :: 0 <= i < |mapped| ==> KeysAscend(mapped[i].value)
    ensures KeysAscend(Obj(Sort(mapped, KEY_ORDER)))
  {
    var sorted := Sort(mapped, KEY_ORDER);
    KeyOrderIsTotal();
    SortSorted(mapped, KEY_ORDER);
    SortMembers(mapped, KEY_ORDER);
    SortKeepsDistinctKeys(mapped);
    hide Sort, ComesBefore;
    forall i | 0 <= i < |sorted|
      ensures KeysAscend(sorted[i].value)
    {
      assert sorted[i] in mapped;
    }
    forall i, j | 0 <= i < j < |sorted|
      ensures ComesBefore(sorted[i].key, sorted[j].key)
    {
      assert KEY_ORDER(sorted[i], sorted[j]);
      LexLeOrders(sorted[i].key, sorted[j].key);
    }
  }

  /** A value whose keys ascend is its own normal form. */
  lemma {:induction false} AscendingIsNormal(v: Value)
    requires KeysAscend(v)
    ensures Normalize(v) == v
    decreases v
  {
    match v
    case Arr(items) =>
      forall i | 0 <= i < |items|
        ensures Normalize(items[i]) == items[i]
      {
        AscendingIsNormal(items[i]);
      }
      assert NormalizeItems(items) == items;
    case Obj(fields) =>
      forall i | 0 <= i < |fields|
        ensures Normalize(fields[i].value) == fields[i].value
      {
        AscendingIsNormal(fields[i].value);
      }
      assert NormalizeFields(fields) == fields;
      forall i, j | 0 <= i < j < |fields|
        ensures KEY_ORDER(fields[i], fields[j])
      {
        LexLeOrders(fields[i].key, fields[j].key);
      }
      SortFixed(fields, KEY_ORDER);
    case _ =>
  }

  /** The canonical text is the rendering, with keys ascending at every depth, of the same value;
      and that is the only such rendering. */
  lemma {:induction false} CanonicalKeysAscend(v: Value, text: Str)
    requires WellFormed(v) && Printable(v)
    ensures Canonicalize(v) == Success(text) ==>
              && JsonParse(text).Some? && SameValue(JsonParse(text).value, v)
              && KeysAscend(JsonParse(text).value) && text == Render(JsonParse(text).value)
    ensures forall w :: WellFormed(w) && KeysAscend(w) && SameValue(w, v) ==> Canonicalize(v) == Success(Render(w))
  {
    hide SameValue, KeysAscend, WellFormed, Printable, Render;
    CanonicalizeRoundTrip(v);
    NormalizedAscends(v);
    NormalizedWellFormed(v);
    JsonParseRendered(Normalize(v));
    forall w | WellFormed(w) && KeysAscend(w) && SameValue(w, v)
      ensures Canonicalize(v) == Success(Render(w))
    {
      AscendingIsNormal(w);
      NormalizeDecidesSameValue(w, v);
    }
  }

  // ----- the texts of scalars

  /** Units that are written as they are. */
  predicate IsPlainUnit(c: CodeUnit) {
    c >= 0x20 && c != '"' as int && c != '\\' as int && !(0xD800 <= c < 0xE000)
  }

  /** How each unit of a string is written: five control characters, the quote and the backslash by
      two characters, other control characters and lone surrogates by six with lower-case digits. */
  lemma {:induction false} UnitsWritten(c: CodeUnit)
    ensures IsPlainUnit(c) ==> EscapeUnit(c) == [c]
    ensures !IsPlainUnit(c) && c !in {8, 9, 10, 12, 13, '"' as int, '\\' as int} ==>
              |EscapeUnit(c)| == 6 && EscapeUnit(c)[..2] == Ascii("\\u") && IsHex(EscapeUnit(c)[2..], 4)
  {
    FourDigits(c);
  }

  lemma {:induction false} ShortEscapesWritten()
    ensures EscapeUnit(8) == Ascii("\\b") && EscapeUnit(9) == Ascii("\\t") && EscapeUnit(10) == Ascii("\\n")
    ensures EscapeUnit(12) == Ascii("\\f") && EscapeUnit(13) == Ascii("\\r")
    ensures EscapeUnit('"' as int) == Ascii("\\\"") && EscapeUnit('\\' as int) == Ascii("\\\\")
  {}

  /** Text of plain units and surrogate pairs. */
  predicate IsPlainText(s: Str) {
    s == [] || (if StartsWithPair(s) then IsPlainText(s[2..]) else IsPlainUnit(s[0]) && IsPlainText(s[1..]))
  }

  /** Plain text is written between quotes as it is. */
  lemma {:induction false} PlainTextWritten(s: Str)
    requires IsPlainText(s)
    ensures Quoted(s) == Ascii("\"") + s + Ascii("\"")
  {
    PlainTextEscaped(s);
    assert Ascii("\"") == [QUOTE];
  }

  lemma {:induction false} PlainTextEscaped(s: Str)
    requires IsPlainText(s)
    ensures Escape(s) == s
  {
    if s == [] {
    } else if StartsWithPair(s) {
      PlainTextEscaped(s[2..]);
      assert s == [s[0], s[1]] + s[2..];
    } else {
      UnitsWritten(s[0]);
      PlainTextEscaped(s[1..]);
      assert s == [s[0]] + s[1..];
    }
  }

  /** The texts of the literals and of a number. */
  lemma {:induction false} ScalarsWritten()
    ensures Render(Null) == Ascii("null") && Render(Bool(true)) == Ascii("true")
    ensures Render(Bool(false)) == Ascii("false") && Render(Num(-907)) == Ascii("-907")
  {
    assert Decimal(9) == Ascii("9");
    assert Decimal(90) == Ascii("90");
    assert Decimal(907) == Ascii("907");
  }

  /** The punctuation around them. */
  lemma {:induction false} PunctuationWritten()
    ensures [OPEN_BRACKET, COMMA, CLOSE_BRACKET] == Ascii("[,]")
    ensures [OPEN_BRACE, QUOTE, COLON, CLOSE_BRACE] == Ascii("{\":}")
    ensures Render(Arr([])) == Ascii("[]") && Render(Obj([])) == Ascii("{}")
  {}
}
