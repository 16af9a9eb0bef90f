/** Normalisation of published text: byte-order marks, line ends and Unicode composition. */
module TextNormalization {
  import opened Text

  datatype NormalizedText = NormalizedText(text: Str, byteLength: nat)

  datatype TextError = TextTooLarge | NulInText | NormalizedTooLarge

  const MAX_TEXT_BYTES := 262144

  /** Encoding to UTF-8 and back: every lone surrogate becomes the replacement character. */
  function Reencoded(s: Str): Str {
    if s == [] then []
    else if StartsWithPair(s) then [s[0], s[1]] + Reencoded(s[2..])
    else if IsHighSurrogate(s[0]) || IsLowSurrogate(s[0]) then [0xFFFD] + Reencoded(s[1..])
    else [s[0]] + Reencoded(s[1..])
  }

  predicate StartsWithBom(s: Str) { s != [] && s[0] == BYTE_ORDER_MARK }

  function DropBom(s: Str): Str {
    if StartsWithBom(s) then s[1..] else s
  }

  function ReplaceCrLf(s: Str): Str {
    if s == [] then []
    else if |s| >= 2 && s[0] == CARRIAGE_RETURN && s[1] == NEWLINE then
      [NEWLINE] + ReplaceCrLf(s[2..])
    else [s[0]] + ReplaceCrLf(s[1..])
  }

  function ReplaceCr(s: Str): Str {
    if s == [] then []
    else [if s[0] == CARRIAGE_RETURN then NEWLINE else s[0]] + ReplaceCr(s[1..])
  }

  function UnixLines(s: Str): Str { ReplaceCr(ReplaceCrLf(s)) }

  /** Normalises a string handed over as UTF-8 bytes. Decoding strips one byte-order mark and the
      program strips another. */
  function NormalizeUtf8(nfc: Str -> Str, s: Str, maximumBytes: nat)
    : Result<NormalizedText, TextError>
  {
    if Utf8Length(s) > maximumBytes then Failure(TextTooLarge)
    else
      var decoded := DropBom(Reencoded(s));
      if 0 in decoded then Failure(NulInText)
      else
        var text := nfc(UnixLines(DropBom(decoded)));
        if Utf8Length(text) > maximumBytes then Failure(NormalizedTooLarge)
        else Success(NormalizedText(text, Utf8Length(text)))
  }

  /** What is used of Unicode normalisation form C: a second pass changes nothing, it makes no
      carriage return, NUL or lone surrogate, and a leading byte-order mark stays where it is. */
  ghost predicate NfcLaws(nfc: Str -> Str) {
    && (forall s: Str :: nfc(nfc(s)) == nfc(s))
    && (forall s: Str :: CARRIAGE_RETURN in nfc(s) ==> CARRIAGE_RETURN in s)
    && (forall s: Str :: 0 in nfc(s) ==> 0 in s)
    && (forall s: Str :: Reencoded(s) == s ==> Reencoded(nfc(s)) == nfc(s))
    && (forall s: Str :: StartsWithBom(nfc(s)) ==> StartsWithBom(s))
    && (forall s: Str :: StartsWithBom(s) ==> nfc(s) == [BYTE_ORDER_MARK] + nfc(s[1..]))
  }

  // ----- what each step leaves alone

  lemma {:induction false} ReencodedTwice(s: Str)
    ensures Reencoded(Reencoded(s)) == Reencoded(s)
    ensures Reencoded(s) == [] || !IsLowSurrogate(Reencoded(s)[0])
    ensures 0 in Reencoded(s) ==> 0 in s
  {
    if s == [] {
    } else if StartsWithPair(s) {
      ReencodedTwice(s[2..]);
      var r := Reencoded(s);
      assert r[2..] == Reencoded(s[2..]);
    } else {
      ReencodedTwice(s[1..]);
      var r := Reencoded(s);
      assert r[1..] == Reencoded(s[1..]);
    }
  }

  predicate Encodable(s: Str) { Reencoded(s) == s }

  lemma {:induction false} EncodableTail(s: Str)
    requires Encodable(s) && s != [] && !IsHighSurrogate(s[0])
    ensures Encodable(s[1..]) && !IsLowSurrogate(s[0])
  {
    assert Reencoded(s)[1..] == Reencoded(s[1..]);
  }

  lemma {:induction false} EncodableCons(c: CodeUnit, s: Str)
    requires Encodable(s) && !IsHighSurrogate(c) && !IsLowSurrogate(c)
    ensures Encodable([c] + s)
  {
    assert ([c] + s)[1..] == s;
  }

  lemma {:induction false} EncodablePairCons(high: CodeUnit, low: CodeUnit, s: Str)
    requires Encodable(s) && IsHighSurrogate(high) && IsLowSurrogate(low)
    ensures Encodable([high, low] + s)
  {
    assert ([high, low] + s)[2..] == s;
  }

  lemma {:induction false} EncodablePair(s: Str)
    requires Encodable(s) && s != [] && IsHighSurrogate(s[0])
    ensures StartsWithPair(s) && Encodable(s[2..])
  {
    assert StartsWithPair(s);
    assert Reencoded(s)[2..] == Reencoded(s[2..]);
  }

  lemma {:induction false} ReplaceCrLfEncodable(s: Str)
    requires Encodable(s)
    ensures Encodable(ReplaceCrLf(s))
    ensures ReplaceCrLf(s) != [] && s != [] ==> (ReplaceCrLf(s)[0] == s[0] || ReplaceCrLf(s)[0] == NEWLINE)
    ensures 0 in ReplaceCrLf(s) ==> 0 in s
  {
    ReplaceCrLfStaysEncodable(s);
    ReplaceCrLfUnits(s);
  }

  lemma {:induction false} ReplaceCrLfStaysEncodable(s: Str)
    requires Encodable(s)
    ensures Encodable(ReplaceCrLf(s))
    decreases |s|, 1
  {
    hide Encodable;
    if s == [] {
    } else if |s| >= 2 && s[0] == CARRIAGE_RETURN && s[1] == NEWLINE {
      LineEndStaysEncodable(s);
    } else if IsHighSurrogate(s[0]) {
      EncodablePair(s);
      ReplaceCrLfStaysEncodable(s[2..]);
      assert s[1..][1..] == s[2..];
      assert ReplaceCrLf(s) == [s[0], s[1]] + ReplaceCrLf(s[2..]);
      EncodablePairCons(s[0], s[1], ReplaceCrLf(s[2..]));
    } else {
      EncodableTail(s);
      ReplaceCrLfStaysEncodable(s[1..]);
      EncodableCons(s[0], ReplaceCrLf(s[1..]));
    }
  }

  lemma {:induction false} LineEndStaysEncodable(s: Str)
    requires Encodable(s) && |s| >= 2 && s[0] == CARRIAGE_RETURN && s[1] == NEWLINE
    ensures Encodable(ReplaceCrLf(s))
    decreases |s|, 0
  {
    hide Encodable;
    EncodableTail(s);
    EncodableTail(s[1..]);
    assert s[1..][1..] == s[2..];
    ReplaceCrLfStaysEncodable(s[2..]);
    EncodableCons(NEWLINE, ReplaceCrLf(s[2..]));
  }

  lemma {:induction false} ReplaceCrLfUnits(s: Str)
    ensures ReplaceCrLf(s) != [] && s != [] ==> (ReplaceCrLf(s)[0] == s[0] || ReplaceCrLf(s)[0] == NEWLINE)
    ensures forall c :: c in ReplaceCrLf(s) ==> c in s
  {
    if s == [] {
    } else if |s| >= 2 && s[0] == CARRIAGE_RETURN && s[1] == NEWLINE {
      ReplaceCrLfUnits(s[2..]);
    } else {
      ReplaceCrLfUnits(s[1..]);
    }
  }

  lemma {:induction false} ReplaceCrEncodable(s: Str)
    requires Encodable(s)
    ensures Encodable(ReplaceCr(s))
    ensures CARRIAGE_RETURN !in ReplaceCr(s)
    ensures 0 in ReplaceCr(s) ==> 0 in s
  {
    ReplaceCrUnits(s);
    ReplaceCrStaysEncodable(s);
  }

  lemma {:induction false} ReplaceCrUnits(s: Str)
    ensures |ReplaceCr(s)| == |s|
    ensures forall i :: 0 <= i < |s| ==> ReplaceCr(s)[i] == if s[i] == CARRIAGE_RETURN then NEWLINE else s[i]
  {
    if s != [] {
      ReplaceCrUnits(s[1..]);
    }
  }

  lemma {:induction false} ReplaceCrStaysEncodable(s: Str)
    requires Encodable(s)
    ensures Encodable(ReplaceCr(s))
  {
    hide Encodable;
    if s == [] {
    } else if IsHighSurrogate(s[0]) {
      EncodablePair(s);
      ReplaceCrStaysEncodable(s[2..]);
      assert s[1..][1..] == s[2..];
      assert ReplaceCr(s) == [s[0], s[1]] + ReplaceCr(s[2..]);
      EncodablePairCons(s[0], s[1], ReplaceCr(s[2..]));
    } else {
      EncodableTail(s);
      ReplaceCrStaysEncodable(s[1..]);
      EncodableCons(if s[0] == CARRIAGE_RETURN then NEWLINE else s[0], ReplaceCr(s[1..]));
    }
  }

  lemma {:induction false} UnixLinesFixed(s: Str)
    requires CARRIAGE_RETURN !in s
    ensures UnixLines(s) == s
  {
    if s != [] {
      UnixLinesFixed(s[1..]);
      assert s == [s[0]] + s[1..];
      assert ReplaceCrLf(s)[1..] == ReplaceCrLf(s[1..]);
    }
  }

  // ----- leading byte-order marks

  function LeadingBoms(s: Str): nat {
    if StartsWithBom(s) then 1 + LeadingBoms(s[1..]) else 0
  }

  lemma {:induction false} UnixLinesKeepsBoms(s: Str)
    ensures LeadingBoms(UnixLines(s)) == LeadingBoms(s)
  {
    if s == [] {
    } else if StartsWithBom(s) {
      UnixLinesKeepsBoms(s[1..]);
      assert ReplaceCrLf(s)[1..] == ReplaceCrLf(s[1..]);
      assert UnixLines(s)[1..] == UnixLines(s[1..]);
    }
  }

  lemma {:induction false} ReencodedKeepsBoms(s: Str)
    ensures LeadingBoms(Reencoded(s)) == LeadingBoms(s)
  {
    if StartsWithBom(s) {
      ReencodedKeepsBoms(s[1..]);
      assert Reencoded(s)[1..] == Reencoded(s[1..]);
    }
  }

  lemma {:induction false} NfcKeepsBoms(nfc: Str -> Str, s: Str)
    requires NfcLaws(nfc)
    ensures LeadingBoms(nfc(s)) == LeadingBoms(s)
  {
    if StartsWithBom(s) {
      NfcKeepsBoms(nfc, s[1..]);
      assert nfc(s)[1..] == nfc(s[1..]);
    }
  }

  /** One pass removes the first two byte-order marks and keeps the others. */
  lemma {:induction false} NormalizeDropsTwoBoms(nfc: Str -> Str, s: Str, maximumBytes: nat)
    requires NfcLaws(nfc) && NormalizeUtf8(nfc, s, maximumBytes).Success?
    ensures var text := NormalizeUtf8(nfc, s, maximumBytes).value.text;
            LeadingBoms(text) == if LeadingBoms(s) <= 2 then 0 else LeadingBoms(s) - 2
  {
    var inner := DropBom(DropBom(Reencoded(s)));
    ReencodedKeepsBoms(s);
    UnixLinesKeepsBoms(inner);
    NfcKeepsBoms(nfc, UnixLines(inner));
  }

  /** A normalised text is a fixed point of a second pass exactly when it does not start with a
      byte-order mark, that is, when the original did not start with three of them. */
  lemma {:induction false} NormalizeFixedPoint(nfc: Str -> Str, s: Str, maximumBytes: nat)
    requires NfcLaws(nfc) && NormalizeUtf8(nfc, s, maximumBytes).Success?
    ensures var once := NormalizeUtf8(nfc, s, maximumBytes);
            && (NormalizeUtf8(nfc, once.value.text, maximumBytes) == once
                <==> LeadingBoms(s) <= 2)
            && once.value.byteLength <= maximumBytes
            && (LeadingBoms(s) > 2 && NormalizeUtf8(nfc, once.value.text, maximumBytes).Success?
                ==> NormalizeUtf8(nfc, once.value.text, maximumBytes).value.text != once.value.text)
  {
    var once := NormalizeUtf8(nfc, s, maximumBytes);
    var text := once.value.text;
    NormalizeDropsTwoBoms(nfc, s, maximumBytes);
    if LeadingBoms(s) > 2 {
      if NormalizeUtf8(nfc, text, maximumBytes).Success? {
        NormalizeDropsTwoBoms(nfc, text, maximumBytes);
      }
    } else {
      NormalizedIsClean(nfc, s, maximumBytes);
      UnixLinesFixed(text);
      assert !StartsWithBom(text);
      assert nfc(text) == text;
    }
  }

  lemma {:induction false} NormalizedIsClean(nfc: Str -> Str, s: Str, maximumBytes: nat)
    requires NfcLaws(nfc) && NormalizeUtf8(nfc, s, maximumBytes).Success?
    ensures var text := NormalizeUtf8(nfc, s, maximumBytes).value.text;
            Encodable(text) && CARRIAGE_RETURN !in text && 0 !in text && nfc(text) == text
  {
    var r := Reencoded(s);
    ReencodedTwice(s);
    DropBomEncodable(r);
    DropBomEncodable(DropBom(r));
    var inner := DropBom(DropBom(r));
    ReplaceCrLfEncodable(inner);
    ReplaceCrEncodable(ReplaceCrLf(inner));
    assert 0 !in inner;
  }

  lemma {:induction false} DropBomEncodable(s: Str)
    requires Encodable(s)
    ensures Encodable(DropBom(s))
    ensures 0 in DropBom(s) ==> 0 in s
  {
    if StartsWithBom(s) {
      EncodableTail(s);
    }
  }
}
