/** Strings as the program sees them: finite sequences of UTF-16 code units. */
module Text {

  datatype Option<+T> = None | Some(value: T)

  datatype Result<+T, +E> = Success(value: T) | Failure(error: E)

  type CodeUnit = x: int | 0 <= x < 0x10000

  type Str = seq<CodeUnit>

  const NEWLINE: CodeUnit := 10
  const CARRIAGE_RETURN: CodeUnit := 13
  const BYTE_ORDER_MARK: CodeUnit := 0xFEFF
  const COLON: CodeUnit := 58

  /** The code units of an ASCII literal. */
  function Ascii(s: string): (r: Str)
    ensures |r| == |s|
    ensures forall i :: 0 <= i < |s| && s[i] as int < 0x80 ==> r[i] == s[i] as int
  {
    seq(|s|, i requires 0 <= i < |s| => if s[i] as int < 0x80 then s[i] as int else 63)
  }

  /** Lower-case hexadecimal text of exactly n code units. */
  predicate IsHex(s: Str, n: nat) {
    |s| == n && forall i :: 0 <= i < |s| ==> 48 <= s[i] <= 57 || 97 <= s[i] <= 102
  }

  predicate IsHighSurrogate(c: CodeUnit) { 0xD800 <= c < 0xDC00 }

  predicate IsLowSurrogate(c: CodeUnit) { 0xDC00 <= c < 0xE000 }

  predicate StartsWithPair(s: Str) {
    |s| >= 2 && IsHighSurrogate(s[0]) && IsLowSurrogate(s[1])
  }

  /** Number of bytes of the UTF-8 encoding; a lone surrogate is encoded as U+FFFD. */
  function Utf8Length(s: Str): nat {
    if s == [] then 0
    else if StartsWithPair(s) then 4 + Utf8Length(s[2..])
    else (if s[0] < 0x80 then 1 else if s[0] < 0x800 then 2 else 3) + Utf8Length(s[1..])
  }

  lemma {:induction false} Cat3(a: Str, b: Str, c: Str)
    ensures a + b + c == a + (b + c)
  {}

  lemma {:induction false} Cat4(a: Str, b: Str, c: Str, d: Str)
    ensures a + b + c + d == a + (b + (c + d))
  {
    Cat3(a + b, c, d);
    Cat3(a, b, c + d);
  }

  // ----- lines

  /** The text before, between and after the newlines of s, as split("\n") gives it. */
  function Lines(s: Str): (r: seq<Str>)
    ensures |r| >= 1
  {
    if s == [] then [[]] else Push(s[0], Lines(s[1..]))
  }

  /** Every line followed by a newline. */
  function Terminated(lines: seq<Str>): Str {
    if lines == [] then [] else lines[0] + [NEWLINE] + Terminated(lines[1..])
  }

  predicate OneLine(s: Str) { NEWLINE !in s }

  lemma {:induction false} LinesOfOneLine(s: Str)
    requires OneLine(s)
    ensures Lines(s) == [s]
  {
    if s != [] {
      LinesOfOneLine(s[1..]);
      assert [s[0]] + s[1..] == s;
    }
  }

  /** Splitting at a newline known to be there splits the two sides separately. */
  lemma {:induction false} LinesSplit(a: Str, b: Str)
    ensures Lines(a + [NEWLINE] + b) == Lines(a) + Lines(b)
  {
    var whole := a + [NEWLINE] + b;
    if a == [] {
      assert whole[1..] == b;
      assert Lines(whole) == [[]] + Lines(b);
    } else {
      LinesSplit(a[1..], b);
      assert whole[0] == a[0] && whole[1..] == a[1..] + [NEWLINE] + b;
      LinesPush(a[0], Lines(a[1..]), Lines(b));
    }
  }

  /** What Lines does with one more code unit in front. */
  function Push(c: CodeUnit, lines: seq<Str>): seq<Str>
    requires lines != []
  {
    if c == NEWLINE then [[]] + lines else [[c] + lines[0]] + lines[1..]
  }

  lemma {:induction false} LinesPush(c: CodeUnit, a: seq<Str>, b: seq<Str>)
    requires a != []
    ensures Push(c, a + b) == Push(c, a) + b
  {
    assert (a + b)[1..] == a[1..] + b;
    assert (a + b)[0] == a[0];
  }

  /** Lines undo Terminated: a newline-terminated text splits into the lines it was made of. */
  lemma {:induction false} LinesOfTerminated(lines: seq<Str>)
    requires lines != []
    requires forall i :: 0 <= i < |lines| ==> OneLine(lines[i])
    ensures |Terminated(lines)| >= 1
    ensures Terminated(lines)[|Terminated(lines)| - 1] == NEWLINE
    ensures Lines(Terminated(lines)[..|Terminated(lines)| - 1]) == lines
  {
    var text := Terminated(lines);
    if |lines| == 1 {
      assert Terminated(lines[1..]) == [];
      assert text == lines[0] + [NEWLINE];
      assert text[..|text| - 1] == lines[0];
      LinesOfOneLine(lines[0]);
    } else {
      LinesOfTerminated(lines[1..]);
      var tail := Terminated(lines[1..]);
      assert text[..|text| - 1] == lines[0] + [NEWLINE] + tail[..|tail| - 1];
      LinesSplit(lines[0], tail[..|tail| - 1]);
      LinesOfOneLine(lines[0]);
    }
  }

  /** Terminated undoes Lines. */
  lemma {:induction false} TerminatedOfLines(s: Str)
    ensures Terminated(Lines(s)) == s + [NEWLINE]
  {
    if s != [] {
      TerminatedOfLines(s[1..]);
      var rest := Lines(s[1..]);
      if s[0] == NEWLINE {
        assert ([[]] + rest)[1..] == rest;
        assert [NEWLINE] + s[1..] == s;
      } else {
        var joined := [[s[0]] + rest[0]] + rest[1..];
        assert joined[1..] == rest[1..];
        assert Terminated(joined) == [s[0]] + Terminated(rest);
        assert [s[0]] + (s[1..] + [NEWLINE]) == s + [NEWLINE];
      }
    } else {
      assert Lines(s)[1..] == [];
    }
  }

  predicate IsPrefixOf(a: Str, b: Str) { |a| <= |b| && b[..|a|] == a }

  lemma {:induction false} TerminatedAppend(a: seq<Str>, b: seq<Str>)
    ensures Terminated(a + b) == Terminated(a) + Terminated(b)
  {
    if a == [] {
      assert a + b == b;
    } else {
      TerminatedAppend(a[1..], b);
      assert (a + b)[1..] == a[1..] + b;
    }
  }

  /** Fewer lines give a prefix of the text. */
  lemma {:induction false} TerminatedPrefix(lines: seq<Str>, n: nat)
    requires n <= |lines|
    ensures IsPrefixOf(Terminated(lines[..n]), Terminated(lines))
  {
    assert lines == lines[..n] + lines[n..];
    TerminatedAppend(lines[..n], lines[n..]);
  }

  predicate EndsLine(s: Str) { s != [] && s[|s| - 1] == NEWLINE }

  /** The lines of a newline-terminated text. */
  function BodyLines(s: Str): seq<Str>
    requires s != []
  {
    Lines(s[..|s| - 1])
  }

  /** A newline-terminated prefix of a newline-terminated text holds its first lines. */
  lemma {:induction false} PrefixLines(a: Str, b: Str)
    requires EndsLine(a) && EndsLine(b) && IsPrefixOf(a, b)
    ensures |BodyLines(a)| <= |BodyLines(b)|
    ensures BodyLines(b)[..|BodyLines(a)|] == BodyLines(a)
  {
    if |a| < |b| {
      var body, tail := a[..|a| - 1], b[|a|..|b| - 1];
      assert b[..|b| - 1] == body + [NEWLINE] + tail;
      LinesSplit(body, tail);
    } else {
      assert a == b;
    }
  }
}
