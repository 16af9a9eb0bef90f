/** Which inputs are accepted as revisions, and what the revision then holds. */
module AcceptedRevisions {
  import opened Text
  import opened CanonicalJson
  import opened JsonParser
  import opened StableSort
  import opened TextNormalization
  import opened CanonicalRevision

  // ----- texts

  function WithoutTwoMarks(s: Str): Str {
    if |s| >= 2 && s[0] == s[1] == 0xFEFF then s[2..]
    else if s != [] && s[0] == 0xFEFF then s[1..]
    else s
  }

  function TextOf(p: Platform, s: Str): Str { p.nfc(UnixLines(WithoutTwoMarks(Reencoded(s)))) }

  /** A text without NUL and of at most 256 KiB, before and after normalisation. */
  predicate GoodText(p: Platform, s: Str) {
    0 !in s && Utf8Length(s) <= 256 * 1024 && Utf8Length(TextOf(p, s)) <= 256 * 1024
  }

  /** Normalisation accepts exactly the good texts. It removes up to two byte-order marks, replaces
      lone surrogates, unifies line ends and composes, and counts the bytes of the result. */
  lemma {:induction false} NormalizeExactly(p: Platform, s: Str)
    ensures NormalizeUtf8(p.nfc, s, MAX_TEXT_BYTES).Success? <==> GoodText(p, s)
    ensures GoodText(p, s) ==>
              NormalizeUtf8(p.nfc, s, MAX_TEXT_BYTES)
              == Success(NormalizedText(TextOf(p, s), Utf8Length(TextOf(p, s))))
  {
    var r := Reencoded(s);
    ReencodedUnits(s);
    assert DropBom(DropBom(r)) == WithoutTwoMarks(r);
    assert 0 in s <==> 0 in r by {
      if i :| 0 <= i < |s| && s[i] == 0 {
        assert r[i] == 0;
      }
      if i :| 0 <= i < |r| && r[i] == 0 {
        assert s[i] == 0;
      }
    }
    assert 0 in DropBom(r) <==> 0 in r;
  }

  /** A surrogate that is not half of a pair. */
  predicate LoneAt(s: Str, i: nat)
    requires i < |s|
  {
    || (IsHighSurrogate(s[i]) && !(i + 1 < |s| && IsLowSurrogate(s[i + 1])))
    || (IsLowSurrogate(s[i]) && !(i > 0 && IsHighSurrogate(s[i - 1])))
  }

  /** Encoding and decoding replace exactly the lone surrogates. */
  lemma {:induction false} ReencodedUnits(s: Str)
    ensures |Reencoded(s)| == |s|
    ensures forall i :: 0 <= i < |s| ==> Reencoded(s)[i] == if LoneAt(s, i) then 0xFFFD else s[i]
  {
    if s == [] {
    } else if StartsWithPair(s) {
      ReencodedUnits(s[2..]);
      forall i | 2 <= i < |s|
        ensures Reencoded(s)[i] == if LoneAt(s, i) then 0xFFFD else s[i]
      {
        assert LoneAt(s[2..], i - 2) <==> LoneAt(s, i);
      }
    } else {
      ReencodedUnits(s[1..]);
      forall i | 1 <= i < |s|
        ensures Reencoded(s)[i] == if LoneAt(s, i) then 0xFFFD else s[i]
      {
        assert LoneAt(s[1..], i - 1) <==> LoneAt(s, i);
      }
    }
  }

  /** Up to its first carriage return a text is kept; that, with a line feed after it, becomes a line
      feed; and so on with the rest. */
  lemma {:induction false} UnixLinesUpTo(a: Str, b: Str)
    requires CARRIAGE_RETURN !in a
    ensures UnixLines(a) == a
    ensures UnixLines(a + [CARRIAGE_RETURN] + b)
         == a + [NEWLINE] + UnixLines(if b != [] && b[0] == NEWLINE then b[1..] else b)
  {
    hide UnixLines;
    UnixLinesFixed(a);
    if a == [] {
      var s := [CARRIAGE_RETURN] + b;
      assert a + [CARRIAGE_RETURN] + b == s;
      if b != [] && b[0] == NEWLINE {
        assert s[2..] == b[1..];
      } else {
        assert s[1..] == b;
      }
      FirstUnit(s);
    } else {
      UnixLinesUpTo(a[1..], b);
      var s := a + [CARRIAGE_RETURN] + b;
      assert s[1..] == a[1..] + [CARRIAGE_RETURN] + b && s[0] == a[0];
      FirstUnit(s);
      assert a == [a[0]] + a[1..];
    }
  }

  lemma {:induction false} FirstUnit(s: Str)
    requires s != []
    ensures UnixLines(s) ==
            if s[0] != CARRIAGE_RETURN then [s[0]] + UnixLines(s[1..])
            else [NEWLINE] + UnixLines(if |s| >= 2 && s[1] == NEWLINE then s[2..] else s[1..])
  {
    var rest := ReplaceCrLf(if |s| >= 2 && s[0] == CARRIAGE_RETURN && s[1] == NEWLINE then s[2..] else s[1..]);
    assert ReplaceCrLf(s)[1..] == rest;
  }

  /** The bytes of a text, unit by unit: half of a surrogate pair counts two. */
  function UnitBytes(s: Str, i: nat): nat
    requires i < |s|
  {
    if s[i] < 0x80 then 1 else if s[i] < 0x800 then 2
    else if 0xD800 <= s[i] < 0xE000 && !LoneAt(s, i) then 2 else 3
  }

  function SumOfBytes(s: Str, n: nat): nat
    requires n <= |s|
  {
    if n == 0 then 0 else SumOfBytes(s, n - 1) + UnitBytes(s, n - 1)
  }

  lemma {:induction false} BytesByUnit(s: Str)
    ensures Utf8Length(s) == SumOfBytes(s, |s|)
  {
    if s == [] {
    } else if StartsWithPair(s) {
      BytesByUnit(s[2..]);
      SumFrom(s, 2, |s|);
      assert SumOfBytes(s, 2) == SumOfBytes(s, 1) + UnitBytes(s, 1) == 4;
    } else {
      BytesByUnit(s[1..]);
      SumFrom(s, 1, |s|);
      assert SumOfBytes(s, 1) == UnitBytes(s, 0);
    }
  }

  /** Cutting between characters leaves the counts of the rest as they are. */
  lemma {:induction false} SumFrom(s: Str, k: nat, n: nat)
    requires 0 < k <= n <= |s|
    requires k < |s| && IsLowSurrogate(s[k]) ==> !IsHighSurrogate(s[k - 1])
    ensures SumOfBytes(s, n) == SumOfBytes(s, k) + SumOfBytes(s[k..], n - k)
  {
    if n > k {
      SumFrom(s, k, n - 1);
      assert LoneAt(s[k..], n - 1 - k) <==> LoneAt(s, n - 1);
    }
  }

  // ----- resources

  predicate GoodResource(p: Platform, input: ResourceInput) { p.safePath(input.path) && GoodText(p, input.content) }

  /** The resource a revision holds for an input. */
  function Made(p: Platform, input: ResourceInput): VerifiedResource {
    var text := TextOf(p, input.content);
    VerifiedResource(input.path, input.mediaType, Utf8Length(text), p.sha256Hex(text), text)
  }

  function AllMade(p: Platform, inputs: seq<ResourceInput>): (r: seq<VerifiedResource>)
    ensures |r| == |inputs| && forall i :: 0 <= i < |inputs| ==> r[i] == Made(p, inputs[i])
  {
    seq(|inputs|, i requires 0 <= i < |inputs| => Made(p, inputs[i]))
  }

  predicate AllGood(p: Platform, inputs: seq<ResourceInput>) {
    forall i :: 0 <= i < |inputs| ==> GoodResource(p, inputs[i])
  }

  lemma {:induction false} VerifiedExactly(p: Platform, inputs: seq<ResourceInput>)
    ensures VerifyResources(p, inputs).Success? <==> AllGood(p, inputs)
    ensures AllGood(p, inputs) ==> VerifyResources(p, inputs) == Success(AllMade(p, inputs))
  {
    hide GoodText, TextOf, NormalizeUtf8;
    if inputs == [] {
      assert AllMade(p, inputs) == [];
    } else {
      NormalizeExactly(p, inputs[0].content);
      VerifiedExactly(p, inputs[1..]);
      assert AllGood(p, inputs) <==> GoodResource(p, inputs[0]) && AllGood(p, inputs[1..]);
      assert AllMade(p, inputs) == [Made(p, inputs[0])] + AllMade(p, inputs[1..]);
    }
  }

  predicate PathsDiffer(inputs: seq<ResourceInput>) {
    forall i, j :: 0 <= i < j < |inputs| ==> inputs[i].path != inputs[j].path
  }

  function BytesOf(p: Platform, inputs: seq<ResourceInput>): nat {
    if inputs == [] then 0 else Utf8Length(TextOf(p, inputs[0].content)) + BytesOf(p, inputs[1..])
  }

  lemma {:induction false} BytesMade(p: Platform, inputs: seq<ResourceInput>)
    ensures TotalBytes(AllMade(p, inputs)) == BytesOf(p, inputs)
  {
    if inputs != [] {
      BytesMade(p, inputs[1..]);
      assert AllMade(p, inputs)[1..] == AllMade(p, inputs[1..]);
    }
  }

  lemma {:induction false} BytesInserted(
      x: VerifiedResource, s: seq<VerifiedResource>, le: (VerifiedResource, VerifiedResource) -> bool)
    ensures TotalBytes(Insert(x, s, le)) == x.byteLength + TotalBytes(s)
  {
    if s == [] || le(x, s[0]) {
      assert ([x] + s)[1..] == s;
    } else {
      BytesInserted(x, s[1..], le);
      assert ([s[0]] + Insert(x, s[1..], le))[1..] == Insert(x, s[1..], le);
    }
  }

  lemma {:induction false} BytesSorted(s: seq<VerifiedResource>, le: (VerifiedResource, VerifiedResource) -> bool)
    ensures TotalBytes(Sort(s, le)) == TotalBytes(s)
  {
    if s != [] {
      BytesSorted(s[1..], le);
      BytesInserted(s[0], Sort(s[1..], le), le);
    }
  }

  /** Whether paths differ does not depend on the order of the resources. */
  lemma {:induction false} PathsSorted(a: seq<VerifiedResource>, b: seq<VerifiedResource>)
    requires multiset(a) == multiset(b) && DistinctPaths(a)
    ensures DistinctPaths(b)
  {
    SameCount(a, b);
    MultisetOfDistinct(a);
    forall i, j | 0 <= i < j < |b|
      ensures b[i].path != b[j].path
    {
      assert b[i] in multiset(a) && b[j] in multiset(a);
      if b[i] == b[j] {
        TwiceInSequence(b, i, j);
      } else {
        var k :| 0 <= k < |a| && a[k] == b[i];
        var m :| 0 <= m < |a| && a[m] == b[j];
      }
    }
  }

  lemma {:induction false} GatheredPaths(p: Platform, inputs: seq<ResourceInput>)
    ensures DistinctPaths(Sort(AllMade(p, inputs), ByPath(p.collate))) <==> PathsDiffer(inputs)
  {
    hide Sort;
    var made := AllMade(p, inputs);
    var sorted := Sort(made, ByPath(p.collate));
    SortPermutes(made, ByPath(p.collate));
    assert DistinctPaths(made) <==> PathsDiffer(inputs);
    if DistinctPaths(made) {
      PathsSorted(made, sorted);
    }
    if DistinctPaths(sorted) {
      PathsSorted(sorted, made);
    }
  }

  // ----- revisions

  predicate Accepted(p: Platform, input: RevisionInput) {
    && 1 <= |input.resources| <= 64 && GoodText(p, input.instructions)
    && AllGood(p, input.resources) && PathsDiffer(input.resources)
    && Utf8Length(TextOf(p, input.instructions)) + BytesOf(p, input.resources) <= 2 * 1024 * 1024
    && Printable(input.publishedProvenance)
  }

  lemma {:induction false} GathersExactly(p: Platform, input: RevisionInput)
    ensures var sorted := Sort(AllMade(p, input.resources), ByPath(p.collate));
            if 1 <= |input.resources| <= 64 && GoodText(p, input.instructions)
               && AllGood(p, input.resources) && PathsDiffer(input.resources)
               && Utf8Length(TextOf(p, input.instructions)) + BytesOf(p, input.resources) <= 2 * 1024 * 1024
            then
              var text := TextOf(p, input.instructions);
              GatherTexts(p, input) == Success(Gathered(NormalizedText(text, Utf8Length(text)), sorted))
            else GatherTexts(p, input).Failure?
  {
    hide GoodText, TextOf, NormalizeUtf8, AllGood, PathsDiffer, DistinctPaths, VerifyResources, Sort;
    NormalizeExactly(p, input.instructions);
    VerifiedExactly(p, input.resources);
    GatheredPaths(p, input.resources);
    BytesMade(p, input.resources);
    BytesSorted(AllMade(p, input.resources), ByPath(p.collate));
  }

  /** A revision is created exactly from an accepted input. It holds the normalised texts, each
      resource with its own byte count and hash, and the resources ordered by path. */
  lemma {:induction false} AcceptedExactly(p: Platform, input: RevisionInput)
    requires TotalPreorder(p.collate) && WellFormed(input.publishedProvenance)
    ensures CreateSkillRevision(p, input).Success? <==> Accepted(p, input)
    ensures Accepted(p, input) ==>
              var r := CreateSkillRevision(p, input).value;
              && r.skillId == input.skillId && r.revision == input.revision
              && r.publishedProvenance == input.publishedProvenance
              && r.instructions == TextOf(p, input.instructions)
              && r.instructionsSha256 == p.sha256Hex(r.instructions)
              && multiset(r.resources) == multiset(AllMade(p, input.resources))
              && forall i, j :: 0 <= i < j < |r.resources| ==> p.collate(r.resources[i].path, r.resources[j].path)
  {
    hide GoodText, TextOf, GatherTexts, AllGood, PathsDiffer, Sort, Canonicalize, CanonicalPayload, WellFormed,
      Printable;
    GathersExactly(p, input);
    if GatherTexts(p, input).Success? {
      var g := GatherTexts(p, input).value;
      var made := AllMade(p, input.resources);
      SortPermutes(made, ByPath(p.collate));
      ByPathTotal(p.collate);
      SortSorted(made, ByPath(p.collate));
      assert forall i, j :: 0 <= i < j < |g.resources| ==> ByPath(p.collate)(g.resources[i], g.resources[j]);
      GoodBytes(p, input.resources, g.resources);
      SealsExactly(p, input, g);
    }
  }

  lemma {:induction false} GoodBytes(p: Platform, inputs: seq<ResourceInput>, rs: seq<VerifiedResource>)
    requires AllGood(p, inputs) && multiset(rs) == multiset(AllMade(p, inputs))
    ensures SmallResources(rs)
  {
    hide GoodText;
    forall k | 0 <= k < |rs|
      ensures rs[k].byteLength <= MAX_SAFE_INTEGER
    {
      assert rs[k] in multiset(AllMade(p, inputs));
      var i :| 0 <= i < |inputs| && AllMade(p, inputs)[i] == rs[k];
      assert GoodResource(p, inputs[i]);
      GoodTextIsSmall(p, inputs[i].content);
    }
  }

  lemma {:induction false} GoodTextIsSmall(p: Platform, s: Str)
    requires GoodText(p, s)
    ensures Utf8Length(TextOf(p, s)) <= MAX_SAFE_INTEGER
  {}

  /** Sealing succeeds exactly when the provenance is JSON data. */
  lemma {:induction false} SealsExactly(p: Platform, input: RevisionInput, g: Gathered)
    requires WellFormed(input.publishedProvenance) && SmallResources(g.resources)
    ensures SealRevision(p, input, g).Success? <==> Printable(input.publishedProvenance)
    ensures SealRevision(p, input, g).Success? ==>
              var r := SealRevision(p, input, g).value;
              && r.skillId == input.skillId && r.revision == input.revision
              && r.publishedProvenance == input.publishedProvenance && r.instructions == g.instructions.text
              && r.instructionsSha256 == p.sha256Hex(r.instructions) && r.resources == g.resources
  {
    hide Canonicalize, CanonicalPayload, WellFormed, Printable;
    PayloadPrints(SkillRevision(
      input.skillId, input.revision, input.publishedProvenance, g.instructions.text,
      p.sha256Hex(g.instructions.text), g.resources, []));
  }

  lemma {:induction false} PayloadPrints(r: SkillRevision)
    requires WellFormed(r.publishedProvenance) && SmallResources(r.resources)
    ensures Canonicalize(CanonicalPayload(r)).Success? <==> Printable(r.publishedProvenance)
  {
    hide Each, Zip, WellFormed, Printable, Canonicalize, SmallResources;
    KeysAreDistinct();
    ResourceListRecord(r.resources);
    BodiesPrint(r.resources);
    var vs := PayloadValues(r);
    forall i | 0 <= i < |vs|
      ensures WellFormed(vs[i])
      ensures i != 3 ==> Printable(vs[i])
    {
      if i in {1, 2, 4} {
        CharsArePlain(vs[i]);
      } else if i == 0 {
        OneIsPlain();
      }
    }
    CanonicalRecordPrintable(PAYLOAD_KEYS, vs);
    assert vs[3] == r.publishedProvenance;
  }

  lemma {:induction false} OneIsPlain()
    ensures WellFormed(Num(1)) && Printable(Num(1))
  {}

  lemma {:induction false} BodiesPrint(resources: seq<VerifiedResource>)
    ensures WellFormed(Each(resources, BodyValue)) && Printable(Each(resources, BodyValue))
  {
    KeysAreDistinct();
    forall i | 0 <= i < |resources|
      ensures WellFormed(BodyValue(resources[i])) && Printable(BodyValue(resources[i]))
    {
      RecordWellFormedPrintable(BODY_KEYS, [Chars(resources[i].path), Chars(resources[i].content)]);
    }
  }
}
