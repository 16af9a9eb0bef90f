/** Accepted inputs whose revisions fail their own integrity check. */
module IntegrityExamples {
  import opened Text
  import opened CanonicalJson
  import opened StableSort
  import opened TextNormalization
  import opened CanonicalRevision
  import opened ExternalCatalog
  import opened CanonicalRevisionV2

  const THREE_MARKS: Str := [BYTE_ORDER_MARK, BYTE_ORDER_MARK, BYTE_ORDER_MARK]

  function Unchanged(s: Str): Str { s }

  predicate NotLonger(a: Str, b: Str) { |a| <= |b| }

  predicate AnyPath(path: Str) { true }

  /** A platform on which texts are already in normal form and every path is safe. */
  function Plain(hash: Str -> Str): Platform {
    Platform(hash, Unchanged, NotLonger, AnyPath)
  }

  lemma {:induction false} PlainIsLawful(hash: Str -> Str)
    ensures Plain(hash).Lawful()
  {
    assert forall s: Str | StartsWithBom(s) :: s == [BYTE_ORDER_MARK] + s[1..];
  }

  lemma {:induction false} NormalizeSmall()
    ensures NormalizeUtf8(Unchanged, [], MAX_TEXT_BYTES) == Success(NormalizedText([], 0))
    ensures NormalizeUtf8(Unchanged, THREE_MARKS, MAX_TEXT_BYTES)
         == Success(NormalizedText([BYTE_ORDER_MARK], 3))
    ensures LeadingBoms([]) == 0 && LeadingBoms(THREE_MARKS) == 3
  {
    var one: Str := [BYTE_ORDER_MARK];
    var two: Str := [BYTE_ORDER_MARK, BYTE_ORDER_MARK];
    assert THREE_MARKS[1..] == two && two[1..] == one && one[1..] == [];
    assert Utf8Length(one) == 3 && Utf8Length(two) == 6 && Utf8Length(THREE_MARKS) == 9;
    assert Reencoded(one) == one && Reencoded(two) == two && Reencoded(THREE_MARKS) == THREE_MARKS;
    assert ReplaceCrLf(one) == [one[0]] + ReplaceCrLf(one[1..]) && ReplaceCrLf(one) == one;
    assert ReplaceCr(one) == [one[0]] + ReplaceCr(one[1..]) && UnixLines(one) == one;
    assert LeadingBoms(one) == 1 && LeadingBoms(two) == 2;
  }

  // ----- the first format

  const MARKED_INPUT := RevisionInput([], [], Null, THREE_MARKS, [ResourceInput([], Markdown, [])])

  /** Instructions of three byte-order marks: the revision is created, and fails its own check. */
  lemma {:induction false} MarkedRevisionFails(hash: Str -> Str)
    ensures Plain(hash).Lawful()
    ensures CreateSkillRevision(Plain(hash), MARKED_INPUT).Success?
    ensures AssertRevisionIntegrity(Plain(hash), CreateSkillRevision(Plain(hash), MARKED_INPUT).value).Failure?
  {
    var p := Plain(hash);
    PlainIsLawful(hash);
    MarkedTextsGathered(hash);
    var g := GatherTexts(p, MARKED_INPUT).value;
    hide GatherTexts, Platform.Lawful;
    MarkedSeals(p, g);
    NormalizeSmall();
    IntegrityExact(p, MARKED_INPUT);
  }

  lemma {:induction false} MarkedTextsGathered(hash: Str -> Str)
    ensures GatherTexts(Plain(hash), MARKED_INPUT).Success?
    ensures SmallResources(GatherTexts(Plain(hash), MARKED_INPUT).value.resources)
  {
    NormalizeSmall();
    var p := Plain(hash);
    var r := VerifiedResource([], Markdown, 0, hash([]), []);
    assert VerifyResource(p, MARKED_INPUT.resources[0]) == Success(r);
    assert VerifyResources(p, []) == Success([]);
    assert MARKED_INPUT.resources[1..] == [] && VerifyResources(p, MARKED_INPUT.resources) == Success([r] + []);
    assert Sort([r], ByPath(p.collate)) == [r] by {
      assert [r][1..] == [];
    }
    assert TotalBytes([r]) == 0 by {
      assert [r][1..] == [];
    }
  }

  lemma {:induction false} MarkedSeals(p: Platform, g: Gathered)
    requires SmallResources(g.resources)
    ensures SealRevision(p, MARKED_INPUT, g).Success?
  {
    hide Each, SmallResources, Zip, CanonicalText, Printable;
    var r := SkillRevision([], [], Null, g.instructions.text, p.sha256Hex(g.instructions.text), g.resources, []);
    PayloadPrints(r);
    hide CanonicalPayload;
    PrintableIsAccepted(CanonicalPayload(r));
    assert Canonicalize(CanonicalPayload(r)).Success?;
  }

  lemma {:induction false} PayloadPrints(r: SkillRevision)
    requires SmallResources(r.resources) && r.publishedProvenance == Null
    ensures Printable(CanonicalPayload(r))
  {
    hide Each, SmallResources, Zip;
    KeysAreDistinct();
    ResourceListRecord(r.resources);
    BodiesPrintable(r.resources);
    var vs := PayloadValues(r);
    RecordWellFormedPrintable(PAYLOAD_KEYS, vs);
    forall i | 0 <= i < |vs|
      ensures Printable(vs[i])
    {
      assert i == 0 || i == 3 || i == 5 || i == 6 || vs[i].Chars?;
    }
  }

  /** Sorting keys keeps a value printable, whatever its keys. */
  lemma {:induction false} PrintableIsAccepted(v: Value)
    requires Printable(v)
    ensures Canonicalize(v).Success?
  {
    NormalizedPrintable(v);
    ObstacleIffUnprintable(Normalize(v));
  }

  lemma {:induction false} NormalizedPrintable(v: Value)
    requires Printable(v)
    ensures Printable(Normalize(v))
    decreases v
  {
    match v
    case Arr(items) =>
      forall i | 0 <= i < |items|
        ensures Printable(Normalize(items[i]))
      {
        NormalizedPrintable(items[i]);
      }
    case Obj(fields) =>
      var mapped := NormalizeFields(fields);
      forall i | 0 <= i < |fields|
        ensures Printable(mapped[i].value)
      {
        NormalizedPrintable(fields[i].value);
      }
      SortMembers(mapped, KEY_ORDER);
      var sorted := Sort(mapped, KEY_ORDER);
      forall i | 0 <= i < |sorted|
        ensures Printable(sorted[i].value)
      {
        assert sorted[i] in sorted;
      }
    case _ =>
  }

  lemma {:induction false} BodiesPrintable(resources: seq<VerifiedResource>)
    ensures Printable(Each(resources, BodyValue))
  {
    KeysAreDistinct();
    forall i | 0 <= i < |resources|
      ensures Printable(BodyValue(resources[i]))
    {
      RecordWellFormedPrintable(BODY_KEYS, [Chars(resources[i].path), Chars(resources[i].content)]);
    }
  }

  // ----- how long canonical text can get

  lemma {:induction false} EscapeLength(s: Str)
    ensures |Escape(s)| <= 6 * |s|
  {
    if StartsWithPair(s) {
      EscapeLength(s[2..]);
    } else if s != [] {
      EscapeLength(s[1..]);
    }
  }

  lemma {:induction false} Utf8AtMost(s: Str)
    ensures Utf8Length(s) <= 4 * |s|
  {
    if StartsWithPair(s) {
      Utf8AtMost(s[2..]);
    } else if s != [] {
      Utf8AtMost(s[1..]);
    }
  }

  predicate ShortField(f: Field, bound: nat) { |f.key| <= 64 && |Render(f.value)| <= bound }

  lemma {:induction false} FieldsLength(fields: seq<Field>, bound: nat)
    requires forall i :: 0 <= i < |fields| ==> ShortField(fields[i], bound)
    ensures |RenderFields(fields)| <= |fields| * (bound + 388)
  {
    if fields != [] {
      EscapeLength(fields[0].key);
      assert ShortField(fields[0], bound);
      forall i | 0 <= i < |fields| - 1
        ensures ShortField(fields[1..][i], bound)
      {
        assert ShortField(fields[i + 1], bound);
      }
      FieldsLength(fields[1..], bound);
      if |fields| > 1 {
        Step(|fields| - 1, bound + 388);
      }
    }
  }

  lemma {:induction false} Step(n: nat, m: nat)
    ensures (n + 1) * m == n * m + m
  {}

  /** A record whose keys are short and whose values print short prints short. */
  lemma {:induction false} RecordLength(fields: seq<Field>, bound: nat)
    requires forall f :: f in fields ==> |f.key| <= 64 && |CanonicalText(f.value)| <= bound
    ensures |CanonicalText(Obj(fields))| <= |fields| * (bound + 388) + 2
  {
    hide Render, Sort;
    var mapped := NormalizeFields(fields);
    var sorted := Sort(mapped, KEY_ORDER);
    SortPermutes(mapped, KEY_ORDER);
    SortMembers(mapped, KEY_ORDER);
    forall f | f in mapped
      ensures ShortField(f, bound)
    {
      var k :| 0 <= k < |mapped| && mapped[k] == f;
      assert fields[k] in fields;
    }
    forall i | 0 <= i < |sorted|
      ensures ShortField(sorted[i], bound)
    {
      assert sorted[i] in sorted;
    }
    FieldsLength(sorted, bound);
    RecordIsBraced(fields, sorted);
  }

  lemma {:induction false} RecordIsBraced(fields: seq<Field>, sorted: seq<Field>)
    requires sorted == Sort(NormalizeFields(fields), KEY_ORDER)
    ensures |CanonicalText(Obj(fields))| == |RenderFields(sorted)| + 2
  {
    hide Sort, RenderFields;
  }

  predicate ShortValue(v: Option<Value>, bound: nat) { v.Some? ==> |CanonicalText(v.value)| <= bound }

  lemma {:induction false} ListedLength(keys: seq<Str>, values: seq<Option<Value>>, bound: nat)
    requires |keys| == |values|
    requires forall i :: 0 <= i < |keys| ==> |keys[i]| <= 64
    requires forall i :: 0 <= i < |values| ==> ShortValue(values[i], bound)
    ensures |CanonicalText(Obj(Listed(keys, values)))| <= |keys| * (bound + 388) + 2
  {
    hide CanonicalText;
    var fields := Listed(keys, values);
    ListedAtMost(keys, values);
    ListedMembers(keys, values);
    forall f | f in fields
      ensures |f.key| <= 64 && |CanonicalText(f.value)| <= bound
    {
      var i :| 0 <= i < |keys| && keys[i] == f.key && values[i] == Some(f.value);
      assert ShortValue(values[i], bound);
    }
    RecordLength(fields, bound);
    Monotone(|fields|, |keys|, bound + 388);
  }

  lemma {:induction false} Monotone(a: nat, b: nat, m: nat)
    requires a <= b
    ensures a * m <= b * m
  {}

  lemma {:induction false} ListedAtMost(keys: seq<Str>, values: seq<Option<Value>>)
    requires |keys| == |values|
    ensures |Listed(keys, values)| <= |keys|
  {
    if keys != [] {
      ListedAtMost(keys[1..], values[1..]);
    }
  }

  // ----- the second format

  const COMMIT := Ascii("0000000000000000000000000000000000000000")

  /** A small import: its instructions and whether it declares a licence of its own. */
  function SmallImport(instructions: Str, declared: Optional): ExternalInput {
    ExternalInput(
      [],
      Provenance(1, [], [], COMMIT, [], [], Ascii("MIT"), [], Absent, Absent, declared, Absent, Absent, Absent),
      ImportedSkill([], [], instructions, Automatic, [], []))
  }

  predicate Small(instructions: Str, declared: Optional) {
    (instructions == [] || instructions == THREE_MARKS) && !declared.Present?
  }

  function TextsOfSmall(instructions: Str): ExternalTexts {
    ExternalTexts(
      if instructions == [] then NormalizedText([], 0) else NormalizedText([BYTE_ORDER_MARK], 3),
      NormalizedText([], 0), None, [], [])
  }

  lemma {:induction false} SmallTextsGathered(hash: Str -> Str, instructions: Str, declared: Optional)
    requires Small(instructions, declared)
    ensures GatherExternal(Plain(hash), SmallImport(instructions, declared)) == Success(TextsOfSmall(instructions))
  {
    hide NormalizeUtf8, LeadingBoms;
    NormalizeSmall();
    var p, input := Plain(hash), SmallImport(instructions, declared);
    assert IsHex(COMMIT, 40) && |Ascii("MIT")| == 3;
    assert NormalizeUtf8(p.nfc, input.skill.instructions, MAX_TEXT_BYTES)
        == Success(TextsOfSmall(instructions).instructions);
    assert NormalizeUtf8(p.nfc, input.provenance.licenseText, MAX_TEXT_BYTES) == Success(NormalizedText([], 0));
    assert NormalizeNotice(p, input.provenance.noticeText) == Success(None);
    assert VerifyResources(p, input.skill.resources) == Success([]);
    hide IsHex;
  }

  predicate ShortScalar(v: Option<Value>) {
    v.None? || (v.value.Chars? && |v.value.s| <= 64) || v.value == Num(1)
  }

  lemma {:induction false} ScalarLength(v: Option<Value>)
    requires ShortScalar(v)
    ensures ShortValue(v, 400)
    ensures v.Some? ==> WellFormed(v.value) && Printable(v.value)
  {
    if v.Some? && v.value.Chars? {
      EscapeLength(v.value.s);
    }
  }

  lemma {:induction false} SourceIsShort(hash: Str -> Str, instructions: Str, declared: Optional)
    requires Small(instructions, declared) && forall s :: |hash(s)| <= 64
    ensures var values := BundleSourceValues(
              Plain(hash), SmallImport(instructions, declared).provenance, TextsOfSmall(instructions));
            forall i :: 0 <= i < |values| ==> ShortScalar(values[i])
  {
    var input := SmallImport(instructions, declared);
    var values := BundleSourceValues(Plain(hash), input.provenance, TextsOfSmall(instructions));
    var absent: Option<Value> := None;
    assert values == [
      Some(Chars(Ascii("github"))), Some(Num(1)), Some(Chars([])), Some(Chars([])), Some(Chars(Ascii("MIT"))),
      Some(Chars(hash([]))), absent, absent, absent, absent, absent, absent,
      Some(Chars([])), Some(Chars([])), Some(Chars(COMMIT))];
    forall i | 0 <= i < |values|
      ensures ShortScalar(values[i])
    {
      if i != 1 {
        assert values[i].None? || (values[i].value.Chars? && |values[i].value.s| <= 64);
      }
    }
  }

  lemma {:induction false} KeysAreShort()
    ensures forall i :: 0 <= i < |BUNDLE_SOURCE_KEYS| ==> |BUNDLE_SOURCE_KEYS[i]| <= 64
    ensures forall i :: 0 <= i < |BUNDLE_KEYS| ==> |BUNDLE_KEYS[i]| <= 64
  {}

  /** The small imports are accepted. */
  lemma {:induction false} SmallImportCreates(hash: Str -> Str, instructions: Str, declared: Optional)
    requires Small(instructions, declared) && forall s :: |hash(s)| <= 64
    ensures CreateExternalSkillRevision(Plain(hash), SmallImport(instructions, declared)).Success?
  {
    SmallTextsGathered(hash, instructions, declared);
    SmallBundle(hash, instructions, declared);
    SmallContent(hash, instructions, declared);
    hide GatherExternal, BundlePayload, ImmutableContent, Canonicalize, Plain;
  }

  lemma {:induction false} SmallBundle(hash: Str -> Str, instructions: Str, declared: Optional)
    requires Small(instructions, declared) && forall s :: |hash(s)| <= 64
    ensures var v := BundlePayload(Plain(hash), SmallImport(instructions, declared), TextsOfSmall(instructions));
            Canonicalize(v).Success? && Utf8Length(Canonicalize(v).value) <= MAX_BUNDLE_BYTES
  {
    SourceIsShort(hash, instructions, declared);
    hide Plain, SmallImport, TextsOfSmall, ShortScalar, Listed, CanonicalText, Printable, ShortValue,
      BundleSourceValues, BundleValues, Canonicalize;
    var p, input, t := Plain(hash), SmallImport(instructions, declared), TextsOfSmall(instructions);
    KeysAreShort();
    SmallRecord(BUNDLE_SOURCE_KEYS, BundleSourceValues(p, input.provenance, t));
    var source := Obj(Listed(BUNDLE_SOURCE_KEYS, BundleSourceValues(p, input.provenance, t)));
    BundleValuesShort(hash, instructions, declared, source);
    ListedPrintable(BUNDLE_KEYS, BundleValues(input, t, source));
    ListedLength(BUNDLE_KEYS, BundleValues(input, t, source), 20000);
    ShortPrints(Obj(Listed(BUNDLE_KEYS, BundleValues(input, t, source))), 12 * 20388 + 2);
  }

  lemma {:induction false} ShortPrints(v: Value, bound: nat)
    requires Printable(v) && |CanonicalText(v)| <= bound
    ensures Canonicalize(v).Success? && Utf8Length(Canonicalize(v).value) <= 4 * bound
  {
    hide CanonicalText;
    PrintableIsAccepted(v);
    Utf8AtMost(CanonicalText(v));
  }

  lemma {:induction false} SmallRecord(keys: seq<Str>, values: seq<Option<Value>>)
    requires |keys| == |values| <= 15
    requires forall i :: 0 <= i < |keys| ==> |keys[i]| <= 64
    requires forall i :: 0 <= i < |values| ==> ShortScalar(values[i])
    ensures Printable(Obj(Listed(keys, values))) && |CanonicalText(Obj(Listed(keys, values)))| <= 20000
  {
    hide ShortScalar, ShortValue, Listed, CanonicalText, Printable;
    forall i | 0 <= i < |values|
      ensures ShortValue(values[i], 400)
      ensures values[i].Some? ==> Printable(values[i].value)
    {
      ScalarLength(values[i]);
    }
    ListedPrintable(keys, values);
    ListedLength(keys, values, 400);
    Monotone(|keys|, 15, 788);
  }

  lemma {:induction false} ListedPrintable(keys: seq<Str>, values: seq<Option<Value>>)
    requires |keys| == |values|
    requires forall i :: 0 <= i < |values| && values[i].Some? ==> Printable(values[i].value)
    ensures Printable(Obj(Listed(keys, values)))
  {
    ListedMembers(keys, values);
    var fields := Listed(keys, values);
    forall k | 0 <= k < |fields|
      ensures Printable(fields[k].value)
    {
      assert fields[k] in fields;
    }
  }

  lemma {:induction false} BundleValuesShort(hash: Str -> Str, instructions: Str, declared: Optional, source: Value)
    requires Small(instructions, declared) && Printable(source) && |CanonicalText(source)| <= 20000
    ensures var values := BundleValues(SmallImport(instructions, declared), TextsOfSmall(instructions), source);
            forall i :: 0 <= i < |values| ==>
              ShortValue(values[i], 20000) && (values[i].Some? ==> Printable(values[i].value))
  {
    var values := BundleValues(SmallImport(instructions, declared), TextsOfSmall(instructions), source);
    forall i | 0 <= i < |values|
      ensures ShortValue(values[i], 20000) && (values[i].Some? ==> Printable(values[i].value))
    {
      SmallPart(values[i], source);
    }
  }

  lemma {:induction false} SmallPart(v: Option<Value>, source: Value)
    requires Printable(source) && |CanonicalText(source)| <= 20000
    requires v == Some(source) || ShortScalar(v) || v == Some(Num(2)) || v == Some(Arr([]))
    ensures ShortValue(v, 20000) && (v.Some? ==> Printable(v.value))
  {
    if ShortScalar(v) {
      ScalarLength(v);
    }
  }

  lemma {:induction false} SmallContent(hash: Str -> Str, instructions: Str, declared: Optional)
    requires Small(instructions, declared) && forall s :: |hash(s)| <= 64
    ensures Canonicalize(ImmutableContent(
              Plain(hash), SmallImport(instructions, declared), TextsOfSmall(instructions))).Success?
  {
    SourceIsShort(hash, instructions, declared);
    hide Plain, ShortScalar, Listed, CanonicalText, Printable, SourceValues;
    var p, input, t := Plain(hash), SmallImport(instructions, declared), TextsOfSmall(instructions);
    var sources := SourceValues(p, input.provenance, t);
    forall i | 0 <= i < |sources| && sources[i].Some?
      ensures Printable(sources[i].value)
    {
      assert sources[i] == BundleSourceValues(p, input.provenance, t)[i];
      ScalarLength(sources[i]);
    }
    ListedPrintable(SOURCE_KEYS, sources);
    ContentPrints(input, t, Obj(Listed(SOURCE_KEYS, sources)));
    hide ContentValues;
    PrintableIsAccepted(ImmutableContent(p, input, t));
  }

  lemma {:induction false} ContentPrints(input: ExternalInput, t: ExternalTexts, source: Value)
    requires Printable(source) && t.resources == [] && t.dependencies == []
    ensures Printable(Obj(Zip(CONTENT_KEYS, ContentValues(input, t, source))))
  {
    var vs := ContentValues(input, t, source);
    ContentKeysDistinct();
    assert vs[7] == Arr([]) && vs[8] == Arr([]);
    hide Zip;
    forall i | 0 <= i < |vs|
      ensures Printable(vs[i])
    {
      assert i == 0 || i == 7 || i == 8 || i == 9 || vs[i].Chars?;
    }
    RecordWellFormedPrintable(CONTENT_KEYS, vs);
  }

  /** Of the small imports, all accepted, the one with ordinary texts passes its own check; the ones
      with three byte-order marks or a field that is present but undefined fail it. */
  lemma {:induction false} SmallImportsDecided(hash: Str -> Str, instructions: Str, declared: Optional)
    requires Small(instructions, declared) && forall s :: |hash(s)| <= 64
    ensures Plain(hash).Lawful()
    ensures var created := CreateExternalSkillRevision(Plain(hash), SmallImport(instructions, declared));
            && created.Success?
            && (AssertExternalRevisionIntegrity(Plain(hash), created.value).Success?
                <==> instructions == [] && declared == Absent)
  {
    hide Plain, Platform.Lawful, CreateExternalSkillRevision, AssertExternalRevisionIntegrity, FewExternalBoms,
      NoUndefined;
    PlainIsLawful(hash);
    SmallImportCreates(hash, instructions, declared);
    SmallImportMarks(instructions, declared);
    ExternalIntegrityExact(Plain(hash), SmallImport(instructions, declared));
  }

  lemma {:induction false} SmallImportMarks(instructions: Str, declared: Optional)
    requires Small(instructions, declared)
    ensures var input := SmallImport(instructions, declared);
            && (FewExternalBoms(input) <==> instructions == [])
            && (NoUndefined(input.provenance) <==> declared == Absent)
  {
    NormalizeSmall();
  }
}
