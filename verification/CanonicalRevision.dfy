/** Published revisions of catalog skills: construction, and the self-check that reconstructs a
    revision and compares canonical texts. */
module CanonicalRevision {
  import opened Text
  import opened CanonicalJson
  import opened JsonParser
  import opened StableSort
  import opened TextNormalization

  /** What the program takes from its platform: SHA-256 as hexadecimal text, Unicode form C,
      the locale's collation (a <= b) and the safe-path pattern for resources. */
  datatype Platform = Platform(
    sha256Hex: Str -> Str,
    nfc: Str -> Str,
    collate: (Str, Str) -> bool,
    safePath: Str -> bool)
  {
    ghost predicate Lawful() { NfcLaws(nfc) && TotalPreorder(collate) }
  }

  datatype MediaType = Markdown | PlainText

  datatype ResourceInput = ResourceInput(path: Str, mediaType: MediaType, content: Str)

  datatype VerifiedResource = VerifiedResource(
    path: Str, mediaType: MediaType, byteLength: nat, sha256: Str, content: Str)

  datatype RevisionInput = RevisionInput(
    skillId: Str,
    revision: Str,
    publishedProvenance: Value,
    instructions: Str,
    resources: seq<ResourceInput>)

  datatype SkillRevision = SkillRevision(
    skillId: Str,
    revision: Str,
    publishedProvenance: Value,
    instructions: Str,
    instructionsSha256: Str,
    resources: seq<VerifiedResource>,
    bundleSha256: Str)

  datatype RevisionError =
    | BadResourceCount | BadText | UnsafePath | DuplicatePath | BundleTooLarge | NotCanonicalData
    | IntegrityFailed

  const MAX_RESOURCES := 64
  const MAX_BUNDLE_CONTENT_BYTES := 2 * 1024 * 1024

  // ----- resources

  function VerifyResource(p: Platform, input: ResourceInput): Result<VerifiedResource, RevisionError> {
    if !p.safePath(input.path) then Failure(UnsafePath)
    else
      match NormalizeUtf8(p.nfc, input.content, MAX_TEXT_BYTES)
      case Failure(_) => Failure(BadText)
      case Success(n) =>
        Success(VerifiedResource(input.path, input.mediaType, n.byteLength, p.sha256Hex(n.text), n.text))
  }

  function VerifyResources(p: Platform, inputs: seq<ResourceInput>)
    : Result<seq<VerifiedResource>, RevisionError>
  {
    if inputs == [] then Success([])
    else
      match VerifyResource(p, inputs[0])
      case Failure(e) => Failure(e)
      case Success(r) =>
        match VerifyResources(p, inputs[1..])
        case Failure(e) => Failure(e)
        case Success(rs) => Success([r] + rs)
  }

  function ByPath(collate: (Str, Str) -> bool): (VerifiedResource, VerifiedResource) -> bool {
    (a: VerifiedResource, b: VerifiedResource) => collate(a.path, b.path)
  }

  predicate DistinctPaths(resources: seq<VerifiedResource>) {
    forall i, j :: 0 <= i < j < |resources| ==> resources[i].path != resources[j].path
  }

  function TotalBytes(resources: seq<VerifiedResource>): nat {
    if resources == [] then 0 else resources[0].byteLength + TotalBytes(resources[1..])
  }

  function InputsOf(resources: seq<VerifiedResource>): (r: seq<ResourceInput>)
    ensures |r| == |resources|
    ensures forall i :: 0 <= i < |resources| ==>
      r[i] == ResourceInput(resources[i].path, resources[i].mediaType, resources[i].content)
  {
    seq(|resources|, i requires 0 <= i < |resources| =>
      ResourceInput(resources[i].path, resources[i].mediaType, resources[i].content))
  }

  // ----- revisions as records

  function MediaText(m: MediaType): Str {
    match m
    case Markdown => Ascii("text/markdown")
    case PlainText => Ascii("text/plain")
  }

  const MANIFEST_KEYS: seq<Str> := [
    Ascii("path"), Ascii("mediaType"), Ascii("byteLength"), Ascii("sha256")]
  const RESOURCE_KEYS: seq<Str> := MANIFEST_KEYS + [Ascii("content")]
  const BODY_KEYS: seq<Str> := [Ascii("path"), Ascii("content")]

  function ManifestValues(r: VerifiedResource): (vs: seq<Value>)
    ensures |vs| == |MANIFEST_KEYS|
  {
    [Chars(r.path), Chars(MediaText(r.mediaType)), Num(r.byteLength), Chars(r.sha256)]
  }

  function ManifestValue(r: VerifiedResource): Value { Obj(Zip(MANIFEST_KEYS, ManifestValues(r))) }

  function ResourceValue(r: VerifiedResource): Value {
    Obj(Zip(RESOURCE_KEYS, ManifestValues(r) + [Chars(r.content)]))
  }

  function BodyValue(r: VerifiedResource): Value {
    Obj(Zip(BODY_KEYS, [Chars(r.path), Chars(r.content)]))
  }

  function Each(resources: seq<VerifiedResource>, f: VerifiedResource -> Value): Value {
    Arr(seq(|resources|, i requires 0 <= i < |resources| => f(resources[i])))
  }

  const PAYLOAD_KEYS: seq<Str> := [
    Ascii("schemaVersion"), Ascii("skillId"), Ascii("revision"), Ascii("publishedProvenance"),
    Ascii("instructions"), Ascii("resourceManifest"), Ascii("resources")]

  /** What the bundle hash covers. */
  function CanonicalPayload(r: SkillRevision): Value { Obj(Zip(PAYLOAD_KEYS, PayloadValues(r))) }

  function PayloadValues(r: SkillRevision): (vs: seq<Value>)
    ensures |vs| == |PAYLOAD_KEYS|
  {
    [Num(1), Chars(r.skillId), Chars(r.revision), r.publishedProvenance, Chars(r.instructions),
     Each(r.resources, ManifestValue), Each(r.resources, BodyValue)]
  }

  const REVISION_KEYS: seq<Str> := [
    Ascii("skillId"), Ascii("revision"), Ascii("publishedProvenance"), Ascii("instructions"),
    Ascii("instructionsSha256"), Ascii("resourceManifest"), Ascii("resources"),
    Ascii("bundleSha256")]

  function RevisionValues(r: SkillRevision): (vs: seq<Value>)
    ensures |vs| == |REVISION_KEYS|
  {
    [Chars(r.skillId), Chars(r.revision), r.publishedProvenance, Chars(r.instructions),
     Chars(r.instructionsSha256), Each(r.resources, ManifestValue),
     Each(r.resources, ResourceValue), Chars(r.bundleSha256)]
  }

  function RevisionValue(r: SkillRevision): Value { Obj(Zip(REVISION_KEYS, RevisionValues(r))) }

  // ----- construction and self-check

  datatype Gathered = Gathered(instructions: NormalizedText, resources: seq<VerifiedResource>)

  /** The normalised texts of an input, its resources in the order of their paths. */
  function GatherTexts(p: Platform, input: RevisionInput): Result<Gathered, RevisionError> {
    if !(1 <= |input.resources| <= MAX_RESOURCES) then Failure(BadResourceCount)
    else
      match NormalizeUtf8(p.nfc, input.instructions, MAX_TEXT_BYTES)
      case Failure(_) => Failure(BadText)
      case Success(instructions) =>
        match VerifyResources(p, input.resources)
        case Failure(e) => Failure(e)
        case Success(verified) =>
          var resources := Sort(verified, ByPath(p.collate));
          if !DistinctPaths(resources) then Failure(DuplicatePath)
          else if instructions.byteLength + TotalBytes(resources) > MAX_BUNDLE_CONTENT_BYTES then
            Failure(BundleTooLarge)
          else Success(Gathered(instructions, resources))
  }

  function SealRevision(p: Platform, input: RevisionInput, g: Gathered)
    : Result<SkillRevision, RevisionError>
  {
    var unhashed := SkillRevision(
      input.skillId, input.revision, input.publishedProvenance, g.instructions.text,
      p.sha256Hex(g.instructions.text), g.resources, []);
    match Canonicalize(CanonicalPayload(unhashed))
    case Failure(_) => Failure(NotCanonicalData)
    case Success(text) => Success(unhashed.(bundleSha256 := p.sha256Hex(text)))
  }

  function CreateSkillRevision(p: Platform, input: RevisionInput): Result<SkillRevision, RevisionError> {
    match GatherTexts(p, input)
    case Failure(e) => Failure(e)
    case Success(g) => SealRevision(p, input, g)
  }

  function InputOf(r: SkillRevision): RevisionInput {
    RevisionInput(r.skillId, r.revision, r.publishedProvenance, r.instructions, InputsOf(r.resources))
  }

  function AssertRevisionIntegrity(p: Platform, r: SkillRevision): Result<SkillRevision, RevisionError> {
    match CreateSkillRevision(p, InputOf(r))
    case Failure(e) => Failure(e)
    case Success(reconstructed) =>
      match (Canonicalize(RevisionValue(reconstructed)), Canonicalize(RevisionValue(r)))
      case (Success(a), Success(b)) => if a == b then Success(r) else Failure(IntegrityFailed)
      case _ => Failure(NotCanonicalData)
  }

  // ----- one pass reaches the fixed point

  lemma {:induction false} VerifyResourcesPointwise(
      p: Platform, inputs: seq<ResourceInput>, rs: seq<VerifiedResource>)
    ensures VerifyResources(p, inputs) == Success(rs)
       <==> |rs| == |inputs|
            && forall i :: 0 <= i < |inputs| ==> VerifyResource(p, inputs[i]) == Success(rs[i])
  {
    if inputs != [] && rs != [] {
      VerifyResourcesPointwise(p, inputs[1..], rs[1..]);
      assert rs == [rs[0]] + rs[1..];
    }
  }

  /** Verifying a verified resource again gives it back, unless it still starts with a mark. */
  lemma {:induction false} VerifyResourceAgain(p: Platform, input: ResourceInput)
    requires p.Lawful() && VerifyResource(p, input).Success?
    ensures var r := VerifyResource(p, input).value;
            var again := VerifyResource(p, ResourceInput(r.path, r.mediaType, r.content));
            && (LeadingBoms(input.content) <= 2 ==> again == Success(r))
            && (LeadingBoms(input.content) > 2 && again.Success? ==> again.value.content != r.content)
            && r.byteLength <= MAX_TEXT_BYTES
  {
    NormalizeFixedPoint(p.nfc, input.content, MAX_TEXT_BYTES);
  }

  /** Whether no text of an input starts with three byte-order marks. */
  predicate FewBoms(input: RevisionInput) {
    && LeadingBoms(input.instructions) <= 2
    && forall i :: 0 <= i < |input.resources| ==> LeadingBoms(input.resources[i].content) <= 2
  }

  lemma {:induction false} KeysAreDistinct()
    ensures AllDistinct(MANIFEST_KEYS) && AllDistinct(RESOURCE_KEYS) && AllDistinct(BODY_KEYS)
    ensures AllDistinct(PAYLOAD_KEYS) && AllDistinct(REVISION_KEYS)
  {
    assert PAYLOAD_KEYS[2][2] == 'v' as int && REVISION_KEYS[1][2] == 'v' as int;
    assert PAYLOAD_KEYS[4][0] == 'i' as int && REVISION_KEYS[3][0] == 'i' as int;
    assert REVISION_KEYS[7][0] == 'b' as int;
  }

  // ----- records of resources

  lemma {:induction false} ManifestRecord(r: VerifiedResource)
    ensures WellFormed(ManifestValue(r))
    ensures Printable(ManifestValue(r)) <==> r.byteLength <= MAX_SAFE_INTEGER
  {
    KeysAreDistinct();
    var vs := ManifestValues(r);
    RecordWellFormedPrintable(MANIFEST_KEYS, vs);
    assert Printable(vs[2]) <==> r.byteLength <= MAX_SAFE_INTEGER;
  }

  lemma {:induction false} ResourceRecord(r: VerifiedResource)
    ensures WellFormed(ResourceValue(r))
    ensures Printable(ResourceValue(r)) <==> r.byteLength <= MAX_SAFE_INTEGER
  {
    KeysAreDistinct();
    var vs := ManifestValues(r) + [Chars(r.content)];
    RecordWellFormedPrintable(RESOURCE_KEYS, vs);
    assert Printable(vs[2]) <==> r.byteLength <= MAX_SAFE_INTEGER;
  }

  /** The manifest of a resource tells all of it but the content. */
  lemma {:induction false} SameManifest(a: VerifiedResource, b: VerifiedResource)
    ensures (forall i :: 0 <= i < |MANIFEST_KEYS| ==> SameValue(ManifestValues(a)[i], ManifestValues(b)[i]))
       <==> a.(content := b.content) == b
    ensures SameValue(ManifestValue(a), ManifestValue(b)) <==> a.(content := b.content) == b
  {
    hide SameValue;
    KeysAreDistinct();
    var vs, ws := ManifestValues(a), ManifestValues(b);
    SameRecordSameValues(MANIFEST_KEYS, vs, ws);
    assert |MediaText(Markdown)| != |MediaText(PlainText)|;
    SameScalar(vs[0], ws[0]);
    SameScalar(vs[1], ws[1]);
    SameScalar(vs[2], ws[2]);
    SameScalar(vs[3], ws[3]);
    hide MediaText;
    assert (forall i :: 0 <= i < |vs| ==> SameValue(vs[i], ws[i]))
      <==> SameValue(vs[0], ws[0]) && SameValue(vs[1], ws[1]) && SameValue(vs[2], ws[2]) && SameValue(vs[3], ws[3]);
  }

  /** A record of a resource tells all of it. */
  lemma {:induction false} SameResource(a: VerifiedResource, b: VerifiedResource)
    ensures SameValue(ResourceValue(a), ResourceValue(b)) <==> a == b
  {
    hide SameValue, ManifestValues;
    KeysAreDistinct();
    var vs, ws := ManifestValues(a) + [Chars(a.content)], ManifestValues(b) + [Chars(b.content)];
    SameRecordSameValues(RESOURCE_KEYS, vs, ws);
    SameManifest(a, b);
    SameScalar(Chars(a.content), Chars(b.content));
    assert vs[..4] == ManifestValues(a) && ws[..4] == ManifestValues(b);
    assert forall i :: 0 <= i < 4 ==> vs[i] == ManifestValues(a)[i] && ws[i] == ManifestValues(b)[i];
    assert vs[4] == Chars(a.content) && ws[4] == Chars(b.content);
  }

  lemma {:induction false} SameResourceLists(a: seq<VerifiedResource>, b: seq<VerifiedResource>)
    ensures SameValue(Each(a, ResourceValue), Each(b, ResourceValue)) <==> a == b
  {
    hide ResourceValue;
    var xs, ys := Each(a, ResourceValue).items, Each(b, ResourceValue).items;
    forall i | 0 <= i < |a| && i < |b|
      ensures SameValue(xs[i], ys[i]) <==> a[i] == b[i]
    {
      SameResource(a[i], b[i]);
    }
    SameItems(xs, ys);
  }

  predicate SmallResources(resources: seq<VerifiedResource>) {
    forall i :: 0 <= i < |resources| ==> resources[i].byteLength <= MAX_SAFE_INTEGER
  }

  lemma {:induction false} ResourceListRecord(resources: seq<VerifiedResource>)
    ensures WellFormed(Each(resources, ManifestValue)) && WellFormed(Each(resources, ResourceValue))
    ensures SmallResources(resources) ==>
              Printable(Each(resources, ManifestValue)) && Printable(Each(resources, ResourceValue))
  {
    forall i | 0 <= i < |resources|
      ensures WellFormed(ManifestValue(resources[i])) && WellFormed(ResourceValue(resources[i]))
      ensures SmallResources(resources) ==>
                Printable(ManifestValue(resources[i])) && Printable(ResourceValue(resources[i]))
    {
      ManifestRecord(resources[i]);
      ResourceRecord(resources[i]);
    }
  }

  lemma {:induction false} RevisionWellFormed(r: SkillRevision)
    requires WellFormed(r.publishedProvenance)
    ensures WellFormed(RevisionValue(r))
  {
    hide Each, Zip, WellFormed, Printable;
    KeysAreDistinct();
    ResourceListRecord(r.resources);
    var vs := RevisionValues(r);
    RecordWellFormedPrintable(REVISION_KEYS, vs);
    assert vs[2] == r.publishedProvenance;
    forall i | 0 <= i < |vs|
      ensures WellFormed(vs[i])
    {
      if i != 2 && i != 5 && i != 6 {
        CharsArePlain(vs[i]);
      }
    }
  }

  lemma {:induction false} RevisionRecord(r: SkillRevision)
    requires WellFormed(r.publishedProvenance) && SmallResources(r.resources)
    ensures WellFormed(RevisionValue(r))
    ensures Printable(RevisionValue(r)) <==> Printable(r.publishedProvenance)
  {
    hide Each, Zip, SmallResources, WellFormed, Printable;
    KeysAreDistinct();
    ResourceListRecord(r.resources);
    var vs := RevisionValues(r);
    RecordWellFormedPrintable(REVISION_KEYS, vs);
    assert vs[2] == r.publishedProvenance;
    forall i | 0 <= i < |vs|
      ensures WellFormed(vs[i])
      ensures i != 2 ==> Printable(vs[i])
    {
      if i != 2 && i != 5 && i != 6 {
        CharsArePlain(vs[i]);
      }
    }
  }

  lemma {:induction false} CharsArePlain(v: Value)
    requires v.Chars?
    ensures WellFormed(v) && Printable(v)
  {}

  /** Records of revisions tell all of them, provenance up to the order of keys. */
  lemma {:induction false} SameRevision(a: SkillRevision, b: SkillRevision)
    ensures SameValue(RevisionValue(a), RevisionValue(b))
       <==> && a.(publishedProvenance := b.publishedProvenance) == b
            && SameValue(a.publishedProvenance, b.publishedProvenance)
  {
    hide Each, Zip, SameValue;
    KeysAreDistinct();
    var vs, ws := RevisionValues(a), RevisionValues(b);
    SameRecordSameValues(REVISION_KEYS, vs, ws);
    SameResourceLists(a.resources, b.resources);
    forall i | i in {0, 1, 3, 4, 7}
      ensures SameValue(vs[i], ws[i]) <==> vs[i] == ws[i]
    {
      SameScalar(vs[i], ws[i]);
    }
    SameToItself(vs[5]);
    assert (forall i :: 0 <= i < |vs| ==> SameValue(vs[i], ws[i])) ==>
             SameValue(vs[0], ws[0]) && SameValue(vs[1], ws[1]) && SameValue(vs[2], ws[2]) && SameValue(vs[3], ws[3])
             && SameValue(vs[4], ws[4]) && SameValue(vs[6], ws[6]) && SameValue(vs[7], ws[7]);
  }

  // ----- the self-check, exactly

  lemma {:induction false} ByPathTotal(collate: (Str, Str) -> bool)
    requires TotalPreorder(collate)
    ensures TotalPreorder(ByPath(collate))
  {
    var order := ByPath(collate);
    forall a, b
      ensures order(a, b) || order(b, a)
    {
      assert collate(a.path, b.path) || collate(b.path, a.path);
    }
    forall a, b, c | order(a, b) && order(b, c)
      ensures order(a, c)
    {
      assert collate(a.path, b.path) && collate(b.path, c.path);
    }
  }

  /** The resource was verified from one of the inputs. */
  ghost predicate ComesFrom(p: Platform, inputs: seq<ResourceInput>, r: VerifiedResource) {
    exists i :: 0 <= i < |inputs| && VerifyResource(p, inputs[i]) == Success(r)
  }

  /** Some of the resources was verified from this input. */
  ghost predicate GoesTo(p: Platform, input: ResourceInput, rs: seq<VerifiedResource>) {
    exists k :: 0 <= k < |rs| && VerifyResource(p, input) == Success(rs[k])
  }

  lemma {:induction false} SortedOrigins(
      p: Platform, inputs: seq<ResourceInput>, verified: seq<VerifiedResource>)
    requires TotalPreorder(p.collate)
    requires VerifyResources(p, inputs) == Success(verified)
    ensures var rs := Sort(verified, ByPath(p.collate));
            && Sorted(rs, ByPath(p.collate)) && |rs| == |inputs|
            && (forall k :: 0 <= k < |rs| ==> ComesFrom(p, inputs, rs[k]))
            && (forall i :: 0 <= i < |inputs| ==> GoesTo(p, inputs[i], rs))
  {
    var order := ByPath(p.collate);
    var rs := Sort(verified, order);
    VerifyResourcesPointwise(p, inputs, verified);
    ByPathTotal(p.collate);
    SortSorted(verified, order);
    SortPermutes(verified, order);
    SortMembers(verified, order);
    forall k | 0 <= k < |rs|
      ensures ComesFrom(p, inputs, rs[k])
    {
      assert rs[k] in verified;
      var i :| 0 <= i < |verified| && verified[i] == rs[k];
      assert VerifyResource(p, inputs[i]) == Success(rs[k]);
    }
    forall i | 0 <= i < |inputs|
      ensures GoesTo(p, inputs[i], rs)
    {
      assert verified[i] in rs;
      var k :| 0 <= k < |rs| && rs[k] == verified[i];
      assert VerifyResource(p, inputs[i]) == Success(rs[k]);
    }
  }

  /** The gathered resources are the verified inputs, sorted by path and small. */
  lemma {:induction false} GatheredResources(p: Platform, input: RevisionInput)
    requires p.Lawful() && GatherTexts(p, input).Success?
    ensures var rs := GatherTexts(p, input).value.resources;
            && Sorted(rs, ByPath(p.collate)) && |rs| == |input.resources|
            && (forall k :: 0 <= k < |rs| ==> ComesFrom(p, input.resources, rs[k]))
            && (forall i :: 0 <= i < |input.resources| ==> GoesTo(p, input.resources[i], rs))
            && SmallResources(rs)
  {
    var rs := GatherTexts(p, input).value.resources;
    SortedOrigins(p, input.resources, VerifyResources(p, input.resources).value);
    forall k | 0 <= k < |rs|
      ensures rs[k].byteLength <= MAX_SAFE_INTEGER
    {
      assert ComesFrom(p, input.resources, rs[k]);
      var i :| 0 <= i < |input.resources| && VerifyResource(p, input.resources[i]) == Success(rs[k]);
      VerifyResourceAgain(p, input.resources[i]);
    }
  }

  /** What sealing takes over from its input, and that it seals JSON data only. */
  lemma {:induction false} Sealed(p: Platform, input: RevisionInput, g: Gathered)
    requires SealRevision(p, input, g).Success?
    ensures var r := SealRevision(p, input, g).value;
            && r.skillId == input.skillId && r.revision == input.revision
            && r.publishedProvenance == input.publishedProvenance
            && r.instructions == g.instructions.text && r.resources == g.resources
    ensures WellFormed(input.publishedProvenance) ==> Printable(input.publishedProvenance)
  {
    var r := SealRevision(p, input, g).value.(bundleSha256 := []);
    if WellFormed(input.publishedProvenance) {
      PayloadPrintable(r);
    }
  }

  lemma {:induction false} PayloadPrintable(r: SkillRevision)
    requires WellFormed(r.publishedProvenance)
    requires Canonicalize(CanonicalPayload(r)).Success?
    ensures Printable(r.publishedProvenance)
  {
    KeysAreDistinct();
    ResourceListRecord(r.resources);
    BodiesWellFormed(r.resources);
    var vs := PayloadValues(r);
    CanonicalRecordPrintable(PAYLOAD_KEYS, vs);
    assert Printable(vs[3]);
  }

  lemma {:induction false} BodiesWellFormed(resources: seq<VerifiedResource>)
    ensures WellFormed(Each(resources, BodyValue))
  {
    KeysAreDistinct();
    forall i | 0 <= i < |resources|
      ensures WellFormed(BodyValue(resources[i]))
    {
      RecordWellFormedPrintable(BODY_KEYS, [Chars(resources[i].path), Chars(resources[i].content)]);
    }
  }

  /** With at most two marks everywhere, gathering the texts again gives the same texts. */
  lemma {:induction false} GathersItself(p: Platform, input: RevisionInput, again: RevisionInput)
    requires p.Lawful() && GatherTexts(p, input).Success? && FewBoms(input)
    requires again.instructions == GatherTexts(p, input).value.instructions.text
    requires again.resources == InputsOf(GatherTexts(p, input).value.resources)
    ensures GatherTexts(p, again) == GatherTexts(p, input)
  {
    var rs := GatherTexts(p, input).value.resources;
    GatheredResources(p, input);
    NormalizeFixedPoint(p.nfc, input.instructions, MAX_TEXT_BYTES);
    forall k | 0 <= k < |rs|
      ensures VerifyResource(p, again.resources[k]) == Success(rs[k])
    {
      assert ComesFrom(p, input.resources, rs[k]);
      var i :| 0 <= i < |input.resources| && VerifyResource(p, input.resources[i]) == Success(rs[k]);
      VerifyResourceAgain(p, input.resources[i]);
    }
    VerifyResourcesPointwise(p, again.resources, rs);
    SortFixed(rs, ByPath(p.collate));
  }

  /** With a third mark somewhere, gathering the texts again fails or changes a text. */
  lemma {:induction false} GathersOther(p: Platform, input: RevisionInput, again: RevisionInput)
    requires p.Lawful() && GatherTexts(p, input).Success? && !FewBoms(input)
    requires again.instructions == GatherTexts(p, input).value.instructions.text
    requires again.resources == InputsOf(GatherTexts(p, input).value.resources)
    requires GatherTexts(p, again).Success?
    ensures var g, h := GatherTexts(p, input).value, GatherTexts(p, again).value;
            || g.instructions.text != h.instructions.text
            || exists k :: 0 <= k < |g.resources| && k < |h.resources|
                           && g.resources[k].content != h.resources[k].content
  {
    if LeadingBoms(input.instructions) > 2 {
      NormalizeFixedPoint(p.nfc, input.instructions, MAX_TEXT_BYTES);
    } else {
      var i :| 0 <= i < |input.resources| && LeadingBoms(input.resources[i].content) > 2;
      var rs := GatherTexts(p, input).value.resources;
      GatheredResources(p, input);
      assert GoesTo(p, input.resources[i], rs);
      var verified := VerifyResources(p, again.resources).value;
      ResourceChanges(p, input.resources[i], rs, verified);
    }
  }

  lemma {:induction false} ResourceChanges(
      p: Platform, input: ResourceInput, rs: seq<VerifiedResource>, verified: seq<VerifiedResource>)
    requires p.Lawful() && LeadingBoms(input.content) > 2
    requires GoesTo(p, input, rs) && Sorted(rs, ByPath(p.collate))
    requires VerifyResources(p, InputsOf(rs)) == Success(verified)
    ensures |verified| == |rs| && Sort(verified, ByPath(p.collate)) == verified
    ensures exists k :: 0 <= k < |rs| && rs[k].content != verified[k].content
  {
    VerifyResourcesPointwise(p, InputsOf(rs), verified);
    forall k | 0 <= k < |rs|
      ensures verified[k].path == rs[k].path
    {
      assert VerifyResource(p, InputsOf(rs)[k]) == Success(verified[k]);
    }
    SamePathsSorted(verified, rs, p.collate);
    SortFixed(verified, ByPath(p.collate));
    var k :| 0 <= k < |rs| && VerifyResource(p, input) == Success(rs[k]);
    VerifyResourceAgain(p, input);
    assert VerifyResource(p, InputsOf(rs)[k]) == Success(verified[k]);
  }

  lemma {:induction false} SamePathsSorted(
      a: seq<VerifiedResource>, b: seq<VerifiedResource>, collate: (Str, Str) -> bool)
    requires |a| == |b| && forall i :: 0 <= i < |a| ==> a[i].path == b[i].path
    requires Sorted(b, ByPath(collate))
    ensures Sorted(a, ByPath(collate))
  {
    forall i, j | 0 <= i < j < |a|
      ensures ByPath(collate)(a[i], a[j])
    {
      assert ByPath(collate)(b[i], b[j]);
    }
  }

  /** A revision passes the integrity check exactly when it is, field by field, the revision that its
      own texts give. */
  lemma {:induction false} IntegrityMeans(p: Platform, r: SkillRevision)
    requires p.Lawful() && WellFormed(r.publishedProvenance)
    ensures AssertRevisionIntegrity(p, r).Success? <==> CreateSkillRevision(p, InputOf(r)) == Success(r)
  {
    hide Printable, WellFormed, SameValue, Canonicalize, RevisionValue, Platform.Lawful;
    var again := InputOf(r);
    if CreateSkillRevision(p, again).Success? {
      var other := CreateSkillRevision(p, again).value;
      Sealed(p, again, GatherTexts(p, again).value);
      GatheredResources(p, again);
      RevisionRecord(other);
      CanonicalizeRoundTrip(RevisionValue(other));
      SameRevision(other, r);
      if other == r {
        SameToItself(r.publishedProvenance);
      } else if Canonicalize(RevisionValue(r)).Success? {
        RevisionWellFormed(r);
        CanonicalizeInjective(RevisionValue(other), RevisionValue(r));
      }
    }
  }

  /** A newly created revision passes its own integrity check exactly when no text it was created
      from starts with three byte-order marks. */
  lemma {:induction false} IntegrityExact(p: Platform, input: RevisionInput)
    requires p.Lawful() && WellFormed(input.publishedProvenance)
    requires CreateSkillRevision(p, input).Success?
    ensures AssertRevisionIntegrity(p, CreateSkillRevision(p, input).value).Success?
       <==> FewBoms(input)
  {
    hide WellFormed, Printable, RevisionValue, Platform.Lawful;
    var g := GatherTexts(p, input).value;
    var r := CreateSkillRevision(p, input).value;
    var again := InputOf(r);
    Sealed(p, input, g);
    IntegrityMeans(p, r);
    if FewBoms(input) {
      GathersItself(p, input, again);
    } else if CreateSkillRevision(p, again).Success? {
      GathersOther(p, input, again);
      Sealed(p, again, GatherTexts(p, again).value);
    }
  }
}
