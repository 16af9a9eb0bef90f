/** Imported revisions: construction from a skill and its provenance, and their self-check. */
module CanonicalRevisionV2 {
  import opened Text
  import opened CanonicalJson
  import opened JsonParser
  import opened StableSort
  import opened TextNormalization
  import opened CanonicalRevision
  import opened ExternalCatalog

  const MAX_DEPENDENCIES := 32
  const MAX_BUNDLE_BYTES := 2 * 1024 * 1024

  datatype ExternalInput = ExternalInput(skillId: Str, provenance: Provenance, skill: ImportedSkill)

  datatype ExternalRevision = ExternalRevision(
    skillId: Str,
    revision: Str,
    name: Str,
    description: Str,
    provenance: Provenance,
    invocationMode: InvocationMode,
    instructions: Str,
    instructionsSha256: Str,
    resources: seq<VerifiedResource>,
    dependencies: seq<Dependency>,
    contentIdentitySha256: Str,
    bundleSha256: Str,
    canonicalBytes: Str)

  predicate DistinctNames(dependencies: seq<Dependency>) {
    forall i, j :: 0 <= i < j < |dependencies| ==>
      dependencies[i].skillName != dependencies[j].skillName
  }

  predicate BadSha(o: Optional) { o.Present? && !IsHex(o.text, 40) }

  // ----- normalised texts

  datatype ExternalTexts = ExternalTexts(
    instructions: NormalizedText,
    license: NormalizedText,
    notice: Option<NormalizedText>,
    resources: seq<VerifiedResource>,
    dependencies: seq<Dependency>)

  function NormalizeNotice(p: Platform, notice: Optional): Result<Option<NormalizedText>, TextError> {
    match notice
    case Present(text) =>
      (match NormalizeUtf8(p.nfc, text, MAX_TEXT_BYTES)
       case Failure(e) => Failure(e)
       case Success(n) => Success(Some(n)))
    case _ => Success(None)
  }

  /** The checks and normalisations before anything is hashed, in their order. */
  function GatherExternal(p: Platform, input: ExternalInput): Result<ExternalTexts, ImportError> {
    if !IsHex(input.provenance.commitSha, 40) then Failure(InvalidGitSha)
    else if input.provenance.repositoryId <= 0 then Failure(InvalidRepositoryId)
    else if input.provenance.spdxLicenseId == [] then Failure(LicenseMissingError)
    else if |input.skill.resources| > MAX_RESOURCES then Failure(ResourceOversizedError)
    else if |input.skill.dependencies| > MAX_DEPENDENCIES then Failure(DependencyOversized)
    else
      match (NormalizeUtf8(p.nfc, input.skill.instructions, MAX_TEXT_BYTES),
             NormalizeUtf8(p.nfc, input.provenance.licenseText, MAX_TEXT_BYTES),
             NormalizeNotice(p, input.provenance.noticeText))
      case (Success(instructions), Success(license), Success(notice)) =>
        (match VerifyResources(p, input.skill.resources)
         case Failure(UnsafePath) => Failure(UnsafeResourcePath)
         case Failure(_) => Failure(BadTextError)
         case Success(verified) =>
           var resources := Sort(verified, ByPath(p.collate));
           var dependencies := Sort(input.skill.dependencies, BySkillName(p.collate));
           if !DistinctPaths(resources) then Failure(DuplicateResource)
           else if !DistinctNames(dependencies) then Failure(DuplicateDependency)
           else if BadSha(input.provenance.licenseBlobSha) || BadSha(input.provenance.noticeBlobSha)
           then Failure(InvalidGitSha)
           else Success(ExternalTexts(instructions, license, notice, resources, dependencies)))
      case _ => Failure(BadTextError)
  }

  // ----- records

  function OptionalValue(o: Optional): Option<Value> {
    match o
    case Absent => None
    case ExplicitUndefined => Some(Undefined)
    case Present(text) => Some(Chars(text))
  }

  /** Spreading an optional only when it is defined. */
  function DefinedValue(o: Optional): Option<Value> {
    if o.Present? then Some(Chars(o.text)) else None
  }

  const DEPENDENCY_KEYS: seq<Str> := [
    Ascii("skillName"), Ascii("targetSkillId"), Ascii("targetRevision"), Ascii("required"),
    Ascii("evidenceKind"), Ascii("evidenceLocator")]

  function DependencyValues(d: Dependency): (r: seq<Option<Value>>)
    ensures |r| == |DEPENDENCY_KEYS|
  {
    [Some(Chars(d.skillName)), OptionalValue(d.targetSkillId), OptionalValue(d.targetRevision),
     Some(Bool(d.required)), Some(Chars(EvidenceText(d.evidenceKind))), Some(Chars(d.evidenceLocator))]
  }

  function DependencyValue(d: Dependency): Value { Obj(Listed(DEPENDENCY_KEYS, DependencyValues(d))) }

  function DependenciesValue(ds: seq<Dependency>): Value {
    Arr(seq(|ds|, i requires 0 <= i < |ds| => DependencyValue(ds[i])))
  }

  const SOURCE_KEYS: seq<Str> := [
    Ascii("provider"), Ascii("repositoryId"), Ascii("skillPath"), Ascii("sourceOwner"),
    Ascii("spdxLicenseId"), Ascii("licenseSha256"), Ascii("licenseEvidencePath"),
    Ascii("licenseBlobSha"), Ascii("skillDeclaredSpdxId"), Ascii("noticeSha256"),
    Ascii("noticeEvidencePath"), Ascii("noticeBlobSha")]

  function SourceValues(p: Platform, v: Provenance, t: ExternalTexts): (r: seq<Option<Value>>)
    ensures |r| == |SOURCE_KEYS|
  {
    [Some(Chars(Ascii("github"))), Some(Num(v.repositoryId)), Some(Chars(v.skillPath)),
     Some(Chars(v.sourceOwner)), Some(Chars(v.spdxLicenseId)),
     Some(Chars(p.sha256Hex(t.license.text))), DefinedValue(v.licenseEvidencePath),
     DefinedValue(v.licenseBlobSha), DefinedValue(v.skillDeclaredSpdxId),
     if t.notice.Some? then Some(Chars(p.sha256Hex(t.notice.value.text))) else None,
     DefinedValue(v.noticeEvidencePath), DefinedValue(v.noticeBlobSha)]
  }

  const CONTENT_KEYS: seq<Str> := [
    Ascii("schemaVersion"), Ascii("trustAtPublication"), Ascii("skillId"), Ascii("name"),
    Ascii("description"), Ascii("invocationMode"), Ascii("instructions"), Ascii("resources"),
    Ascii("dependencies"), Ascii("source")]

  function ContentValues(input: ExternalInput, t: ExternalTexts, source: Value): (r: seq<Value>)
    ensures |r| == |CONTENT_KEYS|
  {
    [Num(2), Chars(Ascii("structurally-verified")), Chars(input.skillId), Chars(input.skill.name),
     Chars(input.skill.description), Chars(ModeText(input.skill.invocationMode)),
     Chars(t.instructions.text), Each(t.resources, ResourceValue),
     DependenciesValue(t.dependencies), source]
  }

  /** What identifies the content: everything but the owner, repository name and commit. */
  function ImmutableContent(p: Platform, input: ExternalInput, t: ExternalTexts): Value {
    Obj(Zip(CONTENT_KEYS,
            ContentValues(input, t, Obj(Listed(SOURCE_KEYS, SourceValues(p, input.provenance, t))))))
  }

  const BUNDLE_SOURCE_KEYS: seq<Str> :=
    SOURCE_KEYS + [Ascii("owner"), Ascii("repository"), Ascii("commitSha")]

  const BUNDLE_KEYS: seq<Str> := CONTENT_KEYS + [Ascii("licenseText"), Ascii("noticeText")]

  function Given(values: seq<Value>): (r: seq<Option<Value>>)
    ensures |r| == |values|
    ensures forall i :: 0 <= i < |values| ==> r[i] == Some(values[i])
  {
    seq(|values|, i requires 0 <= i < |values| => Some(values[i]))
  }

  function BundleSourceValues(p: Platform, v: Provenance, t: ExternalTexts): (r: seq<Option<Value>>)
    ensures |r| == |BUNDLE_SOURCE_KEYS|
  {
    SourceValues(p, v, t) + [Some(Chars(v.owner)), Some(Chars(v.repository)), Some(Chars(v.commitSha))]
  }

  function BundleValues(input: ExternalInput, t: ExternalTexts, source: Value): (r: seq<Option<Value>>)
    ensures |r| == |BUNDLE_KEYS|
  {
    Given(ContentValues(input, t, source))
    + [Some(Chars(t.license.text)), if t.notice.Some? then Some(Chars(t.notice.value.text)) else None]
  }

  function BundlePayload(p: Platform, input: ExternalInput, t: ExternalTexts): Value {
    var source := Obj(Listed(BUNDLE_SOURCE_KEYS, BundleSourceValues(p, input.provenance, t)));
    Obj(Listed(BUNDLE_KEYS, BundleValues(input, t, source)))
  }

  const PROVENANCE_KEYS: seq<Str> := [
    Ascii("provider"), Ascii("repositoryId"), Ascii("owner"), Ascii("repository"),
    Ascii("commitSha"), Ascii("skillPath"), Ascii("sourceOwner"), Ascii("spdxLicenseId"),
    Ascii("licenseText"), Ascii("licenseEvidencePath"), Ascii("licenseBlobSha"),
    Ascii("skillDeclaredSpdxId"), Ascii("noticeText"), Ascii("noticeEvidencePath"),
    Ascii("noticeBlobSha")]

  function ProvenanceValues(v: Provenance): (r: seq<Option<Value>>)
    ensures |r| == |PROVENANCE_KEYS|
  {
    [Some(Chars(Ascii("github"))), Some(Num(v.repositoryId)), Some(Chars(v.owner)),
     Some(Chars(v.repository)), Some(Chars(v.commitSha)), Some(Chars(v.skillPath)),
     Some(Chars(v.sourceOwner)), Some(Chars(v.spdxLicenseId)), Some(Chars(v.licenseText)),
     OptionalValue(v.licenseEvidencePath), OptionalValue(v.licenseBlobSha),
     OptionalValue(v.skillDeclaredSpdxId), OptionalValue(v.noticeText),
     OptionalValue(v.noticeEvidencePath), OptionalValue(v.noticeBlobSha)]
  }

  function ProvenanceValue(v: Provenance): Value {
    Obj(Listed(PROVENANCE_KEYS, ProvenanceValues(v)))
  }

  const REVISION_V2_KEYS: seq<Str> := [
    Ascii("schemaVersion"), Ascii("trustAtPublication"), Ascii("skillId"), Ascii("revision"),
    Ascii("name"), Ascii("description"), Ascii("provenance"), Ascii("invocationMode"),
    Ascii("instructions"), Ascii("instructionsSha256"), Ascii("resources"), Ascii("dependencies"),
    Ascii("contentIdentitySha256"), Ascii("bundleSha256"), Ascii("canonicalBytes")]

  function RevisionV2Values(r: ExternalRevision): (vs: seq<Value>)
    ensures |vs| == |REVISION_V2_KEYS|
  {
    [Num(2), Chars(Ascii("structurally-verified")), Chars(r.skillId), Chars(r.revision),
     Chars(r.name), Chars(r.description), ProvenanceValue(r.provenance),
     Chars(ModeText(r.invocationMode)), Chars(r.instructions), Chars(r.instructionsSha256),
     Each(r.resources, ResourceValue), DependenciesValue(r.dependencies),
     Chars(r.contentIdentitySha256), Chars(r.bundleSha256), Chars(r.canonicalBytes)]
  }

  function RevisionV2Value(r: ExternalRevision): Value {
    Obj(Zip(REVISION_V2_KEYS, RevisionV2Values(r)))
  }

  // ----- construction and self-check

  /** The provenance a revision carries: texts normalised, everything else as given. */
  function StoredProvenance(v: Provenance, t: ExternalTexts): Provenance {
    var w := v.(licenseText := t.license.text);
    if t.notice.Some? then w.(noticeText := Present(t.notice.value.text)) else w
  }

  function SealExternal(p: Platform, input: ExternalInput, t: ExternalTexts)
    : Result<ExternalRevision, ImportError>
  {
    match (Canonicalize(ImmutableContent(p, input, t)), Canonicalize(BundlePayload(p, input, t)))
    case (Success(identity), Success(bytes)) =>
      if Utf8Length(bytes) > MAX_BUNDLE_BYTES then Failure(BundleOversizedError)
      else
        Success(ExternalRevision(
          input.skillId, Ascii("gh-") + p.sha256Hex(bytes), input.skill.name,
          input.skill.description, StoredProvenance(input.provenance, t),
          input.skill.invocationMode, t.instructions.text, p.sha256Hex(t.instructions.text),
          t.resources, t.dependencies, p.sha256Hex(identity), p.sha256Hex(bytes), bytes))
    case _ => Failure(NotCanonicalError)
  }

  function CreateExternalSkillRevision(p: Platform, input: ExternalInput)
    : Result<ExternalRevision, ImportError>
  {
    match GatherExternal(p, input)
    case Failure(e) => Failure(e)
    case Success(t) => SealExternal(p, input, t)
  }

  function ExternalInputOf(r: ExternalRevision): ExternalInput {
    ExternalInput(r.skillId, r.provenance,
      ImportedSkill(r.name, r.description, r.instructions, r.invocationMode,
                    InputsOf(r.resources), r.dependencies))
  }

  function AssertExternalRevisionIntegrity(p: Platform, r: ExternalRevision)
    : Result<ExternalRevision, ImportError>
  {
    match CreateExternalSkillRevision(p, ExternalInputOf(r))
    case Failure(e) => Failure(e)
    case Success(reconstructed) =>
      match (Canonicalize(RevisionV2Value(reconstructed)), Canonicalize(RevisionV2Value(r)))
      case (Success(a), Success(b)) => if a == b then Success(r) else Failure(IntegrityFailedError)
      case _ => Failure(NotCanonicalError)
  }

  /** A created revision keeps its name and exactly its dependencies, sorted. */
  lemma {:induction false} CreatedKeepsDependencies(p: Platform, input: ExternalInput)
    requires CreateExternalSkillRevision(p, input).Success?
    ensures var r := CreateExternalSkillRevision(p, input).value;
            && r.skillId == input.skillId && r.name == input.skill.name
            && forall d :: d in r.dependencies <==> d in input.skill.dependencies
  {
    hide NormalizeUtf8, Canonicalize, VerifyResources, Sort, DistinctPaths, DistinctNames, IsHex;
    SortMembers(input.skill.dependencies, BySkillName(p.collate));
  }

  // ----- the self-check, exactly

  predicate NoUndefined(v: Provenance) {
    && !v.licenseEvidencePath.ExplicitUndefined? && !v.licenseBlobSha.ExplicitUndefined?
    && !v.skillDeclaredSpdxId.ExplicitUndefined? && !v.noticeText.ExplicitUndefined?
    && !v.noticeEvidencePath.ExplicitUndefined? && !v.noticeBlobSha.ExplicitUndefined?
  }

  /** Whether no text of an input starts with three byte-order marks. */
  predicate FewExternalBoms(input: ExternalInput) {
    && LeadingBoms(input.skill.instructions) <= 2
    && LeadingBoms(input.provenance.licenseText) <= 2
    && (input.provenance.noticeText.Present? ==> LeadingBoms(input.provenance.noticeText.text) <= 2)
    && forall i :: 0 <= i < |input.skill.resources| ==>
         LeadingBoms(input.skill.resources[i].content) <= 2
  }

  // Keys of equal length differ in their first letter.

  lemma {:induction false} ContentKeysDistinct()
    ensures AllDistinct(DEPENDENCY_KEYS) && AllDistinct(CONTENT_KEYS)
  {
    var k := CONTENT_KEYS;
    assert k[6][0] == 'i' as int && k[8][0] == 'd' as int;
  }

  lemma {:induction false} SourceKeysDistinct()
    ensures AllDistinct(SOURCE_KEYS)
  {
    var k := SOURCE_KEYS;
    assert k[1][0] == 'r' as int && k[9][0] == 'n' as int;
    assert k[4][0] == 's' as int && k[5][0] == 'l' as int && k[11][0] == 'n' as int;
    assert k[6][0] == 'l' as int && k[8][0] == 's' as int;
  }

  lemma {:induction false} ProvenanceKeysDistinct()
    ensures AllDistinct(PROVENANCE_KEYS)
  {
    var k := PROVENANCE_KEYS;
    assert k[3][0] == 'r' as int && k[12][0] == 'n' as int;
    assert k[4][0] == 'c' as int && k[5][0] == 's' as int;
    assert k[6][0] == 's' as int && k[8][0] == 'l' as int;
    assert k[7][0] == 's' as int && k[14][0] == 'n' as int;
    assert k[9][0] == 'l' as int && k[11][0] == 's' as int;
  }

  lemma {:induction false} RevisionV2KeysDistinct()
    ensures AllDistinct(REVISION_V2_KEYS)
  {
    var k := REVISION_V2_KEYS;
    assert k[1][0] == 't' as int && k[9][0] == 'i' as int;
    assert k[7][0] == 'i' as int && k[14][0] == 'c' as int;
    assert k[8][0] == 'i' as int && k[11][0] == 'd' as int && k[13][0] == 'b' as int;
  }

  // ----- what can be printed

  lemma {:induction false} DependencyRecord(d: Dependency)
    ensures WellFormed(DependencyValue(d))
  {
    ContentKeysDistinct();
    ListedRecord(DEPENDENCY_KEYS, DependencyValues(d));
  }

  lemma {:induction false} DependenciesRecord(ds: seq<Dependency>)
    ensures WellFormed(DependenciesValue(ds))
  {
    forall i | 0 <= i < |ds|
      ensures WellFormed(DependencyValue(ds[i]))
    {
      DependencyRecord(ds[i]);
    }
  }

  /** The identity hash covers the dependencies and the repository number: both are JSON data. */
  lemma {:induction false} ContentPrintable(p: Platform, input: ExternalInput, t: ExternalTexts)
    requires Canonicalize(ImmutableContent(p, input, t)).Success?
    ensures Printable(DependenciesValue(t.dependencies))
    ensures -MAX_SAFE_INTEGER <= input.provenance.repositoryId <= MAX_SAFE_INTEGER
  {
    hide Listed;
    ContentKeysDistinct();
    var source := Obj(Listed(SOURCE_KEYS, SourceValues(p, input.provenance, t)));
    SourceRecord(p, input.provenance, t);
    ResourceListRecord(t.resources);
    DependenciesRecord(t.dependencies);
    var vs := ContentValues(input, t, source);
    CanonicalRecordPrintable(CONTENT_KEYS, vs);
    assert Printable(vs[8]) && Printable(vs[9]);
  }

  lemma {:induction false} SourceRecord(p: Platform, v: Provenance, t: ExternalTexts)
    ensures var source := Obj(Listed(SOURCE_KEYS, SourceValues(p, v, t)));
            && WellFormed(source)
            && (Printable(source) ==> -MAX_SAFE_INTEGER <= v.repositoryId <= MAX_SAFE_INTEGER)
  {
    hide Listed;
    SourceKeysDistinct();
    var sources := SourceValues(p, v, t);
    ListedRecord(SOURCE_KEYS, sources);
    if Printable(Obj(Listed(SOURCE_KEYS, sources))) {
      assert Printable(sources[1].value);
    }
  }

  lemma {:induction false} ProvenanceRecord(v: Provenance)
    ensures WellFormed(ProvenanceValue(v))
    ensures Printable(ProvenanceValue(v))
       <==> NoUndefined(v) && -MAX_SAFE_INTEGER <= v.repositoryId <= MAX_SAFE_INTEGER
  {
    hide Listed, Printable, WellFormed;
    ProvenanceKeysDistinct();
    var vs := ProvenanceValues(v);
    forall i | 0 <= i < |vs| && vs[i].Some?
      ensures WellFormed(vs[i].value)
      ensures Printable(vs[i].value) <==> PlainValue(vs[i].value)
    {
      ScalarPrints(vs[i].value);
    }
    ListedRecord(PROVENANCE_KEYS, vs);
    PlainProvenance(v);
  }

  predicate PlainValue(v: Value) {
    v.Chars? || (v.Num? && -MAX_SAFE_INTEGER <= v.n <= MAX_SAFE_INTEGER)
  }

  lemma {:induction false} ScalarPrints(v: Value)
    requires v.Chars? || v.Num? || v.Undefined?
    ensures WellFormed(v) && (Printable(v) <==> PlainValue(v))
  {}

  lemma {:induction false} PlainProvenance(v: Provenance)
    ensures var vs := ProvenanceValues(v);
            (forall i :: 0 <= i < |vs| && vs[i].Some? ==> PlainValue(vs[i].value))
            <==> NoUndefined(v) && -MAX_SAFE_INTEGER <= v.repositoryId <= MAX_SAFE_INTEGER
  {
    var vs := ProvenanceValues(v);
    assert vs[1] == Some(Num(v.repositoryId));
    assert vs[9] == OptionalValue(v.licenseEvidencePath) && vs[10] == OptionalValue(v.licenseBlobSha);
    assert vs[11] == OptionalValue(v.skillDeclaredSpdxId) && vs[12] == OptionalValue(v.noticeText);
    assert vs[13] == OptionalValue(v.noticeEvidencePath) && vs[14] == OptionalValue(v.noticeBlobSha);
    if NoUndefined(v) && -MAX_SAFE_INTEGER <= v.repositoryId <= MAX_SAFE_INTEGER {
      forall i | 0 <= i < |vs| && vs[i].Some?
        ensures PlainValue(vs[i].value)
      {
        assert i == 1 || vs[i].value.Chars?;
      }
    }
  }

  /** The parts of a revision that are JSON data whenever it was created. */
  predicate SoundParts(r: ExternalRevision) {
    && SmallResources(r.resources)
    && Printable(DependenciesValue(r.dependencies))
    && -MAX_SAFE_INTEGER <= r.provenance.repositoryId <= MAX_SAFE_INTEGER
  }

  lemma {:induction false} RevisionV2WellFormed(r: ExternalRevision)
    ensures WellFormed(RevisionV2Value(r))
  {
    hide ProvenanceValue, DependenciesValue, ResourceValue, ManifestValue;
    var vs := RevisionV2Values(r);
    RevisionV2KeysDistinct();
    ProvenanceRecord(r.provenance);
    ResourceListRecord(r.resources);
    DependenciesRecord(r.dependencies);
    forall i | 0 <= i < |vs|
      ensures WellFormed(vs[i])
    {
      assert i in {6, 10, 11} || vs[i].Chars? || (vs[i].Num? && i == 0);
    }
    RecordWellFormedPrintable(REVISION_V2_KEYS, vs);
  }

  lemma {:induction false} RevisionV2Record(r: ExternalRevision)
    requires SoundParts(r)
    ensures Printable(RevisionV2Value(r)) <==> NoUndefined(r.provenance)
  {
    hide ProvenanceValue, DependenciesValue, ResourceValue, ManifestValue;
    var vs := RevisionV2Values(r);
    RevisionV2KeysDistinct();
    ProvenanceRecord(r.provenance);
    ResourceListRecord(r.resources);
    forall i | 0 <= i < |vs|
      ensures i == 6 || Printable(vs[i])
    {
      assert i in {6, 10, 11} || vs[i].Chars? || (vs[i].Num? && i == 0);
    }
    RecordWellFormedPrintable(REVISION_V2_KEYS, vs);
    assert Printable(vs[6]) <==> NoUndefined(r.provenance);
  }

  // ----- what records tell

  lemma {:induction false} SameDependency(a: Dependency, b: Dependency)
    ensures SameValue(DependencyValue(a), DependencyValue(b)) <==> a == b
  {
    hide Listed, SameValue;
    ContentKeysDistinct();
    var vs, ws := DependencyValues(a), DependencyValues(b);
    SameListed(DEPENDENCY_KEYS, vs, ws);
    forall i | 0 <= i < |vs|
      ensures SameOption(vs[i], ws[i]) <==> vs[i] == ws[i]
    {
      SameScalarOption(vs[i], ws[i]);
    }
    if forall i :: 0 <= i < |vs| ==> vs[i] == ws[i] {
      DependencyValuesTell(a, b);
    }
  }

  lemma {:induction false} DependencyValuesTell(a: Dependency, b: Dependency)
    requires forall i :: 0 <= i < |DEPENDENCY_KEYS| ==> DependencyValues(a)[i] == DependencyValues(b)[i]
    ensures a == b
  {
    EvidenceTextsDiffer();
    hide EvidenceText;
    var vs, ws := DependencyValues(a), DependencyValues(b);
    assert vs[0] == ws[0] && vs[1] == ws[1] && vs[2] == ws[2] && vs[3] == ws[3] && vs[4] == ws[4] && vs[5] == ws[5];
  }

  lemma {:induction false} EvidenceTextsDiffer()
    ensures forall a, b :: EvidenceText(a) == EvidenceText(b) <==> a == b
  {
    assert |EvidenceText(Manifest)| == 8 && |EvidenceText(Frontmatter)| == 11;
    assert |EvidenceText(ExplicitInvocation)| == 19;
  }

  lemma {:induction false} SameDependencies(a: seq<Dependency>, b: seq<Dependency>)
    ensures SameValue(DependenciesValue(a), DependenciesValue(b)) <==> a == b
  {
    hide DependencyValue;
    var xs, ys := DependenciesValue(a).items, DependenciesValue(b).items;
    forall i | 0 <= i < |a| && i < |b|
      ensures SameValue(xs[i], ys[i]) <==> a[i] == b[i]
    {
      SameDependency(a[i], b[i]);
    }
    SameItems(xs, ys);
  }

  lemma {:induction false} SameProvenance(a: Provenance, b: Provenance)
    ensures SameValue(ProvenanceValue(a), ProvenanceValue(b)) <==> a == b
  {
    hide Listed, SameValue;
    ProvenanceKeysDistinct();
    var vs, ws := ProvenanceValues(a), ProvenanceValues(b);
    SameListed(PROVENANCE_KEYS, vs, ws);
    forall i | 0 <= i < |vs|
      ensures SameOption(vs[i], ws[i]) <==> vs[i] == ws[i]
    {
      SameScalarOption(vs[i], ws[i]);
    }
    if forall i :: 0 <= i < |vs| ==> vs[i] == ws[i] {
      ProvenanceValuesTell(a, b);
    }
  }

  lemma {:induction false} SameScalarOption(v: Option<Value>, w: Option<Value>)
    requires v.Some? ==> !v.value.Arr? && !v.value.Obj?
    ensures SameOption(v, w) <==> v == w
  {
    if v.Some? && w.Some? {
      SameScalar(v.value, w.value);
    }
  }

  lemma {:induction false} ProvenanceValuesTell(a: Provenance, b: Provenance)
    requires forall i :: 0 <= i < |PROVENANCE_KEYS| ==> ProvenanceValues(a)[i] == ProvenanceValues(b)[i]
    ensures a == b
  {
    var vs, ws := ProvenanceValues(a), ProvenanceValues(b);
    assert vs[1] == ws[1] && vs[2] == ws[2] && vs[3] == ws[3] && vs[4] == ws[4] && vs[5] == ws[5] && vs[6] == ws[6];
    assert vs[7] == ws[7] && vs[8] == ws[8] && vs[9] == ws[9] && vs[10] == ws[10] && vs[11] == ws[11];
    assert vs[12] == ws[12] && vs[13] == ws[13] && vs[14] == ws[14];
  }

  lemma {:induction false} ModeTextsDiffer()
    ensures forall a, b :: ModeText(a) == ModeText(b) <==> a == b
  {
    assert ModeText(Automatic)[0] == 'a' as int && ModeText(UserOnly)[0] == 'u' as int;
  }

  /** The record of an imported revision tells all of it. */
  lemma {:induction false} SameExternalRevision(a: ExternalRevision, b: ExternalRevision)
    ensures SameValue(RevisionV2Value(a), RevisionV2Value(b)) <==> a == b
  {
    hide Zip, SameValue;
    RevisionV2KeysDistinct();
    var vs, ws := RevisionV2Values(a), RevisionV2Values(b);
    SameRecordSameValues(REVISION_V2_KEYS, vs, ws);
    forall i | 0 <= i < |vs|
      ensures SameValue(vs[i], ws[i]) <==> vs[i] == ws[i]
    {
      SameRevisionPart(a, b, i);
    }
    hide RevisionV2Values;
    if forall i :: 0 <= i < |vs| ==> vs[i] == ws[i] {
      RevisionV2ValuesTell(a, b);
    }
  }

  lemma {:induction false} SameRevisionPart(a: ExternalRevision, b: ExternalRevision, i: nat)
    requires i < |REVISION_V2_KEYS|
    ensures SameValue(RevisionV2Values(a)[i], RevisionV2Values(b)[i])
       <==> RevisionV2Values(a)[i] == RevisionV2Values(b)[i]
  {
    hide SameValue, Each, DependenciesValue, ProvenanceValue, ModeText;
    var v, w := RevisionV2Values(a)[i], RevisionV2Values(b)[i];
    if i == 6 {
      SameProvenance(a.provenance, b.provenance);
    } else if i == 10 {
      SameResourceLists(a.resources, b.resources);
    } else if i == 11 {
      SameDependencies(a.dependencies, b.dependencies);
    } else {
      SameScalar(v, w);
    }
    if v == w {
      SameToItself(v);
    }
  }

  lemma {:induction false} RevisionV2ValuesTell(a: ExternalRevision, b: ExternalRevision)
    requires forall i :: 0 <= i < |REVISION_V2_KEYS| ==> RevisionV2Values(a)[i] == RevisionV2Values(b)[i]
    ensures a == b
  {
    hide Each, DependenciesValue, ProvenanceValue, ModeText;
    var vs, ws := RevisionV2Values(a), RevisionV2Values(b);
    assert vs[2] == ws[2] && vs[3] == ws[3] && vs[4] == ws[4] && vs[5] == ws[5] && vs[6] == ws[6] && vs[7] == ws[7];
    assert vs[8] == ws[8] && vs[9] == ws[9] && vs[10] == ws[10] && vs[11] == ws[11] && vs[12] == ws[12];
    assert vs[13] == ws[13] && vs[14] == ws[14];
    ModeTextsDiffer();
    SameToItself(vs[6]);
    SameToItself(vs[10]);
    SameToItself(vs[11]);
    SameProvenance(a.provenance, b.provenance);
    SameResourceLists(a.resources, b.resources);
    SameDependencies(a.dependencies, b.dependencies);
  }

  // ----- a second pass

  /** The gathered resources are the verified inputs, sorted by path and small. */
  lemma {:induction false} ExternalResources(p: Platform, input: ExternalInput)
    requires p.Lawful() && GatherExternal(p, input).Success?
    ensures var rs := GatherExternal(p, input).value.resources;
            && Sorted(rs, ByPath(p.collate))
            && (forall k :: 0 <= k < |rs| ==> ComesFrom(p, input.skill.resources, rs[k]))
            && (forall i :: 0 <= i < |input.skill.resources| ==>
                  GoesTo(p, input.skill.resources[i], rs))
            && SmallResources(rs)
  {
    hide NormalizeUtf8, Canonicalize, DistinctPaths, DistinctNames, IsHex, Sort, LeadingBoms, VerifyResource,
      VerifyResources;
    var inputs := input.skill.resources;
    var rs := GatherExternal(p, input).value.resources;
    SortedOrigins(p, inputs, VerifyResources(p, inputs).value);
    forall k | 0 <= k < |rs|
      ensures rs[k].byteLength <= MAX_SAFE_INTEGER
    {
      assert ComesFrom(p, inputs, rs[k]);
      var i :| 0 <= i < |inputs| && VerifyResource(p, inputs[i]) == Success(rs[k]);
      VerifyResourceAgain(p, inputs[i]);
    }
  }

  lemma {:induction false} ResourcesAgain(p: Platform, inputs: seq<ResourceInput>, rs: seq<VerifiedResource>)
    requires p.Lawful() && Sorted(rs, ByPath(p.collate))
    requires forall k :: 0 <= k < |rs| ==> ComesFrom(p, inputs, rs[k])
    requires forall i :: 0 <= i < |inputs| ==> LeadingBoms(inputs[i].content) <= 2
    ensures VerifyResources(p, InputsOf(rs)) == Success(rs)
    ensures Sort(rs, ByPath(p.collate)) == rs
  {
    forall k | 0 <= k < |rs|
      ensures VerifyResource(p, InputsOf(rs)[k]) == Success(rs[k])
    {
      assert ComesFrom(p, inputs, rs[k]);
      var i :| 0 <= i < |inputs| && VerifyResource(p, inputs[i]) == Success(rs[k]);
      VerifyResourceAgain(p, inputs[i]);
    }
    VerifyResourcesPointwise(p, InputsOf(rs), rs);
    SortFixed(rs, ByPath(p.collate));
  }

  lemma {:induction false} BySkillNameTotal(collate: (Str, Str) -> bool)
    requires TotalPreorder(collate)
    ensures TotalPreorder(BySkillName(collate))
  {
    var order := BySkillName(collate);
    forall a, b
      ensures order(a, b) || order(b, a)
    {
      assert collate(a.skillName, b.skillName) || collate(b.skillName, a.skillName);
    }
    forall a, b, c | order(a, b) && order(b, c)
      ensures order(a, c)
    {
      assert collate(a.skillName, b.skillName) && collate(b.skillName, c.skillName);
    }
  }

  lemma {:induction false} DependenciesSorted(p: Platform, ds: seq<Dependency>)
    requires TotalPreorder(p.collate)
    ensures var sorted := Sort(ds, BySkillName(p.collate));
            Sort(sorted, BySkillName(p.collate)) == sorted && |sorted| == |ds|
  {
    var order := BySkillName(p.collate);
    BySkillNameTotal(p.collate);
    SortSorted(ds, order);
    SortPermutes(ds, order);
    SortFixed(Sort(ds, order), order);
  }

  /** What reconstruction feeds back: the stored texts, resources and dependencies. */
  predicate FedBack(again: ExternalInput, input: ExternalInput, t: ExternalTexts) {
    && again.provenance == StoredProvenance(input.provenance, t)
    && again.skill.instructions == t.instructions.text
    && again.skill.resources == InputsOf(t.resources)
    && again.skill.dependencies == t.dependencies
  }

  lemma {:induction false} GathersItselfExternal(p: Platform, input: ExternalInput, again: ExternalInput)
    requires p.Lawful() && GatherExternal(p, input).Success? && FewExternalBoms(input)
    requires FedBack(again, input, GatherExternal(p, input).value)
    ensures GatherExternal(p, again) == GatherExternal(p, input)
  {
    hide NormalizeUtf8, IsHex, Sort, LeadingBoms, VerifyResource, VerifyResources;
    var t := GatherExternal(p, input).value;
    ExternalResources(p, input);
    ResourcesAgain(p, input.skill.resources, t.resources);
    SortPermutes(VerifyResources(p, input.skill.resources).value, ByPath(p.collate));
    VerifyResourcesPointwise(p, input.skill.resources, VerifyResources(p, input.skill.resources).value);
    DependenciesSorted(p, input.skill.dependencies);
    NormalizeFixedPoint(p.nfc, input.skill.instructions, MAX_TEXT_BYTES);
    NormalizeFixedPoint(p.nfc, input.provenance.licenseText, MAX_TEXT_BYTES);
    if input.provenance.noticeText.Present? {
      NormalizeFixedPoint(p.nfc, input.provenance.noticeText.text, MAX_TEXT_BYTES);
    }
  }

  /** Two gatherings that differ in a text. */
  ghost predicate OtherTexts(t: ExternalTexts, u: ExternalTexts) {
    || t.instructions.text != u.instructions.text
    || t.license.text != u.license.text
    || (t.notice.Some? && u.notice.Some? && t.notice.value.text != u.notice.value.text)
    || exists k :: 0 <= k < |t.resources| && k < |u.resources|
                   && t.resources[k].content != u.resources[k].content
  }

  lemma {:induction false} GathersOtherExternal(p: Platform, input: ExternalInput, again: ExternalInput)
    requires p.Lawful() && GatherExternal(p, input).Success? && !FewExternalBoms(input)
    requires FedBack(again, input, GatherExternal(p, input).value)
    requires GatherExternal(p, again).Success?
    ensures OtherTexts(GatherExternal(p, input).value, GatherExternal(p, again).value)
  {
    hide NormalizeUtf8, IsHex, Sort, LeadingBoms, VerifyResource, VerifyResources, DistinctPaths, DistinctNames;
    var t := GatherExternal(p, input).value;
    if LeadingBoms(input.skill.instructions) > 2 {
      NormalizeFixedPoint(p.nfc, input.skill.instructions, MAX_TEXT_BYTES);
    } else if LeadingBoms(input.provenance.licenseText) > 2 {
      NormalizeFixedPoint(p.nfc, input.provenance.licenseText, MAX_TEXT_BYTES);
    } else if input.provenance.noticeText.Present?
              && LeadingBoms(input.provenance.noticeText.text) > 2 {
      NormalizeFixedPoint(p.nfc, input.provenance.noticeText.text, MAX_TEXT_BYTES);
    } else {
      var i :| 0 <= i < |input.skill.resources|
               && LeadingBoms(input.skill.resources[i].content) > 2;
      ExternalResources(p, input);
      assert GoesTo(p, input.skill.resources[i], t.resources);
      ResourceChanges(p, input.skill.resources[i], t.resources,
                      VerifyResources(p, again.skill.resources).value);
    }
  }

  /** Sealing looks at the stored provenance exactly as it looks at the given one. */
  lemma {:induction false} SealsItself(p: Platform, input: ExternalInput, t: ExternalTexts)
    requires SealExternal(p, input, t).Success?
    requires t.notice.Some? <==> input.provenance.noticeText.Present?
    ensures var r := SealExternal(p, input, t).value;
            SealExternal(p, ExternalInputOf(r), t) == Success(r)
  {
    var r := SealExternal(p, input, t).value;
    var again := ExternalInputOf(r);
    assert SourceValues(p, again.provenance, t) == SourceValues(p, input.provenance, t);
    assert StoredProvenance(again.provenance, t) == r.provenance;
  }

  lemma {:induction false} SealedParts(p: Platform, input: ExternalInput, t: ExternalTexts)
    requires SealExternal(p, input, t).Success? && SmallResources(t.resources)
    ensures var r := SealExternal(p, input, t).value;
            && SoundParts(r) && FedBack(ExternalInputOf(r), input, t)
            && r.instructions == t.instructions.text && r.resources == t.resources
            && r.provenance == StoredProvenance(input.provenance, t)
            && ((t.notice.Some? <==> input.provenance.noticeText.Present?) ==>
                  (NoUndefined(r.provenance) <==> NoUndefined(input.provenance)))
  {
    ContentPrintable(p, input, t);
  }

  /** An imported revision passes the integrity check exactly when it is, field by field, the
      revision that its own texts give, and no property of its provenance is explicitly undefined. */
  lemma {:induction false} ExternalIntegrityMeans(p: Platform, r: ExternalRevision)
    requires p.Lawful()
    ensures AssertExternalRevisionIntegrity(p, r).Success?
       <==> CreateExternalSkillRevision(p, ExternalInputOf(r)) == Success(r) && NoUndefined(r.provenance)
  {
    hide NormalizeUtf8, VerifyResources, Canonicalize, DistinctPaths, DistinctNames, SealExternal, RevisionV2Value,
      IsHex, SoundParts, Printable, WellFormed, SameValue, NoUndefined, StoredProvenance;
    var again := ExternalInputOf(r);
    if CreateExternalSkillRevision(p, again).Success? {
      var other := CreateExternalSkillRevision(p, again).value;
      ExternalResources(p, again);
      SealedParts(p, again, GatherExternal(p, again).value);
      RevisionV2Record(other);
      RevisionV2WellFormed(other);
      RevisionV2WellFormed(r);
      CanonicalizeRoundTrip(RevisionV2Value(other));
      SameExternalRevision(other, r);
      if other != r && Canonicalize(RevisionV2Value(other)).Success? && Canonicalize(RevisionV2Value(r)).Success? {
        CanonicalizeInjective(RevisionV2Value(other), RevisionV2Value(r));
      }
    }
  }

  /** An imported revision passes its own integrity check exactly when no text it was created from
      starts with three byte-order marks and no property of its provenance is explicitly undefined. */
  lemma {:induction false} ExternalIntegrityExact(p: Platform, input: ExternalInput)
    requires p.Lawful() && CreateExternalSkillRevision(p, input).Success?
    ensures AssertExternalRevisionIntegrity(p, CreateExternalSkillRevision(p, input).value).Success?
       <==> FewExternalBoms(input) && NoUndefined(input.provenance)
  {
    hide NormalizeUtf8, VerifyResources, Canonicalize, DistinctPaths, DistinctNames, SealExternal, RevisionV2Value,
      IsHex, AssertExternalRevisionIntegrity, SoundParts, NoUndefined;
    var t := GatherExternal(p, input).value;
    var r := CreateExternalSkillRevision(p, input).value;
    var again := ExternalInputOf(r);
    ExternalResources(p, input);
    SealedParts(p, input, t);
    ExternalIntegrityMeans(p, r);
    if FewExternalBoms(input) {
      GathersItselfExternal(p, input, again);
      SealsItself(p, input, t);
    } else if CreateExternalSkillRevision(p, again).Success? {
      GathersOtherExternal(p, input, again);
      ExternalResources(p, again);
      SealedParts(p, again, GatherExternal(p, again).value);
    }
  }
}
