/** What the two hashes and the name of an imported revision determine. */
module ExternalHashCoverage {
  import opened Text
  import opened CanonicalJson
  import opened JsonParser
  import opened TextNormalization
  import opened CanonicalRevision
  import opened ExternalCatalog
  import opened CanonicalRevisionV2
  import opened HashChain

  /** An optional property as the hashed records hold it: undefined counts as absent. */
  function Shown(o: Optional): Option<Str> { if o.Present? then Some(o.text) else None }

  predicate SameOptionals(v: Provenance, w: Provenance) {
    && Shown(v.licenseEvidencePath) == Shown(w.licenseEvidencePath)
    && Shown(v.licenseBlobSha) == Shown(w.licenseBlobSha)
    && Shown(v.skillDeclaredSpdxId) == Shown(w.skillDeclaredSpdxId)
    && Shown(v.noticeEvidencePath) == Shown(w.noticeEvidencePath)
    && Shown(v.noticeBlobSha) == Shown(w.noticeBlobSha)
  }

  predicate SameOrigin(v: Provenance, w: Provenance) {
    && v.repositoryId == w.repositoryId && v.skillPath == w.skillPath && v.sourceOwner == w.sourceOwner
    && v.spdxLicenseId == w.spdxLicenseId && SameOptionals(v, w)
  }

  /** Two revisions with the same skill from the same origin, whatever commit they were taken from. */
  predicate SameIdentity(a: ExternalRevision, b: ExternalRevision) {
    && a.skillId == b.skillId && a.name == b.name && a.description == b.description
    && a.invocationMode == b.invocationMode && a.instructions == b.instructions
    && a.resources == b.resources && a.dependencies == b.dependencies
    && SameOrigin(a.provenance, b.provenance)
    && a.provenance.licenseText == b.provenance.licenseText
    && Shown(a.provenance.noticeText) == Shown(b.provenance.noticeText)
  }

  /** They also name the same repository and commit. */
  predicate SameBundle(a: ExternalRevision, b: ExternalRevision) {
    && SameIdentity(a, b)
    && a.provenance.owner == b.provenance.owner && a.provenance.repository == b.provenance.repository
    && a.provenance.commitSha == b.provenance.commitSha
  }

  // ----- the records under the hashes

  lemma {:induction false} SameShown(a: Optional, b: Optional)
    ensures DefinedValue(a) == DefinedValue(b) <==> Shown(a) == Shown(b)
  {}

  predicate SameLicenses(p: Platform, t: ExternalTexts, u: ExternalTexts) {
    && p.sha256Hex(t.license.text) == p.sha256Hex(u.license.text)
    && (t.notice.Some? <==> u.notice.Some?)
    && (t.notice.Some? && u.notice.Some? ==> p.sha256Hex(t.notice.value.text) == p.sha256Hex(u.notice.value.text))
  }

  lemma {:induction false} SourceValuesTell(
      p: Platform, v: Provenance, t: ExternalTexts, w: Provenance, u: ExternalTexts)
    ensures SourceValues(p, v, t) == SourceValues(p, w, u) <==> SameOrigin(v, w) && SameLicenses(p, t, u)
  {
    var vs, ws := SourceValues(p, v, t), SourceValues(p, w, u);
    SameShown(v.licenseEvidencePath, w.licenseEvidencePath);
    SameShown(v.licenseBlobSha, w.licenseBlobSha);
    SameShown(v.skillDeclaredSpdxId, w.skillDeclaredSpdxId);
    SameShown(v.noticeEvidencePath, w.noticeEvidencePath);
    SameShown(v.noticeBlobSha, w.noticeBlobSha);
    hide DefinedValue, Shown;
    if vs == ws {
      assert vs[1] == ws[1] && vs[2] == ws[2] && vs[3] == ws[3] && vs[4] == ws[4] && vs[5] == ws[5];
      assert vs[6] == ws[6] && vs[7] == ws[7] && vs[8] == ws[8] && vs[9] == ws[9] && vs[10] == ws[10];
      assert vs[11] == ws[11];
    }
  }

  lemma {:induction false} SameScalars(keys: seq<Str>, vs: seq<Option<Value>>, ws: seq<Option<Value>>)
    requires |keys| == |vs| == |ws| && AllDistinct(keys)
    requires forall i :: 0 <= i < |vs| && vs[i].Some? ==> !vs[i].value.Arr? && !vs[i].value.Obj?
    ensures SameValue(Obj(Listed(keys, vs)), Obj(Listed(keys, ws))) <==> vs == ws
  {
    hide Listed, SameValue;
    SameListed(keys, vs, ws);
    forall i | 0 <= i < |vs|
      ensures SameOption(vs[i], ws[i]) <==> vs[i] == ws[i]
    {
      SameScalarOption(vs[i], ws[i]);
    }
  }

  /** What the parts of two records say apart from their sources. */
  predicate SameParts(x: ExternalInput, t: ExternalTexts, y: ExternalInput, u: ExternalTexts) {
    && x.skillId == y.skillId && x.skill.name == y.skill.name && x.skill.description == y.skill.description
    && x.skill.invocationMode == y.skill.invocationMode && t.instructions.text == u.instructions.text
    && t.resources == u.resources && t.dependencies == u.dependencies
  }

  lemma {:induction false} ContentValuesTell(
      x: ExternalInput, t: ExternalTexts, y: ExternalInput, u: ExternalTexts, v: Value, w: Value)
    ensures var vs, ws := ContentValues(x, t, v), ContentValues(y, u, w);
            (forall i :: 0 <= i < |vs| ==> SameValue(vs[i], ws[i]))
            <==> SameParts(x, t, y, u) && SameValue(v, w)
  {
    hide SameValue, Each, DependenciesValue, ModeText;
    var vs, ws := ContentValues(x, t, v), ContentValues(y, u, w);
    SameResourceLists(t.resources, u.resources);
    SameDependencies(t.dependencies, u.dependencies);
    ModeTextsDiffer();
    forall i | 0 <= i < 7
      ensures SameValue(vs[i], ws[i]) <==> vs[i] == ws[i]
    {
      SameScalar(vs[i], ws[i]);
    }
    if forall i :: 0 <= i < |vs| ==> SameValue(vs[i], ws[i]) {
      assert vs[2] == ws[2] && vs[3] == ws[3] && vs[4] == ws[4] && vs[5] == ws[5] && vs[6] == ws[6];
      assert SameValue(vs[7], ws[7]) && SameValue(vs[8], ws[8]) && SameValue(vs[9], ws[9]);
    }
  }

  lemma {:induction false} SameIdentityRecord(
      p: Platform, x: ExternalInput, t: ExternalTexts, y: ExternalInput, u: ExternalTexts)
    ensures SameValue(ImmutableContent(p, x, t), ImmutableContent(p, y, u)) <==>
              SameParts(x, t, y, u) && SameOrigin(x.provenance, y.provenance) && SameLicenses(p, t, u)
  {
    hide SameValue, Listed, SameOrigin, SameLicenses, SameParts;
    var vs, ws := SourceValues(p, x.provenance, t), SourceValues(p, y.provenance, u);
    var v, w := Obj(Listed(SOURCE_KEYS, vs)), Obj(Listed(SOURCE_KEYS, ws));
    ContentKeysDistinct();
    SourceKeysDistinct();
    SameScalars(SOURCE_KEYS, vs, ws);
    SourceValuesTell(p, x.provenance, t, y.provenance, u);
    hide SourceValues;
    ContentValuesTell(x, t, y, u, v, w);
    SameRecordSameValues(CONTENT_KEYS, ContentValues(x, t, v), ContentValues(y, u, w));
  }

  lemma {:induction false} BundleKeysDistinct()
    ensures AllDistinct(BUNDLE_SOURCE_KEYS) && AllDistinct(BUNDLE_KEYS)
  {
    SourceKeysDistinct();
    ContentKeysDistinct();
    var k, m := BUNDLE_SOURCE_KEYS, BUNDLE_KEYS;
    assert k[..12] == SOURCE_KEYS && m[..10] == CONTENT_KEYS;
    assert forall i :: 0 <= i < 12 ==> k[i] == SOURCE_KEYS[i];
    assert forall i :: 0 <= i < 10 ==> m[i] == CONTENT_KEYS[i];
    assert |k[12]| == 5 && |k[13]| == 10 && |k[14]| == 9 && |m[10]| == 11 && |m[11]| == 10;
    assert forall i :: 0 <= i < 12 ==> |SOURCE_KEYS[i]| in {8, 12, 9, 11, 13, 19, 14, 18};
    assert k[2][0] == 's' as int && k[14][0] == 'c' as int;
    assert m[4][0] == 'd' as int && m[10][0] == 'l' as int && m[8][0] == 'd' as int && m[11][0] == 'n' as int;
  }

  predicate SamePlace(v: Provenance, w: Provenance) {
    v.owner == w.owner && v.repository == w.repository && v.commitSha == w.commitSha
  }

  lemma {:induction false} BundleSourceValuesTell(
      p: Platform, v: Provenance, t: ExternalTexts, w: Provenance, u: ExternalTexts)
    ensures BundleSourceValues(p, v, t) == BundleSourceValues(p, w, u)
       <==> SameOrigin(v, w) && SameLicenses(p, t, u) && SamePlace(v, w)
  {
    SourceValuesTell(p, v, t, w, u);
    hide SourceValues, SameOrigin, SameLicenses;
    var vs, ws := BundleSourceValues(p, v, t), BundleSourceValues(p, w, u);
    assert vs[..12] == SourceValues(p, v, t) && ws[..12] == SourceValues(p, w, u);
    if vs == ws {
      assert vs[12] == ws[12] && vs[13] == ws[13] && vs[14] == ws[14];
    }
  }

  predicate SameTexts(t: ExternalTexts, u: ExternalTexts) {
    && t.license.text == u.license.text && (t.notice.Some? <==> u.notice.Some?)
    && (t.notice.Some? && u.notice.Some? ==> t.notice.value.text == u.notice.value.text)
  }

  lemma {:induction false} BundleValuesTell(
      x: ExternalInput, t: ExternalTexts, y: ExternalInput, u: ExternalTexts, v: Value, w: Value)
    ensures var vs, ws := BundleValues(x, t, v), BundleValues(y, u, w);
            (forall i :: 0 <= i < |vs| ==> SameOption(vs[i], ws[i]))
            <==> SameParts(x, t, y, u) && SameValue(v, w) && SameTexts(t, u)
  {
    ContentValuesTell(x, t, y, u, v, w);
    hide SameValue, ContentValues, SameParts;
    var cs, ds := ContentValues(x, t, v), ContentValues(y, u, w);
    var vs, ws := BundleValues(x, t, v), BundleValues(y, u, w);
    SameScalarOption(vs[10], ws[10]);
    SameScalarOption(vs[11], ws[11]);
    assert forall i :: 0 <= i < 10 ==> vs[i] == Some(cs[i]) && ws[i] == Some(ds[i]);
    if forall i :: 0 <= i < |vs| ==> SameOption(vs[i], ws[i]) {
      forall i | 0 <= i < |cs|
        ensures SameValue(cs[i], ds[i])
      {
        assert SameOption(vs[i], ws[i]);
      }
      assert SameOption(vs[10], ws[10]) && SameOption(vs[11], ws[11]);
    }
  }

  lemma {:induction false} SameBundleRecord(
      p: Platform, x: ExternalInput, t: ExternalTexts, y: ExternalInput, u: ExternalTexts)
    ensures SameValue(BundlePayload(p, x, t), BundlePayload(p, y, u)) <==>
              && SameParts(x, t, y, u) && SameOrigin(x.provenance, y.provenance)
              && SamePlace(x.provenance, y.provenance) && SameTexts(t, u)
  {
    hide SameValue, Listed, SameOrigin, SameParts, SamePlace;
    var vs, ws := BundleSourceValues(p, x.provenance, t), BundleSourceValues(p, y.provenance, u);
    var v, w := Obj(Listed(BUNDLE_SOURCE_KEYS, vs)), Obj(Listed(BUNDLE_SOURCE_KEYS, ws));
    BundleKeysDistinct();
    BundleSourceScalars(p, x.provenance, t);
    SameScalars(BUNDLE_SOURCE_KEYS, vs, ws);
    BundleSourceValuesTell(p, x.provenance, t, y.provenance, u);
    hide BundleSourceValues;
    BundleValuesTell(x, t, y, u, v, w);
    SameListed(BUNDLE_KEYS, BundleValues(x, t, v), BundleValues(y, u, w));
  }

  lemma {:induction false} BundleSourceScalars(p: Platform, v: Provenance, t: ExternalTexts)
    ensures var vs := BundleSourceValues(p, v, t);
            forall i :: 0 <= i < |vs| && vs[i].Some? ==> !vs[i].value.Arr? && !vs[i].value.Obj?
  {
    var vs, ss := BundleSourceValues(p, v, t), SourceValues(p, v, t);
    assert forall i :: 0 <= i < |ss| && ss[i].Some? ==> !ss[i].value.Arr? && !ss[i].value.Obj?;
    hide SourceValues;
    assert forall i :: 0 <= i < 12 ==> vs[i] == ss[i];
  }

  lemma {:induction false} RecordsWellFormed(p: Platform, x: ExternalInput, t: ExternalTexts)
    ensures WellFormed(ImmutableContent(p, x, t)) && WellFormed(BundlePayload(p, x, t))
  {
    hide Listed, WellFormed, SourceValues, DependenciesValue, Each;
    var v := x.provenance;
    SourceRecord(p, v, t);
    ContentWellFormed(x, t, Obj(Listed(SOURCE_KEYS, SourceValues(p, v, t))));
    ContentKeysDistinct();
    RecordWellFormedPrintable(CONTENT_KEYS, ContentValues(x, t, Obj(Listed(SOURCE_KEYS, SourceValues(p, v, t)))));
    BundleKeysDistinct();
    BundleSourceScalars(p, v, t);
    var vs := BundleSourceValues(p, v, t);
    hide BundleSourceValues;
    forall i | 0 <= i < |vs| && vs[i].Some?
      ensures WellFormed(vs[i].value)
    {
      ScalarWellFormed(vs[i].value);
    }
    ListedRecord(BUNDLE_SOURCE_KEYS, vs);
    var source := Obj(Listed(BUNDLE_SOURCE_KEYS, vs));
    ContentWellFormed(x, t, source);
    var bs := BundleValues(x, t, source);
    hide ContentValues;
    forall i | 0 <= i < |bs| && bs[i].Some?
      ensures WellFormed(bs[i].value)
    {
      if i < 10 {
        assert bs[i] == Some(ContentValues(x, t, source)[i]);
      } else {
        ScalarWellFormed(bs[i].value);
      }
    }
    ListedRecord(BUNDLE_KEYS, bs);
  }

  lemma {:induction false} ScalarWellFormed(v: Value)
    requires !v.Arr? && !v.Obj?
    ensures WellFormed(v)
  {}

  lemma {:induction false} ContentWellFormed(x: ExternalInput, t: ExternalTexts, source: Value)
    requires WellFormed(source)
    ensures var vs := ContentValues(x, t, source); forall i :: 0 <= i < |vs| ==> WellFormed(vs[i])
  {
    hide WellFormed, DependenciesValue, Each;
    ResourceListRecord(t.resources);
    DependenciesRecord(t.dependencies);
    var vs := ContentValues(x, t, source);
    forall i | 0 <= i < |vs|
      ensures WellFormed(vs[i])
    {
      if i < 7 {
        ScalarWellFormed(vs[i]);
      }
    }
  }

  // ----- the hashes

  function IdentityText(p: Platform, x: ExternalInput, t: ExternalTexts): Str {
    CanonicalText(ImmutableContent(p, x, t))
  }

  lemma {:induction false} CanonicalTextsAlike(a: Value, b: Value)
    requires WellFormed(a) && WellFormed(b) && Canonicalize(a).Success? && Canonicalize(b).Success?
    ensures Canonicalize(a).value == CanonicalText(a) && Canonicalize(b).value == CanonicalText(b)
    ensures CanonicalText(a) == CanonicalText(b) <==> SameValue(a, b)
  {
    hide SameValue, CanonicalText;
    PrintedAs(a);
    PrintedAs(b);
    CanonicalizeInjective(a, b);
  }

  lemma {:induction false} PrintedAs(v: Value)
    ensures Canonicalize(v).Success? ==> Canonicalize(v).value == CanonicalText(v)
  {}

  /** What a created revision takes from its input and texts, and which texts its hashes are of. */
  lemma {:induction false} SealedHashes(p: Platform, x: ExternalInput)
    requires CreateExternalSkillRevision(p, x).Success?
    ensures GatherExternal(p, x).Success?
    ensures var r, t := CreateExternalSkillRevision(p, x).value, GatherExternal(p, x).value;
            && Canonicalize(ImmutableContent(p, x, t)).Success? && Canonicalize(BundlePayload(p, x, t)).Success?
            && r.contentIdentitySha256 == p.sha256Hex(Canonicalize(ImmutableContent(p, x, t)).value)
            && r.canonicalBytes == Canonicalize(BundlePayload(p, x, t)).value
            && r.bundleSha256 == p.sha256Hex(r.canonicalBytes) && r.revision == Ascii("gh-") + r.bundleSha256
            && r.instructionsSha256 == p.sha256Hex(r.instructions)
            && r.skillId == x.skillId && r.name == x.skill.name && r.description == x.skill.description
            && r.invocationMode == x.skill.invocationMode && r.instructions == t.instructions.text
            && r.resources == t.resources && r.dependencies == t.dependencies
            && r.provenance == StoredProvenance(x.provenance, t)
            && (t.notice.Some? <==> x.provenance.noticeText.Present?)
  {
    hide NormalizeUtf8, VerifyResources, Canonicalize, DistinctPaths, DistinctNames, IsHex;
  }

  lemma {:induction false} IdentityOfTexts(
      p: Platform, x: ExternalInput, t: ExternalTexts, y: ExternalInput, u: ExternalTexts,
      a: ExternalRevision, b: ExternalRevision)
    requires a.skillId == x.skillId && a.name == x.skill.name && a.description == x.skill.description
    requires a.invocationMode == x.skill.invocationMode && a.instructions == t.instructions.text
    requires a.resources == t.resources && a.dependencies == t.dependencies
    requires a.provenance == StoredProvenance(x.provenance, t)
    requires t.notice.Some? <==> x.provenance.noticeText.Present?
    requires b.skillId == y.skillId && b.name == y.skill.name && b.description == y.skill.description
    requires b.invocationMode == y.skill.invocationMode && b.instructions == u.instructions.text
    requires b.resources == u.resources && b.dependencies == u.dependencies
    requires b.provenance == StoredProvenance(y.provenance, u)
    requires u.notice.Some? <==> y.provenance.noticeText.Present?
    ensures SameIdentity(a, b) <==>
              SameParts(x, t, y, u) && SameOrigin(x.provenance, y.provenance) && SameTexts(t, u)
    ensures SameBundle(a, b) <==> SameIdentity(a, b) && SamePlace(x.provenance, y.provenance)
    ensures SameLicenses(p, t, u) && !SameTexts(t, u) ==> LicensesCollide(p, a, b)
  {}

  /** Licences, or notices, of two revisions with one hash. */
  predicate LicensesCollide(p: Platform, a: ExternalRevision, b: ExternalRevision) {
    || Collide(p.sha256Hex, a.provenance.licenseText, b.provenance.licenseText)
    || (a.provenance.noticeText.Present? && b.provenance.noticeText.Present?
        && Collide(p.sha256Hex, a.provenance.noticeText.text, b.provenance.noticeText.text))
  }

  /** Two imported revisions with one content identity are the same skill from the same origin, or
      texts under their hashes collide; the commit does not matter. */
  lemma {:induction false} IdentityHashCovers(p: Platform, x: ExternalInput, y: ExternalInput)
    requires CreateExternalSkillRevision(p, x).Success? && CreateExternalSkillRevision(p, y).Success?
    ensures var a, b := CreateExternalSkillRevision(p, x).value, CreateExternalSkillRevision(p, y).value;
            && (SameIdentity(a, b) ==> a.contentIdentitySha256 == b.contentIdentitySha256)
            && (a.contentIdentitySha256 == b.contentIdentitySha256 ==>
                  || SameIdentity(a, b) || LicensesCollide(p, a, b)
                  || Collide(p.sha256Hex, IdentityText(p, x, GatherExternal(p, x).value),
                             IdentityText(p, y, GatherExternal(p, y).value)))
  {
    SealedHashes(p, x);
    SealedHashes(p, y);
    hide CreateExternalSkillRevision, GatherExternal, Canonicalize, ImmutableContent, WellFormed, SameValue,
      CanonicalText, SameIdentity, SameBundle, SameParts, SameOrigin, SameTexts, SamePlace, StoredProvenance,
      LicensesCollide;
    var t, u := GatherExternal(p, x).value, GatherExternal(p, y).value;
    var a, b := CreateExternalSkillRevision(p, x).value, CreateExternalSkillRevision(p, y).value;
    RecordsWellFormed(p, x, t);
    RecordsWellFormed(p, y, u);
    CanonicalTextsAlike(ImmutableContent(p, x, t), ImmutableContent(p, y, u));
    SameIdentityRecord(p, x, t, y, u);
    IdentityOfTexts(p, x, t, y, u, a, b);
    TextsThenLicenses(p, t, u);
  }

  lemma {:induction false} TextsThenLicenses(p: Platform, t: ExternalTexts, u: ExternalTexts)
    ensures SameTexts(t, u) ==> SameLicenses(p, t, u)
  {}

  /** Two imported revisions with one bundle hash, or with one name, are the same skill from the same
      commit and have the same bytes, or their bytes collide. */
  lemma {:induction false} BundleHashCovers(p: Platform, x: ExternalInput, y: ExternalInput)
    requires CreateExternalSkillRevision(p, x).Success? && CreateExternalSkillRevision(p, y).Success?
    ensures var a, b := CreateExternalSkillRevision(p, x).value, CreateExternalSkillRevision(p, y).value;
            && (a.revision == b.revision <==> a.bundleSha256 == b.bundleSha256)
            && (SameBundle(a, b) <==> a.canonicalBytes == b.canonicalBytes)
            && (a.bundleSha256 == b.bundleSha256 ==>
                  SameBundle(a, b) || Collide(p.sha256Hex, a.canonicalBytes, b.canonicalBytes))
            && (SameBundle(a, b) ==> a.bundleSha256 == b.bundleSha256)
  {
    SealedHashes(p, x);
    SealedHashes(p, y);
    hide CreateExternalSkillRevision, GatherExternal, Canonicalize, BundlePayload, WellFormed, SameValue, CanonicalText,
      SameIdentity, SameBundle, SameParts, SameOrigin, SameTexts, SamePlace, StoredProvenance;
    var t, u := GatherExternal(p, x).value, GatherExternal(p, y).value;
    var a, b := CreateExternalSkillRevision(p, x).value, CreateExternalSkillRevision(p, y).value;
    RecordsWellFormed(p, x, t);
    RecordsWellFormed(p, y, u);
    CanonicalTextsAlike(BundlePayload(p, x, t), BundlePayload(p, y, u));
    SameBundleRecord(p, x, t, y, u);
    IdentityOfTexts(p, x, t, y, u, a, b);
    assert a.revision[3..] == a.bundleSha256 && b.revision[3..] == b.bundleSha256;
  }

  // ----- the records under the hashes, by name

  /** The names under which a hashed record holds the source of a skill. */
  predicate SaysSource(p: Platform, v: Value, w: Provenance, t: ExternalTexts) {
    SaysWhere(p, v, w, t) && SaysEvidence(v, w) && SaysNotice(p, v, w, t)
  }

  predicate SaysWhere(p: Platform, v: Value, w: Provenance, t: ExternalTexts) {
    && HasField(v, "provider", Chars(Ascii("github"))) && HasField(v, "repositoryId", Num(w.repositoryId))
    && HasField(v, "skillPath", Chars(w.skillPath)) && HasField(v, "sourceOwner", Chars(w.sourceOwner))
    && HasField(v, "spdxLicenseId", Chars(w.spdxLicenseId))
    && HasField(v, "licenseSha256", Chars(p.sha256Hex(t.license.text)))
  }

  predicate SaysEvidence(v: Value, w: Provenance) {
    && HasText(v, "licenseEvidencePath", Shown(w.licenseEvidencePath))
    && HasText(v, "licenseBlobSha", Shown(w.licenseBlobSha))
    && HasText(v, "skillDeclaredSpdxId", Shown(w.skillDeclaredSpdxId))
  }

  predicate SaysNotice(p: Platform, v: Value, w: Provenance, t: ExternalTexts) {
    && HasText(v, "noticeSha256", if t.notice.Some? then Some(p.sha256Hex(t.notice.value.text)) else None)
    && HasText(v, "noticeEvidencePath", Shown(w.noticeEvidencePath))
    && HasText(v, "noticeBlobSha", Shown(w.noticeBlobSha))
  }

  /** A record whose list begins with the keys and values of a source. */
  predicate HoldsSource(
      p: Platform, keys: seq<Str>, vs: seq<Option<Value>>, w: Provenance, t: ExternalTexts)
  {
    && 12 <= |keys| == |vs| && AllDistinct(keys)
    && forall i :: 0 <= i < 12 ==> keys[i] == SOURCE_KEYS[i] && vs[i] == SourceValues(p, w, t)[i]
  }

  lemma {:induction false} ListedWhere(
      p: Platform, keys: seq<Str>, vs: seq<Option<Value>>, w: Provenance, t: ExternalTexts)
    requires HoldsSource(p, keys, vs, w, t)
    ensures SaysWhere(p, Obj(Listed(keys, vs)), w, t)
  {
    hide Listed, HasField, HasText, AllDistinct;
    ListedField(keys, vs, 0, "provider");
    ListedField(keys, vs, 1, "repositoryId");
    ListedField(keys, vs, 2, "skillPath");
    ListedField(keys, vs, 3, "sourceOwner");
    ListedField(keys, vs, 4, "spdxLicenseId");
    ListedField(keys, vs, 5, "licenseSha256");
  }

  lemma {:induction false} ListedEvidence(
      p: Platform, keys: seq<Str>, vs: seq<Option<Value>>, w: Provenance, t: ExternalTexts)
    requires HoldsSource(p, keys, vs, w, t)
    ensures SaysEvidence(Obj(Listed(keys, vs)), w)
  {
    hide Listed, HasField, HasText, AllDistinct;
    ListedField(keys, vs, 6, "licenseEvidencePath");
    ListedField(keys, vs, 7, "licenseBlobSha");
    ListedField(keys, vs, 8, "skillDeclaredSpdxId");
  }

  lemma {:induction false} ListedNotice(
      p: Platform, keys: seq<Str>, vs: seq<Option<Value>>, w: Provenance, t: ExternalTexts)
    requires HoldsSource(p, keys, vs, w, t)
    ensures SaysNotice(p, Obj(Listed(keys, vs)), w, t)
  {
    hide Listed, HasField, HasText, AllDistinct;
    ListedField(keys, vs, 9, "noticeSha256");
    ListedField(keys, vs, 10, "noticeEvidencePath");
    ListedField(keys, vs, 11, "noticeBlobSha");
  }

  lemma {:induction false} ListedSource(
      p: Platform, keys: seq<Str>, vs: seq<Option<Value>>, w: Provenance, t: ExternalTexts)
    requires 12 <= |keys| == |vs| && AllDistinct(keys)
    requires keys[..12] == SOURCE_KEYS && vs[..12] == SourceValues(p, w, t)
    ensures SaysSource(p, Obj(Listed(keys, vs)), w, t)
  {
    hide Listed, SaysWhere, SaysEvidence, SaysNotice, AllDistinct, SourceValues;
    assert forall i :: 0 <= i < 12 ==> keys[i] == keys[..12][i] && vs[i] == vs[..12][i];
    ListedWhere(p, keys, vs, w, t);
    ListedEvidence(p, keys, vs, w, t);
    ListedNotice(p, keys, vs, w, t);
  }

  /** The names under which a hashed record holds what a skill says. */
  predicate SaysContent(v: Value, x: ExternalInput, t: ExternalTexts) { SaysSkill(v, x) && SaysParts(v, x, t) }

  predicate SaysSkill(v: Value, x: ExternalInput) {
    && HasField(v, "schemaVersion", Num(2)) && HasField(v, "trustAtPublication", Chars(Ascii("structurally-verified")))
    && HasField(v, "skillId", Chars(x.skillId)) && HasField(v, "name", Chars(x.skill.name))
    && HasField(v, "description", Chars(x.skill.description))
  }

  predicate SaysParts(v: Value, x: ExternalInput, t: ExternalTexts) {
    && HasField(v, "invocationMode", Chars(
         if x.skill.invocationMode == Automatic then Ascii("automatic") else Ascii("user-only")))
    && HasField(v, "instructions", Chars(t.instructions.text))
    && HasField(v, "resources", Each(t.resources, ResourceValue))
    && HasField(v, "dependencies", DependenciesValue(t.dependencies))
  }

  /** The identity record says what the skill says, and from where it is. */
  lemma {:induction false} IdentitySays(p: Platform, x: ExternalInput, t: ExternalTexts) returns (source: Value)
    ensures var v := ImmutableContent(p, x, t);
            SaysContent(v, x, t) && |v.fields| == 10 && HasField(v, "source", source)
    ensures SaysSource(p, source, x.provenance, t)
  {
    hide Listed, Each, DependenciesValue, SaysSource, SourceValues, HasField;
    SourceKeysDistinct();
    var vs := SourceValues(p, x.provenance, t);
    assert SOURCE_KEYS[..12] == SOURCE_KEYS && vs[..12] == vs;
    ListedSource(p, SOURCE_KEYS, vs, x.provenance, t);
    source := Obj(Listed(SOURCE_KEYS, vs));
    hide AllDistinct;
    var cs := ContentValues(x, t, source);
    ZipField(CONTENT_KEYS, cs, 0, "schemaVersion");
    ZipField(CONTENT_KEYS, cs, 1, "trustAtPublication");
    ZipField(CONTENT_KEYS, cs, 2, "skillId");
    ZipField(CONTENT_KEYS, cs, 3, "name");
    ZipField(CONTENT_KEYS, cs, 4, "description");
    ZipField(CONTENT_KEYS, cs, 5, "invocationMode");
    ZipField(CONTENT_KEYS, cs, 6, "instructions");
    ZipField(CONTENT_KEYS, cs, 7, "resources");
    ZipField(CONTENT_KEYS, cs, 8, "dependencies");
    ZipField(CONTENT_KEYS, cs, 9, "source");
  }

  /** The bundle record says the same, and besides the repository, the commit and the texts. */
  lemma {:induction false} BundleSays(p: Platform, x: ExternalInput, t: ExternalTexts) returns (source: Value)
    ensures var v := BundlePayload(p, x, t);
            && SaysContent(v, x, t) && HasField(v, "source", source)
            && HasField(v, "licenseText", Chars(t.license.text))
            && HasText(v, "noticeText", if t.notice.Some? then Some(t.notice.value.text) else None)
    ensures SaysSource(p, source, x.provenance, t)
    ensures HasField(source, "owner", Chars(x.provenance.owner))
    ensures HasField(source, "repository", Chars(x.provenance.repository))
    ensures HasField(source, "commitSha", Chars(x.provenance.commitSha))
  {
    hide Listed, Each, DependenciesValue, SaysSource, SourceValues, ModeText;
    BundleKeysDistinct();
    var keys, vs := BUNDLE_SOURCE_KEYS, BundleSourceValues(p, x.provenance, t);
    assert keys[..12] == SOURCE_KEYS && vs[..12] == SourceValues(p, x.provenance, t);
    ListedSource(p, keys, vs, x.provenance, t);
    ListedField(keys, vs, 12, "owner");
    ListedField(keys, vs, 13, "repository");
    ListedField(keys, vs, 14, "commitSha");
    source := Obj(Listed(keys, vs));
    BundleContentSays(x, t, source);
  }

  lemma {:induction false} BundleContentSays(x: ExternalInput, t: ExternalTexts, source: Value)
    ensures var v := Obj(Listed(BUNDLE_KEYS, BundleValues(x, t, source)));
            && SaysContent(v, x, t) && HasField(v, "source", source)
            && HasField(v, "licenseText", Chars(t.license.text))
            && HasText(v, "noticeText", if t.notice.Some? then Some(t.notice.value.text) else None)
  {
    hide Listed, Each, DependenciesValue, ModeText, HasField, HasText, SaysSkill, SaysParts, AllDistinct;
    BundleKeysDistinct();
    var bs := BundleValues(x, t, source);
    assert BUNDLE_KEYS[..10] == CONTENT_KEYS;
    assert forall i :: 0 <= i < 10 ==> BUNDLE_KEYS[i] == BUNDLE_KEYS[..10][i];
    ListedSkill(BUNDLE_KEYS, bs, x, t, source);
    ListedParts(BUNDLE_KEYS, bs, x, t, source);
    ListedField(BUNDLE_KEYS, bs, 10, "licenseText");
    ListedField(BUNDLE_KEYS, bs, 11, "noticeText");
  }

  /** A record whose list begins with the keys and values of a content. */
  predicate HoldsContent(
      keys: seq<Str>, bs: seq<Option<Value>>, x: ExternalInput, t: ExternalTexts, source: Value)
  {
    && 10 <= |keys| == |bs| && AllDistinct(keys)
    && forall i :: 0 <= i < 10 ==> keys[i] == CONTENT_KEYS[i] && bs[i] == Some(ContentValues(x, t, source)[i])
  }

  lemma {:induction false} ListedSkill(
      keys: seq<Str>, bs: seq<Option<Value>>, x: ExternalInput, t: ExternalTexts, source: Value)
    requires HoldsContent(keys, bs, x, t, source)
    ensures SaysSkill(Obj(Listed(keys, bs)), x)
  {
    hide Listed, Each, DependenciesValue, ModeText, HasField, HasText, AllDistinct;
    ListedField(keys, bs, 0, "schemaVersion");
    ListedField(keys, bs, 1, "trustAtPublication");
    ListedField(keys, bs, 2, "skillId");
    ListedField(keys, bs, 3, "name");
    ListedField(keys, bs, 4, "description");
  }

  lemma {:induction false} ListedParts(
      keys: seq<Str>, bs: seq<Option<Value>>, x: ExternalInput, t: ExternalTexts, source: Value)
    requires HoldsContent(keys, bs, x, t, source)
    ensures SaysParts(Obj(Listed(keys, bs)), x, t) && HasField(Obj(Listed(keys, bs)), "source", source)
  {
    hide Listed, Each, DependenciesValue, HasField, HasText, AllDistinct;
    ListedField(keys, bs, 5, "invocationMode");
    ListedField(keys, bs, 6, "instructions");
    ListedField(keys, bs, 7, "resources");
    ListedField(keys, bs, 8, "dependencies");
    ListedField(keys, bs, 9, "source");
  }

  /** The names under which the records hold a dependency and a resource. */
  lemma {:induction false} PartsSay(d: Dependency, q: VerifiedResource)
    requires !d.targetSkillId.ExplicitUndefined? && !d.targetRevision.ExplicitUndefined?
    ensures var v := DependencyValue(d);
            && HasField(v, "skillName", Chars(d.skillName)) && HasField(v, "required", Bool(d.required))
            && HasText(v, "targetSkillId", Shown(d.targetSkillId))
            && HasText(v, "targetRevision", Shown(d.targetRevision))
            && HasField(v, "evidenceKind", Chars(
                 match d.evidenceKind
                 case Manifest => Ascii("manifest")
                 case Frontmatter => Ascii("frontmatter")
                 case ExplicitInvocation => Ascii("explicit-invocation")))
            && HasField(v, "evidenceLocator", Chars(d.evidenceLocator))
    ensures HasField(ResourceValue(q), "content", Chars(q.content))
    ensures forall i :: 0 <= i < |MANIFEST_KEYS| ==>
              Field(MANIFEST_KEYS[i], ManifestValues(q)[i]) in ResourceValue(q).fields
  {
    hide Listed, HasField, HasText, AllDistinct;
    ContentKeysDistinct();
    var vs := DependencyValues(d);
    ListedField(DEPENDENCY_KEYS, vs, 0, "skillName");
    ListedField(DEPENDENCY_KEYS, vs, 1, "targetSkillId");
    ListedField(DEPENDENCY_KEYS, vs, 2, "targetRevision");
    ListedField(DEPENDENCY_KEYS, vs, 3, "required");
    ListedField(DEPENDENCY_KEYS, vs, 4, "evidenceKind");
    ListedField(DEPENDENCY_KEYS, vs, 5, "evidenceLocator");
    var rs := ManifestValues(q) + [Chars(q.content)];
    ZipField(RESOURCE_KEYS, rs, 4, "content");
    forall i | 0 <= i < |MANIFEST_KEYS|
      ensures Field(MANIFEST_KEYS[i], ManifestValues(q)[i]) in ResourceValue(q).fields
    {
      assert Zip(RESOURCE_KEYS, rs)[i] == Field(MANIFEST_KEYS[i], ManifestValues(q)[i]);
    }
  }
}
