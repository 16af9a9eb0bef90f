/** Which inputs are accepted as imported revisions, and what the revision then holds. */
module AcceptedImports {
  import opened Text
  import opened CanonicalJson
  import opened JsonParser
  import opened StableSort
  import opened TextNormalization
  import opened CanonicalRevision
  import opened ExternalCatalog
  import opened CanonicalRevisionV2
  import opened AcceptedRevisions
  import opened ExternalHashCoverage

  predicate NamesDiffer(ds: seq<Dependency>) {
    forall i, j :: 0 <= i < j < |ds| ==> ds[i].skillName != ds[j].skillName
  }

  predicate GoodProvenance(p: Platform, v: Provenance) {
    && IsHex(v.commitSha, 40) && v.repositoryId > 0 && v.spdxLicenseId != [] && GoodText(p, v.licenseText)
    && (v.noticeText.Present? ==> GoodText(p, v.noticeText.text))
    && (v.licenseBlobSha.Present? ==> IsHex(v.licenseBlobSha.text, 40))
    && (v.noticeBlobSha.Present? ==> IsHex(v.noticeBlobSha.text, 40))
  }

  predicate GoodSkill(p: Platform, skill: ImportedSkill) {
    && |skill.resources| <= 64 && |skill.dependencies| <= 32 && GoodText(p, skill.instructions)
    && AllGood(p, skill.resources) && PathsDiffer(skill.resources) && NamesDiffer(skill.dependencies)
  }

  function Normal(p: Platform, s: Str): NormalizedText { NormalizedText(TextOf(p, s), Utf8Length(TextOf(p, s))) }

  function TextsOf(p: Platform, x: ExternalInput): ExternalTexts {
    ExternalTexts(
      Normal(p, x.skill.instructions), Normal(p, x.provenance.licenseText),
      if x.provenance.noticeText.Present? then Some(Normal(p, x.provenance.noticeText.text)) else None,
      Sort(AllMade(p, x.skill.resources), ByPath(p.collate)),
      Sort(x.skill.dependencies, BySkillName(p.collate)))
  }

  lemma {:induction false} NamesSorted(a: seq<Dependency>, b: seq<Dependency>)
    requires multiset(a) == multiset(b) && NamesDiffer(a)
    ensures NamesDiffer(b)
  {
    SameCount(a, b);
    MultisetOfDistinct(a);
    forall i, j | 0 <= i < j < |b|
      ensures b[i].skillName != b[j].skillName
    {
      assert b[i] in multiset(a) && b[j] in multiset(a);
      if b[i] == b[j] {
        TwiceInSequence(b, i, j);
      } else {
        var k :| 0 <= k < |a| && a[k] == b[i];
        var m :| 0 <= m < |a| && a[m] == b[j];
      }
    }
  }

  lemma {:induction false} GatheredNames(p: Platform, ds: seq<Dependency>)
    ensures DistinctNames(Sort(ds, BySkillName(p.collate))) <==> NamesDiffer(ds)
  {
    hide Sort;
    var sorted := Sort(ds, BySkillName(p.collate));
    SortPermutes(ds, BySkillName(p.collate));
    assert DistinctNames(sorted) <==> NamesDiffer(sorted);
    if NamesDiffer(ds) {
      NamesSorted(ds, sorted);
    }
    if NamesDiffer(sorted) {
      NamesSorted(sorted, ds);
    }
  }

  /** The checks before anything is hashed pass exactly for good inputs; the errors that a
      classification tells apart come first. */
  lemma {:induction false} GathersImportExactly(p: Platform, x: ExternalInput)
    ensures if GoodProvenance(p, x.provenance) && GoodSkill(p, x.skill)
            then GatherExternal(p, x) == Success(TextsOf(p, x)) else GatherExternal(p, x).Failure?
    ensures GatherExternal(p, x) == Failure(LicenseMissingError) <==>
              IsHex(x.provenance.commitSha, 40) && x.provenance.repositoryId > 0 && x.provenance.spdxLicenseId == []
    ensures GatherExternal(p, x) == Failure(ResourceOversizedError) <==>
              && IsHex(x.provenance.commitSha, 40) && x.provenance.repositoryId > 0 && x.provenance.spdxLicenseId != []
              && |x.skill.resources| > 64
    ensures GatherExternal(p, x) != Failure(BundleOversizedError)
  {
    hide GoodText, TextOf, NormalizeUtf8, AllGood, PathsDiffer, DistinctPaths, DistinctNames, NamesDiffer,
      VerifyResources, Sort, IsHex;
    NormalizeExactly(p, x.skill.instructions);
    NormalizeExactly(p, x.provenance.licenseText);
    if x.provenance.noticeText.Present? {
      NormalizeExactly(p, x.provenance.noticeText.text);
    }
    VerifiedExactly(p, x.skill.resources);
    GatheredPaths(p, x.skill.resources);
    GatheredNames(p, x.skill.dependencies);
  }

  // ----- sealing

  /** No target of a dependency is explicitly undefined. */
  predicate DefinedTargets(ds: seq<Dependency>) {
    forall i :: 0 <= i < |ds| ==> !ds[i].targetSkillId.ExplicitUndefined? && !ds[i].targetRevision.ExplicitUndefined?
  }

  lemma {:induction false} DependencyPrints(d: Dependency)
    ensures Printable(DependencyValue(d))
       <==> !d.targetSkillId.ExplicitUndefined? && !d.targetRevision.ExplicitUndefined?
  {
    hide Listed;
    ContentKeysDistinct();
    var vs := DependencyValues(d);
    ListedRecord(DEPENDENCY_KEYS, vs);
    assert vs[1] == OptionalValue(d.targetSkillId) && vs[2] == OptionalValue(d.targetRevision);
    if !d.targetSkillId.ExplicitUndefined? && !d.targetRevision.ExplicitUndefined? {
      assert forall i :: 0 <= i < |vs| && vs[i].Some? ==> Printable(vs[i].value);
    }
  }

  lemma {:induction false} DependenciesPrint(ds: seq<Dependency>)
    ensures Printable(DependenciesValue(ds)) <==> DefinedTargets(ds)
  {
    hide DependencyValue;
    var v := DependenciesValue(ds);
    forall i | 0 <= i < |ds|
      ensures Printable(v.items[i])
         <==> !ds[i].targetSkillId.ExplicitUndefined? && !ds[i].targetRevision.ExplicitUndefined?
    {
      DependencyPrints(ds[i]);
    }
    assert Printable(v) <==> forall i :: 0 <= i < |v.items| ==> Printable(v.items[i]);
  }

  predicate SafeNumber(n: int) { -MAX_SAFE_INTEGER <= n <= MAX_SAFE_INTEGER }

  lemma {:induction false} ScalarsPrint(keys: seq<Str>, vs: seq<Option<Value>>)
    requires |keys| == |vs| && AllDistinct(keys)
    requires forall i :: 0 <= i < |vs| && vs[i].Some? ==>
               vs[i].value.Chars? || (vs[i].value.Num? && SafeNumber(vs[i].value.n))
    ensures WellFormed(Obj(Listed(keys, vs))) && Printable(Obj(Listed(keys, vs)))
  {
    hide Listed;
    ListedRecord(keys, vs);
  }

  lemma {:induction false} SourcesPrint(p: Platform, v: Provenance, t: ExternalTexts)
    requires SafeNumber(v.repositoryId)
    ensures Printable(Obj(Listed(SOURCE_KEYS, SourceValues(p, v, t))))
    ensures Printable(Obj(Listed(BUNDLE_SOURCE_KEYS, BundleSourceValues(p, v, t))))
    ensures WellFormed(Obj(Listed(BUNDLE_SOURCE_KEYS, BundleSourceValues(p, v, t))))
  {
    hide Listed, Printable, WellFormed;
    SourceKeysDistinct();
    BundleKeysDistinct();
    var vs, bs := SourceValues(p, v, t), BundleSourceValues(p, v, t);
    assert vs[1] == Some(Num(v.repositoryId));
    forall i | 0 <= i < |vs| && vs[i].Some?
      ensures vs[i].value.Chars? || (vs[i].value.Num? && SafeNumber(vs[i].value.n))
    {
      assert i == 1 || vs[i].value.Chars?;
    }
    hide SourceValues;
    forall i | 0 <= i < |bs| && bs[i].Some?
      ensures bs[i].value.Chars? || (bs[i].value.Num? && SafeNumber(bs[i].value.n))
    {
      assert i < 12 ==> bs[i] == vs[i];
    }
    ScalarsPrint(SOURCE_KEYS, vs);
    ScalarsPrint(BUNDLE_SOURCE_KEYS, bs);
  }

  lemma {:induction false} ContentPrints(x: ExternalInput, t: ExternalTexts, source: Value)
    requires SmallResources(t.resources) && DefinedTargets(t.dependencies) && Printable(source)
    ensures var vs := ContentValues(x, t, source); forall i :: 0 <= i < |vs| ==> Printable(vs[i])
  {
    hide DependenciesValue, Each, SmallResources, DefinedTargets;
    ResourceListRecord(t.resources);
    DependenciesPrint(t.dependencies);
    var vs := ContentValues(x, t, source);
    forall i | 0 <= i < |vs|
      ensures Printable(vs[i])
    {
      assert i == 0 || i == 7 || i == 8 || i == 9 || vs[i].Chars?;
    }
  }

  /** Both hashed records are JSON data exactly when every target is defined and the repository
      number is safe. */
  lemma {:induction false} RecordsPrint(p: Platform, x: ExternalInput, t: ExternalTexts)
    requires SmallResources(t.resources)
    ensures Canonicalize(ImmutableContent(p, x, t)).Success? && Canonicalize(BundlePayload(p, x, t)).Success?
       <==> DefinedTargets(t.dependencies) && SafeNumber(x.provenance.repositoryId)
  {
    hide Listed, Printable, WellFormed, Canonicalize, SourceValues, BundleSourceValues, ContentValues, SmallResources,
      DependenciesValue;
    if Canonicalize(ImmutableContent(p, x, t)).Success? {
      ContentPrintable(p, x, t);
      DependenciesPrint(t.dependencies);
    }
    if DefinedTargets(t.dependencies) && SafeNumber(x.provenance.repositoryId) {
      RecordsWellFormed(p, x, t);
      SourcesPrint(p, x.provenance, t);
      var source := Obj(Listed(SOURCE_KEYS, SourceValues(p, x.provenance, t)));
      ContentPrints(x, t, source);
      ContentKeysDistinct();
      RecordWellFormedPrintable(CONTENT_KEYS, ContentValues(x, t, source));
      CanonicalizeRoundTrip(ImmutableContent(p, x, t));
      BundlePrints(x, t, Obj(Listed(BUNDLE_SOURCE_KEYS, BundleSourceValues(p, x.provenance, t))));
      CanonicalizeRoundTrip(BundlePayload(p, x, t));
    }
  }

  lemma {:induction false} BundlePrints(x: ExternalInput, t: ExternalTexts, source: Value)
    requires SmallResources(t.resources) && DefinedTargets(t.dependencies)
    requires Printable(source) && WellFormed(source)
    ensures Printable(Obj(Listed(BUNDLE_KEYS, BundleValues(x, t, source))))
  {
    hide Listed, Printable, WellFormed, ContentValues, SmallResources, DefinedTargets;
    ContentPrints(x, t, source);
    ContentWellFormed(x, t, source);
    BundleKeysDistinct();
    var cs, bs := ContentValues(x, t, source), BundleValues(x, t, source);
    forall i | 0 <= i < |bs| && bs[i].Some?
      ensures WellFormed(bs[i].value) && Printable(bs[i].value)
    {
      if i < 10 {
        assert bs[i] == Some(cs[i]);
      } else {
        CharsArePlain(bs[i].value);
      }
    }
    ListedRecord(BUNDLE_KEYS, bs);
  }

  // ----- imported revisions

  /** The bytes of the bundle of an input. */
  function BundleOf(p: Platform, x: ExternalInput): Str { CanonicalText(BundlePayload(p, x, TextsOf(p, x))) }

  predicate AcceptedImport(p: Platform, x: ExternalInput) {
    && GoodProvenance(p, x.provenance) && GoodSkill(p, x.skill)
    && x.provenance.repositoryId <= MAX_SAFE_INTEGER && DefinedTargets(x.skill.dependencies)
    && Utf8Length(BundleOf(p, x)) <= 2 * 1024 * 1024
  }

  lemma {:induction false} TargetsSorted(ds: seq<Dependency>, le: (Dependency, Dependency) -> bool)
    ensures DefinedTargets(Sort(ds, le)) <==> DefinedTargets(ds)
  {
    SortMembers(ds, le);
    hide Sort;
    var sorted := Sort(ds, le);
    forall i | 0 <= i < |ds|
      ensures ds[i] in sorted
    {
      assert ds[i] in ds;
    }
    forall i | 0 <= i < |sorted|
      ensures sorted[i] in ds
    {
      assert sorted[i] in sorted;
    }
  }

  lemma {:induction false} ImportReady(p: Platform, x: ExternalInput)
    requires TotalPreorder(p.collate) && GoodProvenance(p, x.provenance) && GoodSkill(p, x.skill)
    ensures var t := TextsOf(p, x);
            && SmallResources(t.resources) && x.provenance.repositoryId > 0
            && (DefinedTargets(t.dependencies) <==> DefinedTargets(x.skill.dependencies))
  {
    hide GoodText, TextOf, AllGood, PathsDiffer, NamesDiffer, Sort, IsHex, DefinedTargets;
    TargetsSorted(x.skill.dependencies, BySkillName(p.collate));
    ResourcesSorted(p, x.skill.resources);
  }

  lemma {:induction false} SealsImport(p: Platform, x: ExternalInput)
    requires TotalPreorder(p.collate) && GoodProvenance(p, x.provenance) && GoodSkill(p, x.skill)
    ensures var sealed := SealExternal(p, x, TextsOf(p, x));
            && (sealed.Success? <==> AcceptedImport(p, x))
            && sealed != Failure(LicenseMissingError) && sealed != Failure(ResourceOversizedError)
            && (sealed == Failure(BundleOversizedError) <==>
                  && x.provenance.repositoryId <= MAX_SAFE_INTEGER && DefinedTargets(x.skill.dependencies)
                  && Utf8Length(BundleOf(p, x)) > 2 * 1024 * 1024)
  {
    hide GoodProvenance, GoodSkill, TextsOf, Canonicalize, ImmutableContent, BundlePayload, CanonicalText,
      DefinedTargets;
    ImportReady(p, x);
    RecordsPrint(p, x, TextsOf(p, x));
    PrintedAs(BundlePayload(p, x, TextsOf(p, x)));
  }

  /** An imported revision is created exactly from an accepted input; the errors that a
      classification tells apart are given exactly when theirs is the first that applies. */
  lemma {:induction false} AcceptedImportExactly(p: Platform, x: ExternalInput)
    requires TotalPreorder(p.collate)
    ensures CreateExternalSkillRevision(p, x).Success? <==> AcceptedImport(p, x)
    ensures CreateExternalSkillRevision(p, x) == Failure(LicenseMissingError) <==>
              IsHex(x.provenance.commitSha, 40) && x.provenance.repositoryId > 0 && x.provenance.spdxLicenseId == []
    ensures CreateExternalSkillRevision(p, x) == Failure(ResourceOversizedError) <==>
              && IsHex(x.provenance.commitSha, 40) && x.provenance.repositoryId > 0
              && x.provenance.spdxLicenseId != [] && |x.skill.resources| > 64
    ensures CreateExternalSkillRevision(p, x) == Failure(BundleOversizedError) <==>
              && GoodProvenance(p, x.provenance) && GoodSkill(p, x.skill)
              && x.provenance.repositoryId <= MAX_SAFE_INTEGER && DefinedTargets(x.skill.dependencies)
              && Utf8Length(BundleOf(p, x)) > 2 * 1024 * 1024
  {
    hide GatherExternal, SealExternal, IsHex, GoodProvenance, GoodSkill, BundleOf, DefinedTargets;
    GathersImportExactly(p, x);
    if GatherExternal(p, x).Success? {
      GoodImport(p, x);
      SealsImport(p, x);
    }
  }

  lemma {:induction false} GoodImport(p: Platform, x: ExternalInput)
    requires GoodProvenance(p, x.provenance) && GoodSkill(p, x.skill)
    ensures x.provenance.spdxLicenseId != [] && |x.skill.resources| <= 64
  {}

  /** What a revision holds of its input: the normalised texts, its resources and dependencies in
      order, and the provenance given but for its two texts. */
  predicate Holds(p: Platform, x: ExternalInput, r: ExternalRevision) {
    && r.skillId == x.skillId && r.name == x.skill.name && r.description == x.skill.description
    && r.invocationMode == x.skill.invocationMode && r.instructions == TextOf(p, x.skill.instructions)
    && r.provenance == ImportedProvenance(p, x.provenance) && r.canonicalBytes == BundleOf(p, x)
    && multiset(r.resources) == multiset(AllMade(p, x.skill.resources))
    && (forall i, j :: 0 <= i < j < |r.resources| ==> p.collate(r.resources[i].path, r.resources[j].path))
    && multiset(r.dependencies) == multiset(x.skill.dependencies)
    && (forall i, j :: 0 <= i < j < |r.dependencies| ==>
          p.collate(r.dependencies[i].skillName, r.dependencies[j].skillName))
  }

  lemma {:induction false} ImportHolds(p: Platform, x: ExternalInput)
    requires TotalPreorder(p.collate) && CreateExternalSkillRevision(p, x).Success?
    ensures Holds(p, x, CreateExternalSkillRevision(p, x).value)
  {
    GathersImportExactly(p, x);
    SealedHashes(p, x);
    GoodSkillParts(p, x);
    hide CreateExternalSkillRevision, GatherExternal, Canonicalize, BundlePayload, ImmutableContent, CanonicalText,
      Sort, GoodText, TextOf, AllGood;
    ResourcesSorted(p, x.skill.resources);
    DependenciesOrdered(p, x.skill.dependencies);
    PrintedAs(BundlePayload(p, x, TextsOf(p, x)));
  }

  lemma {:induction false} GoodSkillParts(p: Platform, x: ExternalInput)
    requires GatherExternal(p, x).Success?
    ensures AllGood(p, x.skill.resources)
  {
    hide GatherExternal;
    GathersImportExactly(p, x);
  }

  /** The provenance a revision carries: texts normalised, everything else as given. */
  function ImportedProvenance(p: Platform, v: Provenance): Provenance {
    v.(licenseText := TextOf(p, v.licenseText),
       noticeText := if v.noticeText.Present? then Present(TextOf(p, v.noticeText.text)) else v.noticeText)
  }

  lemma {:induction false} ResourcesSorted(p: Platform, inputs: seq<ResourceInput>)
    requires TotalPreorder(p.collate) && AllGood(p, inputs)
    ensures var rs := Sort(AllMade(p, inputs), ByPath(p.collate));
            && multiset(rs) == multiset(AllMade(p, inputs)) && SmallResources(rs)
            && forall i, j :: 0 <= i < j < |rs| ==> p.collate(rs[i].path, rs[j].path)
  {
    hide Sort, AllGood;
    var made := AllMade(p, inputs);
    var rs := Sort(made, ByPath(p.collate));
    SortPermutes(made, ByPath(p.collate));
    ByPathTotal(p.collate);
    SortSorted(made, ByPath(p.collate));
    GoodBytes(p, inputs, rs);
    assert forall i, j :: 0 <= i < j < |rs| ==> ByPath(p.collate)(rs[i], rs[j]);
  }

  lemma {:induction false} DependenciesOrdered(p: Platform, ds: seq<Dependency>)
    requires TotalPreorder(p.collate)
    ensures var sorted := Sort(ds, BySkillName(p.collate));
            && multiset(sorted) == multiset(ds)
            && forall i, j :: 0 <= i < j < |sorted| ==> p.collate(sorted[i].skillName, sorted[j].skillName)
  {
    hide Sort;
    var order := BySkillName(p.collate);
    var sorted := Sort(ds, order);
    BySkillNameTotal(p.collate);
    SortPermutes(ds, order);
    SortSorted(ds, order);
    assert forall i, j :: 0 <= i < j < |sorted| ==> order(sorted[i], sorted[j]);
  }
}
