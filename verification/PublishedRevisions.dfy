/** What a published revision holds of the candidate it was built from. */
module PublishedRevisions {
  import opened Text
  import opened StableSort
  import opened CanonicalRevision
  import opened ExternalCatalog
  import opened CanonicalRevisionV2
  import opened Eligibility
  import opened RevisionBuild
  import opened AcceptedRevisions
  import opened AcceptedImports

  /** An optional property that is left out when it is undefined. */
  predicate Spread(given: Optional, stored: Optional) { stored == if given.Present? then given else Absent }

  /** The provenance of a revision, property by property. */
  predicate ProvenanceFrom(x: BuildContext, c: Candidate, legal: Legal, v: Provenance) {
    && v.repositoryId == x.repositoryId && v.owner == x.owner && v.repository == x.repository
    && v.commitSha == x.commitSha && v.skillPath == c.skillPath
    && v.sourceOwner == legal.attribution && v.spdxLicenseId == legal.spdxLicenseId
    && v.licenseText == TextOf(x.platform, legal.licenseText)
    && v.licenseEvidencePath == Present(legal.licenseEvidencePath)
    && v.licenseBlobSha == Present(legal.licenseBlobSha)
    && Spread(legal.skillDeclaredSpdxId, v.skillDeclaredSpdxId)
    && Spread(legal.noticeEvidencePath, v.noticeEvidencePath) && Spread(legal.noticeBlobSha, v.noticeBlobSha)
    && v.noticeText == if legal.noticeText.Present? then Present(TextOf(x.platform, legal.noticeText.text)) else Absent
  }

  /** A dependency of a revision: that of the candidate, with its target filled in. */
  predicate FilledIn(d: Dependency, e: Dependency, target: ExternalRevision) {
    && e.skillName == d.skillName && e.required == d.required && e.evidenceKind == d.evidenceKind
    && e.evidenceLocator == d.evidenceLocator
    && e.targetSkillId == Present(target.skillId) && e.targetRevision == Present(target.revision)
  }

  /** The document, resources and provenance of a revision. */
  predicate BuiltFrom(x: BuildContext, c: Candidate, r: ExternalRevision) {
    && c.document.Some? && c.legal.Some?
    && var document := c.document.value;
       && x.publicSkillId(document.name, c.skillPath) == Result.Success(r.skillId)
       && r.name == document.name && r.description == document.description
       && r.invocationMode == document.invocationMode
       && r.instructions == TextOf(x.platform, document.instructions)
       && multiset(r.resources) == multiset(AllMade(x.platform, c.resources))
       && ProvenanceFrom(x, c, c.legal.value, r.provenance)
  }

  lemma {:induction false} ConstructedFrom(x: BuildContext, c: Candidate, es: seq<Dependency>)
    requires TotalPreorder(x.platform.collate) && c.document.Some? && c.legal.Some? && Construct(x, c, es).Success?
    ensures var r := Construct(x, c, es).value;
            BuiltFrom(x, c, r) && multiset(r.dependencies) == multiset(es)
  {
    hide CreateExternalSkillRevision, TextOf, BundleOf;
    var document := c.document.value;
    ImportHolds(x.platform,
      ExternalInput(x.publicSkillId(document.name, c.skillPath).value, ProvenanceOf(x, c),
        ImportedSkill(document.name, document.description, document.instructions,
                      document.invocationMode, c.resources, es)));
  }

  /** A published revision holds its candidate's document, resources and legal facts, and each of its
      dependencies with the id and revision built for the target. */
  lemma {:induction false} PublishedFrom(
      x: BuildContext, cs: seq<Candidate>, s: set<nat>, rank: nat -> nat, i: nat)
    requires TotalPreorder(x.platform.collate) && Buildable(cs, s, rank) && i in s
    requires Build(x, cs, s, rank, i).Success?
    ensures var r := Build(x, cs, s, rank, i).value;
            && BuiltFrom(x, cs[i], r) && |r.dependencies| == |cs[i].dependencies|
            && forall d :: d in cs[i].dependencies ==> IsFilled(x, cs, s, rank, r, d)
  {
    hide Construct, BuiltFrom, IsFilled;
    var n := |cs[i].dependencies|;
    var es := BuildDependencies(x, cs, s, rank, i, n).value;
    DependenciesPinned(x, cs, s, rank, i, n);
    ConstructedFrom(x, cs[i], es);
    var r := Build(x, cs, s, rank, i).value;
    SameCount(r.dependencies, es);
    forall d | d in cs[i].dependencies
      ensures IsFilled(x, cs, s, rank, r, d)
    {
      var k :| 0 <= k < n && cs[i].dependencies[k] == d;
      FillsIn(x, cs, s, rank, r, d, es, k);
    }
  }

  /** The revision has that dependency, filled in with what was built for its target. */
  ghost predicate IsFilled(
      x: BuildContext, cs: seq<Candidate>, s: set<nat>, rank: nat -> nat, r: ExternalRevision, d: Dependency)
    requires Buildable(cs, s, rank)
  {
    && Available(cs, s, d) && Build(x, cs, s, rank, FindByName(cs, d.skillName).value).Success?
    && exists e :: e in r.dependencies && FilledIn(d, e, Build(x, cs, s, rank, FindByName(cs, d.skillName).value).value)
  }

  lemma {:induction false} FillsIn(
      x: BuildContext, cs: seq<Candidate>, s: set<nat>, rank: nat -> nat, r: ExternalRevision, d: Dependency,
      es: seq<Dependency>, k: nat)
    requires Buildable(cs, s, rank) && multiset(r.dependencies) == multiset(es)
    requires k < |es| && PinsTo(x, cs, s, rank, d, es[k])
    ensures IsFilled(x, cs, s, rank, r, d)
  {
    hide Build;
    assert es[k] in multiset(r.dependencies);
    var j := FindByName(cs, d.skillName).value;
    assert FilledIn(d, es[k], Build(x, cs, s, rank, j).value);
  }
}
