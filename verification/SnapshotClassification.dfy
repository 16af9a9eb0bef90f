/** The whole second half of a synchronisation, from staged candidates to classified results. */
module SnapshotClassification {
  import opened Text
  import opened ExternalCatalog
  import opened DependencyResolver
  import opened Eligibility
  import opened CanonicalRevisionV2
  import opened RevisionBuild
  import opened SourceSync
  import opened FirstPaths
  import opened Admission

  datatype Classification = Verified | Quarantined

  datatype CandidateResult = CandidateResult(
    skillPath: Str,
    name: Str,
    description: Str,
    classification: Classification,
    findings: seq<Finding>,
    revision: Option<ExternalRevision>)

  /** The finding code of a thrown error; errors the table does not list are schema errors. */
  function FindingFromError(e: ImportError, subjectId: Str): Finding {
    match e
    case LicenseMissingError => Finding(LicenseMissing, subjectId)
    case ResourceOversizedError | BundleOversizedError => Finding(ResourceOversized, subjectId)
    case _ => Finding(SchemaInvalid, subjectId)
  }

  function FallbackName(x: BuildContext, skillPath: Str): Str {
    var digest := x.platform.sha256Hex(skillPath);
    Ascii("invalid-") + digest[..if |digest| < 12 then |digest| else 12]
  }

  function Describe(
      x: BuildContext, c: Candidate, classification: Classification, findings: seq<Finding>,
      revision: Option<ExternalRevision>)
    : CandidateResult
  {
    var name := if c.document.Some? then c.document.value.name else FallbackName(x, c.skillPath);
    var description := if c.document.Some? then c.document.value.description
                       else Ascii("Candidate failed structural validation.");
    CandidateResult(c.skillPath, name, description, classification, findings, revision)
  }

  /** A result names its candidate: by its document, or by its path when it has none. */
  predicate Names(x: BuildContext, c: Candidate, r: CandidateResult) {
    && r.skillPath == c.skillPath
    && match c.document
       case Some(document) => r.name == document.name && r.description == document.description
       case None =>
         var digest := x.platform.sha256Hex(c.skillPath);
         && r.name == Ascii("invalid-") + (if |digest| < 12 then digest else digest[..12])
         && r.description == Ascii("Candidate failed structural validation.")
  }

  /** What a failed construction is reported as. */
  predicate ReportsFailure(r: CandidateResult, e: ImportError) {
    r.findings == [Finding(
      if e == LicenseMissingError then LicenseMissing
      else if e == ResourceOversizedError || e == BundleOversizedError then ResourceOversized
      else SchemaInvalid, r.skillPath)]
  }

  /** The result a candidate is owed. */
  ghost predicate Classified(
      x: BuildContext, cs: seq<Candidate>, s: set<nat>, rank: nat -> nat, i: nat, r: CandidateResult)
    requires Buildable(cs, s, rank) && i < |cs|
  {
    && Names(x, cs[i], r)
    && if i in s then
         match Build(x, cs, s, rank, i)
         case Success(revision) => r.classification == Verified && r.revision == Some(revision) && r.findings == []
         case Failure(e) => r.classification == Quarantined && r.revision == None && ReportsFailure(r, e)
       else r.classification == Quarantined && r.revision == None && r.findings != []
  }

  /** A candidate that is not clean is reported with its findings. */
  predicate KeepsFindings(c: Candidate, r: CandidateResult) {
    !IsClean(c) ==> r.findings == if c.findings == [] then [Finding(SchemaInvalid, c.skillPath)] else c.findings
  }

  /** What a batch of results guarantees about the dependencies of its revisions. */
  ghost predicate PublicationClosed(results: seq<CandidateResult>) {
    forall i, e :: 0 <= i < |results| && results[i].revision.Some?
                   && e in results[i].revision.value.dependencies ==>
      exists j :: 0 <= j < |results| && j != i && results[j].revision.Some?
                  && Records(e, results[j].revision.value)
  }

  method IndexEligible(staged: seq<StagedCandidate>) returns (eligibleByName: map<Str, nat>)
    requires UniqueNames(Views(staged))
    ensures Indexes(eligibleByName, Views(staged), Clean(Views(staged)))
  {
    hide FindByName, UniqueNames, GraphOf;
    ghost var cs := Views(staged);
    eligibleByName := map[];
    for i := 0 to |staged|
      invariant forall name :: name in eligibleByName ==>
        eligibleByName[name] < i && eligibleByName[name] in Clean(cs)
        && FindByName(cs, name) == Some(eligibleByName[name])
      invariant forall k :: 0 <= k < i && k in Clean(cs) ==>
        cs[k].document.value.name in eligibleByName
        && eligibleByName[cs[k].document.value.name] == k
    {
      if staged[i].document.Some? && staged[i].findings == [] {
        CleanEdges(cs, i);
        eligibleByName := eligibleByName[staged[i].document.value.name := i];
      }
    }
  }

  /** Classifies every candidate: verified with its revision when it is eligible and its revision
      can be built, quarantined otherwise. */
  method ClassifyCandidates(
      x: BuildContext, staged: seq<StagedCandidate>, ghost eligible: set<nat>, ghost rank: nat -> nat)
    returns (results: seq<CandidateResult>)
    requires eligible == Clean(Views(staged)) && UniqueNames(Views(staged))
    requires Buildable(Views(staged), eligible, rank)
    ensures |results| == |staged|
    ensures forall i :: 0 <= i < |staged| ==>
              Classified(x, Views(staged), eligible, rank, i, results[i]) && KeepsFindings(Views(staged)[i], results[i])
  {
    hide KeepsFindings, Build, Buildable, Indexes, UniqueNames, RevisionBuilder.Valid, Classified, Clean, FindByName;
    var cs := Views(staged);
    var eligibleByName := IndexEligible(staged);
    var builder := new RevisionBuilder(x, cs, eligibleByName, eligible, rank);
    results := [];
    for i := 0 to |staged|
      invariant builder.Valid()
      invariant builder.context == x && builder.candidates == cs
      invariant builder.eligible == eligible && builder.rank == rank
      invariant |results| == i
      invariant forall k :: 0 <= k < i ==>
        Classified(x, cs, eligible, rank, k, results[k]) && KeepsFindings(cs[k], results[k])
      invariant Views(staged) == cs
    {
      var result := ClassifyOne(builder, i);
      results := results + [result];
    }
  }

  method ClassifyOne(builder: RevisionBuilder, i: nat) returns (r: CandidateResult)
    requires builder.Valid() && i < |builder.candidates|
    requires builder.eligible == Clean(builder.candidates)
    modifies builder
    ensures builder.Valid()
    ensures Buildable(builder.candidates, builder.eligible, builder.rank)
    ensures Classified(builder.context, builder.candidates, builder.eligible, builder.rank, i, r)
    ensures KeepsFindings(builder.candidates[i], r)
  {
    hide Build, Buildable, UniqueNames, Describe, Names, ReportsFailure, FindingFromError, RevisionBuilder.Valid;
    var x, c := builder.context, builder.candidates[i];
    BuilderReady(builder);
    if c.document.None? || c.findings != [] {
      var findings := if c.findings == [] then [FindingFromError(SkillSchemaInvalid, c.skillPath)]
                      else c.findings;
      DescribesIt(x, c, Quarantined, findings, None);
      SchemaFinding(c.skillPath);
      return Describe(x, c, Quarantined, findings, None);
    }
    var built := builder.BuildRevision(i);
    match built
    case Success(revision) =>
      DescribesIt(x, c, Verified, [], Some(revision));
      return Describe(x, c, Verified, [], Some(revision));
    case Failure(e) =>
      DescribesIt(x, c, Quarantined, [FindingFromError(e, c.skillPath)], None);
      ReportsIt(x, c, e);
      return Describe(x, c, Quarantined, [FindingFromError(e, c.skillPath)], None);
  }

  lemma {:induction false} BuilderReady(builder: RevisionBuilder)
    requires builder.Valid()
    ensures Buildable(builder.candidates, builder.eligible, builder.rank)
  {}

  lemma {:induction false} SchemaFinding(skillPath: Str)
    ensures FindingFromError(SkillSchemaInvalid, skillPath) == Finding(SchemaInvalid, skillPath)
  {}

  lemma {:induction false} DescribesIt(
      x: BuildContext, c: Candidate, classification: Classification, findings: seq<Finding>,
      revision: Option<ExternalRevision>)
    ensures var r := Describe(x, c, classification, findings, revision);
            && Names(x, c, r) && r.classification == classification && r.findings == findings
            && r.revision == revision
  {}

  lemma {:induction false} ReportsIt(x: BuildContext, c: Candidate, e: ImportError)
    ensures ReportsFailure(Describe(x, c, Quarantined, [FindingFromError(e, c.skillPath)], None), e)
  {}

  // ----- from resolved candidates to the final ones

  lemma {:induction false} SameButFindingsBuilds(cs: seq<Candidate>, ds: seq<Candidate>)
    requires SameButFindings(cs, ds)
    ensures SameBuild(cs, ds)
  {
    forall name
      ensures FindByName(cs, name) == FindByName(ds, name)
    {
      SameFinds(cs, ds, name);
    }
  }

  lemma {:induction false} TransferBuildable(
      cs: seq<Candidate>, ds: seq<Candidate>, s: set<nat>, rank: nat -> nat)
    requires SameBuild(cs, ds) && Grounded(cs, s, rank) && s == Clean(ds)
    ensures Buildable(ds, s, rank)
  {
    forall i, d | i in s && i < |ds| && d in ds[i].dependencies
      ensures Available(ds, s, d)
    {
      assert ds[i].(findings := cs[i].findings) == cs[i];
      assert d in cs[i].dependencies && Available(cs, s, d);
    }
    forall i: nat, j: nat | i in s && DependsOn(ds, i, j)
      ensures rank(j) < rank(i)
    {
      var d :| d in ds[i].dependencies && FindByName(ds, d.skillName) == Some(j);
      assert ds[i].(findings := cs[i].findings) == cs[i];
      assert DependsOn(cs, i, j);
    }
  }

  lemma {:induction false} TransferUnique(cs: seq<Candidate>, ds: seq<Candidate>)
    requires SameButFindings(cs, ds) && UniqueNames(cs)
    requires Clean(ds) <= Clean(cs)
    ensures UniqueNames(ds)
  {
    forall i: nat, j: nat | i < |ds| && j < |ds| && IsClean(ds[i]) && i != j
      ensures !Named(ds[j], ds[i].document.value.name)
    {
      assert ds[i].(findings := cs[i].findings) == cs[i];
      assert ds[j].(findings := cs[j].findings) == cs[j];
      assert i in Clean(ds);
    }
  }

  /** Adding a finding to the marked candidates leaves exactly the unmarked clean ones. */
  lemma {:induction false} CleanAfterMarking(
      cs: seq<Candidate>, ds: seq<Candidate>, members: set<Str>)
    requires MarkedFor(cs, ds, members)
    ensures SameButFindings(cs, ds) && Clean(ds) == Unmarked(cs, members)
  {
    forall i: nat | i < |cs|
      ensures i in Clean(ds) <==> i in Unmarked(cs, members)
    {
      assert MarkedAt(cs, ds, members, i);
      assert ds[i].(findings := cs[i].findings) == cs[i];
    }
  }

  lemma {:induction false} TransferGreatest(
      cs: seq<Candidate>, ds: seq<Candidate>, within: set<nat>, s: set<nat>)
    requires SameButFindings(cs, ds) && IsGreatestClosed(ds, within, s)
    ensures IsGreatestClosed(cs, within, s)
  {
    SameButFindingsBuilds(cs, ds);
    forall t
      ensures ClosedUnder(cs, t) <==> ClosedUnder(ds, t)
    {
      TransferClosed(cs, ds, t);
    }
  }

  lemma {:induction false} TransferClosed(cs: seq<Candidate>, ds: seq<Candidate>, t: set<nat>)
    requires SameBuild(cs, ds)
    ensures ClosedUnder(cs, t) <==> ClosedUnder(ds, t)
  {
    forall i, d | i in t && i < |cs|
      ensures d in cs[i].dependencies <==> d in ds[i].dependencies
      ensures Available(cs, t, d) <==> Available(ds, t, d)
    {
      assert ds[i].(findings := cs[i].findings) == cs[i];
    }
  }

  lemma {:induction false} SameButFindingsTransitive(
      cs: seq<Candidate>, ds: seq<Candidate>, es: seq<Candidate>)
    requires SameButFindings(cs, ds) && SameButFindings(ds, es)
    ensures SameButFindings(cs, es)
  {
    forall i | 0 <= i < |cs|
      ensures es[i].(findings := cs[i].findings) == cs[i]
    {
      assert ds[i].(findings := cs[i].findings) == cs[i];
      assert es[i].(findings := ds[i].findings) == ds[i];
    }
  }

  /** The candidate is the first of its name, and its name is on a first path closed to a cycle. */
  ghost predicate IsMarked(cs: seq<Candidate>, i: nat) {
    exists name :: OnFirstCycle(GraphOf(cs), NamesOf(cs), name) && FindByName(cs, name) == Some(i)
  }

  /** What a candidate's findings become: one for its cycle is added; or, when it has none and is on
      no cycle, one for a dependency that no eligible candidate meets. */
  ghost predicate Disqualified(cs: seq<Candidate>, eligible: set<nat>, i: nat, findings: seq<Finding>)
    requires i < |cs|
  {
    || findings == cs[i].findings
         + (if cs[i].document.Some? && IsMarked(cs, i)
            then [Finding(DependencyCycle, cs[i].document.value.name)] else [])
    || (IsClean(cs[i]) && !IsMarked(cs, i) && exists d :: LacksTarget(cs, eligible, i, d, findings))
  }

  ghost predicate LacksTarget(cs: seq<Candidate>, eligible: set<nat>, i: nat, d: Dependency, findings: seq<Finding>)
    requires i < |cs|
  {
    && cs[i].document.Some? && d in cs[i].dependencies && !Available(cs, eligible, d)
    && findings == [Finding(DependencyMissing, cs[i].document.value.name + Ascii(":") + d.skillName)]
  }

  lemma {:induction false} DisqualifiedSo(
      cs: seq<Candidate>, marked: seq<Candidate>, ds: seq<Candidate>, members: set<Str>, i: nat)
    requires i < |cs| && MarkedFor(cs, marked, members) && SameButFindings(marked, ds)
    requires forall name :: name in members <==> OnFirstCycle(GraphOf(cs), NamesOf(cs), name)
    requires KeptOrLost(marked[i], ds, ds[i].findings)
    ensures Disqualified(cs, Clean(ds), i, ds[i].findings)
  {
    hide OnFirstCycle, GraphOf, NamesOf, Clean, FindByName;
    assert MarkedAt(cs, marked, members, i);
    assert marked[i].(findings := cs[i].findings) == cs[i];
    assert CycleMarked(cs, members, i) <==> IsMarked(cs, i);
    if CycleMarked(cs, members, i) {
      var name :| name in members && FindByName(cs, name) == Some(i);
    }
    if ds[i].findings != marked[i].findings {
      var d :| LostBecause(marked[i], ds, ds[i].findings, d);
      SameFinds(cs, marked, d.skillName);
      SameFinds(marked, ds, d.skillName);
      assert Ascii(":") == [COLON];
      assert LacksTarget(cs, Clean(ds), i, d, ds[i].findings);
    }
  }

  /** Cycle marking and propagation leave clean exactly the greatest sound set of the resolved
      candidates, together with a measure for it, and give the others their findings. */
  method Disqualify(staged: seq<StagedCandidate>)
    returns (ghost eligible: set<nat>, ghost rank: nat -> nat)
    requires Distinct(staged) && UniqueNames(Views(staged))
    modifies staged
    ensures var cs, ds := old(Views(staged)), Views(staged);
            && SameButFindings(cs, ds) && UniqueNames(ds)
            && eligible == Clean(ds)
            && IsGreatestSound(cs, eligible)
            && Grounded(cs, eligible, rank) && Buildable(ds, eligible, rank)
            && forall i :: 0 <= i < |cs| ==> Disqualified(cs, eligible, i, ds[i].findings)
  {
    hide Disqualified, OnFirstCycle, MarksCycles, IsClosedWalk, IsFinishingOrder, UniqueNames, IsGreatestSound,
      IsGreatestClosed, Grounded, Buildable, Clean, SameButFindings, MarkedFor, SameBuild, KeptOrLost, Unmarked;
    ghost var cs := Views(staged);
    var graph := BuildGraph(staged);
    var names, duplicates := CollectNames(staged);
    GraphNames(cs);
    ghost var order;
    var members;
    members, order := DependencyCycleMembers(graph, names);
    MarkCycleMembers(staged, members);
    ghost var marked := Views(staged);
    CleanAfterMarking(cs, marked, members);
    Propagate(staged);
    ghost var ds := Views(staged);
    eligible, rank := Clean(ds), NameRank(cs, order);
    forall i | 0 <= i < |cs|
      ensures Disqualified(cs, eligible, i, ds[i].findings)
    {
      DisqualifiedSo(cs, marked, ds, members, i);
    }
    TransferGreatest(cs, marked, Unmarked(cs, members), eligible);
    SurvivorsAreGreatestSound(cs, members, order, eligible);
    SameButFindingsTransitive(cs, marked, ds);
    SameButFindingsBuilds(cs, ds);
    TransferBuildable(cs, ds, eligible, rank);
    SoundIsClean(cs, eligible);
    TransferUnique(cs, ds);
  }

  lemma {:induction false} SoundIsClean(cs: seq<Candidate>, s: set<nat>)
    requires IsGreatestSound(cs, s)
    ensures s <= Clean(cs)
  {}

  lemma {:induction false} GraphNames(cs: seq<Candidate>)
    ensures forall name :: name in GraphOf(cs) <==> name in NamesOf(cs)
  {
    if cs != [] {
      GraphNames(cs[..|cs| - 1]);
    }
  }

  /** The findings of a candidate that is not eligible. */
  ghost predicate Explained(cs: seq<Candidate>, eligible: set<nat>, i: nat, r: CandidateResult)
    requires i < |cs|
  {
    i !in eligible ==> exists findings :: Disqualified(cs, eligible, i, findings) && Shows(cs[i], r, findings)
  }

  predicate Shows(c: Candidate, r: CandidateResult, findings: seq<Finding>) {
    r.findings == if findings == [] then [Finding(SchemaInvalid, c.skillPath)] else findings
  }

  /** From staged candidates to classified results. Clean after resolution are exactly the admissible
      candidates; eligible are the greatest set of these that is closed under dependencies and free
      of cycles; a candidate is verified exactly when it is eligible and its revision can be built,
      and otherwise shows why not; and every dependency of a published revision records a revision
      published in the same batch. */
  method ClassifySnapshot(
      x: BuildContext, maximumDependencies: nat, staged: seq<StagedCandidate>, bundles: seq<Bundle>)
    returns (results: seq<CandidateResult>, ghost eligible: set<nat>, ghost rank: nat -> nat)
    requires Distinct(staged) && |bundles| == |staged|
    modifies staged
    ensures var cs := ResolvedCandidates(
              x.platform.collate, maximumDependencies, old(Views(staged)), bundles);
            && IsGreatestSound(cs, eligible) && Buildable(cs, eligible, rank)
            && |results| == |cs|
            && (forall i :: 0 <= i < |cs| ==> Classified(x, cs, eligible, rank, i, results[i]))
            && (forall i :: 0 <= i < |cs| ==> Explained(cs, eligible, i, results[i]))
            && Clean(cs) == AdmissibleSet(maximumDependencies, old(Views(staged)), bundles)
    ensures forall i :: 0 <= i < |staged| && results[i].classification == Verified ==>
              Admissible(maximumDependencies, old(Views(staged)), bundles, i)
    ensures PublicationClosed(results)
  {
    hide IsGreatestSound, UniqueNames, ResolvedCandidates, Grounded, Admissible, Explained, Disqualified, KeepsFindings,
      Classified, Buildable, Clean;
    ghost var before := Views(staged);
    ResolvedNamesUnique(x.platform.collate, maximumDependencies, Views(staged), bundles);
    CleanSetExactly(x.platform.collate, maximumDependencies, before, bundles);
    ResolveCandidates(x.platform.collate, maximumDependencies, staged, bundles);
    ghost var cs := Views(staged);
    eligible, rank := Disqualify(staged);
    ghost var ds := Views(staged);
    SoundIsClean(cs, eligible);
    results := ClassifyCandidates(x, staged, eligible, rank);
    SameButFindingsBuilds(cs, ds);
    TransferBack(cs, ds, eligible, rank);
    ClassifiedAlike(x, cs, ds, eligible, rank, results);
    ClassifiedIsClosed(x, cs, eligible, rank, results);
    forall i | 0 <= i < |cs|
      ensures Explained(cs, eligible, i, results[i])
      ensures results[i].classification == Verified ==> i in Clean(cs)
    {
      ShowsItsFindings(cs, ds, eligible, i, results[i]);
      VerifiedIsEligible(x, cs, eligible, rank, i, results[i]);
    }
  }

  lemma {:induction false} TransferBack(cs: seq<Candidate>, ds: seq<Candidate>, s: set<nat>, rank: nat -> nat)
    requires s <= Clean(cs) && Grounded(cs, s, rank)
    ensures Buildable(cs, s, rank)
  {}

  lemma {:induction false} VerifiedIsEligible(
      x: BuildContext, cs: seq<Candidate>, s: set<nat>, rank: nat -> nat, i: nat, r: CandidateResult)
    requires Buildable(cs, s, rank) && i < |cs| && Classified(x, cs, s, rank, i, r)
    ensures r.classification == Verified ==> i in s
  {
    hide Build;
  }

  lemma {:induction false} ShowsItsFindings(
      cs: seq<Candidate>, ds: seq<Candidate>, eligible: set<nat>, i: nat, r: CandidateResult)
    requires SameButFindings(cs, ds) && eligible == Clean(ds) && i < |cs|
    requires Disqualified(cs, eligible, i, ds[i].findings) && KeepsFindings(ds[i], r)
    ensures Explained(cs, eligible, i, r)
  {
    hide Disqualified;
    assert ds[i].(findings := cs[i].findings) == cs[i];
    if i !in eligible {
      assert Shows(cs[i], r, ds[i].findings);
    }
  }

  lemma {:induction false} ClassifiedAlike(
      x: BuildContext, cs: seq<Candidate>, ds: seq<Candidate>, s: set<nat>, rank: nat -> nat,
      results: seq<CandidateResult>)
    requires SameBuild(cs, ds) && Buildable(cs, s, rank) && Buildable(ds, s, rank)
    requires |results| == |cs|
    requires forall i :: 0 <= i < |cs| ==> Classified(x, ds, s, rank, i, results[i])
    ensures forall i :: 0 <= i < |cs| ==> Classified(x, cs, s, rank, i, results[i])
  {
    hide Build;
    forall i | 0 <= i < |cs|
      ensures Classified(x, cs, s, rank, i, results[i])
    {
      assert Classified(x, ds, s, rank, i, results[i]);
      if i in s {
        BuildIgnoresFindings(x, cs, ds, s, rank, i);
      }
    }
  }

  lemma {:induction false} ClassifiedIsClosed(
      x: BuildContext, cs: seq<Candidate>, s: set<nat>, rank: nat -> nat,
      results: seq<CandidateResult>)
    requires Buildable(cs, s, rank) && |results| == |cs|
    requires forall i :: 0 <= i < |cs| ==> Classified(x, cs, s, rank, i, results[i])
    ensures PublicationClosed(results)
  {
    hide Build, Records;
    forall i, e | 0 <= i < |results| && results[i].revision.Some?
                  && e in results[i].revision.value.dependencies
      ensures exists j :: 0 <= j < |results| && j != i && results[j].revision.Some?
                          && Records(e, results[j].revision.value)
    {
      assert Classified(x, cs, s, rank, i, results[i]);
      var j := BuildsAreClosed(x, cs, s, rank, i, e);
      assert Classified(x, cs, s, rank, j, results[j]);
    }
  }
}
