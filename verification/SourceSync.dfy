/** The second half of a source synchronisation: from staged candidates to published revisions. */
module SourceSync {
  import opened Text
  import opened StableSort
  import opened ExternalCatalog
  import opened FirstPaths
  import opened DependencyResolver
  import opened Eligibility
  import opened CanonicalRevision

  class StagedCandidate {
    const skillPath: Str
    const document: Option<Document>
    const legal: Option<Legal>
    var resources: seq<ResourceInput>
    var dependencies: seq<Dependency>
    var findings: seq<Finding>

    constructor (skillPath: Str, document: Option<Document>, legal: Option<Legal>, findings: seq<Finding>)
      ensures View() == Candidate(skillPath, document, legal, [], [], findings)
    {
      this.skillPath, this.document, this.legal := skillPath, document, legal;
      this.resources, this.dependencies, this.findings := [], [], findings;
    }

    function View(): Candidate
      reads this
    {
      Candidate(skillPath, document, legal, resources, dependencies, findings)
    }
  }

  predicate Distinct(staged: seq<StagedCandidate>) {
    forall i, j :: 0 <= i < j < |staged| ==> staged[i] != staged[j]
  }

  function Views(staged: seq<StagedCandidate>): (cs: seq<Candidate>)
    reads staged
    ensures |cs| == |staged|
    ensures forall i :: 0 <= i < |staged| ==> cs[i] == staged[i].View()
  {
    seq(|staged|, (i: nat) requires i < |staged| reads staged => staged[i].View())
  }

  method PushFinding(staged: seq<StagedCandidate>, i: nat, f: Finding)
    requires Distinct(staged) && i < |staged|
    modifies staged[i]
    ensures Views(staged)
         == old(Views(staged))[i := old(Views(staged))[i].(findings := old(Views(staged))[i].findings + [f])]
  {
    staged[i].findings := staged[i].findings + [f];
  }

  // ----- duplicate names, dependencies and resources

  /** The outcome of reading a candidate's textual resources, whatever the reading involves. */
  type Bundle = Result<seq<ResourceInput>, Finding>

  /** A candidate after resolution. A failed reading quarantines the candidate, so the resources
      read before the failure do not matter. */
  function ResolvedCandidate(
      collate: (Str, Str) -> bool, maximumDependencies: nat, names: seq<Str>, c: Candidate, bundle: Bundle)
    : Candidate
  {
    match c.document
    case None => c
    case Some(document) =>
      var dependencies := Sort(Resolved(names, document.name, document.dependencyEvidence),
                               BySkillName(collate));
      var findings := Sort(Unresolved(names, document.name, document.dependencyEvidence),
                           BySubject(collate));
      c.(dependencies := dependencies,
         resources := if bundle.Success? then c.resources + bundle.value else c.resources,
         findings := c.findings
           + (if CountOf(names, document.name) > 1
              then [Finding(SkillDuplicateIdentity, document.name)] else [])
           + findings
           + (if |dependencies| > maximumDependencies
              then [Finding(DependencyAmbiguous, c.skillPath)] else [])
           + (if bundle.Failure? then [bundle.error] else []))
  }

  function ResolvedCandidates(
      collate: (Str, Str) -> bool, maximumDependencies: nat, cs: seq<Candidate>, bundles: seq<Bundle>)
    : (r: seq<Candidate>)
    requires |bundles| == |cs|
    ensures |r| == |cs|
    ensures forall i :: 0 <= i < |cs| ==>
      r[i] == ResolvedCandidate(collate, maximumDependencies, NamesOf(cs), cs[i], bundles[i])
  {
    seq(|cs|, i requires 0 <= i < |cs| =>
      ResolvedCandidate(collate, maximumDependencies, NamesOf(cs), cs[i], bundles[i]))
  }

  method CollectNames(staged: seq<StagedCandidate>) returns (names: seq<Str>, duplicates: set<Str>)
    ensures names == NamesOf(Views(staged))
    ensures forall name :: name in duplicates <==> CountOf(names, name) > 1
  {
    ghost var cs := Views(staged);
    names := [];
    var counts: map<Str, nat> := map[];
    for i := 0 to |staged|
      invariant names == NamesOf(cs[..i])
      invariant forall name :: CountOf(names, name) == if name in counts then counts[name] else 0
    {
      assert cs[..i + 1][..i] == cs[..i];
      var document := staged[i].document;
      if document.Some? {
        var name := document.value.name;
        forall other {
          CountOfAppend(names, name, other);
        }
        counts := counts[name := (if name in counts then counts[name] else 0) + 1];
        names := names + [name];
      }
    }
    assert cs[..|staged|] == cs;
    duplicates := set name | name in counts && counts[name] > 1;
  }

  method ResolveOne(
      collate: (Str, Str) -> bool, maximumDependencies: nat, names: seq<Str>, duplicates: set<Str>,
      candidate: StagedCandidate, bundle: Bundle)
    requires forall name :: name in duplicates <==> CountOf(names, name) > 1
    modifies candidate
    ensures candidate.View()
         == ResolvedCandidate(collate, maximumDependencies, names, old(candidate.View()), bundle)
  {
    if candidate.document.None? {
      return;
    }
    var document := candidate.document.value;
    var duplicate := if document.name in duplicates
                     then [Finding(SkillDuplicateIdentity, document.name)] else [];
    candidate.findings := candidate.findings + duplicate;
    var resolution := ResolveInternalDependencies(
      collate, names, document.name, document.dependencyEvidence);
    candidate.dependencies := resolution.dependencies;
    candidate.findings := candidate.findings + resolution.findings;
    var excess := if |candidate.dependencies| > maximumDependencies
                  then [Finding(DependencyAmbiguous, candidate.skillPath)] else [];
    candidate.findings := candidate.findings + excess;
    var failure := if bundle.Failure? then [bundle.error] else [];
    candidate.resources := if bundle.Success? then candidate.resources + bundle.value
                           else candidate.resources;
    candidate.findings := candidate.findings + failure;
  }

  method ResolveCandidates(
      collate: (Str, Str) -> bool, maximumDependencies: nat, staged: seq<StagedCandidate>,
      bundles: seq<Bundle>)
    requires Distinct(staged) && |bundles| == |staged|
    modifies staged
    ensures Views(staged)
         == ResolvedCandidates(collate, maximumDependencies, old(Views(staged)), bundles)
  {
    hide ResolvedCandidate;
    ghost var cs := Views(staged);
    var names, duplicates := CollectNames(staged);
    for i := 0 to |staged|
      invariant forall k :: 0 <= k < i ==>
        (staged[k].View()
         == ResolvedCandidate(collate, maximumDependencies, names, cs[k], bundles[k]))
      invariant forall k :: i <= k < |staged| ==> staged[k].View() == cs[k]
    {
      ResolveOne(collate, maximumDependencies, names, duplicates, staged[i], bundles[i]);
    }
  }

  lemma {:induction false} NamesCount(cs: seq<Candidate>, i: nat, j: nat, name: Str)
    requires i < |cs| && Named(cs[i], name)
    ensures CountOf(NamesOf(cs), name) >= 1
    ensures j < |cs| && i != j && Named(cs[j], name) ==> CountOf(NamesOf(cs), name) >= 2
  {
    var n := |cs| - 1;
    var shorter := cs[..n];
    if cs[n].document.Some? {
      CountOfAppend(NamesOf(shorter), cs[n].document.value.name, name);
    }
    assert cs[n].document.None? ==> NamesOf(cs) == NamesOf(shorter);
    if i < n {
      assert shorter[i] == cs[i];
      NamesCount(shorter, i, if j < n then j else i, name);
    } else if j < n && Named(cs[j], name) {
      assert shorter[j] == cs[j];
      NamesCount(shorter, j, j, name);
    }
  }

  /** After resolution a clean candidate's name is its own. */
  lemma {:induction false} ResolvedNamesUnique(
      collate: (Str, Str) -> bool, maximumDependencies: nat, cs: seq<Candidate>, bundles: seq<Bundle>)
    requires |bundles| == |cs|
    ensures UniqueNames(ResolvedCandidates(collate, maximumDependencies, cs, bundles))
  {
    var rs := ResolvedCandidates(collate, maximumDependencies, cs, bundles);
    forall i: nat, j: nat | i < |rs| && j < |rs| && IsClean(rs[i]) && i != j
      ensures !Named(rs[j], rs[i].document.value.name)
    {
      var name := rs[i].document.value.name;
      DuplicateIsNotClean(collate, maximumDependencies, NamesOf(cs), cs[i], bundles[i]);
      NamesCount(cs, i, j, name);
      assert rs[j].document == cs[j].document;
    }
  }

  lemma {:induction false} DuplicateIsNotClean(
      collate: (Str, Str) -> bool, maximumDependencies: nat, names: seq<Str>, c: Candidate, bundle: Bundle)
    requires c.document.Some?
    ensures CountOf(names, c.document.value.name) > 1 ==>
              !IsClean(ResolvedCandidate(collate, maximumDependencies, names, c, bundle))
  {
    var r := ResolvedCandidate(collate, maximumDependencies, names, c, bundle);
    if CountOf(names, c.document.value.name) > 1 {
      assert Finding(SkillDuplicateIdentity, c.document.value.name) in r.findings;
    }
  }

  // ----- the dependency graph and its cycles

  method BuildGraph(staged: seq<StagedCandidate>) returns (graph: Graph)
    ensures graph == GraphOf(Views(staged))
  {
    ghost var cs := Views(staged);
    graph := map[];
    for i := 0 to |staged|
      invariant graph == GraphOf(cs[..i])
    {
      assert cs[..i + 1][..i] == cs[..i];
      if staged[i].document.Some? {
        graph := graph[staged[i].document.value.name := staged[i].dependencies];
      }
    }
    assert cs[..|staged|] == cs;
  }

  method FindStaged(staged: seq<StagedCandidate>, name: Str) returns (r: Option<nat>)
    ensures r == FindByName(Views(staged), name)
  {
    ghost var cs := Views(staged);
    for i := 0 to |staged|
      invariant forall k :: 0 <= k < i ==> !Named(cs[k], name)
    {
      if staged[i].document.Some? && staged[i].document.value.name == name {
        assert Named(cs[i], name);
        return Some(i);
      }
    }
    return None;
  }

  /** Everything but the findings is as it was. */
  ghost predicate SameButFindings(cs: seq<Candidate>, ds: seq<Candidate>) {
    |cs| == |ds| && forall i :: 0 <= i < |cs| ==> ds[i].(findings := cs[i].findings) == cs[i]
  }

  lemma {:induction false} SameFinds(cs: seq<Candidate>, ds: seq<Candidate>, name: Str)
    requires SameButFindings(cs, ds)
    ensures FindByName(cs, name) == FindByName(ds, name)
  {
    forall i | 0 <= i < |cs|
      ensures Named(cs[i], name) <==> Named(ds[i], name)
    {
      assert ds[i].document == cs[i].document;
    }
  }

  function CycleFinding(name: Str): Finding { Finding(DependencyCycle, name) }

  /** The candidates that members of done name have one more finding; nothing else changed. */
  ghost predicate MarkedFor(cs: seq<Candidate>, ds: seq<Candidate>, done: set<Str>) {
    SameButFindings(cs, ds) && forall i :: 0 <= i < |cs| ==> MarkedAt(cs, ds, done, i)
  }

  ghost predicate MarkedAt(cs: seq<Candidate>, ds: seq<Candidate>, done: set<Str>, i: nat)
    requires i < |cs| == |ds|
  {
    ds[i].findings == cs[i].findings
      + if CycleMarked(cs, done, i) then [CycleFinding(cs[i].document.value.name)] else []
  }

  lemma {:induction false} NothingMarked(cs: seq<Candidate>)
    ensures MarkedFor(cs, cs, {})
  {}

  lemma {:induction false} MarkOne(cs: seq<Candidate>, before: seq<Candidate>, done: set<Str>, name: Str)
    requires MarkedFor(cs, before, done) && name !in done
    ensures var target := FindByName(before, name);
            target == FindByName(cs, name)
            && MarkedFor(cs, if target.Some? then
                               before[target.value := before[target.value].(
                                 findings := before[target.value].findings + [CycleFinding(name)])]
                             else before, done + {name})
  {
    SameFinds(cs, before, name);
    MarkedNext(cs, done, name);
    var target := FindByName(cs, name);
    if target.None? {
      forall i | 0 <= i < |cs|
        ensures MarkedAt(cs, before, done + {name}, i)
      {
        assert MarkedAt(cs, before, done, i);
      }
    } else {
      var at := target.value;
      var ds := before[at := before[at].(findings := before[at].findings + [CycleFinding(name)])];
      forall i | 0 <= i < |cs|
        ensures MarkedAt(cs, ds, done + {name}, i)
      {
        assert MarkedAt(cs, before, done, i);
      }
    }
  }

  /** The first candidate of every member, and no other candidate, gets a finding. */
  method MarkCycleMembers(staged: seq<StagedCandidate>, members: set<Str>)
    requires Distinct(staged)
    modifies staged
    ensures MarkedFor(old(Views(staged)), Views(staged), members)
  {
    hide MarkedFor, CycleFinding, FindByName, Distinct;
    ghost var cs := Views(staged);
    NothingMarked(cs);
    var remaining := members;
    assert members - remaining == {};
    while remaining != {}
      invariant remaining <= members
      invariant MarkedFor(cs, Views(staged), members - remaining)
    {
      var name :| name in remaining;
      var target := FindStaged(staged, name);
      MarkOne(cs, Views(staged), members - remaining, name);
      assert members - (remaining - {name}) == members - remaining + {name};
      if target.Some? {
        PushFinding(staged, target.value, CycleFinding(name));
      }
      remaining := remaining - {name};
    }
    assert members - remaining == members;
  }

  lemma {:induction false} MarkedNext(cs: seq<Candidate>, done: set<Str>, name: Str)
    requires name !in done
    ensures forall i :: 0 <= i < |cs| ==>
      (CycleMarked(cs, done + {name}, i)
       <==> CycleMarked(cs, done, i) || FindByName(cs, name) == Some(i))
    ensures forall i :: 0 <= i < |cs| && FindByName(cs, name) == Some(i) ==> !CycleMarked(cs, done, i)
  {
    forall i | 0 <= i < |cs| && CycleMarked(cs, done, i)
      ensures FindByName(cs, name) != Some(i)
    {
      var other :| other in done && FindByName(cs, other) == Some(i);
    }
    forall i | 0 <= i < |cs|
      ensures CycleMarked(cs, done + {name}, i)
         <==> CycleMarked(cs, done, i) || FindByName(cs, name) == Some(i)
    {
      if CycleMarked(cs, done, i) {
        var other :| other in done && FindByName(cs, other) == Some(i);
        assert other in done + {name};
      }
      if FindByName(cs, name) == Some(i) {
        assert name in done + {name};
      }
    }
  }

  // ----- propagation

  function MissingFinding(c: Candidate, d: Dependency): Finding
    requires c.document.Some?
  {
    Finding(DependencyMissing, SubjectOf(c.document.value.name, d))
  }

  /** The candidate lost its place because this dependency has no clean target. */
  ghost predicate LostBecause(c: Candidate, ds: seq<Candidate>, findings: seq<Finding>, d: Dependency) {
    && c.document.Some? && d in c.dependencies
    && findings == [MissingFinding(c, d)] && !Available(ds, Clean(ds), d)
  }

  /** A candidate either keeps its findings, or was clean and lost its place for a reason that
      still holds. */
  ghost predicate KeptOrLost(c: Candidate, ds: seq<Candidate>, findings: seq<Finding>) {
    findings == c.findings
    || (IsClean(c) && exists d :: LostBecause(c, ds, findings, d))
  }

  /** What propagation has done so far: every closed set of clean candidates is untouched. */
  ghost predicate Propagating(cs: seq<Candidate>, ds: seq<Candidate>) {
    && SameButFindings(cs, ds)
    && (forall i :: 0 <= i < |cs| ==> KeptOrLost(cs[i], ds, ds[i].findings))
    && (forall t :: t <= Clean(cs) && ClosedUnder(cs, t) ==> t <= Clean(ds))
  }

  method FirstUnavailable(staged: seq<StagedCandidate>, i: nat) returns (r: Option<Dependency>)
    requires i < |staged|
    ensures var cs := Views(staged);
            if r.Some? then r.value in cs[i].dependencies && !Available(cs, Clean(cs), r.value)
            else forall d :: d in cs[i].dependencies ==> Available(cs, Clean(cs), d)
  {
    ghost var cs := Views(staged);
    var dependencies := staged[i].dependencies;
    for k := 0 to |dependencies|
      invariant forall m :: 0 <= m < k ==> Available(cs, Clean(cs), dependencies[m])
    {
      var target := FindStaged(staged, dependencies[k].skillName);
      if target.None? || staged[target.value].findings != [] {
        assert target.Some? ==> !IsClean(cs[target.value]);
        return Some(dependencies[k]);
      }
      assert IsClean(cs[target.value]);
    }
    return None;
  }

  lemma {:induction false} LosesOne(cs: seq<Candidate>, ds: seq<Candidate>, i: nat, d: Dependency)
    requires Propagating(cs, ds) && i < |ds| && IsClean(ds[i])
    requires d in ds[i].dependencies && !Available(ds, Clean(ds), d)
    ensures var es := ds[i := ds[i].(findings := ds[i].findings + [MissingFinding(ds[i], d)])];
            Propagating(cs, es) && Clean(es) == Clean(ds) - {i}
  {
    var es := ds[i := ds[i].(findings := ds[i].findings + [MissingFinding(ds[i], d)])];
    assert Clean(es) == Clean(ds) - {i};
    forall k | 0 <= k < |cs|
      ensures KeptOrLost(cs[k], es, es[k].findings)
    {
      assert ds[k].(findings := cs[k].findings) == cs[k];
      assert KeptOrLost(cs[k], ds, ds[k].findings);
      if k == i {
        assert ds[i].findings == cs[i].findings == [];
        AvailableShrinks(ds, es, d);
        assert LostBecause(cs[i], es, es[i].findings, d);
      } else if ds[k].findings != cs[k].findings {
        var e :| LostBecause(cs[k], ds, ds[k].findings, e);
        AvailableShrinks(ds, es, e);
        assert LostBecause(cs[k], es, es[k].findings, e);
      }
    }
    forall t | t <= Clean(cs) && ClosedUnder(cs, t)
      ensures t <= Clean(es)
    {
      if i in t {
        assert cs[i].dependencies == ds[i].dependencies by {
          assert ds[i].(findings := cs[i].findings) == cs[i];
        }
        assert Available(cs, t, d);
        SameFinds(cs, ds, d.skillName);
      }
    }
  }

  lemma {:induction false} AvailableShrinks(ds: seq<Candidate>, es: seq<Candidate>, d: Dependency)
    requires SameButFindings(ds, es) && Clean(es) <= Clean(ds)
    requires !Available(ds, Clean(ds), d)
    ensures !Available(es, Clean(es), d)
  {
    SameFinds(ds, es, d.skillName);
  }

  /** A pass that loses nobody leaves a closed set. */
  lemma {:induction false} QuietPassCloses(cs: seq<Candidate>, ds: seq<Candidate>)
    requires Propagating(cs, ds)
    requires forall i, d :: i in Clean(ds) && d in ds[i].dependencies ==> Available(ds, Clean(ds), d)
    ensures IsGreatestClosed(cs, Clean(cs), Clean(ds))
  {
    forall i, d | i in Clean(ds) && i < |cs| && d in cs[i].dependencies
      ensures Available(cs, Clean(ds), d)
    {
      assert ds[i].(findings := cs[i].findings) == cs[i];
      assert d in ds[i].dependencies && Available(ds, Clean(ds), d);
      SameFinds(cs, ds, d.skillName);
    }
    forall i | i in Clean(ds)
      ensures i in Clean(cs)
    {
      assert ds[i].(findings := cs[i].findings) == cs[i];
      assert KeptOrLost(cs[i], ds, ds[i].findings);
    }
  }

  /** One pass: what it disqualifies leaves the clean set smaller, and a pass that disqualifies
      nothing has found every dependency of a clean candidate available. */
  method PropagateOnce(staged: seq<StagedCandidate>, ghost cs: seq<Candidate>) returns (propagated: bool)
    requires Distinct(staged) && Propagating(cs, Views(staged))
    modifies staged
    ensures Propagating(cs, Views(staged))
    ensures propagated ==> Clean(Views(staged)) < Clean(old(Views(staged)))
    ensures !propagated ==> Views(staged) == old(Views(staged)) && SettledTo(Views(staged), |staged|)
  {
    hide Propagating, SettledTo, Clean, FindByName, MissingFinding, Distinct, LostBecause;
    propagated := false;
    ghost var start := Views(staged);
    NothingSettled(start);
    for i := 0 to |staged|
      invariant Propagating(cs, Views(staged))
      invariant propagated ==> Clean(Views(staged)) < Clean(start)
      invariant !propagated ==> Views(staged) == start && SettledTo(start, i)
    {
      var lost := PropagateAt(staged, cs, i);
      propagated := propagated || lost;
    }
  }

  /** Every dependency of the first n candidates that are clean is available. */
  ghost predicate SettledTo(ds: seq<Candidate>, n: nat) {
    forall k, d :: 0 <= k < n && k < |ds| && IsClean(ds[k]) && d in ds[k].dependencies ==>
      Available(ds, Clean(ds), d)
  }

  lemma {:induction false} NothingSettled(ds: seq<Candidate>)
    ensures SettledTo(ds, 0)
  {}

  /** One candidate of a pass: disqualified when a dependency is unavailable, else settled. */
  method PropagateAt(staged: seq<StagedCandidate>, ghost cs: seq<Candidate>, i: nat) returns (lost: bool)
    requires Distinct(staged) && i < |staged| && Propagating(cs, Views(staged))
    modifies staged
    ensures Propagating(cs, Views(staged))
    ensures lost ==> Clean(Views(staged)) < Clean(old(Views(staged)))
    ensures !lost ==> Views(staged) == old(Views(staged))
    ensures !lost && SettledTo(Views(staged), i) ==> SettledTo(Views(staged), i + 1)
  {
    hide KeptOrLost, ClosedUnder, SameButFindings, Available, Propagating, FindByName, MissingFinding;
    if staged[i].document.None? || staged[i].findings != [] {
      return false;
    }
    var unavailable := FirstUnavailable(staged, i);
    if unavailable.Some? {
      ghost var before := Views(staged);
      LosesOne(cs, before, i, unavailable.value);
      PushFinding(staged, i, MissingFinding(staged[i].View(), unavailable.value));
      assert i in Clean(before);
      return true;
    }
    return false;
  }

  /** Propagation ends with exactly the greatest dependency-closed set of the candidates that were
      clean before it, and every candidate it disqualifies names a dependency without a clean
      target. */
  method Propagate(staged: seq<StagedCandidate>)
    requires Distinct(staged)
    modifies staged
    ensures var cs, ds := old(Views(staged)), Views(staged);
            && SameButFindings(cs, ds)
            && IsGreatestClosed(cs, Clean(cs), Clean(ds))
            && forall i :: 0 <= i < |cs| ==> KeptOrLost(cs[i], ds, ds[i].findings)
  {
    hide KeptOrLost, ClosedUnder, SameButFindings, Available, IsGreatestClosed, Clean, SettledTo, Distinct;
    ghost var cs := Views(staged);
    var propagated := true;
    StartsPropagating(cs);
    while propagated
      invariant Propagating(cs, Views(staged))
      invariant !propagated ==> IsGreatestClosed(cs, Clean(cs), Clean(Views(staged)))
      decreases Clean(Views(staged)), if propagated then 1 else 0
    {
      propagated := PropagateOnce(staged, cs);
      if !propagated {
        SettledPassCloses(cs, Views(staged));
      }
    }
    assert Propagating(cs, Views(staged));
  }

  lemma {:induction false} SettledPassCloses(cs: seq<Candidate>, ds: seq<Candidate>)
    requires Propagating(cs, ds) && SettledTo(ds, |ds|)
    ensures IsGreatestClosed(cs, Clean(cs), Clean(ds))
  {
    QuietPassCloses(cs, ds);
  }

  lemma {:induction false} StartsPropagating(cs: seq<Candidate>)
    ensures Propagating(cs, cs)
  {}
}
