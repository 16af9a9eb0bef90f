/** Building revisions from eligible candidates, dependencies first, each at most once. */
module RevisionBuild {
  import opened Text
  import opened ExternalCatalog
  import opened Eligibility
  import opened CanonicalRevision
  import opened CanonicalRevisionV2

  /** What a build takes from outside: the platform, the repository, the commit, and the naming of
      published skills, which may fail. */
  datatype BuildContext = BuildContext(
    platform: Platform,
    repositoryId: int,
    owner: Str,
    repository: Str,
    commitSha: Str,
    publicSkillId: (Str, Str) -> Result<Str, ImportError>)

  type Built = Result<ExternalRevision, ImportError>

  function ProvenanceOf(x: BuildContext, c: Candidate): Provenance
    requires c.legal.Some?
  {
    var legal := c.legal.value;
    Provenance(x.repositoryId, x.owner, x.repository, x.commitSha, c.skillPath, legal.attribution,
               legal.spdxLicenseId, legal.licenseText, Present(legal.licenseEvidencePath),
               Present(legal.licenseBlobSha), Defined(legal.skillDeclaredSpdxId),
               Defined(legal.noticeText), Defined(legal.noticeEvidencePath),
               Defined(legal.noticeBlobSha))
  }

  /** Spreading a property only when it is defined. */
  function Defined(o: Optional): Optional {
    if o.Present? then o else Absent
  }

  /** The construction of one revision once its dependencies have theirs. */
  function Construct(x: BuildContext, c: Candidate, dependencies: seq<Dependency>): Built
    requires c.document.Some? && c.legal.Some?
  {
    var document := c.document.value;
    match x.publicSkillId(document.name, c.skillPath)
    case Failure(e) => Failure(e)
    case Success(skillId) =>
      CreateExternalSkillRevision(x.platform, ExternalInput(skillId, ProvenanceOf(x, c),
        ImportedSkill(document.name, document.description, document.instructions,
                      document.invocationMode, c.resources, dependencies)))
  }

  function Pinned(d: Dependency, target: ExternalRevision): Dependency {
    d.(targetSkillId := Present(target.skillId), targetRevision := Present(target.revision))
  }

  ghost predicate Buildable(cs: seq<Candidate>, s: set<nat>, rank: nat -> nat) {
    s <= Clean(cs) && Grounded(cs, s, rank)
  }

  /** The revision of a candidate by plain recursion, without a memo. */
  ghost function Build(x: BuildContext, cs: seq<Candidate>, s: set<nat>, rank: nat -> nat, i: nat): Built
    requires Buildable(cs, s, rank) && i in s
    decreases rank(i), |cs[i].dependencies| + 1
  {
    if cs[i].legal.None? then Failure(SkillSchemaInvalid)
    else
      match BuildDependencies(x, cs, s, rank, i, |cs[i].dependencies|)
      case Failure(e) => Failure(e)
      case Success(dependencies) => Construct(x, cs[i], dependencies)
  }

  /** The first n dependencies of a candidate with their targets; the first failure wins. */
  ghost function BuildDependencies(
      x: BuildContext, cs: seq<Candidate>, s: set<nat>, rank: nat -> nat, i: nat, n: nat)
    : Result<seq<Dependency>, ImportError>
    requires Buildable(cs, s, rank) && i in s && n <= |cs[i].dependencies|
    decreases rank(i), n
  {
    if n == 0 then Success([])
    else
      match BuildDependencies(x, cs, s, rank, i, n - 1)
      case Failure(e) => Failure(e)
      case Success(earlier) =>
        var d := cs[i].dependencies[n - 1];
        TargetBelow(cs, s, rank, i, d);
        match Build(x, cs, s, rank, FindByName(cs, d.skillName).value)
        case Failure(e) => Failure(e)
        case Success(target) => Success(earlier + [Pinned(d, target)])
  }

  lemma {:induction false} TargetBelow(
      cs: seq<Candidate>, s: set<nat>, rank: nat -> nat, i: nat, d: Dependency)
    requires Buildable(cs, s, rank) && i in s && d in cs[i].dependencies
    ensures FindByName(cs, d.skillName).Some?
    ensures FindByName(cs, d.skillName).value in s
    ensures rank(FindByName(cs, d.skillName).value) < rank(i)
  {
    assert Available(cs, s, d);
    assert DependsOn(cs, i, FindByName(cs, d.skillName).value);
  }

  /** The measure does not matter: two groundings build the same revisions. */
  lemma {:induction false} BuildUnique(
      x: BuildContext, cs: seq<Candidate>, s: set<nat>, rank: nat -> nat, other: nat -> nat, i: nat)
    requires Buildable(cs, s, rank) && Buildable(cs, s, other) && i in s
    ensures Build(x, cs, s, rank, i) == Build(x, cs, s, other, i)
    decreases rank(i), |cs[i].dependencies| + 1
  {
    hide Construct;
    BuildDependenciesUnique(x, cs, s, rank, other, i, |cs[i].dependencies|);
  }

  lemma {:induction false} BuildDependenciesUnique(
      x: BuildContext, cs: seq<Candidate>, s: set<nat>, rank: nat -> nat, other: nat -> nat,
      i: nat, n: nat)
    requires Buildable(cs, s, rank) && Buildable(cs, s, other)
    requires i in s && n <= |cs[i].dependencies|
    ensures BuildDependencies(x, cs, s, rank, i, n) == BuildDependencies(x, cs, s, other, i, n)
    decreases rank(i), n
  {
    hide Construct;
    if n > 0 {
      BuildDependenciesUnique(x, cs, s, rank, other, i, n - 1);
      var d := cs[i].dependencies[n - 1];
      TargetBelow(cs, s, rank, i, d);
      BuildUnique(x, cs, s, rank, other, FindByName(cs, d.skillName).value);
    }
  }

  // ----- what a built revision depends on

  ghost predicate PinsTo(x: BuildContext, cs: seq<Candidate>, s: set<nat>, rank: nat -> nat,
                         d: Dependency, e: Dependency)
    requires Buildable(cs, s, rank)
  {
    && Available(cs, s, d)
    && var j := FindByName(cs, d.skillName).value;
       Build(x, cs, s, rank, j).Success? && e == Pinned(d, Build(x, cs, s, rank, j).value)
  }

  lemma {:induction false} DependenciesPinned(
      x: BuildContext, cs: seq<Candidate>, s: set<nat>, rank: nat -> nat, i: nat, n: nat)
    requires Buildable(cs, s, rank) && i in s && n <= |cs[i].dependencies|
    requires BuildDependencies(x, cs, s, rank, i, n).Success?
    ensures var es := BuildDependencies(x, cs, s, rank, i, n).value;
            && |es| == n
            && forall k :: 0 <= k < n ==> PinsTo(x, cs, s, rank, cs[i].dependencies[k], es[k])
  {
    hide Construct;
    if n > 0 {
      DependenciesPinned(x, cs, s, rank, i, n - 1);
      TargetBelow(cs, s, rank, i, cs[i].dependencies[n - 1]);
    }
  }

  /** Every dependency of a built revision carries the skill id and the revision of the revision
      built for its target. */
  lemma {:induction false} BuiltDependencies(
      x: BuildContext, cs: seq<Candidate>, s: set<nat>, rank: nat -> nat, i: nat, e: Dependency)
    requires Buildable(cs, s, rank) && i in s && Build(x, cs, s, rank, i).Success?
    requires e in Build(x, cs, s, rank, i).value.dependencies
    ensures exists d :: d in cs[i].dependencies && PinsTo(x, cs, s, rank, d, e)
  {
    hide PinsTo, Available, CreateExternalSkillRevision;
    var es := BuildDependencies(x, cs, s, rank, i, |cs[i].dependencies|).value;
    DependenciesPinned(x, cs, s, rank, i, |cs[i].dependencies|);
    ConstructedDependencies(x, cs[i], es);
    var k :| 0 <= k < |es| && es[k] == e;
    assert PinsTo(x, cs, s, rank, cs[i].dependencies[k], e);
  }

  lemma {:induction false} ConstructedDependencies(x: BuildContext, c: Candidate, es: seq<Dependency>)
    requires c.document.Some? && c.legal.Some? && Construct(x, c, es).Success?
    ensures var r := Construct(x, c, es).value;
            r.name == c.document.value.name && forall e :: e in r.dependencies <==> e in es
  {
    hide CreateExternalSkillRevision;
    var document := c.document.value;
    CreatedKeepsDependencies(x.platform,
      ExternalInput(x.publicSkillId(document.name, c.skillPath).value, ProvenanceOf(x, c),
        ImportedSkill(document.name, document.description, document.instructions,
                      document.invocationMode, c.resources, es)));
  }

  /** A candidate whose dependency cannot be built cannot be built. */
  lemma {:induction false} FailurePropagates(
      x: BuildContext, cs: seq<Candidate>, s: set<nat>, rank: nat -> nat, i: nat, j: nat)
    requires Buildable(cs, s, rank) && i in s && DependsOn(cs, i, j)
    ensures j in s
    ensures Build(x, cs, s, rank, j).Failure? ==> Build(x, cs, s, rank, i).Failure?
  {
    hide Construct;
    var d :| d in cs[i].dependencies && FindByName(cs, d.skillName) == Some(j);
    TargetBelow(cs, s, rank, i, d);
    if Build(x, cs, s, rank, i).Success? {
      var n := |cs[i].dependencies|;
      DependenciesPinned(x, cs, s, rank, i, n);
      var k :| 0 <= k < n && cs[i].dependencies[k] == d;
      assert PinsTo(x, cs, s, rank, d, BuildDependencies(x, cs, s, rank, i, n).value[k]);
    }
  }

  /** A failed construction quarantines every candidate that depends on it, however indirectly. */
  lemma {:induction false} FailureReachesDependents(
      x: BuildContext, cs: seq<Candidate>, s: set<nat>, rank: nat -> nat, w: seq<nat>)
    requires Buildable(cs, s, rank) && IsPath(cs, s, w)
    requires Build(x, cs, s, rank, w[|w| - 1]).Failure?
    ensures Build(x, cs, s, rank, w[0]).Failure?
  {
    hide Build;
    if |w| > 1 {
      var rest := w[1..];
      assert rest[|rest| - 1] == w[|w| - 1];
      forall k | 0 <= k < |rest| - 1
        ensures DependsOn(cs, rest[k], rest[k + 1])
      {
        assert DependsOn(cs, w[k + 1], w[k + 2]);
      }
      FailureReachesDependents(x, cs, s, rank, rest);
      assert DependsOn(cs, w[0], w[1]);
      FailurePropagates(x, cs, s, rank, w[0], w[1]);
    }
  }

  /** A target published under a name, as a dependency records it. */
  ghost predicate Records(e: Dependency, target: ExternalRevision) {
    && e.skillName == target.name
    && e.targetSkillId == Present(target.skillId) && e.targetRevision == Present(target.revision)
  }

  /** Publication is closed: what a built revision depends on is built in the same batch. */
  lemma {:induction false} BuildsAreClosed(
      x: BuildContext, cs: seq<Candidate>, s: set<nat>, rank: nat -> nat, i: nat, e: Dependency)
    returns (j: nat)
    requires Buildable(cs, s, rank) && i in s && Build(x, cs, s, rank, i).Success?
    requires e in Build(x, cs, s, rank, i).value.dependencies
    ensures j in s && DependsOn(cs, i, j) && j != i
    ensures Build(x, cs, s, rank, j).Success? && Records(e, Build(x, cs, s, rank, j).value)
  {
    hide Construct;
    BuiltDependencies(x, cs, s, rank, i, e);
    var d :| d in cs[i].dependencies && PinsTo(x, cs, s, rank, d, e);
    j := FindByName(cs, d.skillName).value;
    TargetBelow(cs, s, rank, i, d);
    BuiltName(x, cs, s, rank, j);
  }

  lemma {:induction false} BuiltName(
      x: BuildContext, cs: seq<Candidate>, s: set<nat>, rank: nat -> nat, i: nat)
    requires Buildable(cs, s, rank) && i in s && Build(x, cs, s, rank, i).Success?
    ensures Build(x, cs, s, rank, i).value.name == cs[i].document.value.name
  {
    hide Construct;
    ConstructedDependencies(x, cs[i],
      BuildDependencies(x, cs, s, rank, i, |cs[i].dependencies|).value);
  }

  /** Findings play no part in a build. */
  ghost predicate SameBuild(cs: seq<Candidate>, ds: seq<Candidate>) {
    && |cs| == |ds|
    && (forall i :: 0 <= i < |cs| ==> ds[i].(findings := cs[i].findings) == cs[i])
    && (forall name :: FindByName(cs, name) == FindByName(ds, name))
  }

  lemma {:induction false} BuildIgnoresFindings(
      x: BuildContext, cs: seq<Candidate>, ds: seq<Candidate>, s: set<nat>, rank: nat -> nat, i: nat)
    requires Buildable(cs, s, rank) && Buildable(ds, s, rank)
    requires SameBuild(cs, ds) && i in s
    ensures Build(x, cs, s, rank, i) == Build(x, ds, s, rank, i)
    decreases rank(i), |cs[i].dependencies| + 1
  {
    assert ds[i].(findings := cs[i].findings) == cs[i];
    ConstructIgnoresFindings(x, cs[i], ds[i]);
    hide Construct;
    BuildDependenciesIgnoreFindings(x, cs, ds, s, rank, i, |cs[i].dependencies|);
  }

  lemma {:induction false} ConstructIgnoresFindings(x: BuildContext, c: Candidate, d: Candidate)
    requires d.(findings := c.findings) == c
    ensures c.document.Some? && c.legal.Some? ==>
              forall es :: Construct(x, c, es) == Construct(x, d, es)
  {
    hide CreateExternalSkillRevision;
    assert d.document == c.document && d.legal == c.legal && d.resources == c.resources;
  }

  lemma {:induction false} BuildDependenciesIgnoreFindings(
      x: BuildContext, cs: seq<Candidate>, ds: seq<Candidate>, s: set<nat>, rank: nat -> nat,
      i: nat, n: nat)
    requires Buildable(cs, s, rank) && Buildable(ds, s, rank)
    requires SameBuild(cs, ds) && i in s && n <= |cs[i].dependencies|
    requires cs[i].dependencies == ds[i].dependencies
    ensures BuildDependencies(x, cs, s, rank, i, n) == BuildDependencies(x, ds, s, rank, i, n)
    decreases rank(i), n
  {
    hide Construct, Build, Pinned;
    if n > 0 {
      BuildDependenciesIgnoreFindings(x, cs, ds, s, rank, i, n - 1);
      var d := cs[i].dependencies[n - 1];
      TargetBelow(cs, s, rank, i, d);
      BuildIgnoresFindings(x, cs, ds, s, rank, FindByName(cs, d.skillName).value);
    }
  }

  // ----- the memo

  /** The map finds every eligible candidate by its name, and nothing else. */
  ghost predicate Indexes(eligibleByName: map<Str, nat>, cs: seq<Candidate>, eligible: set<nat>) {
    && (forall name :: name in eligibleByName ==>
          eligibleByName[name] in eligible && FindByName(cs, name) == Some(eligibleByName[name]))
    && (forall i :: i in eligible ==>
          && i < |cs| && cs[i].document.Some? && cs[i].document.value.name in eligibleByName
          && eligibleByName[cs[i].document.value.name] == i)
  }

  class RevisionBuilder {
    const context: BuildContext
    const candidates: seq<Candidate>
    const eligibleByName: map<Str, nat>
    var revisionsByName: map<Str, ExternalRevision>
    ghost const eligible: set<nat>
    ghost const rank: nat -> nat

    ghost predicate Ready() {
      && Buildable(candidates, eligible, rank)
      && UniqueNames(candidates)
      && (forall name :: name in eligibleByName ==>
            eligibleByName[name] in eligible
            && FindByName(candidates, name) == Some(eligibleByName[name]))
      && (forall i :: i in eligible ==>
            candidates[i].document.value.name in eligibleByName
            && eligibleByName[candidates[i].document.value.name] == i)
    }

    ghost predicate Memoized(name: Str, revision: ExternalRevision)
      requires Ready()
    {
      && name in eligibleByName
      && Build(context, candidates, eligible, rank, eligibleByName[name]) == Success(revision)
    }

    ghost predicate Valid()
      reads this
    {
      Ready() && forall name :: name in revisionsByName ==> Memoized(name, revisionsByName[name])
    }

    constructor (context: BuildContext, candidates: seq<Candidate>, eligibleByName: map<Str, nat>,
                 ghost eligible: set<nat>, ghost rank: nat -> nat)
      requires Buildable(candidates, eligible, rank) && UniqueNames(candidates)
      requires Indexes(eligibleByName, candidates, eligible)
      ensures Valid()
      ensures this.context == context && this.candidates == candidates
      ensures this.eligible == eligible && this.rank == rank
    {
      this.context, this.candidates, this.eligibleByName := context, candidates, eligibleByName;
      this.revisionsByName := map[];
      this.eligible, this.rank := eligible, rank;
    }

    /** Returns what the plain recursion returns, and remembers a success under its name. */
    method BuildRevision(i: nat) returns (r: Built)
      requires Valid() && i in eligible
      modifies `revisionsByName
      ensures Valid()
      ensures r == Build(context, candidates, eligible, rank, i)
      ensures forall name :: name in old(revisionsByName) ==> name in revisionsByName
      ensures r.Success? ==> candidates[i].document.value.name in revisionsByName
      decreases rank(i), 2
    {
      hide Construct, Buildable, UniqueNames, BuildDependencies;
      EligibleHasDocument(candidates, eligible, rank, i);
      var candidate := candidates[i];
      if candidate.legal.None? {
        return Failure(SkillSchemaInvalid);
      }
      var name := candidate.document.value.name;
      if name in revisionsByName {
        assert Memoized(name, revisionsByName[name]);
        return Success(revisionsByName[name]);
      }
      var dependencies := BuildTargets(i);
      if dependencies.Failure? {
        return Failure(dependencies.error);
      }
      r := Construct(context, candidate, dependencies.value);
      if r.Success? {
        assert Memoized(name, r.value);
        revisionsByName := revisionsByName[name := r.value];
      }
    }

    /** The dependencies of a candidate, each with the identity of its built target. */
    method BuildTargets(i: nat) returns (r: Result<seq<Dependency>, ImportError>)
      requires Valid() && Ready() && Buildable(candidates, eligible, rank)
      requires i in eligible && i < |candidates| && candidates[i].legal.Some?
      modifies `revisionsByName
      ensures Valid()
      ensures r == BuildDependencies(context, candidates, eligible, rank, i,
                                     |candidates[i].dependencies|)
      ensures forall name :: name in old(revisionsByName) ==> name in revisionsByName
      decreases rank(i), 1
    {
      hide Construct, Buildable, UniqueNames, Build, BuildDependencies, Valid, Ready, Pinned, Available;
      NothingBuilt(context, candidates, eligible, rank, i);
      var dependencies: seq<Dependency> := [];
      for n := 0 to |candidates[i].dependencies|
        invariant Valid()
        invariant forall key :: key in old(revisionsByName) ==> key in revisionsByName
        invariant BuildDependencies(context, candidates, eligible, rank, i, n) == Success(dependencies)
      {
        BuildsNext(context, candidates, eligible, rank, i, n, dependencies);
        var target := BuildTarget(i, n);
        if target.Failure? {
          FailsFrom(context, candidates, eligible, rank, i, n + 1, |candidates[i].dependencies|,
                    target.error);
          return Failure(target.error);
        }
        dependencies := dependencies + [Pinned(candidates[i].dependencies[n], target.value)];
      }
      return Success(dependencies);
    }

    method BuildTarget(i: nat, n: nat) returns (r: Built)
      requires Valid() && Ready() && i in eligible && n < |candidates[i].dependencies|
      requires Available(candidates, eligible, candidates[i].dependencies[n])
      modifies `revisionsByName
      ensures Valid()
      ensures r == Build(context, candidates, eligible, rank,
                         FindByName(candidates, candidates[i].dependencies[n].skillName).value)
      ensures forall name :: name in old(revisionsByName) ==> name in revisionsByName
      decreases rank(i), 0
    {
      hide Construct, Buildable, UniqueNames, Build;
      var d := candidates[i].dependencies[n];
      TargetBelow(candidates, eligible, rank, i, d);
      TargetListed(d);
      r := BuildRevision(eligibleByName[d.skillName]);
    }

    lemma {:induction false} TargetListed(d: Dependency)
      requires Ready()
      requires FindByName(candidates, d.skillName).Some?
      requires FindByName(candidates, d.skillName).value in eligible
      ensures d.skillName in eligibleByName
      ensures eligibleByName[d.skillName] == FindByName(candidates, d.skillName).value
    {}
  }

  lemma {:induction false} EligibleHasDocument(
      cs: seq<Candidate>, s: set<nat>, rank: nat -> nat, i: nat)
    requires Buildable(cs, s, rank) && i in s
    ensures i < |cs| && cs[i].document.Some?
  {}

  lemma {:induction false} NothingBuilt(
      x: BuildContext, cs: seq<Candidate>, s: set<nat>, rank: nat -> nat, i: nat)
    requires Buildable(cs, s, rank) && i in s
    ensures BuildDependencies(x, cs, s, rank, i, 0) == Success([])
  {}

  lemma {:induction false} BuildsNext(
      x: BuildContext, cs: seq<Candidate>, s: set<nat>, rank: nat -> nat, i: nat, n: nat,
      earlier: seq<Dependency>)
    requires Buildable(cs, s, rank) && i in s && n < |cs[i].dependencies|
    requires BuildDependencies(x, cs, s, rank, i, n) == Success(earlier)
    ensures var d := cs[i].dependencies[n];
            && Available(cs, s, d)
            && BuildDependencies(x, cs, s, rank, i, n + 1)
               == match Build(x, cs, s, rank, FindByName(cs, d.skillName).value)
                  case Failure(e) => Failure(e)
                  case Success(target) => Success(earlier + [Pinned(d, target)])
  {
    hide Construct;
    TargetBelow(cs, s, rank, i, cs[i].dependencies[n]);
  }

  /** Once a dependency fails, everything after it fails the same way. */
  lemma {:induction false} FailsFrom(
      x: BuildContext, cs: seq<Candidate>, s: set<nat>, rank: nat -> nat,
      i: nat, n: nat, m: nat, e: ImportError)
    requires Buildable(cs, s, rank) && i in s && n <= m <= |cs[i].dependencies|
    requires BuildDependencies(x, cs, s, rank, i, n) == Failure(e)
    ensures BuildDependencies(x, cs, s, rank, i, m) == Failure(e)
    decreases m
  {
    if n < m {
      FailsFrom(x, cs, s, rank, i, n, m - 1, e);
    }
  }
}
