/** Which candidates of a snapshot may be published, stated on the candidates alone: the greatest
    set of clean candidates that is closed under dependencies and free of cycles. */
module Eligibility {
  import opened Text
  import opened ExternalCatalog
  import opened FirstPaths
  import opened DependencyResolver
  import CanonicalRevision

  datatype Document = Document(
    name: Str,
    description: Str,
    instructions: Str,
    invocationMode: InvocationMode,
    dependencyEvidence: seq<Dependency>)

  datatype Legal = Legal(
    spdxLicenseId: Str,
    licenseText: Str,
    attribution: Str,
    licenseEvidencePath: Str,
    licenseBlobSha: Str,
    skillDeclaredSpdxId: Optional,
    noticeText: Optional,
    noticeEvidencePath: Optional,
    noticeBlobSha: Optional)

  datatype Candidate = Candidate(
    skillPath: Str,
    document: Option<Document>,
    legal: Option<Legal>,
    resources: seq<CanonicalRevision.ResourceInput>,
    dependencies: seq<Dependency>,
    findings: seq<Finding>)

  predicate Named(c: Candidate, name: Str) { c.document.Some? && c.document.value.name == name }

  /** The first candidate with a document of that name. */
  function FindByName(cs: seq<Candidate>, name: Str): (r: Option<nat>)
    ensures r.Some? ==> r.value < |cs| && Named(cs[r.value], name)
    ensures r.Some? ==> forall k :: 0 <= k < r.value ==> !Named(cs[k], name)
    ensures r.None? ==> forall k :: 0 <= k < |cs| ==> !Named(cs[k], name)
  {
    if cs == [] then None
    else if Named(cs[0], name) then Some(0)
    else
      match FindByName(cs[1..], name)
      case None => None
      case Some(i) => Some(i + 1)
  }

  predicate IsClean(c: Candidate) { c.document.Some? && c.findings == [] }

  function Clean(cs: seq<Candidate>): set<nat> {
    set i: nat | i < |cs| && IsClean(cs[i])
  }

  ghost predicate ClosedUnder(cs: seq<Candidate>, s: set<nat>) {
    forall i, d :: i in s && i < |cs| && d in cs[i].dependencies ==> Available(cs, s, d)
  }

  predicate Available(cs: seq<Candidate>, s: set<nat>, d: Dependency) {
    FindByName(cs, d.skillName).Some? && FindByName(cs, d.skillName).value in s
  }

  predicate DependsOn(cs: seq<Candidate>, i: nat, j: nat) {
    i < |cs| && exists d :: d in cs[i].dependencies && FindByName(cs, d.skillName) == Some(j)
  }

  ghost predicate IsPath(cs: seq<Candidate>, s: set<nat>, w: seq<nat>) {
    && w != []
    && (forall k :: 0 <= k < |w| ==> w[k] in s)
    && (forall k :: 0 <= k < |w| - 1 ==> DependsOn(cs, w[k], w[k + 1]))
  }

  ghost predicate IsLoop(cs: seq<Candidate>, s: set<nat>, w: seq<nat>) {
    IsPath(cs, s, w) && DependsOn(cs, w[|w| - 1], w[0])
  }

  /** Clean candidates that find all their dependencies among themselves, without a cycle. */
  ghost predicate Sound(cs: seq<Candidate>, s: set<nat>) {
    s <= Clean(cs) && ClosedUnder(cs, s) && forall w :: !IsLoop(cs, s, w)
  }

  ghost predicate IsGreatestSound(cs: seq<Candidate>, s: set<nat>) {
    Sound(cs, s) && forall t :: Sound(cs, t) ==> t <= s
  }

  ghost predicate IsGreatestClosed(cs: seq<Candidate>, within: set<nat>, s: set<nat>) {
    && s <= within && ClosedUnder(cs, s)
    && forall t :: t <= within && ClosedUnder(cs, t) ==> t <= s
  }

  /** Dependencies inside the set go down a measure. */
  ghost predicate Grounded(cs: seq<Candidate>, s: set<nat>, rank: nat -> nat) {
    && ClosedUnder(cs, s)
    && forall i, j :: i in s && DependsOn(cs, i, j) ==> rank(j) < rank(i)
  }

  // ----- the shape of resolved candidates

  function NamesOf(cs: seq<Candidate>): seq<Str> {
    if cs == [] then []
    else
      NamesOf(cs[..|cs| - 1])
      + match cs[|cs| - 1].document
        case None => []
        case Some(d) => [d.name]
  }

  /** Clean candidates have a name of their own. */
  ghost predicate UniqueNames(cs: seq<Candidate>) {
    forall i, j :: 0 <= i < |cs| && 0 <= j < |cs| && IsClean(cs[i]) && i != j ==>
      !Named(cs[j], cs[i].document.value.name)
  }

  /** The dependency graph by name; a later candidate of a name replaces an earlier one. */
  function GraphOf(cs: seq<Candidate>): (g: Graph)
    ensures forall name :: name in g <==> exists i :: 0 <= i < |cs| && Named(cs[i], name)
    ensures forall name :: name in g ==>
              exists i :: 0 <= i < |cs| && Named(cs[i], name) && g[name] == cs[i].dependencies
  {
    if cs == [] then map[]
    else
      var g := GraphOf(cs[..|cs| - 1]);
      var c := cs[|cs| - 1];
      assert forall i :: 0 <= i < |cs| - 1 ==> cs[..|cs| - 1][i] == cs[i];
      if c.document.None? then g else g[c.document.value.name := c.dependencies]
  }

  /** A clean candidate's edges in the graph are its own dependencies. */
  lemma {:induction false} CleanEdges(cs: seq<Candidate>, i: nat)
    requires UniqueNames(cs) && i < |cs| && IsClean(cs[i])
    ensures var name := cs[i].document.value.name;
            && name in GraphOf(cs) && GraphOf(cs)[name] == cs[i].dependencies
            && FindByName(cs, name) == Some(i)
  {
    var name := cs[i].document.value.name;
    assert Named(cs[i], name);
    var k :| 0 <= k < |cs| && Named(cs[k], name) && GraphOf(cs)[name] == cs[k].dependencies;
    assert k == i;
  }

  // ----- cycles and loops

  /** A grounded set has no loop. */
  lemma {:induction false} GroundedHasNoLoop(
      cs: seq<Candidate>, s: set<nat>, rank: nat -> nat, w: seq<nat>)
    requires Grounded(cs, s, rank)
    ensures !IsLoop(cs, s, w)
  {
    if IsLoop(cs, s, w) {
      PathDescends(cs, s, rank, w, |w| - 1);
    }
  }

  lemma {:induction false} PathDescends(
      cs: seq<Candidate>, s: set<nat>, rank: nat -> nat, w: seq<nat>, k: nat)
    requires Grounded(cs, s, rank) && IsPath(cs, s, w) && k < |w|
    ensures rank(w[k]) <= rank(w[0])
  {
    if k > 0 {
      PathDescends(cs, s, rank, w, k - 1);
    }
  }

  /** The candidates behind the names of a walk. */
  function Indices(cs: seq<Candidate>, p: seq<Str>): (w: seq<nat>)
    ensures |w| == |p|
    ensures forall k :: 0 <= k < |p| ==>
              w[k] == if FindByName(cs, p[k]).Some? then FindByName(cs, p[k]).value else 0
  {
    seq(|p|, k requires 0 <= k < |p| =>
      match FindByName(cs, p[k]) case Some(i) => i case None => 0)
  }

  ghost predicate NameIn(cs: seq<Candidate>, s: set<nat>, name: Str) {
    FindByName(cs, name).Some? && FindByName(cs, name).value in s
  }

  lemma {:induction false} EdgeStaysInside(cs: seq<Candidate>, s: set<nat>, u: Str, v: Str)
    requires UniqueNames(cs) && s <= Clean(cs) && ClosedUnder(cs, s) && NameIn(cs, s, u)
    requires v in Successors(GraphOf(cs), u)
    ensures NameIn(cs, s, v)
    ensures DependsOn(cs, FindByName(cs, u).value, FindByName(cs, v).value)
  {
    var i := FindByName(cs, u).value;
    CleanEdges(cs, i);
    var d :| d in cs[i].dependencies && d.skillName == v;
    assert Available(cs, s, d);
  }

  lemma {:induction false} WalkStaysInside(
      cs: seq<Candidate>, s: set<nat>, p: seq<Str>, from: nat, k: nat)
    requires UniqueNames(cs) && s <= Clean(cs) && ClosedUnder(cs, s) && IsWalk(GraphOf(cs), p)
    requires from <= k < |p| && NameIn(cs, s, p[from])
    ensures NameIn(cs, s, p[k])
    decreases k - from
  {
    hide GraphOf, Clean, ClosedUnder, UniqueNames, FindByName, Successors, NameIn;
    if from < k {
      WalkStaysInside(cs, s, p, from, k - 1);
      EdgeStaysInside(cs, s, p[k - 1], p[k]);
    }
  }

  /** A closed walk of names that touches a closed set of clean candidates is a loop inside it. */
  lemma {:induction false} CycleIsLoop(cs: seq<Candidate>, s: set<nat>, p: seq<Str>, name: Str)
    requires UniqueNames(cs) && s <= Clean(cs) && ClosedUnder(cs, s)
    requires IsClosedWalk(GraphOf(cs), p) && name in p && NameIn(cs, s, name)
    ensures IsLoop(cs, s, Indices(cs, p))
  {
    hide GraphOf, UniqueNames, FindByName, Successors, DependsOn;
    var n := |p| - 1;
    var from :| 0 <= from < |p| && p[from] == name;
    WalkStaysInside(cs, s, p, from, n);
    EdgeStaysInside(cs, s, p[n], p[0]);
    var w := Indices(cs, p);
    forall k | 0 <= k < |p|
      ensures w[k] in s
    {
      WalkStaysInside(cs, s, p, 0, k);
    }
    forall k | 0 <= k < |p| - 1
      ensures DependsOn(cs, w[k], w[k + 1])
    {
      WalkStaysInside(cs, s, p, 0, k);
      EdgeStaysInside(cs, s, p[k], p[k + 1]);
    }
  }

  // ----- marking cycles, then propagating, computes the greatest sound set

  predicate CycleMarked(cs: seq<Candidate>, members: set<Str>, i: nat)
    requires i < |cs|
  {
    exists name :: name in members && FindByName(cs, name) == Some(i)
  }

  function Unmarked(cs: seq<Candidate>, members: set<Str>): set<nat> {
    set i | i in Clean(cs) && !CycleMarked(cs, members, i)
  }

  function NameRank(cs: seq<Candidate>, order: seq<Str>): nat -> nat {
    (i: nat) => if i < |cs| && cs[i].document.Some? then Rank(order, cs[i].document.value.name) else 0
  }

  /** Inside the greatest closed set of unmarked candidates the finishing order is a measure. */
  lemma {:induction false} FinishingOrderGrounds(
      cs: seq<Candidate>, members: set<Str>, order: seq<Str>, s: set<nat>)
    requires UniqueNames(cs)
    requires IsFinishingOrder(GraphOf(cs), order, members)
    requires forall name :: name in GraphOf(cs) ==> name in order
    requires s <= Unmarked(cs, members) && ClosedUnder(cs, s)
    ensures Grounded(cs, s, NameRank(cs, order))
  {
    var rank := NameRank(cs, order);
    forall i: nat, j: nat | i in s && DependsOn(cs, i, j)
      ensures rank(j) < rank(i)
    {
      var d :| d in cs[i].dependencies && FindByName(cs, d.skillName) == Some(j);
      assert Available(cs, s, d);
      CleanEdges(cs, i);
      var u, v := cs[i].document.value.name, d.skillName;
      assert v in Successors(GraphOf(cs), u);
      RankDrops(GraphOf(cs), order, members, u, v);
    }
  }

  /** Whatever the marks were, what survives propagation is the greatest sound set. */
  lemma {:induction false} SurvivorsAreGreatestSound(
      cs: seq<Candidate>, members: set<Str>, order: seq<Str>, s: set<nat>)
    requires UniqueNames(cs)
    requires MarksCycles(GraphOf(cs), members)
    requires IsFinishingOrder(GraphOf(cs), order, members)
    requires forall name :: name in GraphOf(cs) ==> name in order
    requires IsGreatestClosed(cs, Unmarked(cs, members), s)
    ensures IsGreatestSound(cs, s)
    ensures Grounded(cs, s, NameRank(cs, order))
  {
    FinishingOrderGrounds(cs, members, order, s);
    forall w
      ensures !IsLoop(cs, s, w)
    {
      GroundedHasNoLoop(cs, s, NameRank(cs, order), w);
    }
    forall t | Sound(cs, t)
      ensures t <= s
    {
      forall i | i in t
        ensures i in Unmarked(cs, members)
      {
        if CycleMarked(cs, members, i) {
          var name :| name in members && FindByName(cs, name) == Some(i);
          assert OnMarkedCycle(GraphOf(cs), members, name);
          var p :| IsCycle(GraphOf(cs), p) && name in p && Among(p, members);
          CycleIsLoop(cs, t, p, name);
        }
      }
    }
  }
}
