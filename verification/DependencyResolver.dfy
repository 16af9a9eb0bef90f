/** Dependencies between the skills of one snapshot: which evidence becomes an edge, and which
    names lie on a cycle. */
module DependencyResolver {
  import opened Text
  import opened StableSort
  import opened ExternalCatalog
  import opened FirstPaths

  datatype FindingCode =
    | SkillDuplicateIdentity | DependencyAmbiguous | DependencyMissing | DependencyCycle
    | SchemaInvalid | ResourceOversized | LicenseMissing
    | OtherCode(text: Str)

  /** A finding; all findings modelled here have severity "error". */
  datatype Finding = Finding(code: FindingCode, subjectId: Str)

  datatype DependencyResolution = DependencyResolution(
    dependencies: seq<Dependency>, findings: seq<Finding>)

  // ----- resolution

  /** How many candidates of the snapshot carry a name. */
  function CountOf(names: seq<Str>, name: Str): nat {
    if names == [] then 0
    else (if names[0] == name then 1 else 0) + CountOf(names[1..], name)
  }

  /** Evidence becomes an edge when it names exactly one other skill of the snapshot. */
  predicate Resolves(names: seq<Str>, source: Str, d: Dependency) {
    d.skillName != source && CountOf(names, d.skillName) == 1
  }

  predicate MustResolve(d: Dependency) { d.required && d.evidenceKind != ExplicitInvocation }

  function SubjectOf(source: Str, d: Dependency): Str { source + [COLON] + d.skillName }

  /** The finding a piece of evidence earns: nothing unless it had to resolve and did not. */
  function FindingFor(names: seq<Str>, source: Str, d: Dependency): Option<Finding> {
    if Resolves(names, source, d) || !MustResolve(d) then None
    else if d.skillName == source || CountOf(names, d.skillName) > 1
    then Some(Finding(DependencyAmbiguous, SubjectOf(source, d)))
    else Some(Finding(DependencyMissing, SubjectOf(source, d)))
  }

  function Resolved(names: seq<Str>, source: Str, evidence: seq<Dependency>): seq<Dependency> {
    if evidence == [] then []
    else
      var d := evidence[|evidence| - 1];
      Resolved(names, source, evidence[..|evidence| - 1])
      + if Resolves(names, source, d) then [d] else []
  }

  function Unresolved(names: seq<Str>, source: Str, evidence: seq<Dependency>): seq<Finding> {
    if evidence == [] then []
    else
      var f := FindingFor(names, source, evidence[|evidence| - 1]);
      Unresolved(names, source, evidence[..|evidence| - 1])
      + if f.Some? then [f.value] else []
  }

  function BySubject(collate: (Str, Str) -> bool): (Finding, Finding) -> bool {
    (a: Finding, b: Finding) => collate(a.subjectId, b.subjectId)
  }

  lemma {:induction false} CountOfAppend(a: seq<Str>, x: Str, name: Str)
    ensures CountOf(a + [x], name) == CountOf(a, name) + if x == name then 1 else 0
  {
    if a == [] {
      assert a + [x] == [x] && [x][1..] == [];
    } else {
      CountOfAppend(a[1..], x, name);
      assert (a + [x])[1..] == a[1..] + [x];
    }
  }

  method ResolveInternalDependencies(
      collate: (Str, Str) -> bool, names: seq<Str>, source: Str, evidence: seq<Dependency>)
    returns (r: DependencyResolution)
    ensures r.dependencies == Sort(Resolved(names, source, evidence), BySkillName(collate))
    ensures r.findings == Sort(Unresolved(names, source, evidence), BySubject(collate))
  {
    var counts: map<Str, nat> := map[];
    for i := 0 to |names|
      invariant forall name ::
        CountOf(names[..i], name) == if name in counts then counts[name] else 0
    {
      var name := names[i];
      assert names[..i + 1] == names[..i] + [name];
      forall other {
        CountOfAppend(names[..i], name, other);
      }
      counts := counts[name := (if name in counts then counts[name] else 0) + 1];
    }
    assert names[..|names|] == names;
    var dependencies: seq<Dependency> := [];
    var findings: seq<Finding> := [];
    for i := 0 to |evidence|
      invariant dependencies == Resolved(names, source, evidence[..i])
      invariant findings == Unresolved(names, source, evidence[..i])
    {
      var candidate := evidence[i];
      var count := if candidate.skillName in counts then counts[candidate.skillName] else 0;
      assert evidence[..i + 1][..i] == evidence[..i];
      if candidate.skillName == source || count > 1 {
        if candidate.required && candidate.evidenceKind != ExplicitInvocation {
          findings := findings + [Finding(DependencyAmbiguous, SubjectOf(source, candidate))];
        }
      } else if count == 0 {
        if candidate.required && candidate.evidenceKind != ExplicitInvocation {
          findings := findings + [Finding(DependencyMissing, SubjectOf(source, candidate))];
        }
      } else {
        dependencies := dependencies + [candidate];
      }
    }
    assert evidence[..|evidence|] == evidence;
    return DependencyResolution(
      Sort(dependencies, BySkillName(collate)), Sort(findings, BySubject(collate)));
  }

  // ----- resolution, on the names of the snapshot

  /** A name that exactly one skill of the snapshot has. */
  predicate NamesOne(names: seq<Str>, name: Str) {
    exists i :: 0 <= i < |names| && names[i] == name && forall k :: 0 <= k < |names| && names[k] == name ==> k == i
  }

  /** A name that several skills of the snapshot have. */
  predicate NamesSeveral(names: seq<Str>, name: Str) {
    exists i, j :: 0 <= i < j < |names| && names[i] == name && names[j] == name
  }

  lemma {:induction false} CountsOccurrences(names: seq<Str>, name: Str)
    ensures CountOf(names, name) == 0 <==> name !in names
    ensures CountOf(names, name) == 1 <==> NamesOne(names, name)
    ensures CountOf(names, name) > 1 <==> NamesSeveral(names, name)
  {
    if names != [] {
      hide NamesOne, NamesSeveral;
      CountsOccurrences(names[1..], name);
      OnceInTail(names, name);
      SeveralInTail(names, name);
    } else {
      hide CountOf;
      assert CountOf([], name) == 0;
    }
  }

  lemma {:induction false} SeveralInTail(names: seq<Str>, name: Str)
    requires names != []
    ensures NamesSeveral(names, name) <==> NamesSeveral(names[1..], name) || (names[0] == name && name in names[1..])
  {
    var rest := names[1..];
    assert forall k :: 1 <= k < |names| ==> names[k] == rest[k - 1];
    if NamesSeveral(names, name) {
      var i, j :| 0 <= i < j < |names| && names[i] == name && names[j] == name;
      assert rest[j - 1] == name;
      if i > 0 {
        assert rest[i - 1] == name;
      }
    }
    if NamesSeveral(rest, name) {
      var i, j :| 0 <= i < j < |rest| && rest[i] == name && rest[j] == name;
      assert names[i + 1] == name && names[j + 1] == name;
    }
    if names[0] == name && name in rest {
      var k :| 0 <= k < |rest| && rest[k] == name;
      assert names[k + 1] == name;
    }
  }

  lemma {:induction false} OnceInTail(names: seq<Str>, name: Str)
    requires names != []
    ensures names[0] == name ==> (NamesOne(names, name) <==> name !in names[1..])
    ensures names[0] != name ==> (NamesOne(names, name) <==> NamesOne(names[1..], name))
  {
    var rest := names[1..];
    assert forall k :: 1 <= k < |names| ==> names[k] == rest[k - 1];
    if NamesOne(names, name) {
      var i :| 0 <= i < |names| && names[i] == name && forall k :: 0 <= k < |names| && names[k] == name ==> k == i;
      if names[0] == name {
        assert forall k :: 0 <= k < |rest| ==> names[k + 1] == rest[k];
      } else {
        assert rest[i - 1] == name;
        forall k | 0 <= k < |rest| && rest[k] == name
          ensures k == i - 1
        {
          assert names[k + 1] == name;
        }
      }
    }
    if names[0] == name && name !in rest {
      assert forall k :: 1 <= k < |names| ==> names[k] in rest;
    }
    if names[0] != name && NamesOne(rest, name) {
      var i :| 0 <= i < |rest| && rest[i] == name && forall k :: 0 <= k < |rest| && rest[k] == name ==> k == i;
      assert names[i + 1] == name;
    }
  }

  /** The edges of a skill are exactly the evidence that names one other skill of the snapshot, each
      as often as it was given. */
  lemma {:induction false} ResolvedExactly(
      collate: (Str, Str) -> bool, names: seq<Str>, source: Str, evidence: seq<Dependency>)
    ensures forall d :: multiset(Sort(Resolved(names, source, evidence), BySkillName(collate)))[d]
                        == if d.skillName != source && NamesOne(names, d.skillName) then multiset(evidence)[d] else 0
  {
    SortPermutes(Resolved(names, source, evidence), BySkillName(collate));
    forall d
      ensures multiset(Resolved(names, source, evidence))[d]
              == if d.skillName != source && NamesOne(names, d.skillName) then multiset(evidence)[d] else 0
    {
      CountsOccurrences(names, d.skillName);
      hide NamesOne;
      ResolvedCounts(names, source, evidence, d);
    }
  }

  lemma {:induction false} ResolvedCounts(names: seq<Str>, source: Str, evidence: seq<Dependency>, d: Dependency)
    ensures multiset(Resolved(names, source, evidence))[d]
            == if Resolves(names, source, d) then multiset(evidence)[d] else 0
  {
    hide Resolves;
    if evidence != [] {
      var n := |evidence| - 1;
      ResolvedCounts(names, source, evidence[..n], d);
      assert evidence == evidence[..n] + [evidence[n]];
    }
  }

  /** The finding that evidence for a dependency earns: missing when no skill has the name, ambiguous
      when it is the skill itself or several have the name, nothing when it need not resolve. */
  predicate Earns(names: seq<Str>, source: Str, d: Dependency, f: Finding) {
    && d.required && d.evidenceKind != ExplicitInvocation
    && f.subjectId == source + Ascii(":") + d.skillName
    && if d.skillName == source || NamesSeveral(names, d.skillName) then f.code == DependencyAmbiguous
       else f.code == DependencyMissing && d.skillName !in names
  }

  /** The evidence that earns a finding. */
  ghost function Unmet(names: seq<Str>, source: Str, evidence: seq<Dependency>): set<nat> {
    set i: nat | i < |evidence| && exists f :: Earns(names, source, evidence[i], f)
  }

  lemma {:induction false} FindingIsEarned(names: seq<Str>, source: Str, d: Dependency)
    ensures forall f :: FindingFor(names, source, d) == Some(f) <==> Earns(names, source, d, f)
  {
    CountsOccurrences(names, d.skillName);
    assert Ascii(":") == [COLON];
    hide NamesOne, NamesSeveral;
  }

  /** The findings of a skill are exactly those its evidence earns, as many as there is such evidence. */
  lemma {:induction false} FindingsExactly(
      collate: (Str, Str) -> bool, names: seq<Str>, source: Str, evidence: seq<Dependency>)
    ensures var findings := Sort(Unresolved(names, source, evidence), BySubject(collate));
            && (forall f :: f in findings <==> exists d :: d in evidence && Earns(names, source, d, f))
            && |findings| == |Unmet(names, source, evidence)|
  {
    SortMembers(Unresolved(names, source, evidence), BySubject(collate));
    SortPermutes(Unresolved(names, source, evidence), BySubject(collate));
    SameCount(Sort(Unresolved(names, source, evidence), BySubject(collate)), Unresolved(names, source, evidence));
    UnresolvedEarned(names, source, evidence);
    UnresolvedCount(names, source, evidence);
  }

  lemma {:induction false} UnresolvedEarned(names: seq<Str>, source: Str, evidence: seq<Dependency>)
    ensures forall f :: f in Unresolved(names, source, evidence)
                        <==> exists d :: d in evidence && Earns(names, source, d, f)
  {
    hide Earns, FindingFor;
    if evidence != [] {
      var n := |evidence| - 1;
      UnresolvedEarned(names, source, evidence[..n]);
      FindingIsEarned(names, source, evidence[n]);
      assert evidence == evidence[..n] + [evidence[n]];
    }
  }

  lemma {:induction false} UnresolvedCount(names: seq<Str>, source: Str, evidence: seq<Dependency>)
    ensures |Unresolved(names, source, evidence)|
         == |Unmet(names, source, evidence)|
  {
    hide Earns, FindingFor;
    var all := Unmet(names, source, evidence);
    if evidence == [] {
      assert all == {};
    } else {
      var n := |evidence| - 1;
      var shorter := evidence[..n];
      UnresolvedCount(names, source, shorter);
      var earlier := Unmet(names, source, shorter);
      FindingIsEarned(names, source, evidence[n]);
      assert forall i :: 0 <= i < n ==> shorter[i] == evidence[i];
      if FindingFor(names, source, evidence[n]).Some? {
        assert Earns(names, source, evidence[n], FindingFor(names, source, evidence[n]).value);
        assert all == earlier + {n};
      } else {
        assert all == earlier;
      }
    }
  }

  /** A skill is left without a finding exactly when every dependency it must have names one other
      skill of the snapshot. */
  lemma {:induction false} CleanIffResolved(
      collate: (Str, Str) -> bool, names: seq<Str>, source: Str, evidence: seq<Dependency>)
    ensures Sort(Unresolved(names, source, evidence), BySubject(collate)) == []
       <==> forall d :: d in evidence && d.required && d.evidenceKind != ExplicitInvocation ==>
              d.skillName != source && NamesOne(names, d.skillName)
  {
    SortPermutes(Unresolved(names, source, evidence), BySubject(collate));
    SameCount(Sort(Unresolved(names, source, evidence), BySubject(collate)), Unresolved(names, source, evidence));
    UnresolvedEmpty(names, source, evidence);
    forall d: Dependency
      ensures Resolves(names, source, d) <==> d.skillName != source && NamesOne(names, d.skillName)
    {
      CountsOccurrences(names, d.skillName);
    }
    hide NamesOne, Resolves;
  }

  lemma {:induction false} UnresolvedEmpty(names: seq<Str>, source: Str, evidence: seq<Dependency>)
    ensures Unresolved(names, source, evidence) == []
       <==> forall d :: d in evidence && MustResolve(d) ==> Resolves(names, source, d)
  {
    hide Resolves;
    if evidence != [] {
      var n := |evidence| - 1;
      UnresolvedEmpty(names, source, evidence[..n]);
      assert evidence == evidence[..n] + [evidence[n]];
    }
  }

  // ----- graphs

  ghost predicate IsWalk(g: Graph, p: seq<Str>) {
    p != [] && forall i :: 0 <= i < |p| - 1 ==> p[i + 1] in Successors(g, p[i])
  }

  /** A walk whose last node leads back to its first. */
  ghost predicate IsClosedWalk(g: Graph, p: seq<Str>) {
    IsWalk(g, p) && p[0] in Successors(g, p[|p| - 1])
  }

  ghost predicate IsCycle(g: Graph, p: seq<Str>) {
    IsClosedWalk(g, p) && forall i, j :: 0 <= i < j < |p| ==> p[i] != p[j]
  }

  /** Every marked name lies on a cycle all of whose names are marked. */
  ghost predicate MarksCycles(g: Graph, marked: set<Str>) {
    forall name :: name in marked ==> OnMarkedCycle(g, marked, name)
  }

  ghost predicate OnMarkedCycle(g: Graph, marked: set<Str>, name: Str) {
    exists p :: IsCycle(g, p) && name in p && Among(p, marked)
  }

  /** The order in which a depth-first search finishes names: an edge leads to a name that
      finished earlier, unless both its ends are marked. */
  ghost predicate IsFinishingOrder(g: Graph, order: seq<Str>, marked: set<Str>) {
    forall i, w :: 0 <= i < |order| && w in Successors(g, order[i]) ==> EdgeExplained(order, marked, i, w)
  }

  predicate EdgeExplained(order: seq<Str>, marked: set<Str>, i: nat, w: Str)
    requires i < |order|
  {
    w in order[..i] || (order[i] in marked && w in marked)
  }

  // ----- the search

  class CycleFinder {
    const graph: Graph
    var visiting: set<Str>
    var visited: set<Str>
    var cyclic: set<Str>
    var stack: seq<Str>
    ghost var finished: seq<Str>
    ghost var paths: Paths
    ghost const universe: set<Str>
    ghost const keys: seq<Str>

    ghost predicate Valid()
      reads this
    {
      && (forall x :: x in visiting <==> x in stack)
      && (forall i, j :: 0 <= i < j < |stack| ==> stack[i] != stack[j])
      && (stack != [] ==> IsWalk(graph, stack))
      && (forall x :: x in visited <==> x in finished)
      && visited !! visiting
      && IsFinishingOrder(graph, finished, cyclic)
      && MarksCycles(graph, cyclic)
      && visited <= universe && visiting <= universe
      && (forall x :: x in universe ==> Successors(graph, x) <= universe)
    }

    /** The path by which each name was found, and the child of the stack the search is about to
        visit. */
    ghost predicate Searching(i: nat)
      reads this
    {
      && Charted(graph, keys, stack, paths, visited, cyclic)
      && AtChild(graph, keys, stack, i, paths, cyclic)
    }

    constructor (graph: Graph, ghost keys: seq<Str>, ghost universe: set<Str>)
      requires forall x :: x in universe ==> Successors(graph, x) <= universe
      ensures Valid() && Searching(0)
      ensures this.graph == graph && this.keys == keys && this.universe == universe
      ensures stack == [] && visited == {} && cyclic == {}
    {
      this.graph := graph;
      this.keys := keys;
      this.universe := universe;
      visiting, visited, cyclic, stack, finished, paths := {}, {}, {}, [], [], map[];
    }

    /** The search goes on to that child of its stack. */
    ghost predicate IsChild(i: nat, name: Str)
      reads this
    {
      i < |Children(graph, keys, stack)| && Children(graph, keys, stack)[i] == name
    }

    lemma {:induction false} Situation(i: nat, name: Str)
      requires Valid() && Searching(i) && IsChild(i, name)
      ensures name in paths <==> name in visited || name in stack
      ensures name in visiting <==> name in stack
      ensures name in visited ==> name !in stack
      ensures stack != [] ==> name in Successors(graph, stack[|stack| - 1])
      ensures name in stack ==> stack != []
      ensures name in Children(graph, keys, stack)
    {
      hide Charted, AtChild, IsFinishingOrder, MarksCycles, IsWalk, Children, Successors;
      ChartedNames(graph, keys, stack, paths, visited, cyclic, name);
      ChildOf(graph, keys, stack, i);
      if stack != [] {
        ChildIsSuccessor(graph, keys, stack, name);
      }
    }

    /** A child that is finished was found by a path that is no later. */
    lemma {:induction false} Revisited(i: nat, name: Str)
      requires Valid() && Searching(i) && IsChild(i, name) && name in visited
      ensures Searching(i + 1)
    {
      Situation(i, name);
      hide Charted, AtChild, Valid;
      FoundFinished(graph, keys, stack, i, paths, visited, cyclic);
    }

    /** A name found on the stack closes a cycle: everything from it to the top is marked. */
    method MarkCycle(name: Str)
      requires Valid() && name in stack && name in Successors(graph, stack[|stack| - 1])
      modifies `cyclic
      ensures Valid() && name in cyclic && stack[|stack| - 1] in cyclic
      ensures cyclic == old(cyclic) + CycleNames(stack, name)
    {
      hide IsFinishingOrder, MarksCycles, IsWalk, Successors, CycleNames;
      CycleOnStack(graph, stack, name, cyclic);
      MoreMarks(graph, finished, cyclic, cyclic + CycleNames(stack, name));
      cyclic := cyclic + CycleNames(stack, name);
    }

    method Enter(name: Str)
      requires Valid() && name in universe && name !in visited && name !in visiting
      requires stack != [] ==> name in Successors(graph, stack[|stack| - 1])
      modifies `visiting, `stack, `paths
      ensures Valid() && stack == old(stack) + [name] && visiting == old(visiting) + {name}
      ensures paths == old(paths)[name := stack]
    {
      WalkExtends(graph, stack, name);
      visiting := visiting + {name};
      stack := stack + [name];
      paths := paths[name := stack];
    }

    /** A name whose edges are all explained leaves the stack finished. */
    method Leave(name: Str)
      requires Valid() && stack != [] && stack[|stack| - 1] == name
      requires forall w :: w in Successors(graph, name) ==>
                 w in visited || (name in cyclic && w in cyclic)
      modifies `visiting, `visited, `stack, `finished
      ensures Valid() && stack == old(stack)[..|old(stack)| - 1]
      ensures visiting == old(visiting) - {name} && visited == old(visited) + {name}
    {
      FinishName(graph, finished, cyclic, name);
      var rest := stack[..|stack| - 1];
      forall x
        ensures x in rest <==> x in visiting && x != name
      {
        if x in visiting && x != name {
          var i :| 0 <= i < |stack| && stack[i] == x;
          assert rest[i] == x;
        }
      }
      stack := rest;
      visiting := visiting - {name};
      visited := visited + {name};
      finished := finished + [name];
    }

    lemma {:induction false} Surroundings(name: Str)
      requires Valid() && name in universe
      ensures Successors(graph, name) <= universe
    {}

    /** The children of a stack are the dependencies of its top. */
    lemma {:induction false} TopChildren(start: seq<Str>, name: Str)
      ensures var cs, ds := Children(graph, keys, start + [name]), DependenciesOf(graph, name);
              |cs| == |ds| && forall j :: 0 <= j < |ds| ==> cs[j] == ds[j].skillName
    {}

    /** Visiting the next child of the stack finishes it, or finds it on the stack and marks the
        cycle it closes; names are found by first paths. */
    method Visit(name: Str, ghost i: nat)
      requires Valid() && name in universe
      requires Searching(i) && IsChild(i, name)
      modifies this
      ensures Valid() && stack == old(stack) && visiting == old(visiting)
      ensures old(visited) <= visited && old(cyclic) <= cyclic
      ensures name in visited
              || (stack != [] && name in cyclic && stack[|stack| - 1] in cyclic)
      ensures Searching(i + 1) && Grows(old(paths), paths)
      decreases universe - visiting - visited
    {
      hide Valid, IsWalk, Charted, AtChild, Children, Rank, Grows;
      ghost var start, known, marked := stack, paths, cyclic;
      GrowsSame(paths);
      Situation(i, name);
      if name in visited {
        Revisited(i, name);
        return;
      }
      if name in visiting {
        MarkCycle(name);
        MarkSearch(graph, keys, stack, i, paths, visited, marked, name);
        return;
      }
      EnterSearch(graph, keys, stack, i, paths, visited, cyclic, name);
      Enter(name);
      var dependencies := DependenciesOf(graph, name);
      TopChildren(start, name);
      for j := 0 to |dependencies|
        invariant Valid() && stack == start + [name] && visiting == old(visiting) + {name}
        invariant old(visited) <= visited && marked <= cyclic
        invariant Searching(j) && Grows(known, paths) && name in paths && paths[name] == stack
        invariant forall k :: 0 <= k < j ==>
          dependencies[k].skillName in visited
          || (name in cyclic && dependencies[k].skillName in cyclic)
      {
        assert dependencies[j].skillName in Successors(graph, name);
        Surroundings(name);
        assert name in old(universe - visiting - visited) && name !in universe - visiting - visited;
        ghost var before := paths;
        Visit(dependencies[j].skillName, j);
        GrowsOn(known, before, paths, name);
      }
      LeaveSearch(graph, keys, start, i, known, marked, paths, visited, cyclic, name);
      Leave(name);
    }
  }

  lemma {:induction false} WalkExtends(g: Graph, p: seq<Str>, name: Str)
    requires p != [] ==> IsWalk(g, p) && name in Successors(g, p[|p| - 1])
    ensures IsWalk(g, p + [name])
  {}

  /** The stack from the name found on it is a cycle, and marking it keeps every mark on a
      wholly marked cycle. */
  lemma {:induction false} CycleOnStack(g: Graph, stack: seq<Str>, name: Str, marked: set<Str>)
    requires name in stack && IsWalk(g, stack)
    requires forall i, j :: 0 <= i < j < |stack| ==> stack[i] != stack[j]
    requires name in Successors(g, stack[|stack| - 1])
    requires MarksCycles(g, marked)
    ensures MarksCycles(g, marked + CycleNames(stack, name))
  {
    var p := stack[IndexOf(stack, name)..];
    var more := marked + CycleNames(stack, name);
    assert IsCycle(g, p) && Among(p, more);
    forall x | x in more
      ensures OnMarkedCycle(g, more, x)
    {
      if x in marked {
        assert OnMarkedCycle(g, marked, x);
        var q :| IsCycle(g, q) && x in q && Among(q, marked);
        assert Among(q, more);
      }
    }
  }

  lemma {:induction false} MoreMarks(g: Graph, order: seq<Str>, fewer: set<Str>, more: set<Str>)
    requires IsFinishingOrder(g, order, fewer) && fewer <= more
    ensures IsFinishingOrder(g, order, more)
  {
    forall i, w | 0 <= i < |order| && w in Successors(g, order[i])
      ensures EdgeExplained(order, more, i, w)
    {
      assert EdgeExplained(order, fewer, i, w);
    }
  }

  lemma {:induction false} FinishName(g: Graph, order: seq<Str>, marked: set<Str>, name: Str)
    requires IsFinishingOrder(g, order, marked)
    requires forall w :: w in Successors(g, name) ==> w in order || (name in marked && w in marked)
    ensures IsFinishingOrder(g, order + [name], marked)
  {
    var longer := order + [name];
    forall i, w | 0 <= i < |longer| && w in Successors(g, longer[i])
      ensures EdgeExplained(longer, marked, i, w)
    {
      assert longer[..i] == order[..i];
      if i < |order| {
        assert EdgeExplained(order, marked, i, w);
      } else {
        assert order[..i] == order;
      }
    }
  }

  /** Everything an edge of the graph touches. */
  function Universe(g: Graph): set<Str> {
    g.Keys + set name, d | name in g && d in g[name] :: d.skillName
  }

  /** Marks only names on cycles, whole cycles at a time, and hits every closed walk. The finishing
      order it returns explains every edge between unmarked names. */
  method DependencyCycleMembers(graph: Graph, keys: seq<Str>)
    returns (members: set<Str>, ghost order: seq<Str>)
    requires forall name :: name in graph <==> name in keys
    ensures MarksCycles(graph, members)
    ensures forall name :: name in members <==> OnFirstCycle(graph, keys, name)
    ensures forall p :: IsClosedWalk(graph, p) ==> exists name :: name in p && name in members
    ensures IsFinishingOrder(graph, order, members)
    ensures forall name :: name in graph ==> name in order
  {
    ghost var universe := Universe(graph);
    forall x | x in universe
      ensures Successors(graph, x) <= universe
    {}
    var finder := new CycleFinder(graph, keys, universe);
    for i := 0 to |keys|
      invariant finder.Valid() && finder.stack == [] && finder.Searching(i)
      invariant finder.graph == graph && finder.universe == universe && finder.keys == keys
      invariant forall k :: 0 <= k < i ==> keys[k] in finder.visited
    {
      finder.Visit(keys[i], i);
    }
    members, order := finder.cyclic, finder.finished;
    SearchCompletes(graph, keys, finder.paths, finder.visited, members);
    MarksFirstCycles(graph, keys, finder.paths, members);
    forall p | IsClosedWalk(graph, p)
      ensures exists name :: name in p && name in members
    {
      ClosedWalkIsMarked(graph, order, members, p);
    }
  }

  lemma {:induction false} IndexOfPrefix(order: seq<Str>, n: nat, w: Str)
    requires n <= |order| && w in order[..n]
    ensures w in order && IndexOf(order, w) < n
  {
    if order[0] != w {
      assert order[..n][1..] == order[1..][..n - 1];
      IndexOfPrefix(order[1..], n - 1, w);
    }
  }

  /** An edge with an unmarked end goes down in the finishing order. */
  lemma {:induction false} RankDrops(g: Graph, order: seq<Str>, marked: set<Str>, u: Str, w: Str)
    requires IsFinishingOrder(g, order, marked)
    requires u in order && w in Successors(g, u)
    requires u !in marked || w !in marked
    ensures w in order && Rank(order, w) < Rank(order, u)
  {
    var i := IndexOf(order, u);
    assert EdgeExplained(order, marked, i, w);
    IndexOfPrefix(order, i, w);
  }

  lemma {:induction false} WalkDescends(
      g: Graph, order: seq<Str>, marked: set<Str>, p: seq<Str>, i: nat)
    requires IsFinishingOrder(g, order, marked)
    requires IsWalk(g, p) && p[0] in order && i < |p|
    requires forall name :: name in p ==> name !in marked
    ensures p[i] in order && Rank(order, p[i]) + i <= Rank(order, p[0])
  {
    if i > 0 {
      WalkDescends(g, order, marked, p, i - 1);
      RankDrops(g, order, marked, p[i - 1], p[i]);
    }
  }

  /** No closed walk escapes the marks: unmarked, it would descend for ever. */
  lemma {:induction false} ClosedWalkIsMarked(
      g: Graph, order: seq<Str>, marked: set<Str>, p: seq<Str>)
    requires IsFinishingOrder(g, order, marked)
    requires forall name :: name in g ==> name in order
    requires IsClosedWalk(g, p)
    ensures exists name :: name in p && name in marked
  {
    if forall name :: name in p ==> name !in marked {
      var n := |p| - 1;
      assert p[n] in g;
      RankDrops(g, order, marked, p[n], p[0]);
      WalkDescends(g, order, marked, p, n);
    }
  }
}
