/** A name on a cycle that the cycle search does not mark. */
module CycleExample {
  import opened Text
  import opened ExternalCatalog
  import opened FirstPaths
  import opened DependencyResolver

  const A: Str := Ascii("a")
  const B: Str := Ascii("b")
  const C: Str := Ascii("c")
  const D: Str := Ascii("d")

  function Edge(name: Str): Dependency {
    Dependency(name, Absent, Absent, true, Manifest, [])
  }

  const GRAPH: Graph := map[A := [Edge(B), Edge(C)], B := [Edge(D)], C := [Edge(D)], D := [Edge(A)]]
  const KEYS: seq<Str> := [A, B, C, D]

  lemma {:induction false} NamesDiffer()
    ensures A != B && A != C && A != D && B != C && B != D && C != D
  {
    assert A[0] == 'a' as int && B[0] == 'b' as int && C[0] == 'c' as int && D[0] == 'd' as int;
  }

  /** Where each path of the graph can go on. */
  lemma {:induction false} ChildrenAre(p: seq<Str>)
    ensures p == [] ==> Children(GRAPH, KEYS, p) == KEYS
    ensures p != [] && p[|p| - 1] == A ==> Children(GRAPH, KEYS, p) == [B, C]
    ensures p != [] && (p[|p| - 1] == B || p[|p| - 1] == C) ==> Children(GRAPH, KEYS, p) == [D]
    ensures p != [] && p[|p| - 1] == D ==> Children(GRAPH, KEYS, p) == [A]
    ensures p != [] && p[|p| - 1] !in KEYS ==> Children(GRAPH, KEYS, p) == []
  {
    NamesDiffer();
    if p != [] {
      var ds := DependenciesOf(GRAPH, p[|p| - 1]);
      assert p[|p| - 1] == A ==> ds == [Edge(B), Edge(C)];
      assert Children(GRAPH, KEYS, p) == Names(ds);
    }
  }

  lemma {:induction false} Ranks()
    ensures Rank(KEYS, A) == 0 && Rank([B, C], B) == 0 && Rank([B, C], C) == 1 && Rank([D], D) == 0
    ensures forall x :: Rank([B, C], x) == 0 ==> x == B
  {
    NamesDiffer();
  }

  /** The first paths to the four names. */
  function FirstPath(u: Str): seq<Str> {
    if u == A then [A] else if u == B then [A, B] else if u == C then [A, C] else [A, B, D]
  }

  lemma {:induction false} FirstPathRooted(u: Str)
    requires u in KEYS
    ensures Rooted(GRAPH, KEYS, FirstPath(u)) && FirstPath(u)[|FirstPath(u)| - 1] == u
  {
    NamesDiffer();
    var p := FirstPath(u);
    forall k | 0 <= k < |p|
      ensures GoesOn(GRAPH, KEYS, p, k)
    {
      ChildrenAre(p[..k]);
    }
  }

  lemma {:induction false} EndsAtKey(p: seq<Str>, k: nat)
    requires Rooted(GRAPH, KEYS, p) && k < |p|
    ensures p[k] in KEYS
  {
    assert GoesOn(GRAPH, KEYS, p, k);
    ChildrenAre(p[..k]);
  }

  /** No simple path begins with the edge to B and reaches C. */
  lemma {:induction false} PastBMissesC(p: seq<Str>)
    requires Rooted(GRAPH, KEYS, p) && |p| > 1 && p[0] == A && p[1] == B
    ensures p[|p| - 1] != C
  {
    NamesDiffer();
    if |p| > 2 {
      assert GoesOn(GRAPH, KEYS, p, 2);
      ChildrenAre(p[..2]);
      assert p[2] == D;
      if |p| > 3 {
        assert GoesOn(GRAPH, KEYS, p, 3);
        ChildrenAre(p[..3]);
      }
    }
  }

  lemma {:induction false} OnlyFirstPaths(p: seq<Str>)
    requires IsFirstPath(GRAPH, KEYS, p)
    ensures p == FirstPath(p[|p| - 1])
  {
    var u := p[|p| - 1];
    EndsAtKey(p, |p| - 1);
    FirstPathRooted(u);
    assert NotLater(GRAPH, KEYS, p, FirstPath(u));
    if p <= FirstPath(u) {
      SamePrefix(p, FirstPath(u));
    } else {
      NothingEarlier(p, u);
    }
  }

  lemma {:induction false} NothingEarlier(p: seq<Str>, u: Str)
    requires Rooted(GRAPH, KEYS, p) && p[|p| - 1] == u && u in KEYS
    ensures !Earlier(GRAPH, KEYS, p, FirstPath(u))
  {
    NamesDiffer();
    Ranks();
    forall d: nat
      ensures !DivergesAt(GRAPH, KEYS, p, FirstPath(u), d)
    {
      if d < |p| && d < |FirstPath(u)| && p[..d] == FirstPath(u)[..d] {
        ChildrenAre(p[..d]);
        if d == 1 && u == C && p[1] == B {
          assert p[0] == p[..d][0] == A;
          PastBMissesC(p);
        }
      }
    }
  }

  lemma {:induction false} SuccessorsAre(p: seq<Str>)
    requires p != []
    ensures forall w :: w in Successors(GRAPH, p[|p| - 1]) <==> w in Children(GRAPH, KEYS, p)
  {
    forall w
      ensures w in Successors(GRAPH, p[|p| - 1]) <==> w in Children(GRAPH, KEYS, p)
    {
      ChildIsSuccessor(GRAPH, KEYS, p, w);
    }
  }

  /** Only the first path to D is closed to a cycle. */
  lemma {:induction false} ClosedFirstPath(p: seq<Str>, k: nat)
    requires IsFirstPath(GRAPH, KEYS, p) && ClosedAt(GRAPH, p, k)
    ensures p == [A, B, D]
  {
    EndsAtKey(p, |p| - 1);
    OnlyFirstPaths(p);
    SuccessorsAre(p);
    ChildrenAre(p);
    NamesDiffer();
    hide IsFirstPath, Successors, Children;
    assert p[k] in p;
  }

  lemma {:induction false} FirstToD()
    ensures IsFirstPath(GRAPH, KEYS, [A, B, D]) && ClosedAt(GRAPH, [A, B, D], 0)
  {
    NamesDiffer();
    var p := [A, B, D];
    FirstPathRooted(D);
    SuccessorsAre(p);
    ChildrenAre(p);
    forall q | Rooted(GRAPH, KEYS, q) && q[|q| - 1] == D
      ensures NotLater(GRAPH, KEYS, p, q)
    {
      NoneBeforeD(q);
    }
  }

  lemma {:induction false} NoneBeforeD(q: seq<Str>)
    requires Rooted(GRAPH, KEYS, q) && q[|q| - 1] == D
    ensures NotLater(GRAPH, KEYS, [A, B, D], q)
  {
    NamesDiffer();
    Ranks();
    var p := [A, B, D];
    EndsAtKey(q, 0);
    ChildrenAre([]);
    assert p[..0] == q[..0] == [];
    if q[0] != A {
      assert DivergesAt(GRAPH, KEYS, p, q, 0);
    } else {
      assert GoesOn(GRAPH, KEYS, q, 1) && q[..1] == p[..1] == [A];
      ChildrenAre([A]);
      if q[1] != B {
        assert DivergesAt(GRAPH, KEYS, p, q, 1);
      } else {
        assert GoesOn(GRAPH, KEYS, q, 2) && q[..2] == [A, B];
        ChildrenAre([A, B]);
      }
    }
  }

  /** Although C is on a cycle of the graph, the names on closed first paths are the other three. */
  lemma {:induction false} AllButOne(name: Str)
    ensures OnFirstCycle(GRAPH, KEYS, name) <==> name in {A, B, D}
  {
    NamesDiffer();
    hide IsFirstPath;
    if OnFirstCycle(GRAPH, KEYS, name) {
      var p, k: nat :| IsFirstPath(GRAPH, KEYS, p) && ClosedAt(GRAPH, p, k) && name in p[k..];
      ClosedFirstPath(p, k);
    }
    if name in {A, B, D} {
      FirstToD();
      assert [A, B, D][0..] == [A, B, D];
    }
  }

  lemma {:induction false} ThroughC()
    ensures IsCycle(GRAPH, [A, C, D])
  {
    NamesDiffer();
    SuccessorsAre([A]);
    SuccessorsAre([C]);
    SuccessorsAre([D]);
    ChildrenAre([A]);
    ChildrenAre([C]);
    ChildrenAre([D]);
    assert [B, C][1] == C && [D][0] == D && [A][0] == A;
    hide Children, Successors;
  }

  /** The search marks three of the four names on cycles. */
  method SearchedExample() returns (members: set<Str>)
    ensures members == {A, B, D} && C !in members && IsCycle(GRAPH, [A, C, D])
  {
    hide OnFirstCycle, MarksCycles, IsFinishingOrder, IsCycle, IsClosedWalk;
    ghost var order;
    NamesDiffer();
    ThroughC();
    members, order := DependencyCycleMembers(GRAPH, KEYS);
    forall name {
      AllButOne(name);
    }
  }
}
