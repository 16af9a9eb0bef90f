/** What becomes of a candidate does not depend on the order in which a snapshot lists its
    candidates. */
module CandidateOrder {
  import opened Text
  import opened StableSort
  import opened ExternalCatalog
  import opened DependencyResolver
  import opened Eligibility
  import opened RevisionBuild
  import opened SourceSync
  import opened Admission
  import opened SnapshotClassification

  /** Where each element of one list is in another, and back. */
  datatype Order = Order(to: seq<nat>, back: seq<nat>) {
    function Flipped(): Order { Order(back, to) }
  }

  /** The second list holds the elements of the first, reordered. */
  ghost predicate Reorders<T>(a: seq<T>, b: seq<T>, o: Order) {
    && |a| == |b| == |o.to| == |o.back|
    && (forall i :: 0 <= i < |a| ==> o.to[i] < |b| && o.back[o.to[i]] == i && b[o.to[i]] == a[i])
    && (forall j :: 0 <= j < |b| ==> o.back[j] < |a| && o.to[o.back[j]] == j)
  }

  function Moved(o: Order, s: set<nat>): set<nat> {
    set i | i in s && i < |o.to| :: o.to[i]
  }

  lemma {:induction false} Flip<T>(a: seq<T>, b: seq<T>, o: Order)
    requires Reorders(a, b, o)
    ensures Reorders(b, a, o.Flipped())
  {
    forall j | 0 <= j < |b|
      ensures a[o.back[j]] == b[j]
    {
      assert o.to[o.back[j]] == j;
    }
  }

  lemma {:induction false} MovedBack<T>(a: seq<T>, b: seq<T>, o: Order, s: set<nat>)
    requires Reorders(a, b, o) && forall i :: i in s ==> i < |a|
    ensures Moved(o.Flipped(), Moved(o, s)) == s
    ensures forall i :: 0 <= i < |a| ==> (o.to[i] in Moved(o, s) <==> i in s)
  {
    forall i | 0 <= i < |a|
      ensures o.to[i] in Moved(o, s) <==> i in s
    {
      if o.to[i] in Moved(o, s) {
        var k :| k in s && k < |a| && o.to[k] == o.to[i];
        assert o.back[o.to[k]] == k && o.back[o.to[i]] == i;
      }
    }
    forall i | i in s
      ensures i in Moved(o.Flipped(), Moved(o, s))
    {
      assert o.to[i] in Moved(o, s) && o.back[o.to[i]] == i;
    }
  }

  lemma {:induction false} MovedAt<T>(a: seq<T>, b: seq<T>, o: Order, s: set<nat>, i: nat)
    requires Reorders(a, b, o) && i < |a|
    ensures i < |o.to| && o.to[i] < |b| && b[o.to[i]] == a[i]
    ensures i in s ==> o.to[i] in Moved(o, s)
  {}

  lemma {:induction false} MovedOneMore(o: Order, s: set<nat>, i: nat)
    requires i < |o.to|
    ensures Moved(o, s + {i}) == Moved(o, s) + {o.to[i]}
  {}

  lemma {:induction false} MovedSize<T>(a: seq<T>, b: seq<T>, o: Order, s: set<nat>)
    requires Reorders(a, b, o) && forall i :: i in s ==> i < |a|
    ensures |Moved(o, s)| == |s|
  {
    hide Reorders, Moved;
    if s == {} {
      NothingMoved(o);
    } else {
      var i :| i in s;
      var rest := s - {i};
      MovedAt(a, b, o, s, i);
      MovedSize(a, b, o, rest);
      MovedBack(a, b, o, rest);
      MovedOneMore(o, rest, i);
      assert s == rest + {i};
    }
  }

  lemma {:induction false} NothingMoved(o: Order)
    ensures Moved(o, {}) == {}
  {}

  // ----- finding candidates

  lemma {:induction false} UniqueNamesMove(cs: seq<Candidate>, ds: seq<Candidate>, o: Order)
    requires Reorders(cs, ds, o) && UniqueNames(cs)
    ensures UniqueNames(ds)
  {
    forall i, j | 0 <= i < |ds| && 0 <= j < |ds| && IsClean(ds[i]) && i != j
      ensures !Named(ds[j], ds[i].document.value.name)
    {
      assert o.to[o.back[i]] == i && o.to[o.back[j]] == j;
      assert cs[o.back[i]] == ds[i] && cs[o.back[j]] == ds[j];
    }
  }

  /** A name that finds a clean candidate finds it wherever it has moved. */
  lemma {:induction false} FindMoves(cs: seq<Candidate>, ds: seq<Candidate>, o: Order, name: Str, i: nat)
    requires Reorders(cs, ds, o) && UniqueNames(cs)
    requires FindByName(cs, name) == Some(i) && IsClean(cs[i])
    ensures FindByName(ds, name) == Some(o.to[i])
  {
    UniqueNamesMove(cs, ds, o);
    assert ds[o.to[i]] == cs[i] && Named(ds[o.to[i]], name);
    var j := FindByName(ds, name).value;
    assert Named(ds[j], name);
  }

  lemma {:induction false} DependsMoves(cs: seq<Candidate>, ds: seq<Candidate>, o: Order, i: nat, j: nat)
    requires Reorders(cs, ds, o) && UniqueNames(cs) && DependsOn(cs, i, j)
    requires j < |cs| && IsClean(cs[j])
    ensures DependsOn(ds, o.to[i], o.to[j])
  {
    var d :| d in cs[i].dependencies && FindByName(cs, d.skillName) == Some(j);
    FindMoves(cs, ds, o, d.skillName, j);
    assert ds[o.to[i]] == cs[i];
  }

  // ----- the greatest sound set

  lemma {:induction false} ClosedMoves(cs: seq<Candidate>, ds: seq<Candidate>, o: Order, s: set<nat>)
    requires Reorders(cs, ds, o) && UniqueNames(cs) && s <= Clean(cs) && ClosedUnder(cs, s)
    ensures Moved(o, s) <= Clean(ds) && ClosedUnder(ds, Moved(o, s))
  {
    forall j, d | j in Moved(o, s) && j < |ds| && d in ds[j].dependencies
      ensures Available(ds, Moved(o, s), d)
    {
      var i :| i in s && i < |o.to| && o.to[i] == j;
      assert ds[j] == cs[i] && Available(cs, s, d);
      FindMoves(cs, ds, o, d.skillName, FindByName(cs, d.skillName).value);
    }
  }

  function MovedPath(o: Order, w: seq<nat>): (v: seq<nat>)
    ensures |v| == |w| && forall k :: 0 <= k < |w| && w[k] < |o.to| ==> v[k] == o.to[w[k]]
  {
    seq(|w|, k requires 0 <= k < |w| => if w[k] < |o.to| then o.to[w[k]] else w[k])
  }

  lemma {:induction false} LoopMoves(cs: seq<Candidate>, ds: seq<Candidate>, o: Order, s: set<nat>, w: seq<nat>)
    requires Reorders(cs, ds, o) && UniqueNames(cs) && s <= Clean(cs) && IsLoop(cs, s, w)
    ensures exists v :: IsLoop(ds, Moved(o, s), v)
  {
    var v := MovedPath(o, w);
    forall k | 0 <= k < |w|
      ensures v[k] == o.to[w[k]] && v[k] in Moved(o, s)
    {
      assert w[k] in s;
    }
    forall k | 0 <= k < |w| - 1
      ensures DependsOn(ds, v[k], v[k + 1])
    {
      assert w[k + 1] in s;
      DependsMoves(cs, ds, o, w[k], w[k + 1]);
    }
    assert w[0] in s;
    DependsMoves(cs, ds, o, w[|w| - 1], w[0]);
    assert IsLoop(ds, Moved(o, s), v);
  }

  lemma {:induction false} SoundMoves(cs: seq<Candidate>, ds: seq<Candidate>, o: Order, s: set<nat>)
    requires Reorders(cs, ds, o) && UniqueNames(cs) && Sound(cs, s)
    ensures Sound(ds, Moved(o, s))
  {
    hide IsLoop, UniqueNames, ClosedUnder, Reorders;
    ClosedMoves(cs, ds, o, s);
    forall w
      ensures !IsLoop(ds, Moved(o, s), w)
    {
      if IsLoop(ds, Moved(o, s), w) {
        Flip(cs, ds, o);
        UniqueNamesMove(cs, ds, o);
        LoopMoves(ds, cs, o.Flipped(), Moved(o, s), w);
        CleanBounded(cs, s);
        MovedBack(cs, ds, o, s);
      }
    }
  }

  lemma {:induction false} CleanBounded(cs: seq<Candidate>, s: set<nat>)
    requires s <= Clean(cs)
    ensures forall i :: i in s ==> i < |cs|
  {}

  /** Which candidates are eligible does not depend on their order: the greatest sound set moves
      with them. */
  lemma {:induction false} GreatestSoundMoves(cs: seq<Candidate>, ds: seq<Candidate>, o: Order, s: set<nat>)
    requires Reorders(cs, ds, o) && UniqueNames(cs) && IsGreatestSound(cs, s)
    ensures IsGreatestSound(ds, Moved(o, s))
    ensures forall t :: IsGreatestSound(ds, t) ==> t == Moved(o, s)
  {
    hide Sound, UniqueNames, Reorders;
    SoundMoves(cs, ds, o, s);
    Flip(cs, ds, o);
    UniqueNamesMove(cs, ds, o);
    forall t | Sound(ds, t)
      ensures t <= Moved(o, s)
    {
      SoundMoves(ds, cs, o.Flipped(), t);
      SoundBounded(ds, t);
      MovedBack(ds, cs, o.Flipped(), t);
      assert Moved(o.Flipped(), t) <= s;
      assert o.Flipped().Flipped() == o;
    }
  }

  lemma {:induction false} SoundBounded(cs: seq<Candidate>, s: set<nat>)
    requires Sound(cs, s)
    ensures s <= Clean(cs) && forall i :: i in s ==> i < |cs|
  {}

  // ----- resolution

  /** Two lists of names with every name as often in one as in the other. */
  ghost predicate SameCounts(names: seq<Str>, others: seq<Str>) {
    forall name :: CountOf(names, name) == CountOf(others, name)
  }

  lemma {:induction false} CountsMove(cs: seq<Candidate>, ds: seq<Candidate>, o: Order)
    requires Reorders(cs, ds, o)
    ensures SameCounts(NamesOf(cs), NamesOf(ds))
  {
    forall name
      ensures CountOf(NamesOf(cs), name) == CountOf(NamesOf(ds), name)
    {
      CountIsSize(cs, name);
      CountIsSize(ds, name);
      MovedSize(cs, ds, o, NamedSet(cs, name));
      NamedSetMoves(cs, ds, o, name);
    }
  }

  lemma {:induction false} NamedSetMoves(cs: seq<Candidate>, ds: seq<Candidate>, o: Order, name: Str)
    requires Reorders(cs, ds, o)
    ensures NamedSet(ds, name) == Moved(o, NamedSet(cs, name))
  {
    forall j | j in NamedSet(ds, name)
      ensures j in Moved(o, NamedSet(cs, name))
    {
      assert o.to[o.back[j]] == j && ds[j] == cs[o.back[j]];
      assert o.back[j] in NamedSet(cs, name);
    }
  }

  lemma {:induction false} ResolvedByCount(
      names: seq<Str>, others: seq<Str>, source: Str, evidence: seq<Dependency>)
    requires SameCounts(names, others)
    ensures Resolved(names, source, evidence) == Resolved(others, source, evidence)
    ensures Unresolved(names, source, evidence) == Unresolved(others, source, evidence)
  {
    if evidence != [] {
      ResolvedByCount(names, others, source, evidence[..|evidence| - 1]);
    }
  }

  lemma {:induction false} CandidateByCount(
      collate: (Str, Str) -> bool, maximumDependencies: nat, names: seq<Str>, others: seq<Str>,
      c: Candidate, bundle: Bundle)
    requires SameCounts(names, others)
    ensures ResolvedCandidate(collate, maximumDependencies, names, c, bundle)
         == ResolvedCandidate(collate, maximumDependencies, others, c, bundle)
  {
    if c.document.Some? {
      ResolvedByCount(names, others, c.document.value.name, c.document.value.dependencyEvidence);
    }
  }

  /** Resolving reordered candidates is reordering the resolved ones. */
  lemma {:induction false} ResolvedMove(
      collate: (Str, Str) -> bool, maximumDependencies: nat,
      cs: seq<Candidate>, ds: seq<Candidate>, bundles: seq<Bundle>, others: seq<Bundle>, o: Order)
    requires Reorders(cs, ds, o) && Reorders(bundles, others, o)
    ensures Reorders(ResolvedCandidates(collate, maximumDependencies, cs, bundles),
                     ResolvedCandidates(collate, maximumDependencies, ds, others), o)
  {
    CountsMove(cs, ds, o);
    hide ResolvedCandidate, NamesOf, SameCounts, ResolvedCandidates;
    var rs := ResolvedCandidates(collate, maximumDependencies, cs, bundles);
    var qs := ResolvedCandidates(collate, maximumDependencies, ds, others);
    forall i | 0 <= i < |cs|
      ensures qs[o.to[i]] == rs[i]
    {
      CandidateByCount(collate, maximumDependencies, NamesOf(cs), NamesOf(ds), cs[i], bundles[i]);
    }
  }

  // ----- construction

  lemma {:induction false} BuildMoves(
      x: BuildContext, cs: seq<Candidate>, ds: seq<Candidate>, o: Order,
      s: set<nat>, t: set<nat>, rank: nat -> nat, other: nat -> nat, i: nat)
    requires Reorders(cs, ds, o) && UniqueNames(cs) && t == Moved(o, s)
    requires Buildable(cs, s, rank) && Buildable(ds, t, other) && i in s
    ensures o.to[i] in t
    ensures Build(x, ds, t, other, o.to[i]) == Build(x, cs, s, rank, i)
    decreases rank(i), |cs[i].dependencies| + 1
  {
    hide Construct, UniqueNames, Reorders, Moved;
    MovedAt(cs, ds, o, s, i);
    DependenciesMove(x, cs, ds, o, s, t, rank, other, i, |cs[i].dependencies|);
  }

  lemma {:induction false} DependenciesMove(
      x: BuildContext, cs: seq<Candidate>, ds: seq<Candidate>, o: Order,
      s: set<nat>, t: set<nat>, rank: nat -> nat, other: nat -> nat, i: nat, n: nat)
    requires Reorders(cs, ds, o) && UniqueNames(cs) && t == Moved(o, s)
    requires Buildable(cs, s, rank) && Buildable(ds, t, other) && i in s
    requires n <= |cs[i].dependencies|
    ensures o.to[i] in t && ds[o.to[i]] == cs[i]
    ensures BuildDependencies(x, ds, t, other, o.to[i], n) == BuildDependencies(x, cs, s, rank, i, n)
    decreases rank(i), n
  {
    hide Construct, Build, Pinned, UniqueNames, Reorders, Moved;
    MovedAt(cs, ds, o, s, i);
    if n > 0 {
      DependenciesMove(x, cs, ds, o, s, t, rank, other, i, n - 1);
      var d := cs[i].dependencies[n - 1];
      TargetBelow(cs, s, rank, i, d);
      var j := FindByName(cs, d.skillName).value;
      FindMoves(cs, ds, o, d.skillName, j);
      BuildMoves(x, cs, ds, o, s, t, rank, other, j);
    }
  }

  /** The whole classification: with the staged candidates listed in another order, the same ones
      are eligible, and a result is owed to a candidate exactly when it was before. */
  lemma {:induction false} OrderIsIrrelevant(
      x: BuildContext, maximumDependencies: nat, staged: seq<Candidate>, reordered: seq<Candidate>,
      bundles: seq<Bundle>, others: seq<Bundle>, o: Order,
      s: set<nat>, t: set<nat>, rank: nat -> nat, other: nat -> nat, i: nat, r: CandidateResult)
    requires Reorders(staged, reordered, o) && Reorders(bundles, others, o) && i < |staged|
    requires var cs := ResolvedCandidates(x.platform.collate, maximumDependencies, staged, bundles);
             IsGreatestSound(cs, s) && Buildable(cs, s, rank)
    requires var ds := ResolvedCandidates(x.platform.collate, maximumDependencies, reordered, others);
             IsGreatestSound(ds, t) && Buildable(ds, t, other)
    ensures var cs := ResolvedCandidates(x.platform.collate, maximumDependencies, staged, bundles);
            var ds := ResolvedCandidates(x.platform.collate, maximumDependencies, reordered, others);
            && t == Moved(o, s)
            && (Classified(x, cs, s, rank, i, r) <==> Classified(x, ds, t, other, o.to[i], r))
  {
    hide IsGreatestSound, UniqueNames, ResolvedCandidates, Build;
    var cs := ResolvedCandidates(x.platform.collate, maximumDependencies, staged, bundles);
    var ds := ResolvedCandidates(x.platform.collate, maximumDependencies, reordered, others);
    ResolvedMove(x.platform.collate, maximumDependencies, staged, reordered, bundles, others, o);
    ResolvedNamesUnique(x.platform.collate, maximumDependencies, staged, bundles);
    GreatestSoundMoves(cs, ds, o, s);
    hide Classified;
    ClassifiedMoves(x, cs, ds, o, s, t, rank, other, i, r);
  }

  lemma {:induction false} ClassifiedMoves(
      x: BuildContext, cs: seq<Candidate>, ds: seq<Candidate>, o: Order,
      s: set<nat>, t: set<nat>, rank: nat -> nat, other: nat -> nat, i: nat, r: CandidateResult)
    requires Reorders(cs, ds, o) && UniqueNames(cs) && t == Moved(o, s)
    requires Buildable(cs, s, rank) && Buildable(ds, t, other) && i < |cs|
    ensures Classified(x, cs, s, rank, i, r) <==> Classified(x, ds, t, other, o.to[i], r)
  {
    hide Reorders, Moved, Build, UniqueNames;
    MovedAt(cs, ds, o, s, i);
    CleanBounded(cs, s);
    MovedBack(cs, ds, o, s);
    if i in s {
      BuildMoves(x, cs, ds, o, s, t, rank, other, i);
    }
  }
}
