/** Which staged candidates are clean after resolution, and what resolution makes of each, said on
    the staged candidates alone. */
module Admission {
  import opened Text
  import opened StableSort
  import opened ExternalCatalog
  import opened FirstPaths
  import opened DependencyResolver
  import opened Eligibility
  import opened SourceSync

  // ----- names

  function NamedSet(cs: seq<Candidate>, name: Str): set<nat> {
    set i: nat | i < |cs| && Named(cs[i], name)
  }

  lemma {:induction false} NamedSetLast(cs: seq<Candidate>, name: Str)
    requires cs != []
    ensures |NamedSet(cs, name)|
         == |NamedSet(cs[..|cs| - 1], name)| + if Named(cs[|cs| - 1], name) then 1 else 0
  {
    hide Named;
    var n := |cs| - 1;
    var earlier := NamedSet(cs[..n], name);
    if Named(cs[n], name) {
      assert NamedSet(cs, name) == earlier + {n};
    } else {
      assert NamedSet(cs, name) == earlier;
    }
  }

  lemma {:induction false} CountOfLast(cs: seq<Candidate>, name: Str)
    requires cs != []
    ensures CountOf(NamesOf(cs), name)
         == CountOf(NamesOf(cs[..|cs| - 1]), name) + if Named(cs[|cs| - 1], name) then 1 else 0
  {
    var n := |cs| - 1;
    var names := NamesOf(cs[..n]);
    if cs[n].document.Some? {
      CountOfAppend(names, cs[n].document.value.name, name);
    } else {
      assert names + [] == names;
    }
  }

  lemma {:induction false} CountIsSize(cs: seq<Candidate>, name: Str)
    ensures CountOf(NamesOf(cs), name) == |NamedSet(cs, name)|
  {
    if cs == [] {
      assert NamedSet(cs, name) == {};
    } else {
      hide NamedSet, NamesOf, CountOf;
      CountIsSize(cs[..|cs| - 1], name);
      NamedSetLast(cs, name);
      CountOfLast(cs, name);
    }
  }

  /** Exactly one candidate has the name, and it is another one. */
  predicate NamesOneOther(cs: seq<Candidate>, i: nat, name: Str) {
    exists j :: 0 <= j < |cs| && j != i && Named(cs[j], name) && OnlyOne(cs, j, name)
  }

  predicate OnlyOne(cs: seq<Candidate>, j: nat, name: Str) {
    forall k :: 0 <= k < |cs| && Named(cs[k], name) ==> k == j
  }

  predicate SeveralNamed(cs: seq<Candidate>, name: Str) {
    exists j, k :: 0 <= j < k < |cs| && Named(cs[j], name) && Named(cs[k], name)
  }

  predicate NoneNamed(cs: seq<Candidate>, name: Str) { forall k :: 0 <= k < |cs| ==> !Named(cs[k], name) }

  /** No other candidate has its name. */
  predicate OwnsName(cs: seq<Candidate>, i: nat)
    requires i < |cs| && cs[i].document.Some?
  {
    forall j :: 0 <= j < |cs| && j != i ==> !Named(cs[j], cs[i].document.value.name)
  }

  lemma {:induction false} NoneCounted(cs: seq<Candidate>, name: Str)
    ensures CountOf(NamesOf(cs), name) == 0 <==> NoneNamed(cs, name)
  {
    hide CountOf, NamesOf, Named;
    CountIsSize(cs, name);
    if NoneNamed(cs, name) {
      assert NamedSet(cs, name) == {};
    } else {
      var k :| 0 <= k < |cs| && Named(cs[k], name);
      assert k in NamedSet(cs, name);
    }
  }

  ghost predicate OneNamed(cs: seq<Candidate>, name: Str) {
    exists j :: 0 <= j < |cs| && Named(cs[j], name) && OnlyOne(cs, j, name)
  }

  lemma {:induction false} OneCounted(cs: seq<Candidate>, name: Str)
    ensures CountOf(NamesOf(cs), name) == 1 <==> OneNamed(cs, name)
  {
    hide CountOf, NamesOf, Named;
    CountIsSize(cs, name);
    var s := NamedSet(cs, name);
    if |s| == 1 {
      var j :| j in s;
      assert |s - {j}| == 0;
      forall k | 0 <= k < |cs| && Named(cs[k], name)
        ensures k == j
      {
        assert k in s && k !in s - {j};
      }
      assert OnlyOne(cs, j, name);
    }
    if OneNamed(cs, name) {
      var j :| 0 <= j < |cs| && Named(cs[j], name) && OnlyOne(cs, j, name);
      assert s == {j};
    }
  }

  lemma {:induction false} SeveralCounted(cs: seq<Candidate>, name: Str)
    ensures CountOf(NamesOf(cs), name) > 1 <==> SeveralNamed(cs, name)
  {
    hide CountOf, NamesOf, Named;
    CountIsSize(cs, name);
    var s := NamedSet(cs, name);
    if |s| > 1 {
      var i :| i in s;
      assert |s - {i}| == |s| - 1;
      var j :| j in s - {i};
      if i < j {
        assert Named(cs[i], name) && Named(cs[j], name);
      } else {
        assert Named(cs[j], name) && Named(cs[i], name);
      }
    }
    if SeveralNamed(cs, name) {
      var j, k :| 0 <= j < k < |cs| && Named(cs[j], name) && Named(cs[k], name);
      assert {j, k} <= s && |{j, k}| == 2;
      Smaller({j, k}, s);
    }
  }

  lemma {:induction false} Smaller(a: set<nat>, b: set<nat>)
    requires a <= b
    ensures |a| <= |b|
  {
    assert b == a + (b - a);
  }

  lemma {:induction false} ResolvesToOther(cs: seq<Candidate>, i: nat, d: Dependency)
    requires i < |cs| && cs[i].document.Some?
    ensures Resolves(NamesOf(cs), cs[i].document.value.name, d) <==> NamesOneOther(cs, i, d.skillName)
  {
    OneCounted(cs, d.skillName);
    hide CountOf, NamesOf;
    if NamesOneOther(cs, i, d.skillName) {
      var j :| 0 <= j < |cs| && j != i && Named(cs[j], d.skillName) && OnlyOne(cs, j, d.skillName);
      assert !Named(cs[i], d.skillName);
    }
    if OneNamed(cs, d.skillName) && d.skillName != cs[i].document.value.name {
      var j :| 0 <= j < |cs| && Named(cs[j], d.skillName) && OnlyOne(cs, j, d.skillName);
      assert j != i;
    }
  }

  lemma {:induction false} OwnsNameCount(cs: seq<Candidate>, i: nat)
    requires i < |cs| && cs[i].document.Some?
    ensures OwnsName(cs, i) <==> CountOf(NamesOf(cs), cs[i].document.value.name) <= 1
  {
    hide CountOf, NamesOf;
    var name := cs[i].document.value.name;
    SeveralCounted(cs, name);
    if SeveralNamed(cs, name) {
      var j, k :| 0 <= j < k < |cs| && Named(cs[j], name) && Named(cs[k], name);
      assert j != i || k != i;
    }
    if !OwnsName(cs, i) {
      var j :| 0 <= j < |cs| && j != i && Named(cs[j], name);
      if i < j {
        assert Named(cs[i], name) && Named(cs[j], name);
      } else {
        assert Named(cs[j], name) && Named(cs[i], name);
      }
    }
  }

  // ----- resolution

  /** The places of the evidence that becomes a dependency. */
  ghost function KeptAt(cs: seq<Candidate>, i: nat, evidence: seq<Dependency>): set<nat> {
    set k: nat | k < |evidence| && NamesOneOther(cs, i, evidence[k].skillName)
  }

  /** Nothing speaks against a staged candidate: it was clean, its name is its own, what it must have
      is there, its dependencies are within the budget, and its resources were read. */
  ghost predicate Admissible(maximumDependencies: nat, cs: seq<Candidate>, bundles: seq<Bundle>, i: nat)
    requires i < |cs| == |bundles|
  {
    && cs[i].document.Some? && cs[i].findings == [] && OwnsName(cs, i) && bundles[i].Success?
    && (forall d :: d in cs[i].document.value.dependencyEvidence && d.required && d.evidenceKind != ExplicitInvocation
                    ==> NamesOneOther(cs, i, d.skillName))
    && |KeptAt(cs, i, cs[i].document.value.dependencyEvidence)| <= maximumDependencies
  }

  lemma {:induction false} KeptCount(cs: seq<Candidate>, i: nat, evidence: seq<Dependency>)
    requires i < |cs| && cs[i].document.Some?
    ensures |Resolved(NamesOf(cs), cs[i].document.value.name, evidence)| == |KeptAt(cs, i, evidence)|
  {
    hide NamesOf, NamesOneOther, Resolves;
    if evidence == [] {
      assert KeptAt(cs, i, evidence) == {};
    } else {
      var n := |evidence| - 1;
      var earlier := KeptAt(cs, i, evidence[..n]);
      KeptCount(cs, i, evidence[..n]);
      ResolvesToOther(cs, i, evidence[n]);
      if NamesOneOther(cs, i, evidence[n].skillName) {
        assert KeptAt(cs, i, evidence) == earlier + {n};
      } else {
        assert KeptAt(cs, i, evidence) == earlier;
      }
    }
  }

  /** The parts of a resolved candidate's findings, in their order. */
  lemma {:induction false} ResolvedParts(
      collate: (Str, Str) -> bool, maximumDependencies: nat, names: seq<Str>, c: Candidate, bundle: Bundle)
    requires c.document.Some?
    ensures var r := ResolvedCandidate(collate, maximumDependencies, names, c, bundle);
            var document := c.document.value;
            var evidence := document.dependencyEvidence;
            && r.skillPath == c.skillPath && r.document == c.document && r.legal == c.legal
            && r.dependencies == Sort(Resolved(names, document.name, evidence), BySkillName(collate))
            && (bundle.Success? ==> r.resources == c.resources + bundle.value)
            && r.findings == c.findings
                 + (if CountOf(names, document.name) > 1 then [Finding(SkillDuplicateIdentity, document.name)] else [])
                 + Sort(Unresolved(names, document.name, evidence), BySubject(collate))
                 + (if |r.dependencies| > maximumDependencies then [Finding(DependencyAmbiguous, c.skillPath)] else [])
                 + (if bundle.Failure? then [bundle.error] else [])
  {}

  lemma {:induction false} DependenciesKept(
      collate: (Str, Str) -> bool, cs: seq<Candidate>, i: nat, evidence: seq<Dependency>)
    requires i < |cs| && cs[i].document.Some?
    ensures var dependencies := Sort(Resolved(NamesOf(cs), cs[i].document.value.name, evidence), BySkillName(collate));
            && |dependencies| == |KeptAt(cs, i, evidence)|
            && forall d :: multiset(dependencies)[d]
                           == if NamesOneOther(cs, i, d.skillName) then multiset(evidence)[d] else 0
  {
    hide NamesOf, Resolves, NamesOneOther, Resolved;
    var name := cs[i].document.value.name;
    var kept := Resolved(NamesOf(cs), name, evidence);
    KeptCount(cs, i, evidence);
    SortPermutes(kept, BySkillName(collate));
    SameCount(Sort(kept, BySkillName(collate)), kept);
    forall d: Dependency
      ensures multiset(kept)[d] == if NamesOneOther(cs, i, d.skillName) then multiset(evidence)[d] else 0
    {
      ResolvedCounts(NamesOf(cs), name, evidence, d);
      ResolvesToOther(cs, i, d);
    }
  }

  lemma {:induction false} NothingUnresolved(
      collate: (Str, Str) -> bool, cs: seq<Candidate>, i: nat, evidence: seq<Dependency>)
    requires i < |cs| && cs[i].document.Some?
    ensures Sort(Unresolved(NamesOf(cs), cs[i].document.value.name, evidence), BySubject(collate)) == []
       <==> forall d :: d in evidence && d.required && d.evidenceKind != ExplicitInvocation ==>
              NamesOneOther(cs, i, d.skillName)
  {
    hide NamesOf, Resolves, NamesOneOther;
    var name := cs[i].document.value.name;
    SortPermutes(Unresolved(NamesOf(cs), name, evidence), BySubject(collate));
    SameCount(Sort(Unresolved(NamesOf(cs), name, evidence), BySubject(collate)),
              Unresolved(NamesOf(cs), name, evidence));
    UnresolvedEmpty(NamesOf(cs), name, evidence);
    forall d: Dependency
      ensures Resolves(NamesOf(cs), name, d) <==> NamesOneOther(cs, i, d.skillName)
    {
      ResolvesToOther(cs, i, d);
    }
  }

  /** A candidate is clean after resolution exactly when nothing speaks against it. */
  lemma {:induction false} CleanExactly(
      collate: (Str, Str) -> bool, maximumDependencies: nat, cs: seq<Candidate>, bundles: seq<Bundle>, i: nat)
    requires i < |cs| == |bundles|
    ensures IsClean(ResolvedCandidates(collate, maximumDependencies, cs, bundles)[i])
       <==> Admissible(maximumDependencies, cs, bundles, i)
  {
    if cs[i].document.Some? {
      var evidence := cs[i].document.value.dependencyEvidence;
      ResolvedParts(collate, maximumDependencies, NamesOf(cs), cs[i], bundles[i]);
      hide ResolvedCandidate, NamesOf, OwnsName, NamesOneOther, KeptAt, CountOf;
      OwnsNameCount(cs, i);
      NothingUnresolved(collate, cs, i, evidence);
      DependenciesKept(collate, cs, i, evidence);
    }
  }

  ghost function AdmissibleSet(maximumDependencies: nat, cs: seq<Candidate>, bundles: seq<Bundle>): set<nat>
    requires |bundles| == |cs|
  {
    set i: nat | i < |cs| && Admissible(maximumDependencies, cs, bundles, i)
  }

  /** The set of clean resolved candidates is that of the admissible ones. */
  lemma {:induction false} CleanSetExactly(
      collate: (Str, Str) -> bool, maximumDependencies: nat, cs: seq<Candidate>, bundles: seq<Bundle>)
    requires |bundles| == |cs|
    ensures Clean(ResolvedCandidates(collate, maximumDependencies, cs, bundles))
         == AdmissibleSet(maximumDependencies, cs, bundles)
  {
    hide ResolvedCandidates, Admissible, IsClean;
    forall i: nat | i < |cs|
      ensures IsClean(ResolvedCandidates(collate, maximumDependencies, cs, bundles)[i])
         <==> Admissible(maximumDependencies, cs, bundles, i)
    {
      CleanExactly(collate, maximumDependencies, cs, bundles, i);
    }
  }

  /** The finding that a dependency of a candidate earns among the candidates. */
  predicate EarnsHere(cs: seq<Candidate>, i: nat, d: Dependency, f: Finding)
    requires i < |cs| && cs[i].document.Some?
  {
    var name := cs[i].document.value.name;
    && d.required && d.evidenceKind != ExplicitInvocation && f.subjectId == name + Ascii(":") + d.skillName
    && if d.skillName == name || SeveralNamed(cs, d.skillName) then f.code == DependencyAmbiguous
       else f.code == DependencyMissing && NoneNamed(cs, d.skillName)
  }

  ghost predicate EarnedBy(cs: seq<Candidate>, i: nat, evidence: seq<Dependency>, f: Finding)
    requires i < |cs| && cs[i].document.Some?
  {
    exists d :: d in evidence && EarnsHere(cs, i, d, f)
  }

  lemma {:induction false} EarnedHere(cs: seq<Candidate>, i: nat, d: Dependency, f: Finding)
    requires i < |cs| && cs[i].document.Some?
    ensures Earns(NamesOf(cs), cs[i].document.value.name, d, f) <==> EarnsHere(cs, i, d, f)
  {
    CountsOccurrences(NamesOf(cs), d.skillName);
    SeveralCounted(cs, d.skillName);
    NoneCounted(cs, d.skillName);
    hide NamesOf, CountOf, SeveralNamed, NoneNamed, NamesSeveral, NamesOne;
  }

  lemma {:induction false} Appended<T>(a: seq<T>, b: seq<T>, c: seq<T>, d: seq<T>, e: seq<T>)
    ensures var all := a + b + c + d + e;
            a <= all && forall x :: x in all[|a|..] <==> x in b || x in c || x in d || x in e
  {
    var all := a + b + c + d + e;
    assert all == a + (b + c + d + e);
    assert all[|a|..] == b + c + d + e;
  }

  /** The findings that resolution adds to a candidate. */
  ghost predicate Added(
      maximumDependencies: nat, cs: seq<Candidate>, bundles: seq<Bundle>, i: nat, f: Finding)
    requires i < |cs| == |bundles| && cs[i].document.Some?
  {
    var evidence := cs[i].document.value.dependencyEvidence;
    || (!OwnsName(cs, i) && f == Finding(SkillDuplicateIdentity, cs[i].document.value.name))
    || EarnedBy(cs, i, evidence, f)
    || (|KeptAt(cs, i, evidence)| > maximumDependencies && f == Finding(DependencyAmbiguous, cs[i].skillPath))
    || (bundles[i].Failure? && f == bundles[i].error)
  }

  /** What resolution makes of a candidate: its dependencies are the evidence that names one other
      candidate, as often as it was given; its earlier findings stay first, and what is added is what
      the candidates, the budget and the reading give. */
  lemma {:induction false} ResolvedAs(
      collate: (Str, Str) -> bool, maximumDependencies: nat, cs: seq<Candidate>, bundles: seq<Bundle>, i: nat)
    requires i < |cs| == |bundles| && cs[i].document.Some?
    ensures var r := ResolvedCandidates(collate, maximumDependencies, cs, bundles)[i];
            && r.skillPath == cs[i].skillPath && r.document == cs[i].document && r.legal == cs[i].legal
            && (bundles[i].Success? ==> r.resources == cs[i].resources + bundles[i].value)
            && (forall d :: multiset(r.dependencies)[d] ==
                  if NamesOneOther(cs, i, d.skillName)
                  then multiset(cs[i].document.value.dependencyEvidence)[d] else 0)
            && cs[i].findings <= r.findings
            && forall f :: f in r.findings[|cs[i].findings|..] <==> Added(maximumDependencies, cs, bundles, i, f)
  {
    var evidence := cs[i].document.value.dependencyEvidence;
    var r := ResolvedCandidates(collate, maximumDependencies, cs, bundles)[i];
    ResolvedParts(collate, maximumDependencies, NamesOf(cs), cs[i], bundles[i]);
    hide ResolvedCandidate, NamesOf, NamesOneOther, Added;
    DependenciesKept(collate, cs, i, evidence);
    FindingsAdded(collate, maximumDependencies, cs, bundles, i, r);
  }

  lemma {:induction false} FindingsAdded(
      collate: (Str, Str) -> bool, maximumDependencies: nat, cs: seq<Candidate>, bundles: seq<Bundle>, i: nat,
      r: Candidate)
    requires i < |cs| == |bundles| && cs[i].document.Some?
    requires r == ResolvedCandidate(collate, maximumDependencies, NamesOf(cs), cs[i], bundles[i])
    ensures cs[i].findings <= r.findings
    ensures forall f :: f in r.findings[|cs[i].findings|..] <==> Added(maximumDependencies, cs, bundles, i, f)
  {
    hide ResolvedCandidate, NamesOf, OwnsName, KeptAt, CountOf, EarnedBy, Sort, Unresolved, Resolved, NamesOneOther;
    var name, evidence := cs[i].document.value.name, cs[i].document.value.dependencyEvidence;
    ResolvedParts(collate, maximumDependencies, NamesOf(cs), cs[i], bundles[i]);
    OwnsNameCount(cs, i);
    DependenciesKept(collate, cs, i, evidence);
    EarnedAmong(collate, cs, i, evidence);
    var duplicate := if CountOf(NamesOf(cs), name) > 1 then [Finding(SkillDuplicateIdentity, name)] else [];
    var unresolved := Sort(Unresolved(NamesOf(cs), name, evidence), BySubject(collate));
    var excess := if |r.dependencies| > maximumDependencies
                  then [Finding(DependencyAmbiguous, cs[i].skillPath)] else [];
    var failure := if bundles[i].Failure? then [bundles[i].error] else [];
    hide BySubject, BySkillName;
    Appended(cs[i].findings, duplicate, unresolved, excess, failure);
    forall f
      ensures f in r.findings[|cs[i].findings|..] <==> Added(maximumDependencies, cs, bundles, i, f)
    {
      assert f in duplicate <==> !OwnsName(cs, i) && f == Finding(SkillDuplicateIdentity, name);
      assert f in unresolved <==> EarnedBy(cs, i, evidence, f);
      assert f in excess <==>
        |KeptAt(cs, i, evidence)| > maximumDependencies && f == Finding(DependencyAmbiguous, cs[i].skillPath);
      assert f in failure <==> bundles[i].Failure? && f == bundles[i].error;
    }
  }

  lemma {:induction false} EarnedAmong(
      collate: (Str, Str) -> bool, cs: seq<Candidate>, i: nat, evidence: seq<Dependency>)
    requires i < |cs| && cs[i].document.Some?
    ensures forall f :: f in Sort(Unresolved(NamesOf(cs), cs[i].document.value.name, evidence), BySubject(collate))
                        <==> EarnedBy(cs, i, evidence, f)
  {
    hide NamesOf, Earns, EarnsHere;
    FindingsExactly(collate, NamesOf(cs), cs[i].document.value.name, evidence);
    forall d: Dependency, f
      ensures Earns(NamesOf(cs), cs[i].document.value.name, d, f) <==> EarnsHere(cs, i, d, f)
    {
      EarnedHere(cs, i, d, f);
    }
  }
}
