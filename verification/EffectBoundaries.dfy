/** Which journalled effects still have to be reconciled. */
module EffectBoundaries {
  import opened Text
  import opened JournalEntries
  import StableSort

  predicate IsBoundary(e: Entry) { e.phase == Effect || Unproven(e) }

  /** What makes an earlier boundary of a step obsolete. */
  predicate Settles(e: Entry, step: Str) {
    e.phase == Commit || ((e.phase == Effect || e.phase == Compensate) && e.step == step)
  }

  ghost predicate Pending(entries: seq<Entry>, i: nat)
    requires i < |entries|
  {
    IsBoundary(entries[i]) && forall j :: i < j < |entries| ==> !Settles(entries[j], entries[i].step)
  }

  ghost predicate PendingEntry(entries: seq<Entry>, e: Entry) {
    exists i :: 0 <= i < |entries| && entries[i] == e && Pending(entries, i)
  }

  function Without(boundaries: seq<Entry>, step: Str): seq<Entry> {
    if boundaries == [] then []
    else (if boundaries[0].step == step then [] else [boundaries[0]]) + Without(boundaries[1..], step)
  }

  function Unresolved(entries: seq<Entry>): seq<Entry> {
    if entries == [] then []
    else
      var e := entries[|entries| - 1];
      var before := Unresolved(entries[..|entries| - 1]);
      if e.phase == Commit then []
      else if IsBoundary(e) then Without(before, e.step) + [e]
      else if e.phase == Compensate then Without(before, e.step)
      else before
  }

  ghost predicate Ascending(s: seq<Entry>) {
    forall i, j :: 0 <= i < j < |s| ==> s[i].sequence < s[j].sequence
  }

  ghost predicate DistinctSteps(s: seq<Entry>) {
    forall i, j :: 0 <= i < j < |s| ==> s[i].step != s[j].step
  }

  // ----- leaving a step out

  lemma {:induction false} WithoutMembers(s: seq<Entry>, step: Str)
    ensures forall e :: e in Without(s, step) <==> e in s && e.step != step
  {
    if s != [] {
      WithoutMembers(s[1..], step);
      assert s == [s[0]] + s[1..];
    }
  }

  lemma {:induction false} WithoutAscends(s: seq<Entry>, step: Str)
    requires Ascending(s)
    ensures Ascending(Without(s, step))
  {
    if s != [] {
      WithoutAscends(s[1..], step);
      WithoutMembers(s[1..], step);
      var rest := Without(s[1..], step);
      forall i | 0 <= i < |rest|
        ensures s[0].sequence < rest[i].sequence
      {
        assert rest[i] in rest;
      }
    }
  }

  lemma {:induction false} WithoutStaysDistinct(s: seq<Entry>, step: Str)
    requires DistinctSteps(s)
    ensures DistinctSteps(Without(s, step))
  {
    if s != [] {
      WithoutStaysDistinct(s[1..], step);
      WithoutMembers(s[1..], step);
      var rest := Without(s[1..], step);
      forall i | 0 <= i < |rest|
        ensures s[0].step != rest[i].step
      {
        assert rest[i] in rest;
      }
    }
  }

  lemma {:induction false} WithoutCounts(s: seq<Entry>, step: Str, e: Entry)
    ensures multiset(Without(s, step))[e] == if e.step == step then 0 else multiset(s)[e]
  {
    if s != [] {
      WithoutCounts(s[1..], step, e);
      CountFirst(s, e);
      hide Without;
      if s[0].step == step {
        WithoutFirst(s, step);
      } else {
        WithoutFirst(s, step);
        CountFirst([s[0]] + Without(s[1..], step), e);
        assert ([s[0]] + Without(s[1..], step))[1..] == Without(s[1..], step);
      }
    }
  }

  lemma {:induction false} CountFirst(s: seq<Entry>, e: Entry)
    requires s != []
    ensures multiset(s)[e] == multiset(s[1..])[e] + if s[0] == e then 1 else 0
  {
    assert s == [s[0]] + s[1..];
  }

  lemma {:induction false} WithoutFirst(s: seq<Entry>, step: Str)
    requires s != []
    ensures Without(s, step) ==
            if s[0].step == step then Without(s[1..], step) else [s[0]] + Without(s[1..], step)
  {}

  lemma {:induction false} WithoutLast(s: seq<Entry>)
    requires s != [] && DistinctSteps(s)
    ensures Without(s, s[|s| - 1].step) == s[..|s| - 1]
  {
    if |s| == 1 {
    } else {
      WithoutLast(s[1..]);
      assert s[..|s| - 1] == [s[0]] + s[1..][..|s| - 2];
    }
  }

  lemma {:induction false} WithoutAbsent(s: seq<Entry>, step: Str)
    requires forall e :: e in s ==> e.step != step
    ensures Without(s, step) == s
  {
    if s != [] {
      assert s[0] in s;
      forall e | e in s[1..]
        ensures e.step != step
      {
        assert e in s;
      }
      WithoutAbsent(s[1..], step);
      assert s == [s[0]] + s[1..];
    }
  }

  // ----- what is unresolved

  lemma {:induction false} PendingAfter(entries: seq<Entry>, last: Entry, e: Entry)
    ensures PendingEntry(entries + [last], e)
       <==> || (e == last && IsBoundary(last))
            || (PendingEntry(entries, e) && !Settles(last, e.step))
  {
    var all := entries + [last];
    var n := |entries|;
    if PendingEntry(all, e) {
      var i :| 0 <= i < |all| && all[i] == e && Pending(all, i);
      if i < n {
        assert entries[i] == e && Pending(entries, i) by {
          assert forall j :: i < j < n ==> all[j] == entries[j];
        }
        assert !Settles(all[n], e.step);
      }
    }
    if e == last && IsBoundary(last) {
      assert all[n] == e && Pending(all, n);
    }
    if PendingEntry(entries, e) && !Settles(last, e.step) {
      var i :| 0 <= i < n && entries[i] == e && Pending(entries, i);
      assert all[i] == e && Pending(all, i);
    }
  }

  lemma {:induction false} UnresolvedMembers(entries: seq<Entry>, e: Entry)
    ensures e in Unresolved(entries) <==> PendingEntry(entries, e)
  {
    hide PendingEntry, Without;
    if entries == [] {
      hide *;
      NothingPending(e);
    } else {
      var before, last := entries[..|entries| - 1], entries[|entries| - 1];
      assert entries == before + [last];
      UnresolvedMembers(before, e);
      WithoutMembers(Unresolved(before), last.step);
      PendingAfter(before, last, e);
    }
  }

  lemma {:induction false} NothingPending(e: Entry)
    ensures !PendingEntry([], e)
  {}

  lemma {:induction false} UnresolvedOrder(entries: seq<Entry>)
    requires WellNumbered(entries)
    ensures Ascending(Unresolved(entries)) && DistinctSteps(Unresolved(entries))
    ensures forall e :: e in Unresolved(entries) ==> 1 <= e.sequence <= |entries|
  {
    hide Without;
    if entries != [] {
      var before, last := entries[..|entries| - 1], entries[|entries| - 1];
      UnresolvedOrder(before);
      WithoutMembers(Unresolved(before), last.step);
      WithoutAscends(Unresolved(before), last.step);
      WithoutStaysDistinct(Unresolved(before), last.step);
      var kept := Without(Unresolved(before), last.step);
      forall i | 0 <= i < |kept|
        ensures kept[i].sequence < last.sequence && kept[i].step != last.step
      {
        assert kept[i] in kept;
      }
    }
  }

  /** A boundary is unresolved exactly when nothing later settles its step; at most one a step,
      in the order of the journal. */
  lemma {:induction false} UnresolvedExactly(entries: seq<Entry>)
    requires WellNumbered(entries)
    ensures forall e :: e in Unresolved(entries) <==> PendingEntry(entries, e)
    ensures Ascending(Unresolved(entries)) && DistinctSteps(Unresolved(entries))
  {
    UnresolvedOrder(entries);
    forall e
      ensures e in Unresolved(entries) <==> PendingEntry(entries, e)
    {
      UnresolvedMembers(entries, e);
    }
  }

  // ----- the map of the program: insertion order, a new value keeps the place of its key

  function MapSet(m: seq<Entry>, e: Entry): seq<Entry> {
    if m == [] then [e]
    else if m[0].step == e.step then [e] + m[1..]
    else [m[0]] + MapSet(m[1..], e)
  }

  lemma {:induction false} MapSetMembers(m: seq<Entry>, e: Entry, x: Entry)
    requires x in MapSet(m, e)
    ensures x in m || x == e
  {
    if m != [] && m[0].step != e.step && x != m[0] {
      MapSetMembers(m[1..], e, x);
    }
  }

  lemma {:induction false} MapSetStaysDistinct(m: seq<Entry>, e: Entry)
    requires DistinctSteps(m)
    ensures DistinctSteps(MapSet(m, e))
  {
    if m != [] && m[0].step != e.step {
      MapSetStaysDistinct(m[1..], e);
      var rest := MapSet(m[1..], e);
      forall i | 0 <= i < |rest|
        ensures m[0].step != rest[i].step
      {
        MapSetMembers(m[1..], e, rest[i]);
      }
    }
  }

  lemma {:induction false} MapSetCounts(m: seq<Entry>, e: Entry)
    requires DistinctSteps(m)
    ensures multiset(MapSet(m, e)) == multiset(Without(m, e.step)) + multiset{e}
  {
    hide DistinctSteps;
    if m != [] {
      assert m == [m[0]] + m[1..];
      DistinctTail(m);
      if m[0].step == e.step {
        WithoutAbsent(m[1..], e.step);
      } else {
        MapSetCounts(m[1..], e);
      }
    }
  }

  lemma {:induction false} DistinctTail(m: seq<Entry>)
    requires DistinctSteps(m) && m != []
    ensures DistinctSteps(m[1..])
    ensures forall e :: e in m[1..] ==> e.step != m[0].step
  {}

  predicate NotAfter(a: Entry, b: Entry) { a.sequence <= b.sequence }

  lemma {:induction false} SameCountsWithout(a: seq<Entry>, b: seq<Entry>, step: Str)
    requires multiset(a) == multiset(b)
    ensures multiset(Without(a, step)) == multiset(Without(b, step))
  {
    forall e
      ensures multiset(Without(a, step))[e] == multiset(Without(b, step))[e]
    {
      WithoutCounts(a, step, e);
      WithoutCounts(b, step, e);
    }
  }

  /** One turn of the loop changes the map as one entry changes what is unresolved. */
  lemma {:induction false} MapFollows(m: seq<Entry>, before: seq<Entry>, e: Entry)
    requires multiset(m) == multiset(before) && DistinctSteps(m)
    ensures DistinctSteps(MapSet(m, e)) && DistinctSteps(Without(m, e.step))
    ensures multiset(MapSet(m, e)) == multiset(Without(before, e.step) + [e])
    ensures multiset(Without(m, e.step)) == multiset(Without(before, e.step))
  {
    hide DistinctSteps, MapSet, Without;
    SameCountsWithout(m, before, e.step);
    WithoutStaysDistinct(m, e.step);
    MapSetCounts(m, e);
    MapSetStaysDistinct(m, e);
  }

  method UnresolvedEffectBoundaries(entries: seq<Entry>) returns (r: seq<Entry>)
    requires WellNumbered(entries)
    ensures r == Unresolved(entries)
  {
    hide DistinctSteps, MapSet, Without, WellNumbered;
    var unresolved: seq<Entry> := [];
    NoSteps();
    for i := 0 to |entries|
      invariant multiset(unresolved) == multiset(Unresolved(entries[..i]))
      invariant DistinctSteps(unresolved)
    {
      var entry := entries[i];
      assert entries[..i + 1][..i] == entries[..i];
      MapFollows(unresolved, Unresolved(entries[..i]), entry);
      if entry.phase == Effect {
        unresolved := MapSet(unresolved, entry);
      } else if entry.phase == Compensate {
        if Unproven(entry) {
          unresolved := MapSet(unresolved, entry);
        } else {
          unresolved := Without(unresolved, entry.step);
        }
      } else if entry.phase == Commit {
        unresolved := [];
        NoSteps();
      }
    }
    assert entries[..|entries|] == entries;
    SortedBySequence(unresolved, entries);
    return StableSort.Sort(unresolved, NotAfter);
  }

  lemma {:induction false} NoSteps()
    ensures DistinctSteps([])
  {}

  lemma {:induction false} AscendingDecides(u: seq<Entry>, x: Entry, y: Entry)
    requires Ascending(u) && x in u && y in u && x.sequence == y.sequence
    ensures x == y
  {}

  lemma {:induction false} SortedBySequence(m: seq<Entry>, entries: seq<Entry>)
    requires WellNumbered(entries) && multiset(m) == multiset(Unresolved(entries))
    ensures StableSort.Sort(m, NotAfter) == Unresolved(entries)
  {
    var u := Unresolved(entries);
    UnresolvedOrder(entries);
    assert StableSort.Sorted(u, NotAfter);
    hide Unresolved, Ascending, DistinctSteps, WellNumbered, StableSort.Sorted, StableSort.Sort;
    assert StableSort.TotalPreorder(NotAfter);
    StableSort.SortSorted(m, NotAfter);
    StableSort.SortPermutes(m, NotAfter);
    var sorted := StableSort.Sort(m, NotAfter);
    forall x, y | x in u && y in u && NotAfter(x, y) && NotAfter(y, x)
      ensures x == y
    {
      AscendingDecides(u, x, y);
    }
    StableSort.SortedUnique(u, sorted, NotAfter);
  }

  // ----- does a journal still need recovery

  predicate NeedsRecovery(entries: seq<Entry>) {
    if entries == [] then false
    else
      var last := entries[|entries| - 1];
      last.phase != Commit
      && (last.phase == Cancel ==> Says(last.detail, STATUS, "recovery-required") || Unresolved(entries) != [])
  }

  /** The steps a recovery looks at: those of the unresolved boundaries or, when there are none,
      that of the last intent. */
  predicate Examined(entries: seq<Entry>, step: Str) {
    if Unresolved(entries) != [] then exists e :: e in Unresolved(entries) && e.step == step
    else
      && entries != [] && entries[|entries| - 1].phase == Intent
      && entries[|entries| - 1].step == step
  }

  method JournalNeedsRecovery(entries: seq<Entry>) returns (r: bool)
    requires WellNumbered(entries)
    ensures r == NeedsRecovery(entries)
  {
    if entries == [] || entries[|entries| - 1].phase == Commit {
      return false;
    }
    var last := entries[|entries| - 1];
    if last.phase != Cancel || Says(last.detail, STATUS, "recovery-required") {
      return true;
    }
    var unresolved := UnresolvedEffectBoundaries(entries);
    return |unresolved| > 0;
  }
}
