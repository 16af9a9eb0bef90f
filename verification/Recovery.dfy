/** The recovery procedure: observe every boundary first, then compensate and journal one at a
    time. The process may end after any number of effectful calls. */
module Recovery {
  import opened Text
  import opened JournalEntries
  import opened EffectBoundaries
  import opened OperationJournal
  import opened RecoveryPlan
  import opened IntentRecovery

  datatype RecoveryError = Interrupted | Rejected

  /** The world outside the journal, as far as recovery changes it. */
  class Host {
    var compensated: seq<Str>

    constructor ()
      ensures compensated == []
    {
      compensated := [];
    }

    method Compensate(step: Str, works: bool) returns (done: bool)
      modifies this
      ensures done == works
      ensures compensated == old(compensated) + if works then [step] else []
    {
      if works {
        compensated := compensated + [step];
      }
      return works;
    }
  }

  predicate CanCompensate(entries: seq<Entry>) {
    entries != [] && entries[|entries| - 1].phase != Commit
    && (entries[|entries| - 1].phase == Cancel ==> Resumable(entries[|entries| - 1]))
  }

  lemma {:induction false} CompensationIsLegal(entries: seq<Entry>, step: Str, o: Observation)
    requires entries != [] && 1 <= |step| <= 128
    ensures LegalAt(entries + [Next(entries, Compensate, step, SettledDetail(o))], |entries|)
       <==> CanCompensate(entries)
  {
    assert SchemaValid(step, SettledDetail(o)) by {
      assert |ObservationText(o)| <= 256;
    }
  }

  lemma {:induction false} RecoveredCommitIsLegal(entries: seq<Entry>, command: Str)
    requires entries != [] && 1 <= |command| <= 128
    requires Proven(entries[|entries| - 1]) || entries[|entries| - 1].phase == Verify
    ensures LegalAt(entries + [Next(entries, Commit, command, RECOVERED)], |entries|)
  {
    var all := entries + [Next(entries, Commit, command, RECOVERED)];
    assert SchemaValid(command, RECOVERED);
    assert RECOVERED[STATUS] == Words(Ascii("recovered")) != Words(Ascii("success"));
    if entries[|entries| - 1].phase == Verify {
      assert all[|entries| - 1].phase == Verify;
      assert VerifiedBefore(all, |entries|);
    }
  }

  /** The observations, latest boundary first, or the first boundary that is ambiguous. */
  method ObserveAll(boundaries: seq<Entry>, observe: Observe)
    returns (observations: seq<(Entry, Observation)>, ambiguous: Option<Str>)
    ensures ambiguous == LatestAmbiguous(boundaries, observe)
    ensures ambiguous == None <==> Clear(boundaries, observe)
    ensures ambiguous == None ==> Observed(observations, boundaries, observe)
  {
    observations := [];
    var i := |boundaries|;
    assert boundaries[..i] == boundaries;
    while i > 0
      invariant 0 <= i <= |boundaries| && |observations| == |boundaries| - i
      invariant LatestAmbiguous(boundaries, observe) == LatestAmbiguous(boundaries[..i], observe)
      invariant forall k :: i <= k < |boundaries| ==> observe(boundaries[k].step) != Ambiguous
      invariant forall k :: 0 <= k < |observations| ==>
                  observations[k] == (boundaries[|boundaries| - 1 - k],
                                      observe(boundaries[|boundaries| - 1 - k].step))
    {
      i := i - 1;
      assert boundaries[..i + 1][..i] == boundaries[..i];
      var observation := observe(boundaries[i].step);
      if observation == Ambiguous {
        return observations, Some(boundaries[i].step);
      }
      observations := observations + [(boundaries[i], observation)];
    }
    return observations, None;
  }

  /** Undoes an owned mismatch and journals the boundary as settled, as far as the remaining
      effectful calls allow. */
  method SettleBoundary(journal: OperationJournal, host: Host, step: Str, o: Observation, left: nat)
    returns (settled: bool, remaining: nat)
    requires journal.Valid() && journal.entries != [] && 1 <= |step| <= 128
    modifies journal`entries, host
    ensures journal.Valid()
    ensures var acts := SettleOne(step, o);
            var k := if left < |acts| then left else |acts|;
            if old(CanCompensate(journal.entries)) then
              && journal.entries == Journalled(old(journal.entries), acts[..k])
              && host.compensated == old(host.compensated) + Undone(acts[..k])
              && remaining == left - k && (settled <==> k == |acts|)
              && (settled ==> journal.entries != [] && Proven(journal.entries[|journal.entries| - 1]))
            else
              && !settled && journal.entries == old(journal.entries)
              && host.compensated == old(host.compensated) + if k > 0 && acts[0].Undo? then [step] else []
  {
    hide LegalAt, SettledDetail, Readable, SchemaValid;
    ghost var entries := journal.entries;
    SettleOneJournalled(entries, [], step, o);
    assert [] + SettleOne(step, o) == SettleOne(step, o);
    CompensationIsLegal(entries, step, o);
    SettledIsProven(entries, step, o);
    remaining := left;
    if o == OwnedMismatch {
      var done := host.Compensate(step, remaining > 0);
      if !done {
        return false, 0;
      }
      remaining := remaining - 1;
      assert SettleOne(step, o)[..1] == [Undo(step)];
      JournalledLast(entries, [], Undo(step));
      assert [] + [Undo(step)] == [Undo(step)];
    }
    var r := journal.Append(Compensate, step, SettledDetail(o), remaining > 0);
    if r.Failure? {
      return false, remaining;
    }
    assert SettleOne(step, o)[..|SettleOne(step, o)|] == SettleOne(step, o);
    return true, remaining - 1;
  }

  lemma {:induction false} SettlePrefix(u: seq<Entry>, observe: Observe, n: nat, m: nat)
    requires n <= m <= |u|
    ensures SettleLast(u, observe, n) <= SettleLast(u, observe, m)
  {
    if n < m {
      SettlePrefix(u, observe, n, m - 1);
    }
  }

  lemma {:induction false} JournalledInTwoGoes(entries: seq<Entry>, a: seq<Action>, b: seq<Action>)
    ensures Journalled(entries, a + b) == Journalled(Journalled(entries, a), b)
    ensures Undone(a + b) == Undone(a) + Undone(b)
  {
    if b == [] {
      assert a + b == a;
    } else {
      var n := |b| - 1;
      assert b[..n] + [b[n]] == b && a + b[..n] + [b[n]] == a + b;
      JournalledInTwoGoes(entries, a, b[..n]);
      JournalledLast(entries, a + b[..n], b[n]);
      JournalledLast(Journalled(entries, a), b[..n], b[n]);
    }
  }

  /** The actions for the boundary i places before the last. */
  function ActionsAt(u: seq<Entry>, observe: Observe, i: nat): seq<Action>
    requires i < |u|
  {
    SettleOne(u[|u| - 1 - i].step, observe(u[|u| - 1 - i].step))
  }

  function Fewer(left: nat, acts: seq<Action>): nat {
    if left < |acts| then left else |acts|
  }

  /** The attempt ends while the boundary i places before the last is being settled. */
  lemma {:induction false} CutWhileSettling(
      entries: seq<Entry>, command: Str, a: Attempt, i: nat, left: nat)
    requires var u := Unresolved(entries);
             && u != [] && Clear(u, a.observe) && i < |u|
             && entries != [] && entries[|entries| - 1].phase != Commit
             && |SettleLast(u, a.observe, i)| + left == a.effects
             && (if Stuck(entries) then i == 0 else left < |ActionsAt(u, a.observe, i)|)
    ensures var acts := ActionsAt(Unresolved(entries), a.observe, i);
            var before := SettleLast(Unresolved(entries), a.observe, i);
            && Performed(entries, command, a) != Plan(entries, command, a.observe)
            && Performed(entries, command, a) == before +
                 (if !Stuck(entries) then acts[..left] else if left > 0 && acts[0].Undo? then acts[..1] else [])
  {
    hide *;
    var u := Unresolved(entries);
    var plan := Plan(entries, command, a.observe);
    var before, acts := SettleLast(u, a.observe, i), ActionsAt(u, a.observe, i);
    PlanIs(entries, command, a.observe, i);
    PerformedIs(entries, command, a);
    if Stuck(entries) {
      FirstOfPlan(acts, plan);
    } else {
      CutOfPlan(before, acts, plan, left);
    }
  }

  lemma {:induction false} PerformedIs(entries: seq<Entry>, command: Str, a: Attempt)
    ensures var plan := Plan(entries, command, a.observe);
            Performed(entries, command, a) ==
            if !Stuck(entries) then plan[..Fewer(a.effects, plan)]
            else if a.effects > 0 && plan != [] && plan[0].Undo? then plan[..1] else []
    ensures Fewer(a.effects, Plan(entries, command, a.observe)) == a.effects
       <==> a.effects <= |Plan(entries, command, a.observe)|
  {
    hide Plan, Stuck;
  }

  lemma {:induction false} FirstOfPlan(acts: seq<Action>, plan: seq<Action>)
    requires acts < plan && acts != []
    ensures plan[0] == acts[0] && plan[..1] == acts[..1] && |plan| > 1
  {}

  lemma {:induction false} CutOfPlan(before: seq<Action>, acts: seq<Action>, plan: seq<Action>, left: nat)
    requires before + acts < plan && left < |acts|
    ensures plan[..|before| + left] == before + acts[..left] && |before| + left < |plan|
  {
    assert (before + acts)[..|before| + left] == before + acts[..left];
    assert plan[..|before| + left] == (before + acts)[..|before| + left];
  }

  lemma {:induction false} PlanIs(entries: seq<Entry>, command: Str, observe: Observe, i: nat)
    requires var u := Unresolved(entries);
             u != [] && Clear(u, observe) && i < |u| && entries != [] && entries[|entries| - 1].phase != Commit
    ensures var u := Unresolved(entries);
            && SettleLast(u, observe, i) + ActionsAt(u, observe, i) < Plan(entries, command, observe)
            && (i == 0 ==> SettleLast(u, observe, i) == [])
            && ActionsAt(u, observe, i) != []
  {
    hide Unresolved, Clear, SettleOne;
    var u := Unresolved(entries);
    SettlePrefix(u, observe, i + 1, |u|);
    var settle := SettleLast(u, observe, |u|);
    assert SettleLast(u, observe, i + 1) == SettleLast(u, observe, i) + ActionsAt(u, observe, i);
    assert Plan(entries, command, observe) == settle + [CommitAction(command)];
    assert settle < settle + [CommitAction(command)];
    ActsNotEmpty(u[|u| - 1 - i].step, observe(u[|u| - 1 - i].step));
  }

  lemma {:induction false} ActsNotEmpty(step: Str, o: Observation)
    ensures SettleOne(step, o) != []
  {}

  lemma {:induction false} SettlingGoesOn(entries: seq<Entry>, u: seq<Entry>, observe: Observe, i: nat, k: nat)
    requires i < |u| && k <= |ActionsAt(u, observe, i)|
    ensures var before, acts := SettleLast(u, observe, i), ActionsAt(u, observe, i);
            && Journalled(entries, before + acts[..k]) == Journalled(Journalled(entries, before), acts[..k])
            && Undone(before + acts[..k]) == Undone(before) + Undone(acts[..k])
            && (k == |acts| ==> before + acts[..k] == SettleLast(u, observe, i + 1))
  {
    hide Journalled, Undone, SettleOne;
    var acts := ActionsAt(u, observe, i);
    JournalledInTwoGoes(entries, SettleLast(u, observe, i), acts[..k]);
    if k == |acts| {
      assert acts[..k] == acts;
      assert SettleLast(u, observe, i + 1) == SettleLast(u, observe, i) + acts;
    }
  }

  lemma {:induction false} SettledAll(entries: seq<Entry>, command: Str, a: Attempt, left: nat)
    requires var u := Unresolved(entries);
             && u != [] && Clear(u, a.observe) && !Stuck(entries) && entries[|entries| - 1].phase != Commit
             && |SettleLast(u, a.observe, |u|)| + left == a.effects
    ensures var settle := SettleLast(Unresolved(entries), a.observe, |Unresolved(entries)|);
            && Plan(entries, command, a.observe) == settle + [CommitAction(command)]
            && Performed(entries, command, a) == (if left > 0 then settle + [CommitAction(command)] else settle)
            && Undone(settle + [CommitAction(command)]) == Undone(settle)
            && Journalled(entries, settle + [CommitAction(command)])
               == Journalled(entries, settle)
                  + [Next(Journalled(entries, settle), Commit, command, RECOVERED)]
  {
    var settle := SettleLast(Unresolved(entries), a.observe, |Unresolved(entries)|);
    JournalledLast(entries, settle, CommitAction(command));
  }

  /** The journal after i boundaries have been settled. */
  ghost predicate SettledTo(entries: seq<Entry>, u: seq<Entry>, observe: Observe, i: nat, now: seq<Entry>) {
    && i <= |u| && now != [] && now == Journalled(entries, SettleLast(u, observe, i))
    && (CanCompensate(now) <==> !Stuck(entries))
    && (i > 0 ==> !Stuck(entries) && Proven(now[|now| - 1]))
  }

  /** One more boundary, or the end of the attempt. */
  method SettleNext(journal: OperationJournal, host: Host, ghost a: Attempt, ghost entries: seq<Entry>,
                    ghost base: seq<Str>, ghost i: nat, boundary: Entry, observation: Observation, left: nat)
    returns (settled: bool, remaining: nat)
    requires journal.Valid() && StepReadable(boundary)
    requires var u := Unresolved(entries);
             && u != [] && i < |u| && entries != [] && entries[|entries| - 1].phase != Commit && Clear(u, a.observe)
             && boundary == u[|u| - 1 - i] && observation == a.observe(boundary.step)
             && SettledTo(entries, u, a.observe, i, journal.entries)
             && host.compensated == base + Undone(SettleLast(u, a.observe, i))
             && |SettleLast(u, a.observe, i)| + left == a.effects
    modifies journal`entries, host
    ensures journal.Valid()
    ensures settled ==> var u := Unresolved(entries);
              && SettledTo(entries, u, a.observe, i + 1, journal.entries)
              && |SettleLast(u, a.observe, i + 1)| + remaining == a.effects
              && host.compensated == base + Undone(SettleLast(u, a.observe, i + 1))
    ensures !settled ==> var u := Unresolved(entries);
              && journal.entries == AfterAttempt(entries, journal.command, a)
              && host.compensated == base + Undone(Performed(entries, journal.command, a))
              && Performed(entries, journal.command, a) != Plan(entries, journal.command, a.observe)
  {
    hide SettleLast, Unresolved, Plan, Performed, Undone, Readable, Clear, Journalled, SettleOne, Stuck;
    ghost var u := Unresolved(entries);
    ghost var before, acts := SettleLast(u, a.observe, i), ActionsAt(u, a.observe, i);
    ghost var k := Fewer(left, acts);
    SettlingGoesOn(entries, u, a.observe, i, k);
    FirstUndo(journal.entries, boundary.step, observation);
    settled, remaining := SettleBoundary(journal, host, boundary.step, observation, left);
    if !settled {
      CutWhileSettling(entries, journal.command, a, i, left);
      if Stuck(entries) {
        SettlingGoesOn(entries, u, a.observe, i, if left > 0 && acts[0].Undo? then 1 else 0);
        assert acts[..0] == [];
      }
    }
  }

  lemma {:induction false} FirstUndo(entries: seq<Entry>, step: Str, o: Observation)
    ensures var acts := SettleOne(step, o);
            && acts != []
            && Journalled(entries, acts[..0]) == entries && Undone(acts[..0]) == []
            && (acts[0].Undo? ==> Journalled(entries, acts[..1]) == entries && Undone(acts[..1]) == [step])
  {
    var acts := SettleOne(step, o);
    if acts[0].Undo? {
      assert acts[..1] == [] + [Undo(step)];
      JournalledLast(entries, [], Undo(step));
    }
  }

  /** Settles the observed boundaries in turn. */
  method SettleEach(journal: OperationJournal, host: Host, ghost observe: Observe,
                    observations: seq<(Entry, Observation)>, ghost u: seq<Entry>, effects: nat)
    returns (finished: bool, left: nat)
    requires journal.Valid() && u == Unresolved(journal.entries) != []
    requires journal.entries != [] && journal.entries[|journal.entries| - 1].phase != Commit
    requires Clear(u, observe) && Observed(observations, u, observe)
    modifies journal`entries, host
    ensures journal.Valid()
    ensures finished ==>
              && SettledTo(old(journal.entries), u, observe, |u|, journal.entries)
              && host.compensated == old(host.compensated) + Undone(SettleLast(u, observe, |u|))
              && |SettleLast(u, observe, |u|)| + left == effects
    ensures !finished ==> var entries, a := old(journal.entries), Attempt(observe, effects);
              && journal.entries == AfterAttempt(entries, journal.command, a)
              && host.compensated == old(host.compensated) + Undone(Performed(entries, journal.command, a))
              && Performed(entries, journal.command, a) != Plan(entries, journal.command, observe)
  {
    hide SettleLast, Unresolved, Plan, Performed, Undone, Readable, Clear, Journalled, Observed, SettledTo,
      AfterAttempt, StepReadable, StepsReadable, Stuck, CanCompensate, Resumable, Proven;
    ghost var entries, base, a := journal.entries, host.compensated, Attempt(observe, effects);
    StartSettling(entries, u, observe);
    ObservedLength(observations, u, observe);
    left := effects;
    assert host.compensated == base + [];
    for i := 0 to |observations|
      invariant journal.Valid() && SettledTo(entries, u, observe, i, journal.entries)
      invariant host.compensated == base + Undone(SettleLast(u, observe, i))
      invariant |SettleLast(u, observe, i)| + left == effects
    {
      ObservedAt(entries, observations, u, observe, i);
      var settled, remaining := SettleNext(
        journal, host, a, entries, base, i, observations[i].0, observations[i].1, left);
      if !settled {
        return false, left;
      }
      left := remaining;
    }
    return true, left;
  }

  ghost predicate Observed(observations: seq<(Entry, Observation)>, u: seq<Entry>, observe: Observe) {
    |observations| == |u| && forall i :: 0 <= i < |u| ==>
      observations[i] == (u[|u| - 1 - i], observe(u[|u| - 1 - i].step))
  }

  method ReconcileEffectBoundaries(
      journal: OperationJournal, host: Host, observe: Observe, boundaries: seq<Entry>, effects: nat)
    returns (r: Result<RecoveryResult, RecoveryError>)
    requires journal.Valid() && boundaries == Unresolved(journal.entries) != []
    requires journal.entries != [] && journal.entries[|journal.entries| - 1].phase != Commit
    modifies journal`entries, host
    ensures journal.Valid()
    ensures var entries, a := old(journal.entries), Attempt(observe, effects);
            && journal.entries == AfterAttempt(entries, journal.command, a)
            && host.compensated == old(host.compensated) + Undone(Performed(entries, journal.command, a))
            && (r.Success? <==> Performed(entries, journal.command, a) == Plan(entries, journal.command, observe))
            && (r.Success? ==> r.value == Verdict(entries, observe))
  {
    ghost var entries, a := journal.entries, Attempt(observe, effects);
    var observations, ambiguous := ObserveAll(boundaries, observe);
    if ambiguous.Some? {
      return Success(RecoveryResult(RecoveryRequired, false, ambiguous));
    }
    var finished := SettleAndCommit(journal, host, observe, observations, boundaries, effects);
    if !finished {
      return Failure(Interrupted);
    }
    var everyAbsent := EveryAbsent(observations, boundaries, observe);
    return Success(RecoveryResult(if everyAbsent then SafeRetry else Resume, true,
                                  Some(boundaries[|boundaries| - 1].step)));
  }

  method SettleAndCommit(journal: OperationJournal, host: Host, ghost observe: Observe,
                         observations: seq<(Entry, Observation)>, ghost u: seq<Entry>, effects: nat)
    returns (finished: bool)
    requires journal.Valid() && u == Unresolved(journal.entries) != []
    requires journal.entries != [] && journal.entries[|journal.entries| - 1].phase != Commit
    requires Clear(u, observe) && Observed(observations, u, observe)
    modifies journal`entries, host
    ensures journal.Valid()
    ensures var entries, a := old(journal.entries), Attempt(observe, effects);
            && journal.entries == AfterAttempt(entries, journal.command, a)
            && host.compensated == old(host.compensated) + Undone(Performed(entries, journal.command, a))
            && (finished <==> Performed(entries, journal.command, a) == Plan(entries, journal.command, observe))
  {
    hide SettleLast, SettleOne, Unresolved, Plan, Performed, Journalled, Undone, Readable, LegalAt, Proven, Stuck;
    ghost var entries, a := journal.entries, Attempt(observe, effects);
    var settled, left := SettleEach(journal, host, observe, observations, u, effects);
    if !settled {
      return false;
    }
    SettledAll(entries, journal.command, a, left);
    RecoveredCommitIsLegal(journal.entries, journal.command);
    var committed := journal.Append(Commit, journal.command, RECOVERED, left > 0);
    return committed.Success?;
  }

  method EveryAbsent(observations: seq<(Entry, Observation)>, ghost u: seq<Entry>, ghost observe: Observe)
    returns (r: bool)
    requires Observed(observations, u, observe)
    ensures r <==> AllAbsent(u, observe)
  {
    r := forall i :: 0 <= i < |observations| ==> observations[i].1 == Absent;
    if r {
      forall k | 0 <= k < |u|
        ensures observe(u[k].step) == Absent
      {
        assert observations[|u| - 1 - k].1 == Absent;
      }
    } else {
      var i :| 0 <= i < |observations| && observations[i].1 != Absent;
      assert u[|u| - 1 - i] in u;
    }
  }

  lemma {:induction false} ObservedLength(observations: seq<(Entry, Observation)>, u: seq<Entry>, observe: Observe)
    requires Observed(observations, u, observe)
    ensures |observations| == |u|
  {}

  lemma {:induction false} ObservedAt(
      entries: seq<Entry>, observations: seq<(Entry, Observation)>, u: seq<Entry>, observe: Observe, i: nat)
    requires Observed(observations, u, observe) && i < |u| && StepsReadable(entries, u)
    ensures observations[i] == (u[|u| - 1 - i], observe(u[|u| - 1 - i].step))
    ensures StepReadable(observations[i].0)
  {}

  lemma {:induction false} StartSettling(entries: seq<Entry>, u: seq<Entry>, observe: Observe)
    requires Readable(entries) && u == Unresolved(entries) != [] && entries[|entries| - 1].phase != Commit
    ensures StepsReadable(entries, u) && SettledTo(entries, u, observe, 0, entries)
    ensures SettleLast(u, observe, 0) == [] && Undone([]) == []
  {
    BoundariesReadable(entries);
    NothingSettled(entries, u, observe);
  }

  predicate StepReadable(e: Entry) { 1 <= |e.step| <= 128 }

  ghost predicate StepsReadable(entries: seq<Entry>, u: seq<Entry>) {
    forall e :: e in u ==> StepReadable(e)
  }

  lemma {:induction false} BoundariesReadable(entries: seq<Entry>)
    requires Readable(entries)
    ensures StepsReadable(entries, Unresolved(entries))
  {
    UnresolvedExactly(entries);
    forall e | e in Unresolved(entries)
      ensures StepReadable(e)
    {
      assert PendingEntry(entries, e);
    }
  }

  lemma {:induction false} NothingSettled(entries: seq<Entry>, u: seq<Entry>, observe: Observe)
    ensures SettleLast(u, observe, 0) == [] && Journalled(entries, []) == entries && Undone([]) == []
  {}

  /** The last step was intended and nothing else is open: what is observed decides. */
  method RecoverIntent(journal: OperationJournal, host: Host, observe: Observe, effects: nat)
    returns (r: Result<RecoveryResult, RecoveryError>)
    requires journal.Valid() && Unresolved(journal.entries) == [] && journal.entries != []
    requires journal.entries[|journal.entries| - 1].phase == Intent
    modifies journal`entries, host
    ensures journal.Valid()
    ensures var entries, a := old(journal.entries), Attempt(observe, effects);
            && journal.entries == AfterAttempt(entries, journal.command, a)
            && host.compensated == old(host.compensated) + Undone(Performed(entries, journal.command, a))
            && (r.Success? <==> Performed(entries, journal.command, a) == Plan(entries, journal.command, observe))
            && (r.Success? ==> r.value == Verdict(entries, observe))
  {
    ghost var entries := journal.entries;
    var a := Attempt(observe, effects);
    var last := journal.entries[|journal.entries| - 1];
    var observation := observe(last.step);
    if observation == Ambiguous {
      return Success(RecoveryResult(RecoveryRequired, false, Some(last.step)));
    }
    if observation == Matching {
      var recorded := RecordRecovered(journal, last.step, effects);
      return if recorded then Success(RecoveryResult(Resume, true, Some(last.step))) else Failure(Interrupted);
    }
    assert last in entries;
    var finished := SettleIntent(journal, host, a, last.step, observation);
    return if finished then
             Success(RecoveryResult(if observation == Absent then SafeRetry else Resume, true, Some(last.step)))
           else Failure(Interrupted);
  }

  method SettleIntent(journal: OperationJournal, host: Host, a: Attempt, step: Str, observation: Observation)
    returns (finished: bool)
    requires journal.Valid() && Unresolved(journal.entries) == [] && journal.entries != []
    requires var last := journal.entries[|journal.entries| - 1]; last.phase == Intent && last.step == step
    requires a.observe(step) == observation != Ambiguous && observation != Matching && 1 <= |step| <= 128
    modifies journal`entries, host
    ensures journal.Valid()
    ensures var entries := old(journal.entries);
            && journal.entries == AfterAttempt(entries, journal.command, a)
            && host.compensated == old(host.compensated) + Undone(Performed(entries, journal.command, a))
            && (finished <==> Performed(entries, journal.command, a) == Plan(entries, journal.command, a.observe))
  {
    hide Readable, LegalAt, Journalled, Undone, Unresolved, SettleOne, Plan, Performed, SettledDetail, Proven;
    ghost var entries, acts := journal.entries, SettleOne(step, observation);
    ghost var k := Fewer(a.effects, acts);
    IntentPlan(entries, journal.command, a, k, a.effects - k);
    var settled, left := SettleBoundary(journal, host, step, observation, a.effects);
    if !settled {
      return false;
    }
    RecoveredCommitIsLegal(journal.entries, journal.command);
    var committed := journal.Append(Commit, journal.command, RECOVERED, left > 0);
    return committed.Success?;
  }

  lemma {:induction false} IntentPlan(entries: seq<Entry>, command: Str, a: Attempt, k: nat, left: nat)
    requires Unresolved(entries) == [] && entries != [] && entries[|entries| - 1].phase == Intent
    requires var step := entries[|entries| - 1].step;
             && a.observe(step) != Ambiguous && a.observe(step) != Matching
             && k == Fewer(a.effects, SettleOne(step, a.observe(step)))
             && left == a.effects - k
    ensures var step := entries[|entries| - 1].step;
            var acts := SettleOne(step, a.observe(step));
            var commit := CommitAction(command);
            var after := Journalled(entries, acts);
            && Plan(entries, command, a.observe) == acts + [commit]
            && Performed(entries, command, a) == (if left > 0 then acts + [commit] else acts[..k])
            && acts[..|acts|] == acts
            && Journalled(entries, acts + [commit]) == after + [Next(after, Commit, command, RECOVERED)]
            && Undone(acts + [commit]) == Undone(acts)
            && (left > 0 ==> k == |acts|)
            && (k < |acts| ==> acts[..k] != acts + [commit])
            && acts != acts + [commit]
  {
    hide Journalled, Undone, SettledDetail, Ascii;
    var step := entries[|entries| - 1].step;
    var acts := SettleOne(step, a.observe(step));
    JournalledLast(entries, acts, CommitAction(command));
  }

  lemma {:induction false} EffectIsLegal(entries: seq<Entry>, step: Str)
    requires Readable(entries) && entries != []
    requires entries[|entries| - 1].phase == Intent && entries[|entries| - 1].step == step
    ensures LegalAt(entries + [Next(entries, Effect, step, EFFECT_RECOVERED)], |entries|)
  {
    assert entries[|entries| - 1] in entries;
    assert SchemaValid(step, EFFECT_RECOVERED);
  }

  lemma {:induction false} VerifyIsLegal(entries: seq<Entry>, step: Str)
    requires Readable(entries) && entries != []
    requires entries[|entries| - 1].phase == Effect && entries[|entries| - 1].step == step
    ensures LegalAt(entries + [Next(entries, Verify, step, VERIFY_RECOVERED)], |entries|)
  {
    assert entries[|entries| - 1] in entries;
    assert SchemaValid(step, VERIFY_RECOVERED);
  }

  lemma {:induction false} RecordCut(entries: seq<Entry>, step: Str, command: Str, effects: nat)
    requires entries != [] && LastStep(entries) == step
    ensures var plan := [Log(Effect, step, EFFECT_RECOVERED), Log(Verify, step, VERIFY_RECOVERED),
                         CommitAction(command)];
            var one := entries + [Next(entries, Effect, step, EFFECT_RECOVERED)];
            var two := one + [Next(one, Verify, step, VERIFY_RECOVERED)];
            && Journalled(entries, plan[..Fewer(effects, plan)]) ==
               (if effects == 0 then entries else if effects == 1 then one else if effects == 2 then two
                else two + [Next(two, Commit, command, RECOVERED)])
            && Undone(plan[..Fewer(effects, plan)]) == []
  {
    hide Journalled, Undone;
    MatchingCut(entries, command, if effects < 3 then effects else 3);
  }

  method RecordRecovered(journal: OperationJournal, step: Str, effects: nat) returns (recorded: bool)
    requires journal.Valid() && journal.entries != []
    requires var last := journal.entries[|journal.entries| - 1]; last.phase == Intent && last.step == step
    modifies journal`entries
    ensures journal.Valid()
    ensures var plan := [Log(Effect, step, EFFECT_RECOVERED), Log(Verify, step, VERIFY_RECOVERED),
                         CommitAction(journal.command)];
            && journal.entries == Journalled(old(journal.entries), plan[..Fewer(effects, plan)])
            && Undone(plan[..Fewer(effects, plan)]) == []
            && (recorded <==> effects >= 3)
  {
    hide Journalled, Undone, LegalAt, Readable, Committed, SchemaValid, Disciplined, WellNumbered, Unresolved, Says,
      Ascii;
    ghost var entries := journal.entries;
    RecordCut(entries, step, journal.command, effects);
    EffectIsLegal(entries, step);
    var effected := journal.Append(Effect, step, EFFECT_RECOVERED, effects > 0);
    if effected.Failure? {
      return false;
    }
    VerifyIsLegal(journal.entries, step);
    var verified := journal.Append(Verify, step, VERIFY_RECOVERED, effects > 1);
    if verified.Failure? {
      return false;
    }
    RecoveredCommitIsLegal(journal.entries, journal.command);
    var committed := journal.Append(Commit, journal.command, RECOVERED, effects > 2);
    return committed.Success?;
  }

  lemma {:induction false} LastIsProven(entries: seq<Entry>)
    requires entries != [] && Unresolved(entries) == []
    ensures !IsBoundary(entries[|entries| - 1])
  {}

  method CommitOnly(journal: OperationJournal, effects: nat) returns (committed: bool)
    requires journal.Valid() && journal.entries != []
    requires var last := journal.entries[|journal.entries| - 1]; last.phase == Verify || Proven(last)
    modifies journal`entries
    ensures journal.Valid()
    ensures var plan := [CommitAction(journal.command)];
            && journal.entries == Journalled(old(journal.entries), plan[..Fewer(effects, plan)])
            && Undone(plan[..Fewer(effects, plan)]) == []
            && (committed <==> effects > 0)
  {
    var commit := CommitAction(journal.command);
    assert [commit][..0] == [] && [commit][..1] == [] + [commit];
    JournalledLast(journal.entries, [], commit);
    RecoveredCommitIsLegal(journal.entries, journal.command);
    var r := journal.Append(Commit, journal.command, RECOVERED, effects > 0);
    return r.Success?;
  }

  /** Recovers an interrupted operation. Where it stops, the journal and the host are exactly as
      after the same attempt on values; it answers only when the whole plan was performed. */
  method RecoverOperation(journal: OperationJournal, host: Host, observe: Observe, effects: nat)
    returns (r: Result<RecoveryResult, RecoveryError>)
    requires journal.Valid()
    modifies journal`entries, host
    ensures journal.Valid()
    ensures var entries, a := old(journal.entries), Attempt(observe, effects);
            && journal.entries == AfterAttempt(entries, journal.command, a)
            && host.compensated == old(host.compensated) + Undone(Performed(entries, journal.command, a))
            && (r.Success? <==> Performed(entries, journal.command, a) == Plan(entries, journal.command, observe))
            && (r.Success? ==> r.value == Verdict(entries, observe))
  {
    ghost var entries, a := journal.entries, Attempt(observe, effects);
    if journal.entries == [] {
      return Success(RecoveryResult(SafeRetry, false, None));
    }
    var last := journal.entries[|journal.entries| - 1];
    if last.phase == Commit {
      return Success(RecoveryResult(Complete, false, Some(last.step)));
    }
    var unresolved := UnresolvedEffectBoundaries(journal.entries);
    if |unresolved| > 0 {
      r := ReconcileEffectBoundaries(journal, host, observe, unresolved, effects);
      return;
    }
    if last.phase == Cancel {
      return Success(RecoveryResult(
        if Says(last.detail, STATUS, "recovery-required") then RecoveryRequired else SafeRetry,
        false, Some(last.step)));
    }
    if last.phase == Intent {
      r := RecoverIntent(journal, host, observe, effects);
      return;
    }
    if last.phase == Verify || last.phase == Compensate {
      LastIsProven(entries);
      var committed := CommitOnly(journal, effects);
      return if committed then Success(RecoveryResult(Resume, false, Some(last.step))) else Failure(Interrupted);
    }
    return Success(RecoveryResult(SafeRetry, false, None));
  }
}
