/** What any number of interrupted recoveries do to the host when an undone step stays undone. */
module HostRuns {
  import opened Text
  import opened JournalEntries
  import opened EffectBoundaries
  import opened RecoveryPlan
  import opened RecoveryRuns
  import opened IntentRecovery
  import opened CrashSafety

  /** One run of recovery: the steps it cannot tell apart, and how many effectful calls complete. */
  datatype Run = Run(unclear: set<Str>, effects: nat)

  /** The journal, and the steps undone so far in order. */
  datatype Outcome = Outcome(journal: seq<Entry>, undone: seq<Str>)

  /** How a step really is, once some steps have been undone. */
  function Now(world: Observe, undone: seq<Str>, step: Str): Observation {
    if step in undone then Absent else world(step)
  }

  function Seen(world: Observe, undone: seq<Str>, unclear: set<Str>, step: Str): Observation {
    if step in unclear then Ambiguous else Now(world, undone, step)
  }

  function AttemptOf(world: Observe, undone: seq<Str>, run: Run): Attempt {
    Attempt((step: Str) => Seen(world, undone, run.unclear, step), run.effects)
  }

  function AfterRuns(entries: seq<Entry>, command: Str, world: Observe, runs: seq<Run>): Outcome {
    if runs == [] then Outcome(entries, [])
    else AfterRun(AfterRuns(entries, command, world, runs[..|runs| - 1]), command, world, runs[|runs| - 1])
  }

  function AfterRun(before: Outcome, command: Str, world: Observe, run: Run): Outcome {
    var a := AttemptOf(world, before.undone, run);
    Outcome(AfterAttempt(before.journal, command, a),
            before.undone + Undone(Performed(before.journal, command, a)))
  }

  ghost predicate NoRepeats(steps: seq<Str>) {
    forall i, j :: 0 <= i < j < |steps| ==> steps[i] != steps[j]
  }

  // ----- one attempt undoes no step twice

  ghost predicate UndoesOnce(actions: seq<Action>) {
    forall i, j :: 0 <= i < j < |actions| && actions[i].Undo? && actions[j].Undo? ==>
      actions[i].step != actions[j].step
  }

  lemma {:induction false} SettleSteps(u: seq<Entry>, observe: Observe, n: nat, k: nat)
    requires n <= |u| && k < |SettleLast(u, observe, n)|
    ensures exists i :: |u| - n <= i < |u| && u[i].step == SettleLast(u, observe, n)[k].step
  {
    var fewer := SettleLast(u, observe, n - 1);
    if k < |fewer| {
      SettleSteps(u, observe, n - 1, k);
    } else {
      assert SettleLast(u, observe, n)[k].step == u[|u| - n].step;
    }
  }

  lemma {:induction false} OneMoreUndoneOnce(actions: seq<Action>, step: Str, o: Observation)
    requires UndoesOnce(actions) && forall k :: 0 <= k < |actions| ==> actions[k].step != step
    ensures UndoesOnce(actions + SettleOne(step, o))
  {
    var one := SettleOne(step, o);
    assert forall k :: 1 <= k < |one| ==> !one[k].Undo?;
    hide SettleOne;
  }

  lemma {:induction false} SettleUndoesOnce(u: seq<Entry>, observe: Observe, n: nat)
    requires n <= |u| && DistinctSteps(u)
    ensures UndoesOnce(SettleLast(u, observe, n))
  {
    hide UndoesOnce, SettleOne;
    if n == 0 {
      NothingUndone();
    } else {
      var fewer, step := SettleLast(u, observe, n - 1), u[|u| - n].step;
      SettleUndoesOnce(u, observe, n - 1);
      forall k | 0 <= k < |fewer|
        ensures fewer[k].step != step
      {
        SettleSteps(u, observe, n - 1, k);
      }
      OneMoreUndoneOnce(fewer, step, observe(step));
    }
  }

  lemma {:induction false} NothingUndone()
    ensures UndoesOnce([])
  {}

  lemma {:induction false} PlanUndoesOnce(entries: seq<Entry>, command: Str, observe: Observe)
    requires WellNumbered(entries)
    ensures UndoesOnce(Plan(entries, command, observe))
  {
    hide WellNumbered, DistinctSteps, SettleLast;
    UnresolvedOrder(entries);
    var u := Unresolved(entries);
    SettleUndoesOnce(u, observe, |u|);
  }

  lemma {:induction false} UndoneNoRepeats(actions: seq<Action>)
    requires UndoesOnce(actions)
    ensures NoRepeats(Undone(actions))
  {
    if actions != [] {
      var before, last := actions[..|actions| - 1], actions[|actions| - 1];
      UndoneNoRepeats(before);
      if last.Undo? && last.step in Undone(before) {
        UndoneIsUndo(before, last.step);
      }
    }
  }

  lemma {:induction false} AttemptUndoesOnce(entries: seq<Entry>, command: Str, a: Attempt)
    requires WellNumbered(entries)
    ensures NoRepeats(Undone(Performed(entries, command, a)))
  {
    var done, plan := Performed(entries, command, a), Plan(entries, command, a.observe);
    PlanUndoesOnce(entries, command, a.observe);
    assert done == plan[..|done|];
    UndoneNoRepeats(done);
  }

  // ----- what one attempt closes, it leaves without a mismatch

  lemma {:induction false} AttemptOpensNothing(entries: seq<Entry>, command: Str, a: Attempt, step: Str)
    requires WellNumbered(entries) && Examined(AfterAttempt(entries, command, a), step)
    ensures Examined(entries, step)
  {
    hide Examined, WellNumbered, AfterAttempt;
    OneAttempt(entries, command, a);
    if NeedsRecovery(entries) && !Blocked(entries) {
      CrashSafe(entries, command, [a]);
    } else if Blocked(entries) {
      BlockedStays(entries, command, [a]);
    } else {
      NothingToDo(entries, command, a);
    }
  }

  lemma {:induction false} NothingToDo(entries: seq<Entry>, command: Str, a: Attempt)
    requires !NeedsRecovery(entries)
    ensures AfterAttempt(entries, command, a) == entries
  {}

  /** A mismatch that an attempt saw and did not undo is still open. */
  lemma {:induction false} MismatchStaysOpen(entries: seq<Entry>, command: Str, a: Attempt, step: Str)
    requires WellNumbered(entries) && Examined(entries, step) && a.observe(step) == OwnedMismatch
    requires step !in Undone(Performed(entries, command, a))
    ensures Examined(AfterAttempt(entries, command, a), step)
  {
    if Stuck(entries) {
      StuckStays(entries, command, a);
    } else if Unresolved(entries) != [] {
      BoundaryStaysOpen(entries, command, a, step);
    } else {
      var undo := Undo(step);
      if a.effects > 0 {
        assert Plan(entries, command, a.observe)[0] == undo;
        UndoIsUndone(Performed(entries, command, a), 0);
      }
    }
  }

  lemma {:induction false} HandledEntry(
      entries: seq<Entry>, after: seq<Entry>, command: Str, n: nat, committed: bool, i: nat)
    requires Progress(entries, after, command, n, committed) && i < n
    ensures |entries| + i < |after| && n <= |Unresolved(entries)|
    ensures Proven(after[|entries| + i])
    ensures after[|entries| + i].step == Unresolved(entries)[|Unresolved(entries)| - 1 - i].step
  {
    hide Unresolved;
    var handled := if committed then after[..|after| - 1] else after;
    assert HandledAt(handled, |entries|, Unresolved(entries), i);
  }

  lemma {:induction false} BoundaryStaysOpen(entries: seq<Entry>, command: Str, a: Attempt, step: Str)
    requires WellNumbered(entries) && Unresolved(entries) != [] && !Stuck(entries)
    requires Examined(entries, step) && a.observe(step) == OwnedMismatch
    requires step !in Undone(Performed(entries, command, a))
    ensures Examined(AfterAttempt(entries, command, a), step)
  {
    hide Unresolved, Stuck, WellNumbered, AfterAttempt, Performed, Undone;
    var u, after := Unresolved(entries), AfterAttempt(entries, command, a);
    OneAttempt(entries, command, a);
    var n, committed := BoundariesCrashSafe(entries, command, [a]);
    var k :| 0 <= k < |u| && u[k].step == step;
    if k >= |u| - n {
      HandledEntry(entries, after, command, n, committed, |u| - 1 - k);
      UndoesEveryMismatch(entries, command, a, |entries| + |u| - 1 - k);
    } else {
      assert u[..|u| - n][k] == u[k];
    }
  }

  // ----- any number of runs

  lemma {:induction false} RunsNumbered(entries: seq<Entry>, command: Str, world: Observe, runs: seq<Run>)
    requires WellNumbered(entries)
    ensures WellNumbered(AfterRuns(entries, command, world, runs).journal)
  {
    hide WellNumbered, Performed, Journalled;
    if runs != [] {
      RunsNumbered(entries, command, world, runs[..|runs| - 1]);
      var before := AfterRuns(entries, command, world, runs[..|runs| - 1]);
      JournalledNumbered(
        before.journal, Performed(before.journal, command, AttemptOf(world, before.undone, runs[|runs| - 1])));
    }
  }

  /** What the runs so far have closed, they have left without a mismatch; what they have undone was
      one; and nothing is open that was not. */
  ghost predicate Reconciling(entries: seq<Entry>, world: Observe, o: Outcome, step: Str) {
    && (Examined(o.journal, step) ==> Examined(entries, step))
    && (step in o.undone ==> Examined(entries, step) && world(step) == OwnedMismatch)
    && (Examined(entries, step) && world(step) == OwnedMismatch ==> step in o.undone || Examined(o.journal, step))
  }

  lemma {:induction false} RunsReconcile(
      entries: seq<Entry>, command: Str, world: Observe, runs: seq<Run>, step: Str)
    requires WellNumbered(entries)
    ensures Reconciling(entries, world, AfterRuns(entries, command, world, runs), step)
  {
    if runs != [] {
      hide Examined, WellNumbered, AfterRun, Reconciling;
      RunsReconcile(entries, command, world, runs[..|runs| - 1], step);
      RunsNumbered(entries, command, world, runs[..|runs| - 1]);
      RunReconciles(entries, AfterRuns(entries, command, world, runs[..|runs| - 1]), command, world,
                    runs[|runs| - 1], step);
    }
  }

  lemma {:induction false} RunReconciles(
      entries: seq<Entry>, before: Outcome, command: Str, world: Observe, run: Run, step: Str)
    requires WellNumbered(before.journal) && Reconciling(entries, world, before, step)
    ensures Reconciling(entries, world, AfterRun(before, command, world, run), step)
  {
    hide Examined, WellNumbered, AfterAttempt, Performed, Undone, AttemptOf;
    var a := AttemptOf(world, before.undone, run);
    var now := Undone(Performed(before.journal, command, a));
    if Examined(AfterAttempt(before.journal, command, a), step) {
      AttemptOpensNothing(before.journal, command, a, step);
    }
    if step in now {
      UndoesReal(before, command, world, run, step);
    } else if Examined(before.journal, step) && step !in before.undone && world(step) == OwnedMismatch {
      UnclearStaysOpen(before.journal, command, world, before.undone, run, step);
    }
  }

  /** A run undoes only what is an owned mismatch and has not been undone. */
  lemma {:induction false} UndoesReal(before: Outcome, command: Str, world: Observe, run: Run, step: Str)
    requires step in Undone(Performed(before.journal, command, AttemptOf(world, before.undone, run)))
    ensures Examined(before.journal, step) && world(step) == OwnedMismatch && step !in before.undone
  {
    hide Examined, Performed, Undone;
    UndoesOnlyMismatches(before.journal, command, AttemptOf(world, before.undone, run), step);
  }

  lemma {:induction false} UnclearStaysOpen(
      journal: seq<Entry>, command: Str, world: Observe, undone: seq<Str>, run: Run, step: Str)
    requires WellNumbered(journal) && Examined(journal, step)
    requires world(step) == OwnedMismatch && step !in undone
    requires step !in Undone(Performed(journal, command, AttemptOf(world, undone, run)))
    ensures Examined(AfterAttempt(journal, command, AttemptOf(world, undone, run)), step)
  {
    hide Examined, WellNumbered, AfterAttempt, Performed, Undone;
    var a := AttemptOf(world, undone, run);
    if step in run.unclear {
      AmbiguityStops(journal, command, a, step);
    } else {
      MismatchStaysOpen(journal, command, a, step);
    }
  }

  /** A single open step that cannot be told apart stops the whole attempt. */
  lemma {:induction false} AmbiguityStops(journal: seq<Entry>, command: Str, a: Attempt, step: Str)
    requires Examined(journal, step) && a.observe(step) == Ambiguous
    ensures AfterAttempt(journal, command, a) == journal && Performed(journal, command, a) == []
  {
    if Unresolved(journal) != [] {
      var e :| e in Unresolved(journal) && e.step == step;
    }
    assert Plan(journal, command, a.observe) == [];
  }

  /** However often recovery is interrupted, no step is undone twice, and only owned mismatches among
      the steps open at the start are undone. Once the journal is committed these are all undone. */
  lemma {:induction false} UndoneExactlyOnce(
      entries: seq<Entry>, command: Str, world: Observe, runs: seq<Run>, step: Str)
    requires WellNumbered(entries)
    ensures var o := AfterRuns(entries, command, world, runs);
            && NoRepeats(o.undone)
            && (step in o.undone ==> Examined(entries, step) && world(step) == OwnedMismatch)
            && (EndsWithCommit(o.journal) ==>
                  && (step in o.undone <==> Examined(entries, step) && world(step) == OwnedMismatch)
                  && (Examined(entries, step) ==> Now(world, o.undone, step) != OwnedMismatch))
  {
    RunsReconcile(entries, command, world, runs, step);
    RunsUndoOnce(entries, command, world, runs);
    hide AfterRuns, NoRepeats;
  }

  lemma {:induction false} RunsUndoOnce(entries: seq<Entry>, command: Str, world: Observe, runs: seq<Run>)
    requires WellNumbered(entries)
    ensures NoRepeats(AfterRuns(entries, command, world, runs).undone)
  {
    if runs != [] {
      hide WellNumbered, AfterRun, NoRepeats;
      RunsUndoOnce(entries, command, world, runs[..|runs| - 1]);
      RunsNumbered(entries, command, world, runs[..|runs| - 1]);
      RunUndoesOnce(AfterRuns(entries, command, world, runs[..|runs| - 1]), command, world, runs[|runs| - 1]);
    } else {
      NoneRepeats();
    }
  }

  lemma {:induction false} NoneRepeats()
    ensures NoRepeats([])
  {}

  lemma {:induction false} RunUndoesOnce(before: Outcome, command: Str, world: Observe, run: Run)
    requires WellNumbered(before.journal) && NoRepeats(before.undone)
    ensures NoRepeats(AfterRun(before, command, world, run).undone)
  {
    hide WellNumbered, AfterAttempt, Performed, Undone, AttemptOf;
    var a := AttemptOf(world, before.undone, run);
    AttemptUndoesOnce(before.journal, command, a);
    var now := Undone(Performed(before.journal, command, a));
    forall k | 0 <= k < |now|
      ensures now[k] !in before.undone
    {
      assert now[k] in now;
      UndoesReal(before, command, world, run, now[k]);
    }
  }
}
