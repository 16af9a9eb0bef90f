/** Recovery of every journal that needs it: what interrupted attempts leave, when recovery can
    finish at all, and what it looks at. */
module CrashSafety {
  import opened Text
  import opened JournalEntries
  import opened EffectBoundaries
  import opened RecoveryPlan
  import opened RecoveryRuns
  import opened IntentRecovery

  // ----- any attempts

  /** What attempts at recovering entries may have made of the journal: boundaries handled latest
      first, or the last intent recorded or settled, or only a commit missing. */
  ghost predicate Recovering(entries: seq<Entry>, after: seq<Entry>, command: Str)
    requires entries != []
  {
    if Unresolved(entries) != [] then ProgressOn(entries, after, command)
    else if entries[|entries| - 1].phase == Intent then IntentProgress(entries, after, command)
    else after == entries || after == Committed(entries, command)
  }

  lemma {:induction false} OnlyCommitMissing(entries: seq<Entry>, command: Str, attempts: seq<Attempt>)
    requires entries != [] && Unresolved(entries) == []
    requires entries[|entries| - 1].phase == Verify || entries[|entries| - 1].phase == Compensate
    ensures var after := AfterAttempts(entries, command, attempts);
            after == entries || after == Committed(entries, command)
  {
    if attempts != [] {
      var before := AfterAttempts(entries, command, attempts[..|attempts| - 1]);
      OnlyCommitMissing(entries, command, attempts[..|attempts| - 1]);
      if before == entries {
        OnlyCommitIsLeft(entries, command, attempts[|attempts| - 1]);
      } else {
        CommittedStays(before, command, attempts[|attempts| - 1]);
      }
    }
  }

  /** Which journals need a recovery that can finish. */
  lemma {:induction false} OpenJournal(entries: seq<Entry>)
    requires NeedsRecovery(entries) && !Blocked(entries)
    ensures entries != [] && !Stuck(entries)
    ensures Unresolved(entries) != [] || OnlyIntentOpen(entries)
            || entries[|entries| - 1].phase == Verify || entries[|entries| - 1].phase == Compensate
  {}

  /** However often the recovery of any journal is cut and restarted, and whatever each attempt
      observes: the journal is on one of the ways to the end of the recovery, it needs recovery
      exactly until the commit, recovery can still finish, and no step is open that was not. */
  lemma {:induction false} CrashSafe(entries: seq<Entry>, command: Str, attempts: seq<Attempt>)
    requires WellNumbered(entries) && NeedsRecovery(entries) && !Blocked(entries)
    ensures entries != []
    ensures var after := AfterAttempts(entries, command, attempts);
            && Recovering(entries, after, command)
            && (NeedsRecovery(after) <==> !EndsWithCommit(after))
            && !Blocked(after)
            && forall step :: Examined(after, step) ==> Examined(entries, step)
  {
    OpenJournal(entries);
    hide Examined, Unresolved, Blocked, NeedsRecovery, Stuck, WellNumbered, AfterAttempts;
    var after := AfterAttempts(entries, command, attempts);
    if Unresolved(entries) != [] {
      var n, committed := BoundariesCrashSafe(entries, command, attempts);
      assert Progress(entries, after, command, n, committed);
      ProgressOnDecides(entries, after, command);
    } else if OnlyIntentOpen(entries) {
      var shape := IntentCrashSafe(entries, command, attempts);
      ShapeDecides(entries, after, command, shape);
    } else {
      OnlyCommitMissing(entries, command, attempts);
      CommitMissingDecides(entries, after, command);
    }
  }

  lemma {:induction false} CommitMissingDecides(entries: seq<Entry>, after: seq<Entry>, command: Str)
    requires NeedsRecovery(entries) && !Blocked(entries)
    requires after == entries || after == Committed(entries, command)
    ensures NeedsRecovery(after) <==> !EndsWithCommit(after)
    ensures !Blocked(after)
    ensures forall step :: Examined(after, step) ==> Examined(entries, step)
  {
    assert Committed(entries, command)[..|entries|] == entries;
  }

  /** Enough effectful calls for a recovery to run to its end. */
  function Enough(entries: seq<Entry>): nat {
    if Unresolved(entries) != [] then 2 * |Unresolved(entries)| + 1 else 3
  }

  /** One attempt that can tell every open step apart and has enough calls finishes the recovery. */
  lemma {:induction false} AttemptCompletes(entries: seq<Entry>, command: Str, a: Attempt)
    requires WellNumbered(entries) && NeedsRecovery(entries) && !Blocked(entries)
    requires forall step :: Examined(entries, step) ==> a.observe(step) != Ambiguous
    requires a.effects >= Enough(entries)
    ensures !NeedsRecovery(AfterAttempt(entries, command, a))
  {
    OpenJournal(entries);
    hide AfterAttempt, NeedsRecovery, Blocked, Stuck, WellNumbered;
    if Unresolved(entries) != [] {
      hide Unresolved;
      BoundariesComplete(entries, command, a);
    } else if OnlyIntentOpen(entries) {
      StartsUntouched(entries, command);
      var shape := ShapeGoesOn(entries, entries, command, Untouched, a);
      CommitMeansDone(AfterAttempt(entries, command, a));
    } else {
      hide Unresolved;
      OnlyCommitIsLeft(entries, command, a);
      CommitMeansDone(Committed(entries, command));
    }
  }

  lemma {:induction false} CommitMeansDone(entries: seq<Entry>)
    requires EndsWithCommit(entries)
    ensures !NeedsRecovery(entries)
  {}

  lemma {:induction false} JournalledNumbered(entries: seq<Entry>, actions: seq<Action>)
    requires WellNumbered(entries)
    ensures WellNumbered(Journalled(entries, actions))
  {
    if actions != [] {
      JournalledNumbered(entries, actions[..|actions| - 1]);
    }
  }

  lemma {:induction false} AttemptsNumbered(entries: seq<Entry>, command: Str, attempts: seq<Attempt>)
    requires WellNumbered(entries)
    ensures WellNumbered(AfterAttempts(entries, command, attempts))
  {
    hide WellNumbered, Performed, Journalled;
    if attempts != [] {
      AttemptsNumbered(entries, command, attempts[..|attempts| - 1]);
      var mid := AfterAttempts(entries, command, attempts[..|attempts| - 1]);
      JournalledNumbered(mid, Performed(mid, command, attempts[|attempts| - 1]));
    }
  }

  /** After any interrupted attempts, one that can tell every step apart that they left open, and
      has enough calls for what they left, finishes the recovery. */
  lemma {:induction false} RerunCompletes(
      entries: seq<Entry>, command: Str, attempts: seq<Attempt>, last: Attempt)
    requires WellNumbered(entries) && NeedsRecovery(entries) && !Blocked(entries)
    requires forall step :: Examined(AfterAttempts(entries, command, attempts), step) ==>
               last.observe(step) != Ambiguous
    requires last.effects >= Enough(AfterAttempts(entries, command, attempts))
    ensures !NeedsRecovery(AfterAttempts(entries, command, attempts + [last]))
  {
    hide Examined, Blocked, NeedsRecovery, WellNumbered, AfterAttempt, Recovering, Enough;
    var after := AfterAttempts(entries, command, attempts);
    assert (attempts + [last])[..|attempts|] == attempts;
    CrashSafe(entries, command, attempts);
    AttemptsNumbered(entries, command, attempts);
    if NeedsRecovery(after) {
      AttemptCompletes(after, command, last);
    } else {
      CommittedStays(after, command, last);
    }
  }

  // ----- when recovery can finish

  lemma {:induction false} BlockedStays(entries: seq<Entry>, command: Str, attempts: seq<Attempt>)
    requires Blocked(entries)
    ensures AfterAttempts(entries, command, attempts) == entries
  {
    if attempts != [] {
      BlockedStays(entries, command, attempts[..|attempts| - 1]);
      if Stuck(entries) {
        StuckStays(entries, command, attempts[|attempts| - 1]);
      }
    }
  }

  /** Some attempt finishes the recovery of a journal that needs it exactly when the journal does
      not end in a cancellation that either takes no compensation for what is unresolved or asks
      for recovery with nothing unresolved. Those two never change, however often it is tried. */
  lemma {:induction false} RecoverableExactly(entries: seq<Entry>, command: Str)
    requires WellNumbered(entries) && NeedsRecovery(entries)
    ensures (exists a: Attempt :: !NeedsRecovery(AfterAttempt(entries, command, a))) <==> !Blocked(entries)
  {
    if Blocked(entries) {
      forall a: Attempt
        ensures NeedsRecovery(AfterAttempt(entries, command, a))
      {
        BlockedStays(entries, command, [a]);
        OneAttempt(entries, command, a);
      }
    } else {
      var a := Attempt((_: Str) => Absent, Enough(entries));
      AttemptCompletes(entries, command, a);
      assert !NeedsRecovery(AfterAttempt(entries, command, a));
    }
  }

  lemma {:induction false} OneAttempt(entries: seq<Entry>, command: Str, a: Attempt)
    ensures AfterAttempts(entries, command, [a]) == AfterAttempt(entries, command, a)
  {
    assert [a][..0] == [];
  }

  // ----- what recovery looks at

  /** What a step looks like makes a difference to the plan or to the verdict. */
  ghost predicate Matters(entries: seq<Entry>, command: Str, observe: Observe, step: Str, o: Observation) {
    || Plan(entries, command, Override(observe, step, o)) != Plan(entries, command, observe)
    || Verdict(entries, Override(observe, step, o)) != Verdict(entries, observe)
  }

  /** A recovery depends on what a step looks like exactly when the step has an unresolved boundary
      or, with nothing unresolved, is that of the last intent. */
  lemma {:induction false} ExaminedExactly(entries: seq<Entry>, command: Str, step: Str)
    ensures Examined(entries, step)
       <==> exists observe: Observe, o: Observation :: Matters(entries, command, observe, step, o)
  {
    if Examined(entries, step) {
      var observe: Observe := (_: Str) => Absent;
      AmbiguousMatters(entries, step, observe);
      assert Matters(entries, command, observe, step, Ambiguous);
    } else {
      forall observe: Observe, o: Observation
        ensures !Matters(entries, command, observe, step, o)
      {
        UnexaminedDoesNotMatter(entries, command, observe, step, o);
      }
    }
  }

  lemma {:induction false} AmbiguousMatters(entries: seq<Entry>, step: Str, observe: Observe)
    requires Examined(entries, step)
    requires forall s :: observe(s) == Absent
    ensures Verdict(entries, Override(observe, step, Ambiguous)) != Verdict(entries, observe)
  {
    var u, other := Unresolved(entries), Override(observe, step, Ambiguous);
    if u != [] {
      var e :| e in u && e.step == step;
      assert other(e.step) == Ambiguous;
    }
  }

  lemma {:induction false} UnexaminedDoesNotMatter(
      entries: seq<Entry>, command: Str, observe: Observe, step: Str, o: Observation)
    requires !Examined(entries, step)
    ensures !Matters(entries, command, observe, step, o)
  {
    var u, other := Unresolved(entries), Override(observe, step, o);
    if u != [] {
      SameSettle(u, observe, other, |u|);
      SameLatest(u, observe, other);
    }
  }

  // ----- journals the program can write

  const STEP_A := Ascii("a")
  const STEP_B := Ascii("b")
  const CANCELLED: Detail := map[STATUS := Words(Ascii("cancelled"))]
  const ASKS_RECOVERY: Detail := map[STATUS := Words(Ascii("recovery-required"))]
  const NOT_STARTED: Detail := map[COMPLETION := Words(Ascii("not-started"))]

  const EFFECT_DONE: seq<Entry> :=
    [Entry(1, Intent, STEP_A, map[]), Entry(2, Effect, STEP_A, map[]), Entry(3, Verify, STEP_A, map[])]

  lemma {:induction false} EffectDone()
    ensures Disciplined(EFFECT_DONE) && Unresolved(EFFECT_DONE) == [EFFECT_DONE[1]]
  {
    var one, two := EFFECT_DONE[..1], EFFECT_DONE[..2];
    assert one[..0] == [] && two[..1] == one && EFFECT_DONE[..3] == EFFECT_DONE;
    WithoutAbsent([], STEP_A);
    assert Unresolved(one) == [] && two[1] == EFFECT_DONE[1];
    assert Unresolved(two) == [] + [EFFECT_DONE[1]];
    forall i | 0 <= i < 3
      ensures LegalAt(EFFECT_DONE, i)
    {
      assert SchemaValid(EFFECT_DONE[i].step, EFFECT_DONE[i].detail);
    }
  }

  /** An effect that finished before the operation was cancelled as such: the journal is legal and
      needs recovery, and no recovery ever changes it. */
  lemma {:induction false} CancelledSetupIsStuck(command: Str, attempts: seq<Attempt>)
    requires 1 <= |command| <= 128
    ensures var journal := EFFECT_DONE + [Entry(4, Cancel, command, CANCELLED)];
            && Disciplined(journal) && NeedsRecovery(journal) && Stuck(journal)
            && AfterAttempts(journal, command, attempts) == journal
  {
    var last := Entry(4, Cancel, command, CANCELLED);
    var journal := EFFECT_DONE + [last];
    EffectDone();
    CancelIsLegal(command, CANCELLED);
    assert journal[..3] == EFFECT_DONE && journal[3] == last;
    assert CANCELLED[STATUS].words[0] == 'c' as int;
    assert Ascii("failed")[0] == 'f' as int && Ascii("recovery-required")[0] == 'r' as int;
    BlockedStays(journal, command, attempts);
  }

  lemma {:induction false} CancelIsLegal(command: Str, detail: Detail)
    requires SchemaValid(command, detail)
    ensures Disciplined(EFFECT_DONE + [Entry(4, Cancel, command, detail)])
  {
    EffectDone();
    DisciplinedSteps(EFFECT_DONE, Entry(4, Cancel, command, detail));
  }

  /** A cancellation that asks for recovery although its only step never started. */
  lemma {:induction false} NothingToRecoverIsBlocked(command: Str, attempts: seq<Attempt>)
    requires 1 <= |command| <= 128
    ensures var journal := [Entry(1, Intent, STEP_A, map[]), Entry(2, Compensate, STEP_A, NOT_STARTED),
                            Entry(3, Cancel, command, ASKS_RECOVERY)];
            && Disciplined(journal) && NeedsRecovery(journal) && Blocked(journal) && !Stuck(journal)
            && AfterAttempts(journal, command, attempts) == journal
  {
    var journal := [Entry(1, Intent, STEP_A, map[]), Entry(2, Compensate, STEP_A, NOT_STARTED),
                    Entry(3, Cancel, command, ASKS_RECOVERY)];
    var one, two := journal[..1], journal[..2];
    assert one[..0] == [] && two[..1] == one;
    assert Unresolved(one) == [];
    assert |Ascii("not-started")| != |Ascii("unproven")|;
    assert Unresolved(two) == [] && Unresolved(journal) == [];
    forall i | 0 <= i < 3
      ensures LegalAt(journal, i)
    {
      assert SchemaValid(journal[i].step, journal[i].detail);
    }
    BlockedStays(journal, command, attempts);
  }

  /** A second effect may have begun when the process ended after its intent, the first being done:
      its step is traced but never examined, and the journal is committed over it. */
  lemma {:induction false} SecondIntentIsForgotten(command: Str, a: Attempt)
    requires forall step :: a.observe(step) != Ambiguous
    requires a.effects >= 3
    ensures var journal := EFFECT_DONE + [Entry(4, Intent, STEP_B, map[])];
            && Disciplined(journal) && NeedsRecovery(journal) && !Examined(journal, STEP_B)
            && !NeedsRecovery(AfterAttempt(journal, command, a))
  {
    var last := Entry(4, Intent, STEP_B, map[]);
    var journal := EFFECT_DONE + [last];
    EffectDone();
    assert SchemaValid(STEP_B, map[]);
    DisciplinedSteps(EFFECT_DONE, last);
    assert journal[..3] == EFFECT_DONE && journal[3] == last;
    assert Unresolved(journal) == [EFFECT_DONE[1]];
    assert STEP_A[0] == 'a' as int && STEP_B[0] == 'b' as int;
    AttemptCompletes(journal, command, a);
  }

  // ----- what is undone

  /** A boundary journalled as settled although it was observed as an owned mismatch was undone in
      the same attempt, just before. */
  ghost predicate UndoneBefore(actions: seq<Action>, observe: Observe) {
    forall j :: 0 <= j < |actions| ==> UndoneAt(actions, observe, j)
  }

  ghost predicate UndoneAt(actions: seq<Action>, observe: Observe, j: nat)
    requires j < |actions|
  {
    actions[j].Log? && actions[j].phase == Compensate && observe(actions[j].step) == OwnedMismatch ==>
      j > 0 && actions[j - 1] == Undo(actions[j].step)
  }

  lemma {:induction false} UndoneBeforeAppend(a: seq<Action>, b: seq<Action>, observe: Observe)
    requires UndoneBefore(a, observe) && UndoneBefore(b, observe)
    ensures UndoneBefore(a + b, observe)
  {
    forall j | 0 <= j < |a| + |b|
      ensures UndoneAt(a + b, observe, j)
    {
      if j < |a| {
        assert UndoneAt(a, observe, j);
      } else {
        assert UndoneAt(b, observe, j - |a|);
      }
    }
  }

  lemma {:induction false} SettleUndoesFirst(u: seq<Entry>, observe: Observe, n: nat)
    requires n <= |u|
    ensures UndoneBefore(SettleLast(u, observe, n), observe)
  {
    if n > 0 {
      SettleUndoesFirst(u, observe, n - 1);
      UndoneBeforeAppend(SettleLast(u, observe, n - 1),
                         SettleOne(u[|u| - n].step, observe(u[|u| - n].step)), observe);
    }
  }

  lemma {:induction false} PlanUndoesFirst(entries: seq<Entry>, command: Str, observe: Observe)
    ensures UndoneBefore(Plan(entries, command, observe), observe)
  {
    var commit := [CommitAction(command)];
    if entries != [] {
      var u := Unresolved(entries);
      SettleUndoesFirst(u, observe, |u|);
      UndoneBeforeAppend(SettleLast(u, observe, |u|), commit, observe);
      var step := entries[|entries| - 1].step;
      UndoneBeforeAppend(SettleOne(step, observe(step)), commit, observe);
    }
  }

  /** Every entry an attempt added was logged by one of its actions. */
  lemma {:induction false} AddedIsLogged(entries: seq<Entry>, actions: seq<Action>, i: nat) returns (k: nat)
    requires |entries| <= i < |Journalled(entries, actions)|
    ensures k < |actions| && actions[k].Log?
    ensures actions[k].phase == Journalled(entries, actions)[i].phase
    ensures actions[k].step == Journalled(entries, actions)[i].step
  {
    var before := actions[..|actions| - 1];
    if i < |Journalled(entries, before)| {
      k := AddedIsLogged(entries, before, i);
    } else {
      k := |actions| - 1;
    }
  }

  lemma {:induction false} UndoIsUndone(actions: seq<Action>, k: nat)
    requires k < |actions| && actions[k].Undo?
    ensures actions[k].step in Undone(actions)
  {
    if k < |actions| - 1 {
      UndoIsUndone(actions[..|actions| - 1], k);
    }
  }

  /** What was observed as an owned mismatch and journalled as settled has been undone in that
      same attempt. */
  lemma {:induction false} UndoesEveryMismatch(entries: seq<Entry>, command: Str, a: Attempt, i: nat)
    requires |entries| <= i < |AfterAttempt(entries, command, a)|
    requires var e := AfterAttempt(entries, command, a)[i];
             e.phase == Compensate && a.observe(e.step) == OwnedMismatch
    ensures AfterAttempt(entries, command, a)[i].step in Undone(Performed(entries, command, a))
  {
    var done, plan := Performed(entries, command, a), Plan(entries, command, a.observe);
    var k := AddedIsLogged(entries, done, i);
    assert done == plan[..|done|];
    PlanUndoesFirst(entries, command, a.observe);
    assert UndoneAt(plan, a.observe, k);
    UndoIsUndone(done, k - 1);
  }
}
