/** What every sequence of recovery attempts, each cut anywhere, does with unresolved boundaries. */
module RecoveryRuns {
  import opened Text
  import opened JournalEntries
  import opened EffectBoundaries
  import opened RecoveryPlan

  /** Once some boundaries are handled, the next attempt goes on with exactly the others. */
  lemma {:induction false} ProgressGoesOn(
      entries: seq<Entry>, mid: seq<Entry>, command: Str, n: nat, committed: bool, a: Attempt)
    returns (n': nat, committed': bool)
    requires WellNumbered(entries) && Unresolved(entries) != [] && !Stuck(entries)
    requires Progress(entries, mid, command, n, committed)
    ensures Progress(entries, AfterAttempt(mid, command, a), command, n', committed')
    ensures n' >= n && (committed ==> committed')
    ensures Clear(Unresolved(entries), a.observe) && a.effects >= 2 * |Unresolved(entries)| + 1 ==> committed'
  {
    hide Unresolved, Stuck, WellNumbered, Handled, AfterAttempt, SettleLast, Clear;
    var u := Unresolved(entries);
    if committed {
      CommittedStays(mid, command, a);
      return n, true;
    }
    MidRecovery(entries, mid, n);
    if n == |u| {
      OnlyCommitIsLeft(mid, command, a);
      CommitFollows(entries, mid, command, n);
      return n, a.effects > 0;
    }
    hide *;
    var more, done := PlanOfUnresolved(mid, command, a);
    ProgressJoins(entries, mid, AfterAttempt(mid, command, a), command, n, more, done);
    n', committed' := n + more, done;
    SettleLength(u[..|u| - n], a.observe, |u| - n);
    ClearRest(u, n, a.observe);
  }

  lemma {:induction false} ClearRest(u: seq<Entry>, n: nat, observe: Observe)
    requires n <= |u|
    ensures Clear(u, observe) ==> Clear(u[..|u| - n], observe)
  {}

  lemma {:induction false} CommitFollows(entries: seq<Entry>, mid: seq<Entry>, command: Str, n: nat)
    requires Progress(entries, mid, command, n, false) && n == |Unresolved(entries)|
    ensures Progress(entries, mid + [Next(mid, Commit, command, RECOVERED)], command, n, true)
  {
    assert (mid + [Next(mid, Commit, command, RECOVERED)])[..|mid|] == mid;
  }

  lemma {:induction false} ProgressJoins(
      entries: seq<Entry>, mid: seq<Entry>, after: seq<Entry>, command: Str, n: nat, more: nat, done: bool)
    requires Progress(entries, mid, command, n, false)
    requires Unresolved(mid) == Unresolved(entries)[..|Unresolved(entries)| - n]
    requires Progress(mid, after, command, more, done)
    ensures Progress(entries, after, command, n + more, done)
  {
    hide Handled, Unresolved;
    HandledInTwoGoes(entries, mid, if done then after[..|after| - 1] else after, Unresolved(entries), n, more);
  }

  lemma {:induction false} CommittedStays(entries: seq<Entry>, command: Str, a: Attempt)
    requires entries != [] && entries[|entries| - 1].phase == Commit
    ensures AfterAttempt(entries, command, a) == entries
  {}

  lemma {:induction false} MidRecovery(entries: seq<Entry>, mid: seq<Entry>, n: nat)
    requires WellNumbered(entries) && Unresolved(entries) != [] && !Stuck(entries)
    requires Handled(entries, mid, Unresolved(entries), n)
    ensures n <= |Unresolved(entries)| && WellNumbered(mid) && mid != [] && !Stuck(mid)
    ensures Unresolved(mid) == Unresolved(entries)[..|Unresolved(entries)| - n]
    ensures n > 0 ==> mid[|mid| - 1].phase == Compensate
  {
    HandledIsResolved(entries, mid, n);
    if n > 0 {
      HandledOneLess(entries, mid, Unresolved(entries), n);
    } else {
      assert mid == entries;
    }
  }

  lemma {:induction false} SettleLength(u: seq<Entry>, observe: Observe, n: nat)
    requires n <= |u|
    ensures |SettleLast(u, observe, n)| <= 2 * n
  {
    if n > 0 {
      SettleLength(u, observe, n - 1);
    }
  }

  lemma {:induction false} OnlyCommitIsLeft(entries: seq<Entry>, command: Str, a: Attempt)
    requires entries != [] && Unresolved(entries) == []
    requires entries[|entries| - 1].phase == Verify || entries[|entries| - 1].phase == Compensate
    ensures AfterAttempt(entries, command, a) == if a.effects > 0 then Committed(entries, command) else entries
  {
    JournalledLast(entries, [], CommitAction(command));
    assert [CommitAction(command)][..0] == [];
    assert [] + [CommitAction(command)] == [CommitAction(command)];
  }

  /** However often recovery is cut and restarted, and whatever each attempt observes, the journal
      gains one proven compensation for each boundary it still had, the latest boundary first,
      and then at most one commit. */
  lemma {:induction false} BoundariesCrashSafe(entries: seq<Entry>, command: Str, attempts: seq<Attempt>)
    returns (n: nat, committed: bool)
    requires WellNumbered(entries) && Unresolved(entries) != [] && !Stuck(entries)
    ensures Progress(entries, AfterAttempts(entries, command, attempts), command, n, committed)
    ensures var u, after := Unresolved(entries), AfterAttempts(entries, command, attempts);
            if committed then !NeedsRecovery(after) && Unresolved(after) == []
            else NeedsRecovery(after) && Unresolved(after) == u[..|u| - n]
  {
    if attempts == [] {
      SettleHandles(entries, Unresolved(entries), (_: Str) => Absent, 0);
      n, committed := 0, false;
    } else {
      var before := attempts[..|attempts| - 1];
      var m, c := BoundariesCrashSafe(entries, command, before);
      n, committed := ProgressGoesOn(
        entries, AfterAttempts(entries, command, before), command, m, c, attempts[|attempts| - 1]);
    }
    ProgressDecides(entries, AfterAttempts(entries, command, attempts), command, n, committed);
  }

  lemma {:induction false} ProgressDecides(
      entries: seq<Entry>, after: seq<Entry>, command: Str, n: nat, committed: bool)
    requires WellNumbered(entries) && Unresolved(entries) != [] && !Stuck(entries)
    requires Progress(entries, after, command, n, committed)
    ensures var u := Unresolved(entries);
            if committed then !NeedsRecovery(after) && Unresolved(after) == []
            else NeedsRecovery(after) && Unresolved(after) == u[..|u| - n]
  {
    if !committed {
      HandledIsResolved(entries, after, n);
      if n > 0 {
        HandledOneLess(entries, after, Unresolved(entries), n);
      } else {
        assert after == entries;
      }
    }
  }

  /** One attempt that can tell every boundary apart and runs to its end finishes the recovery. */
  lemma {:induction false} BoundariesComplete(entries: seq<Entry>, command: Str, a: Attempt)
    requires WellNumbered(entries) && Unresolved(entries) != [] && !Stuck(entries)
    requires Clear(Unresolved(entries), a.observe)
    requires a.effects >= 2 * |Unresolved(entries)| + 1
    ensures !NeedsRecovery(AfterAttempt(entries, command, a))
  {
    SettleHandles(entries, Unresolved(entries), (_: Str) => Absent, 0);
    var n, committed := ProgressGoesOn(entries, entries, command, 0, false, a);
    ProgressDecides(entries, AfterAttempt(entries, command, a), command, n, committed);
  }

  lemma {:induction false} StuckStays(entries: seq<Entry>, command: Str, a: Attempt)
    requires Stuck(entries)
    ensures AfterAttempt(entries, command, a) == entries
  {
    var plan := Plan(entries, command, a.observe);
    if Performed(entries, command, a) != [] {
      var undo := plan[0];
      JournalledLast(entries, [], undo);
      assert [] + [undo] == [undo] == plan[..1];
    }
  }

  /** An attempt undoes only what it observed to be an owned mismatch, at a boundary or, when
      there is none, at the last intent. */
  lemma {:induction false} UndoesOnlyMismatches(entries: seq<Entry>, command: Str, a: Attempt, step: Str)
    requires step in Undone(Performed(entries, command, a))
    ensures a.observe(step) == OwnedMismatch && Examined(entries, step)
  {
    var plan := Plan(entries, command, a.observe);
    var done := Performed(entries, command, a);
    assert done == plan[..|done|];
    UndoneIsUndo(done, step);
    assert Undo(step) in plan;
    var u := Unresolved(entries);
    if u != [] {
      assert Undo(step) in SettleLast(u, a.observe, |u|);
      SettleUndoes(u, a.observe, |u|, step);
    }
  }

  lemma {:induction false} UndoneIsUndo(actions: seq<Action>, step: Str)
    requires step in Undone(actions)
    ensures Undo(step) in actions
  {
    var before := actions[..|actions| - 1];
    if step in Undone(before) {
      UndoneIsUndo(before, step);
    }
  }

  lemma {:induction false} SettleUndoes(u: seq<Entry>, observe: Observe, n: nat, step: Str)
    requires n <= |u| && Undo(step) in SettleLast(u, observe, n)
    ensures observe(step) == OwnedMismatch && exists e :: e in u && e.step == step
  {
    if n > 0 {
      if Undo(step) in SettleLast(u, observe, n - 1) {
        SettleUndoes(u, observe, n - 1, step);
      } else {
        assert Undo(step) in SettleOne(u[|u| - n].step, observe(u[|u| - n].step));
        assert u[|u| - n] in u;
      }
    }
  }

  // ----- the verdict

  /** An attempt that runs to its end reports recovery-required exactly when the journal it
      leaves still needs recovery. */
  lemma {:induction false} VerdictExact(entries: seq<Entry>, command: Str, a: Attempt)
    requires WellNumbered(entries)
    requires Performed(entries, command, a) == Plan(entries, command, a.observe)
    ensures Verdict(entries, a.observe).disposition == RecoveryRequired
       <==> NeedsRecovery(AfterAttempt(entries, command, a))
  {
    hide Performed, Journalled, SettleLast;
    var plan := Plan(entries, command, a.observe);
    if plan == [] {
      NothingLogged(entries);
    } else {
      PlanCommits(entries, command, a.observe);
      CommitEndsRecovery(entries, plan, command);
    }
  }

  /** The latest step that a recovery looks at. */
  function LatestExamined(entries: seq<Entry>): Str
    requires entries != []
  {
    var u := Unresolved(entries);
    if u != [] then u[|u| - 1].step else entries[|entries| - 1].step
  }

  /** What is reported when every step looked at can be told apart: a safe retry exactly when none of
      them had taken effect, and that the journal was changed. */
  lemma {:induction false} ReportsRecovered(entries: seq<Entry>, observe: Observe, step: Str)
    requires entries != [] && entries[|entries| - 1].phase != Commit && Examined(entries, step)
    requires forall s :: Examined(entries, s) ==> observe(s) != Ambiguous
    ensures var v := Verdict(entries, observe);
            && v.changed && v.boundary == Some(LatestExamined(entries))
            && (v.disposition == SafeRetry <==> forall s :: Examined(entries, s) ==> observe(s) == Absent)
            && (v.disposition == Resume <==> exists s :: Examined(entries, s) && observe(s) != Absent)
  {
    var u := Unresolved(entries);
    hide Unresolved;
    if u != [] {
      forall e | e in u
        ensures Examined(entries, e.step)
      {}
    } else {
      assert Examined(entries, entries[|entries| - 1].step);
    }
  }

  /** What is reported when one of them cannot: recovery is required, and the latest such step. */
  lemma {:induction false} ReportsAmbiguous(entries: seq<Entry>, observe: Observe, step: Str)
    requires entries != [] && entries[|entries| - 1].phase != Commit
    requires Examined(entries, step) && observe(step) == Ambiguous
    ensures var v := Verdict(entries, observe);
            && v.disposition == RecoveryRequired && !v.changed
            && v.boundary.Some? && Examined(entries, v.boundary.value) && observe(v.boundary.value) == Ambiguous
            && IsLatestAmbiguous(Unresolved(entries), observe, v.boundary.value)
  {
    var u := Unresolved(entries);
    hide Unresolved;
    if u != [] {
      var e :| e in u && e.step == step;
      LatestIsAmbiguous(u, observe, e);
    }
  }

  /** No later boundary is ambiguous. */
  predicate IsLatestAmbiguous(u: seq<Entry>, observe: Observe, step: Str) {
    u != [] ==>
      exists k :: 0 <= k < |u| && u[k].step == step && forall j :: k < j < |u| ==> observe(u[j].step) != Ambiguous
  }

  lemma {:induction false} LatestIsAmbiguous(u: seq<Entry>, observe: Observe, e: Entry)
    requires e in u && observe(e.step) == Ambiguous
    ensures LatestAmbiguous(u, observe).Some?
    ensures var step := LatestAmbiguous(u, observe).value;
            && observe(step) == Ambiguous && IsLatestAmbiguous(u, observe, step)
            && exists k :: 0 <= k < |u| && u[k].step == step
  {
    var n := |u| - 1;
    if observe(u[n].step) == Ambiguous {
      assert u[n].step == LatestAmbiguous(u, observe).value;
    } else {
      assert e in u[..n];
      LatestIsAmbiguous(u[..n], observe, e);
      var step := LatestAmbiguous(u[..n], observe).value;
      var k :| 0 <= k < |u[..n]| && u[..n][k].step == step
               && forall j :: k < j < |u[..n]| ==> observe(u[..n][j].step) != Ambiguous;
      assert u[k].step == step && forall j :: k < j < |u| ==> observe(u[j].step) != Ambiguous by {
        assert forall j :: k < j < n ==> u[..n][j] == u[j];
      }
    }
  }

  /** What is reported when there is nothing to look at, by the last line of the journal. */
  lemma {:induction false} ReportsUnexamined(entries: seq<Entry>, observe: Observe)
    requires entries == [] || entries[|entries| - 1].phase == Commit || forall s :: !Examined(entries, s)
    ensures var v := Verdict(entries, observe);
            && !v.changed
            && if entries == [] then v.disposition == SafeRetry && v.boundary == None
               else
                 var last := entries[|entries| - 1];
                 match last.phase
                 case Commit => v.disposition == Complete && v.boundary == Some(last.step)
                 case Cancel =>
                   && v.boundary == Some(last.step)
                   && v.disposition ==
                      if Says(last.detail, STATUS, "recovery-required") then RecoveryRequired else SafeRetry
                 case Verify => v.disposition == Resume && v.boundary == Some(last.step)
                 case Compensate => v.disposition == Resume && v.boundary == Some(last.step)
                 case _ => v.disposition == SafeRetry && v.boundary == None
  {
    if entries != [] && entries[|entries| - 1].phase != Commit {
      var u := Unresolved(entries);
      assert u != [] ==> Examined(entries, u[0].step);
      assert !Examined(entries, entries[|entries| - 1].step);
    }
  }

  lemma {:induction false} NothingLogged(entries: seq<Entry>)
    ensures Journalled(entries, []) == entries
  {}

  /** A plan that does anything ends with the commit. */
  lemma {:induction false} PlanCommits(entries: seq<Entry>, command: Str, observe: Observe)
    requires Plan(entries, command, observe) != []
    ensures var plan := Plan(entries, command, observe); plan[|plan| - 1] == CommitAction(command)
    ensures Verdict(entries, observe).disposition != RecoveryRequired
  {
    hide SettleLast, SettleOne, Unresolved;
  }

  lemma {:induction false} CommitEndsRecovery(entries: seq<Entry>, plan: seq<Action>, command: Str)
    requires plan != [] && plan[|plan| - 1] == CommitAction(command)
    ensures !NeedsRecovery(Journalled(entries, plan))
  {
    hide Unresolved;
    JournalledLast(entries, plan[..|plan| - 1], CommitAction(command));
    assert plan[..|plan| - 1] + [CommitAction(command)] == plan;
  }

  // ----- the last intent

  function Override(observe: Observe, step: Str, o: Observation): Observe {
    (s: Str) => if s == step then o else observe(s)
  }

  /** A dangling intent is looked at exactly when nothing else is unresolved: otherwise what its
      step really looks like changes nothing, and the journal is committed over it. */
  lemma {:induction false} DanglingIntent(
      entries: seq<Entry>, command: Str, observe: Observe, o: Observation)
    requires WellNumbered(entries) && entries != [] && entries[|entries| - 1].phase == Intent
    requires forall e :: e in Unresolved(entries) ==> e.step != entries[|entries| - 1].step
    ensures var step := entries[|entries| - 1].step;
            var other := Override(observe, step, o);
            if Unresolved(entries) == [] then
              Verdict(entries, other).disposition == RecoveryRequired <==> o == Ambiguous
            else
              && Plan(entries, command, other) == Plan(entries, command, observe)
              && Verdict(entries, other) == Verdict(entries, observe)
  {
    var u := Unresolved(entries);
    var other := Override(observe, entries[|entries| - 1].step, o);
    SameSettle(u, observe, other, |u|);
    SameLatest(u, observe, other);
  }

  lemma {:induction false} SameSettle(u: seq<Entry>, observe: Observe, other: Observe, n: nat)
    requires n <= |u| && forall e :: e in u ==> observe(e.step) == other(e.step)
    ensures SettleLast(u, observe, n) == SettleLast(u, other, n)
  {
    if n > 0 {
      SameSettle(u, observe, other, n - 1);
      assert u[|u| - n] in u;
    }
  }

  lemma {:induction false} SameLatest(u: seq<Entry>, observe: Observe, other: Observe)
    requires forall e :: e in u ==> observe(e.step) == other(e.step)
    ensures LatestAmbiguous(u, observe) == LatestAmbiguous(u, other)
  {
    if u != [] {
      assert u[|u| - 1] in u;
      SameLatest(u[..|u| - 1], observe, other);
    }
  }
}
