/** Recovery when the last intent is all that is open, over attempts cut anywhere. */
module IntentRecovery {
  import opened Text
  import opened JournalEntries
  import opened EffectBoundaries
  import opened RecoveryPlan
  import RecoveryRuns

  predicate OnlyIntentOpen(entries: seq<Entry>) {
    entries != [] && entries[|entries| - 1].phase == Intent && Unresolved(entries) == []
  }

  function LastStep(entries: seq<Entry>): Str
    requires entries != []
  {
    entries[|entries| - 1].step
  }

  function Effected(entries: seq<Entry>): seq<Entry>
    requires entries != []
  {
    entries + [Next(entries, Effect, LastStep(entries), EFFECT_RECOVERED)]
  }

  function Verified(entries: seq<Entry>): seq<Entry>
    requires entries != []
  {
    Effected(entries) + [Next(Effected(entries), Verify, LastStep(entries), VERIFY_RECOVERED)]
  }

  function Settled(entries: seq<Entry>, o: Observation): seq<Entry>
    requires entries != []
  {
    entries + [Next(entries, Compensate, LastStep(entries), SettledDetail(o))]
  }

  /** The shapes a journal can take on the way: untouched; the effect, and perhaps its
      verification, recorded and then treated as a boundary or committed; settled, and perhaps
      committed. */
  datatype Shape = Untouched | AsEffect | AsVerified | Recorded | SettledAs(o: Observation, committed: bool)

  ghost predicate HasShape(entries: seq<Entry>, after: seq<Entry>, command: Str, shape: Shape)
    requires entries != []
  {
    match shape
    case Untouched => after == entries
    case AsEffect => ProgressOn(Effected(entries), after, command)
    case AsVerified => ProgressOn(Verified(entries), after, command)
    case Recorded => after == Committed(Verified(entries), command)
    case SettledAs(o, committed) =>
      after == if committed then Committed(Settled(entries, o), command) else Settled(entries, o)
  }

  ghost predicate ProgressOn(base: seq<Entry>, after: seq<Entry>, command: Str) {
    exists n, committed :: Progress(base, after, command, n, committed)
  }

  ghost predicate IntentProgress(entries: seq<Entry>, after: seq<Entry>, command: Str)
    requires entries != []
  {
    exists shape :: HasShape(entries, after, command, shape)
  }

  predicate EndsWithCommit(entries: seq<Entry>) {
    entries != [] && entries[|entries| - 1].phase == Commit
  }

  // ----- the journals on the way

  lemma {:induction false} RecordedIsBoundary(entries: seq<Entry>)
    requires WellNumbered(entries) && OnlyIntentOpen(entries)
    ensures WellNumbered(Effected(entries)) && WellNumbered(Verified(entries))
    ensures Unresolved(Effected(entries)) == Unresolved(Verified(entries))
         == [Next(entries, Effect, LastStep(entries), EFFECT_RECOVERED)]
    ensures !Stuck(Effected(entries)) && !Stuck(Verified(entries))
  {
    assert Effected(entries)[..|entries|] == entries;
    assert Verified(entries)[..|entries| + 1] == Effected(entries);
  }

  lemma {:induction false} SettledIsResolved(entries: seq<Entry>, o: Observation)
    requires OnlyIntentOpen(entries)
    ensures Unresolved(Settled(entries, o)) == []
  {
    assert Settled(entries, o)[..|entries|] == entries;
    SettledIsProven(entries, LastStep(entries), o);
  }

  lemma {:induction false} ProgressStarts(base: seq<Entry>, command: Str)
    requires WellNumbered(base)
    ensures Progress(base, base, command, 0, false)
  {
    SettleHandles(base, Unresolved(base), (_: Str) => Absent, 0);
  }

  lemma {:induction false} ProgressOnDecides(base: seq<Entry>, after: seq<Entry>, command: Str)
    requires WellNumbered(base) && Unresolved(base) != [] && !Stuck(base) && ProgressOn(base, after, command)
    ensures NeedsRecovery(after) <==> !EndsWithCommit(after)
    ensures !Blocked(after)
    ensures forall step :: Examined(after, step) ==> Examined(base, step)
  {
    var n, committed :| Progress(base, after, command, n, committed);
    RecoveryRuns.ProgressDecides(base, after, command, n, committed);
    if !committed {
      RecoveryRuns.MidRecovery(base, after, n);
    }
  }

  lemma {:induction false} ShapeDecides(entries: seq<Entry>, after: seq<Entry>, command: Str, shape: Shape)
    requires WellNumbered(entries) && OnlyIntentOpen(entries) && HasShape(entries, after, command, shape)
    ensures NeedsRecovery(after) <==> !EndsWithCommit(after)
    ensures !Blocked(after)
    ensures forall step :: Examined(after, step) ==> Examined(entries, step)
  {
    RecordedIsBoundary(entries);
    match shape
    case AsEffect => ProgressOnDecides(Effected(entries), after, command);
    case AsVerified => ProgressOnDecides(Verified(entries), after, command);
    case SettledAs(o, _) => SettledIsResolved(entries, o);
    case _ =>
  }

  // ----- one more attempt

  /** The first attempt on an untouched journal. */
  lemma {:induction false} FirstAttempt(entries: seq<Entry>, command: Str, a: Attempt) returns (shape: Shape)
    requires WellNumbered(entries) && OnlyIntentOpen(entries)
    ensures HasShape(entries, AfterAttempt(entries, command, a), command, shape)
    ensures a.observe(LastStep(entries)) != Ambiguous && a.effects >= 3 ==>
              EndsWithCommit(AfterAttempt(entries, command, a))
  {
    var step := LastStep(entries);
    var o := a.observe(step);
    if o == Ambiguous {
      shape := Untouched;
    } else if o == Matching {
      shape := MatchingAttempt(entries, command, a);
    } else {
      shape := SettlingAttempt(entries, command, a);
    }
  }

  lemma {:induction false} MatchingAttempt(entries: seq<Entry>, command: Str, a: Attempt) returns (shape: Shape)
    requires WellNumbered(entries) && OnlyIntentOpen(entries) && a.observe(LastStep(entries)) == Matching
    ensures HasShape(entries, AfterAttempt(entries, command, a), command, shape)
    ensures a.effects >= 3 ==> EndsWithCommit(AfterAttempt(entries, command, a))
  {
    hide Journalled, Unresolved, Progress, WellNumbered;
    var plan := MatchingPlan(entries, command);
    assert Plan(entries, command, a.observe) == plan;
    MatchingCut(entries, command, if a.effects < 3 then a.effects else 3);
    MatchingShape(entries, command);
    shape := if a.effects == 0 then Untouched else if a.effects == 1 then AsEffect
             else if a.effects == 2 then AsVerified else Recorded;
  }

  function MatchingPlan(entries: seq<Entry>, command: Str): (r: seq<Action>)
    requires entries != []
    ensures |r| == 3
  {
    [Log(Effect, LastStep(entries), EFFECT_RECOVERED), Log(Verify, LastStep(entries), VERIFY_RECOVERED),
     CommitAction(command)]
  }

  lemma {:induction false} MatchingShape(entries: seq<Entry>, command: Str)
    requires WellNumbered(entries) && OnlyIntentOpen(entries)
    ensures HasShape(entries, Effected(entries), command, AsEffect)
    ensures HasShape(entries, Verified(entries), command, AsVerified)
  {
    RecordedIsBoundary(entries);
    ProgressStarts(Effected(entries), command);
    ProgressStarts(Verified(entries), command);
  }

  lemma {:induction false} NothingPerformed(entries: seq<Entry>)
    ensures Journalled(entries, []) == entries && Undone([]) == []
  {}

  /** A journal after the first k calls of recording the intent's effect and committing. */
  lemma {:induction false} MatchingCut(entries: seq<Entry>, command: Str, k: nat)
    requires entries != [] && k <= 3
    ensures Journalled(entries, MatchingPlan(entries, command)[..k]) ==
            if k == 0 then entries else if k == 1 then Effected(entries)
            else if k == 2 then Verified(entries) else Committed(Verified(entries), command)
    ensures Undone(MatchingPlan(entries, command)[..k]) == []
  {
    hide Journalled, Undone;
    var plan := MatchingPlan(entries, command);
    if k == 0 {
      assert plan[..0] == [];
      NothingPerformed(entries);
    } else {
      MatchingCut(entries, command, k - 1);
      JournalledLast(entries, plan[..k - 1], plan[k - 1]);
      assert plan[..k] == plan[..k - 1] + [plan[k - 1]];
    }
  }

  lemma {:induction false} SettlingAttempt(entries: seq<Entry>, command: Str, a: Attempt) returns (shape: Shape)
    requires WellNumbered(entries) && OnlyIntentOpen(entries)
    requires a.observe(LastStep(entries)) == Absent || a.observe(LastStep(entries)) == OwnedMismatch
    ensures HasShape(entries, AfterAttempt(entries, command, a), command, shape)
    ensures a.effects >= 3 ==> EndsWithCommit(AfterAttempt(entries, command, a))
  {
    var step := LastStep(entries);
    var o := a.observe(step);
    var plan := SettleOne(step, o) + [CommitAction(command)];
    assert Performed(entries, command, a) == plan[..if a.effects < |plan| then a.effects else |plan|];
    SettlingCut(entries, command, o, if a.effects < |plan| then a.effects else |plan|);
    hide *;
    shape := if a.effects < |plan| - 1 then Untouched else SettledAs(o, a.effects >= |plan|);
    SettlingShape(entries, command, o, a.effects >= |plan| - 1, a.effects >= |plan|);
  }

  lemma {:induction false} SettlingShape(
      entries: seq<Entry>, command: Str, o: Observation, settled: bool, committed: bool)
    requires entries != [] && (committed ==> settled)
    ensures var after := if committed then Committed(Settled(entries, o), command)
                         else if settled then Settled(entries, o) else entries;
            && HasShape(entries, after, command, if settled then SettledAs(o, committed) else Untouched)
            && (committed ==> EndsWithCommit(after))
    ensures |SettleOne(LastStep(entries), o)| <= 2
  {}

  /** A journal after the first k calls of settling the intent and committing. */
  lemma {:induction false} SettlingCut(entries: seq<Entry>, command: Str, o: Observation, k: nat)
    requires entries != [] && k <= |SettleOne(LastStep(entries), o)| + 1
    ensures var acts := SettleOne(LastStep(entries), o);
            Journalled(entries, (acts + [CommitAction(command)])[..k]) ==
            if k < |acts| then entries
            else if k == |acts| then Settled(entries, o)
            else Committed(Settled(entries, o), command)
  {
    var step := LastStep(entries);
    var acts, commit := SettleOne(step, o), CommitAction(command);
    SettleOneJournalled(entries, [], step, o);
    assert [] + acts == acts;
    if k == 0 {
      assert (acts + [commit])[..0] == [];
    } else if k < |acts| {
      JournalledLast(entries, [], Undo(step));
      assert (acts + [commit])[..k] == [] + [Undo(step)];
    } else if k == |acts| {
      assert (acts + [commit])[..k] == acts;
    } else {
      JournalledLast(entries, acts, commit);
      assert (acts + [commit])[..k] == acts + [commit];
    }
  }

  lemma {:induction false} ProgressOnGoesOn(base: seq<Entry>, mid: seq<Entry>, command: Str, a: Attempt)
    requires WellNumbered(base) && |Unresolved(base)| == 1 && !Stuck(base) && ProgressOn(base, mid, command)
    ensures ProgressOn(base, AfterAttempt(mid, command, a), command)
    ensures a.observe(Unresolved(base)[0].step) != Ambiguous && a.effects >= 3 ==>
              EndsWithCommit(AfterAttempt(mid, command, a))
  {
    hide Unresolved, AfterAttempt, Handled, WellNumbered;
    var n, committed :| Progress(base, mid, command, n, committed);
    var n', committed' := RecoveryRuns.ProgressGoesOn(base, mid, command, n, committed, a);
    assert Progress(base, AfterAttempt(mid, command, a), command, n', committed');
  }

  /** Whatever shape the journal has, one more attempt leaves it in one of the shapes. */
  lemma {:induction false} ShapeGoesOn(
      entries: seq<Entry>, mid: seq<Entry>, command: Str, before: Shape, a: Attempt) returns (shape: Shape)
    requires WellNumbered(entries) && OnlyIntentOpen(entries) && HasShape(entries, mid, command, before)
    ensures HasShape(entries, AfterAttempt(mid, command, a), command, shape)
    ensures a.observe(LastStep(entries)) != Ambiguous && a.effects >= 3 ==>
              EndsWithCommit(AfterAttempt(mid, command, a))
  {
    hide Unresolved, AfterAttempt, ProgressOn, Stuck, WellNumbered, Settled, Effected, Verified;
    RecordedIsBoundary(entries);
    shape := before;
    match before
    case Untouched => shape := FirstAttempt(entries, command, a);
    case AsEffect => ProgressOnGoesOn(Effected(entries), mid, command, a);
    case AsVerified => ProgressOnGoesOn(Verified(entries), mid, command, a);
    case Recorded => RecoveryRuns.CommittedStays(mid, command, a);
    case SettledAs(o, committed) =>
      if committed {
        RecoveryRuns.CommittedStays(mid, command, a);
      } else {
        CommitSettled(entries, o, command, a);
        shape := SettledAs(o, a.effects > 0);
      }
  }

  lemma {:induction false} CommitSettled(entries: seq<Entry>, o: Observation, command: Str, a: Attempt)
    requires OnlyIntentOpen(entries)
    ensures AfterAttempt(Settled(entries, o), command, a) ==
            if a.effects > 0 then Committed(Settled(entries, o), command) else Settled(entries, o)
  {
    hide Unresolved, AfterAttempt;
    SettledIsResolved(entries, o);
    RecoveryRuns.OnlyCommitIsLeft(Settled(entries, o), command, a);
  }

  /** Attempts cut anywhere leave the journal in one of the shapes. */
  lemma {:induction false} IntentCrashSafe(entries: seq<Entry>, command: Str, attempts: seq<Attempt>)
    returns (shape: Shape)
    requires WellNumbered(entries) && OnlyIntentOpen(entries)
    ensures HasShape(entries, AfterAttempts(entries, command, attempts), command, shape)
  {
    hide HasShape, AfterAttempt, OnlyIntentOpen, WellNumbered;
    if attempts == [] {
      shape := Untouched;
      StartsUntouched(entries, command);
    } else {
      var before := attempts[..|attempts| - 1];
      var m := IntentCrashSafe(entries, command, before);
      shape := ShapeGoesOn(
        entries, AfterAttempts(entries, command, before), command, m, attempts[|attempts| - 1]);
    }
  }

  lemma {:induction false} StartsUntouched(entries: seq<Entry>, command: Str)
    requires OnlyIntentOpen(entries)
    ensures HasShape(entries, entries, command, Untouched)
  {}
}
