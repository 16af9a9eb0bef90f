/** The journal object: one guarded writer, and the protocol of a journalled effect. */
module OperationJournal {
  import opened Text
  import opened JournalEntries
  import opened EffectBoundaries

  /** How the action of a journalled effect ended; NotStarted is what its caller vouches for. */
  datatype ActionOutcome = Returned | NotStarted | MayHaveBegun

  /** Which of the four lines of a journalled effect the file system would take. */
  datatype Disk = Disk(intent: bool, effect: bool, verify: bool, compensation: bool)

  datatype EffectResult = Done | NotBegun | Unknown

  /** The journal shows that the step may have begun: it has a boundary or is the last intent. */
  ghost predicate Traced(entries: seq<Entry>, step: Str) {
    || HasBoundary(entries, step)
    || (entries != [] && entries[|entries| - 1].phase == Intent && entries[|entries| - 1].step == step)
  }

  const RECORDED := map[COMPLETION := Words(Ascii("recorded"))]

  function Outcome(completion: string, recoveryRequired: bool): Detail {
    map[COMPLETION := Words(Ascii(completion)), Ascii("recoveryRequired") := Flag(recoveryRequired)]
  }

  /** The lines of a journal whose action was begun: after an effect that returned, those the file
      system took up to its verification; else, or when one of these failed, a compensation that says
      whether the effect was not started or is unproven. */
  function EffectLines(
      intended: seq<Entry>, step: Str, outcome: ActionOutcome, verification: Detail, disk: Disk): seq<Entry>
  {
    if outcome == NotStarted then
      intended + Line(intended, disk.compensation, Compensate, step,
                      map[COMPLETION := Words(Ascii("not-started")), Ascii("recoveryRequired") := Flag(false)])
    else
      var effected := intended + Line(intended, outcome == Returned && disk.effect, Effect, step,
                                      map[COMPLETION := Words(Ascii("recorded"))]);
      if outcome == Returned && disk.effect && disk.verify && SchemaValid(step, verification) then
        effected + Line(effected, true, Verify, step, verification)
      else
        effected + Line(effected, disk.compensation, Compensate, step,
                        map[COMPLETION := Words(Ascii("unproven")), Ascii("recoveryRequired") := Flag(true)])
  }

  function Line(entries: seq<Entry>, written: bool, phase: Phase, step: Str, detail: Detail): seq<Entry> {
    if written then [Next(entries, phase, step, detail)] else []
  }

  /** The same, case by case, with the details that the protocol writes. */
  lemma {:induction false} LinesOf(
      intended: seq<Entry>, step: Str, outcome: ActionOutcome, verification: Detail, disk: Disk)
    ensures var lines := EffectLines(intended, step, outcome, verification, disk);
            if outcome == NotStarted then
              lines == Closed(intended, step, Outcome("not-started", false), disk.compensation)
            else if outcome == MayHaveBegun || !disk.effect then
              lines == Closed(intended, step, Outcome("unproven", true), disk.compensation)
            else
              var effected := intended + [Next(intended, Effect, step, RECORDED)];
              if disk.verify && SchemaValid(step, verification) then
                lines == effected + [Next(effected, Verify, step, verification)]
              else
                lines == Closed(effected, step, Outcome("unproven", true), disk.compensation)
  {
    hide SchemaValid;
    assert intended + [] == intended;
  }

  /** A journal closed by a compensation, if the file system takes it. */
  function Closed(entries: seq<Entry>, step: Str, detail: Detail, written: bool): seq<Entry> {
    if written then entries + [Next(entries, Compensate, step, detail)] else entries
  }

  /** After an intent its effect and a compensation are legal, and after the effect its verification and
      a compensation. */
  lemma {:induction false} GoesOn(entries: seq<Entry>, phase: Phase, detail: Detail)
    requires entries != [] && SchemaValid(entries[|entries| - 1].step, detail)
    requires || (entries[|entries| - 1].phase == Intent && (phase == Effect || phase == Compensate))
             || (entries[|entries| - 1].phase == Effect && (phase == Verify || phase == Compensate))
    ensures LegalAt(entries + [Next(entries, phase, entries[|entries| - 1].step, detail)], |entries|)
  {}

  lemma {:induction false} DetailsAreValid(step: Str)
    requires 1 <= |step| <= 128
    ensures SchemaValid(step, RECORDED) && SchemaValid(step, Outcome("not-started", false))
    ensures SchemaValid(step, Outcome("unproven", true))
    ensures RECORDED == map[COMPLETION := Words(Ascii("recorded"))]
  {}

  lemma {:induction false} LegalIsValid(entries: seq<Entry>, i: nat)
    requires i < |entries| && LegalAt(entries, i)
    ensures 1 <= |entries[i].step| <= 128 && SchemaValid(entries[i].step, entries[i].detail)
  {}

  class OperationJournal {
    const command: Str
    var entries: seq<Entry>

    ghost predicate Valid()
      reads this
    {
      1 <= |command| <= 128 && Readable(entries)
    }

    constructor (command: Str)
      requires 1 <= |command| <= 128
      ensures Valid() && this.command == command && entries == [] && Disciplined(entries)
    {
      this.command, entries := command, [];
    }

    /** Appends exactly the entries that are legal next; written says whether the file system
        takes the line. */
    method Append(phase: Phase, step: Str, detail: Detail, written: bool)
      returns (r: Result<Entry, JournalError>)
      requires Valid()
      modifies `entries
      ensures var e := Next(old(entries), phase, step, detail);
              && (r.Success? <==> written && LegalAt(old(entries) + [e], |old(entries)|))
              && (r.Success? ==> r.value == e && entries == old(entries) + [e])
              && (r.Failure? ==> entries == old(entries))
      ensures Valid() && (old(Disciplined(entries)) ==> Disciplined(entries))
    {
      var n := |entries|;
      var entry := Next(entries, phase, step, detail);
      DisciplinedSteps(entries, entry);
      assert (entries + [entry])[..n] == entries;
      VerifiedInPrefix(entries + [entry], n, n);
      var resuming := n > 0 && Resumable(entries[n - 1]) && phase == Compensate;
      if n > 0 && (entries[n - 1].phase == Commit || (entries[n - 1].phase == Cancel && !resuming)) {
        return Failure(AlreadyTerminal);
      }
      if phase == Effect && (n == 0 || entries[n - 1].phase != Intent || entries[n - 1].step != step) {
        return Failure(EffectWithoutIntent);
      }
      if phase == Verify && (n == 0 || entries[n - 1].phase != Effect || entries[n - 1].step != step) {
        return Failure(VerifyWithoutEffect);
      }
      var recovered := phase == Commit && Says(detail, STATUS, "recovered") && n > 0 && Proven(entries[n - 1]);
      var verified := AnyVerify();
      if phase == Commit && !recovered && !verified {
        return Failure(NotVerified);
      }
      if phase == Commit && Says(detail, STATUS, "success") && (n == 0 || entries[n - 1].phase != Verify) {
        return Failure(SuccessNotFinal);
      }
      if !SchemaValid(step, detail) {
        return Failure(InvalidEntry);
      }
      if !written {
        return Failure(NotWritten);
      }
      entries := entries + [entry];
      return Success(entry);
    }

    method AnyVerify() returns (found: bool)
      ensures found <==> VerifiedBefore(entries, |entries|)
    {
      found := false;
      for i := 0 to |entries|
        invariant found <==> VerifiedBefore(entries, i)
      {
        found := found || entries[i].phase == Verify;
      }
    }

    /** Journals an effect around its action. Whatever fails, the journal shows an action that may
        have begun. Recovery then examines its step, with one exception: nothing after the intent
        could be written, and some other boundary was unresolved before. */
    method RunEffect(step: Str, intent: Detail, aborted: bool, outcome: ActionOutcome,
                     verification: Detail, disk: Disk)
      returns (r: EffectResult, begun: bool)
      requires Valid()
      modifies `entries
      ensures Valid() && old(entries) <= entries
      ensures old(Disciplined(entries)) ==> Disciplined(entries)
      ensures begun && outcome != NotStarted ==> Traced(entries, step)
      ensures begun && outcome != NotStarted ==>
                (Examined(entries, step) <==>
                   || |entries| > |old(entries)| + 1
                   || Unresolved(old(entries)) == []
                   || HasBoundary(old(entries), step))
      ensures var intended := old(entries) + [Next(old(entries), Intent, step, intent)];
              && (begun <==> !aborted && disk.intent && LegalAt(intended, |old(entries)|))
              && (!begun ==> r == NotBegun && (entries == old(entries) || entries == intended))
              && (begun ==>
                    && entries == EffectLines(intended, step, outcome, verification, disk)
                    && (r == Done <==>
                          outcome == Returned && disk.effect && disk.verify && SchemaValid(step, verification))
                    && (r == NotBegun <==> outcome == NotStarted))
      ensures r == Done ==>
                && begun && outcome == Returned && |entries| == |old(entries)| + 3
                && entries[|old(entries)|] == Next(old(entries), Intent, step, intent)
                && entries[|entries| - 2].phase == Effect && entries[|entries| - 2].step == step
                && entries[|entries| - 1].phase == Verify && entries[|entries| - 1].step == step
                && entries[|entries| - 1].detail == verification
    {
      hide EffectLines, SchemaValid, LegalAt, Disciplined, Unresolved, WellNumbered, Readable, Examined, Traced,
        HasBoundary, Outcome;
      var intended := Append(Intent, step, intent, disk.intent);
      if intended.Failure? || aborted {
        return NotBegun, false;
      }
      begun := true;
      LegalIsValid(entries, |entries| - 1);
      DetailsAreValid(step);
      GoesOn(entries, Effect, RECORDED);
      LinesOf(entries, step, outcome, verification, disk);
      if outcome != NotStarted {
        LinesExamined(old(entries), step, intent, outcome, verification, disk);
      }
      if outcome == Returned {
        var effect := Append(Effect, step, RECORDED, disk.effect);
        if effect.Success? {
          VerifyGoesOn(entries, verification);
          var verify := Append(Verify, step, verification, disk.verify);
          if verify.Success? {
            return Done, true;
          }
        }
      }
      if outcome == NotStarted {
        GoesOn(entries, Compensate, Outcome("not-started", false));
        var _ := Append(Compensate, step, Outcome("not-started", false), disk.compensation);
        return NotBegun, true;
      }
      GoesOn(entries, Compensate, Outcome("unproven", true));
      var _ := Append(Compensate, step, Outcome("unproven", true), disk.compensation);
      return Unknown, true;
    }
  }

  /** Whatever lines a begun action left, the step is traced, and recovery looks at it but in one case. */
  lemma {:induction false} LinesExamined(
      entries: seq<Entry>, step: Str, intent: Detail, outcome: ActionOutcome, verification: Detail, disk: Disk)
    requires outcome != NotStarted
    ensures var intended := entries + [Next(entries, Intent, step, intent)];
            var lines := EffectLines(intended, step, outcome, verification, disk);
            && Traced(lines, step)
            && (Examined(lines, step) <==>
                  |lines| > |entries| + 1 || Unresolved(entries) == [] || HasBoundary(entries, step))
  {
    hide SchemaValid, Unresolved, Examined, Traced, HasBoundary, EffectLines, Outcome;
    var intended := entries + [Next(entries, Intent, step, intent)];
    IntentOpensNothing(entries, Next(entries, Intent, step, intent));
    LinesOf(intended, step, outcome, verification, disk);
    var lines := EffectLines(intended, step, outcome, verification, disk);
    var effected := if outcome == Returned && disk.effect
                    then intended + [Next(intended, Effect, step, RECORDED)] else intended;
    if outcome == Returned && disk.effect {
      LastIsBoundary(intended, Next(intended, Effect, step, RECORDED));
      BoundaryIsExamined(effected, step);
    }
    if outcome == Returned && disk.effect && disk.verify && SchemaValid(step, verification) {
      BoundaryStays(effected, Next(effected, Verify, step, verification), step);
      BoundaryIsExamined(lines, step);
    } else if disk.compensation {
      UnprovenIsBoundary(effected, step);
      LastIsBoundary(effected, Next(effected, Compensate, step, Outcome("unproven", true)));
      BoundaryIsExamined(lines, step);
    }
  }

  lemma {:induction false} UnprovenIsBoundary(entries: seq<Entry>, step: Str)
    ensures IsBoundary(Next(entries, Compensate, step, Outcome("unproven", true)))
  {}

  lemma {:induction false} VerifyGoesOn(entries: seq<Entry>, verification: Detail)
    requires entries != [] && entries[|entries| - 1].phase == Effect
    ensures LegalAt(entries + [Next(entries, Verify, entries[|entries| - 1].step, verification)], |entries|)
       <==> SchemaValid(entries[|entries| - 1].step, verification)
  {}

  ghost predicate HasBoundary(entries: seq<Entry>, step: Str) {
    exists e :: e in Unresolved(entries) && e.step == step
  }

  lemma {:induction false} LastIsBoundary(entries: seq<Entry>, e: Entry)
    requires IsBoundary(e)
    ensures HasBoundary(entries + [e], e.step)
  {
    var all := entries + [e];
    assert all[..|entries|] == entries && all[|entries|] == e;
    assert e in Unresolved(all);
  }

  lemma {:induction false} BoundaryStays(entries: seq<Entry>, e: Entry, step: Str)
    requires e.phase == Verify && HasBoundary(entries, step)
    ensures HasBoundary(entries + [e], step)
  {
    var all := entries + [e];
    assert all[..|entries|] == entries && all[|entries|] == e;
    assert Unresolved(all) == Unresolved(entries);
  }

  lemma {:induction false} BoundaryIsExamined(entries: seq<Entry>, step: Str)
    requires HasBoundary(entries, step)
    ensures Traced(entries, step) && Examined(entries, step)
  {}

  lemma {:induction false} IntentOpensNothing(entries: seq<Entry>, e: Entry)
    requires e.phase == Intent
    ensures Traced(entries + [e], e.step)
    ensures Examined(entries + [e], e.step) <==> Unresolved(entries) == [] || HasBoundary(entries, e.step)
  {
    var all := entries + [e];
    assert all[..|entries|] == entries && all[|entries|] == e;
    assert Unresolved(all) == Unresolved(entries);
  }
}
