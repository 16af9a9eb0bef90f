/** The entries of an operation journal, and which sequences of them are legal. */
module JournalEntries {
  import opened Text

  datatype Phase = Intent | Effect | Verify | Compensate | Commit | Cancel

  datatype Scalar = Words(words: Str) | Number(number: real) | Flag(flag: bool) | Null

  type Detail = map<Str, Scalar>

  datatype Entry = Entry(sequence: int, phase: Phase, step: Str, detail: Detail)

  datatype JournalError =
    | AlreadyTerminal | EffectWithoutIntent | VerifyWithoutEffect | NotVerified
    | SuccessNotFinal | InvalidEntry | NotWritten

  const COMPLETION := Ascii("completion")
  const STATUS := Ascii("status")

  predicate Says(detail: Detail, key: Str, text: string) {
    key in detail && detail[key] == Words(Ascii(text))
  }

  predicate Unproven(e: Entry) {
    e.phase == Compensate && Says(e.detail, COMPLETION, "unproven")
  }

  predicate Proven(e: Entry) {
    e.phase == Compensate && !Says(e.detail, COMPLETION, "unproven")
  }

  /** A cancellation that compensations may still follow. */
  predicate Resumable(e: Entry) {
    e.phase == Cancel && (Says(e.detail, STATUS, "failed") || Says(e.detail, STATUS, "recovery-required"))
  }

  predicate SchemaValid(step: Str, detail: Detail) {
    1 <= |step| <= 128 && forall k :: k in detail && detail[k].Words? ==> |detail[k].words| <= 256
  }

  /** Entries are numbered from one, as both the reader and the writer see to. */
  ghost predicate WellNumbered(entries: seq<Entry>) {
    forall i :: 0 <= i < |entries| ==> entries[i].sequence == i + 1
  }

  /** What reading a journal back checks of its lines. */
  ghost predicate Readable(entries: seq<Entry>) {
    WellNumbered(entries) && forall e :: e in entries ==> SchemaValid(e.step, e.detail)
  }

  function Next(entries: seq<Entry>, phase: Phase, step: Str, detail: Detail): Entry {
    Entry(|entries| + 1, phase, step, detail)
  }

  // ----- what a journal may look like

  ghost predicate VerifiedBefore(entries: seq<Entry>, i: nat)
    requires i <= |entries|
  {
    exists j :: 0 <= j < i && entries[j].phase == Verify
  }

  ghost predicate Follows(entries: seq<Entry>, i: nat, phase: Phase)
    requires i < |entries|
  {
    i > 0 && entries[i - 1].phase == phase && entries[i - 1].step == entries[i].step
  }

  /** Entry i is legal after the entries before it. */
  ghost predicate LegalAt(entries: seq<Entry>, i: nat)
    requires i < |entries|
  {
    var e := entries[i];
    && SchemaValid(e.step, e.detail)
    && (i > 0 ==> entries[i - 1].phase != Commit)
    && (i > 0 && entries[i - 1].phase == Cancel ==> Resumable(entries[i - 1]) && e.phase == Compensate)
    && (e.phase == Effect ==> Follows(entries, i, Intent))
    && (e.phase == Verify ==> Follows(entries, i, Effect))
    && (e.phase == Commit ==>
          || VerifiedBefore(entries, i)
          || (Says(e.detail, STATUS, "recovered") && i > 0 && Proven(entries[i - 1])))
    && (e.phase == Commit && Says(e.detail, STATUS, "success") ==> i > 0 && entries[i - 1].phase == Verify)
  }

  ghost predicate Disciplined(entries: seq<Entry>) {
    WellNumbered(entries) && forall i :: 0 <= i < |entries| ==> LegalAt(entries, i)
  }

  /** Whether an entry is legal depends on nothing after it. */
  lemma {:induction false} LegalInPrefix(entries: seq<Entry>, n: nat, i: nat)
    requires i < n <= |entries|
    ensures LegalAt(entries[..n], i) <==> LegalAt(entries, i)
  {
    VerifiedInPrefix(entries, n, i);
  }

  lemma {:induction false} VerifiedInPrefix(entries: seq<Entry>, n: nat, i: nat)
    requires i <= n <= |entries|
    ensures VerifiedBefore(entries[..n], i) <==> VerifiedBefore(entries, i)
  {
    if VerifiedBefore(entries, i) {
      var j :| 0 <= j < i && entries[j].phase == Verify;
      assert entries[..n][j].phase == Verify;
    }
  }

  lemma {:induction false} DisciplinedSteps(entries: seq<Entry>, e: Entry)
    ensures Disciplined(entries + [e])
       <==> (&& Disciplined(entries) && e.sequence == |entries| + 1
             && LegalAt(entries + [e], |entries|))
  {
    var all := entries + [e];
    assert all[..|entries|] == entries;
    forall i | 0 <= i < |entries|
      ensures LegalAt(entries, i) <==> LegalAt(all, i)
    {
      LegalInPrefix(all, |entries|, i);
    }
    assert forall i :: 0 <= i < |entries| ==> all[i] == entries[i];
    assert all[|entries|] == e;
  }

  /** A journal reports success only right after one step was intended, took effect and was verified. */
  lemma {:induction false} SuccessFollowsVerifiedEffect(entries: seq<Entry>)
    requires Disciplined(entries) && entries != []
    requires var last := entries[|entries| - 1];
             last.phase == Commit && Says(last.detail, STATUS, "success")
    ensures |entries| >= 4
    ensures var n := |entries|;
            && entries[n - 4].phase == Intent && entries[n - 3].phase == Effect
            && entries[n - 2].phase == Verify
            && entries[n - 4].step == entries[n - 3].step == entries[n - 2].step
  {
    var n := |entries|;
    assert LegalAt(entries, n - 1);
    assert LegalAt(entries, n - 2);
    assert LegalAt(entries, n - 3);
  }

  /** Only the last entry of a journal can be a commit. */
  lemma {:induction false} CommitIsLast(entries: seq<Entry>, i: nat)
    requires Disciplined(entries) && i < |entries| && entries[i].phase == Commit
    ensures i == |entries| - 1
  {
    assert i + 1 < |entries| ==> LegalAt(entries, i + 1);
  }

  /** After a cancellation come only compensations, one that says failed or recovery-required first
      allowing them. */
  lemma {:induction false} CancelAllowsCompensations(entries: seq<Entry>, i: nat)
    requires Disciplined(entries) && i + 1 < |entries| && entries[i].phase == Cancel
    ensures entries[i + 1].phase == Compensate && STATUS in entries[i].detail
    ensures entries[i].detail[STATUS] == Words(Ascii("failed"))
            || entries[i].detail[STATUS] == Words(Ascii("recovery-required"))
  {
    assert LegalAt(entries, i + 1);
  }

  /** A commit rests on a verification somewhere before it, or says that it recovered and follows a
      compensation that is not unproven. */
  lemma {:induction false} CommitIsFounded(entries: seq<Entry>, i: nat)
    requires Disciplined(entries) && i < |entries| && entries[i].phase == Commit
    ensures (exists j :: 0 <= j < i && entries[j].phase == Verify)
            || (STATUS in entries[i].detail && entries[i].detail[STATUS] == Words(Ascii("recovered"))
                && i > 0 && entries[i - 1].phase == Compensate
                && !(COMPLETION in entries[i - 1].detail
                     && entries[i - 1].detail[COMPLETION] == Words(Ascii("unproven"))))
  {
    assert LegalAt(entries, i);
  }

  /** An effect follows its intent, and a verification its effect, directly. */
  lemma {:induction false} EffectFollowsIntent(entries: seq<Entry>, i: nat)
    requires Disciplined(entries) && i < |entries|
    ensures entries[i].phase == Effect ==>
              i > 0 && entries[i - 1].phase == Intent && entries[i - 1].step == entries[i].step
    ensures entries[i].phase == Verify ==>
              i > 0 && entries[i - 1].phase == Effect && entries[i - 1].step == entries[i].step
  {
    assert LegalAt(entries, i);
  }
}
