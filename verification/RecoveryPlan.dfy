/** What one attempt at recovering an interrupted operation does, and what any number of
    interrupted attempts achieve together. */
module RecoveryPlan {
  import opened Text
  import opened JournalEntries
  import opened EffectBoundaries

  datatype Observation = Absent | Matching | OwnedMismatch | Ambiguous

  type Observe = Str -> Observation

  datatype Disposition = Complete | SafeRetry | Resume | RecoveryRequired

  datatype RecoveryResult = RecoveryResult(disposition: Disposition, changed: bool, boundary: Option<Str>)

  /** The effectful calls of recovery, in the order it makes them. */
  datatype Action = Undo(step: Str) | Log(phase: Phase, step: Str, detail: Detail)

  function ObservationText(o: Observation): Str {
    match o
    case Absent => Ascii("absent")
    case Matching => Ascii("matching")
    case OwnedMismatch => Ascii("owned-mismatch")
    case Ambiguous => Ascii("ambiguous")
  }

  function SettledDetail(o: Observation): Detail {
    map[COMPLETION := Words(if o == Absent then Ascii("not-started") else Ascii("recovered")),
        Ascii("recoveryRequired") := Flag(false),
        Ascii("observation") := Words(ObservationText(o))]
  }

  const RECOVERED := map[STATUS := Words(Ascii("recovered"))]
  const EFFECT_RECOVERED := map[COMPLETION := Words(Ascii("recovered"))]
  const VERIFY_RECOVERED := map[Ascii("recovered") := Flag(true)]

  /** What the lines that recovery writes say. */
  lemma {:induction false} LinesSay(o: Observation)
    ensures RECOVERED == map[Ascii("status") := Words(Ascii("recovered"))]
    ensures EFFECT_RECOVERED == map[Ascii("completion") := Words(Ascii("recovered"))]
    ensures SettledDetail(o)[Ascii("completion")]
         == Words(if o == Absent then Ascii("not-started") else Ascii("recovered"))
    ensures SettledDetail(o)[Ascii("recoveryRequired")] == Flag(false)
    ensures SettledDetail(o)[Ascii("observation")] == Words(
      match o
      case Absent => Ascii("absent")
      case Matching => Ascii("matching")
      case OwnedMismatch => Ascii("owned-mismatch")
      case Ambiguous => Ascii("ambiguous"))
  {
    assert |Ascii("completion")| == 10 && |Ascii("recoveryRequired")| == 16 && |Ascii("observation")| == 11;
  }

  function CommitAction(command: Str): Action { Log(Commit, command, RECOVERED) }

  function SettleOne(step: Str, o: Observation): seq<Action> {
    (if o == OwnedMismatch then [Undo(step)] else []) + [Log(Compensate, step, SettledDetail(o))]
  }

  /** Settles the last n boundaries, the latest first. */
  function SettleLast(u: seq<Entry>, observe: Observe, n: nat): seq<Action>
    requires n <= |u|
  {
    if n == 0 then []
    else SettleLast(u, observe, n - 1) + SettleOne(u[|u| - n].step, observe(u[|u| - n].step))
  }

  predicate Clear(u: seq<Entry>, observe: Observe) {
    forall e :: e in u ==> observe(e.step) != Ambiguous
  }

  function Plan(entries: seq<Entry>, command: Str, observe: Observe): seq<Action> {
    if entries == [] then []
    else
      var last, u := entries[|entries| - 1], Unresolved(entries);
      if last.phase == Commit then []
      else if u != [] then
        if Clear(u, observe) then SettleLast(u, observe, |u|) + [CommitAction(command)] else []
      else match last.phase
        case Intent =>
          (match observe(last.step)
           case Ambiguous => []
           case Matching => [Log(Effect, last.step, EFFECT_RECOVERED),
                             Log(Verify, last.step, VERIFY_RECOVERED), CommitAction(command)]
           case o => SettleOne(last.step, o) + [CommitAction(command)])
        case Verify => [CommitAction(command)]
        case Compensate => [CommitAction(command)]
        case _ => []
  }

  /** The step of the latest boundary that cannot be told apart. */
  function LatestAmbiguous(u: seq<Entry>, observe: Observe): Option<Str> {
    if u == [] then None
    else if observe(u[|u| - 1].step) == Ambiguous then Some(u[|u| - 1].step)
    else LatestAmbiguous(u[..|u| - 1], observe)
  }

  predicate AllAbsent(u: seq<Entry>, observe: Observe) {
    forall e :: e in u ==> observe(e.step) == Absent
  }

  function Verdict(entries: seq<Entry>, observe: Observe): RecoveryResult {
    if entries == [] then RecoveryResult(SafeRetry, false, None)
    else
      var last, u := entries[|entries| - 1], Unresolved(entries);
      if last.phase == Commit then RecoveryResult(Complete, false, Some(last.step))
      else if u != [] then
        if Clear(u, observe) then
          RecoveryResult(if AllAbsent(u, observe) then SafeRetry else Resume, true, Some(u[|u| - 1].step))
        else RecoveryResult(RecoveryRequired, false, LatestAmbiguous(u, observe))
      else match last.phase
        case Cancel => RecoveryResult(
          if Says(last.detail, STATUS, "recovery-required") then RecoveryRequired else SafeRetry,
          false, Some(last.step))
        case Intent =>
          (match observe(last.step)
           case Ambiguous => RecoveryResult(RecoveryRequired, false, Some(last.step))
           case Absent => RecoveryResult(SafeRetry, true, Some(last.step))
           case _ => RecoveryResult(Resume, true, Some(last.step)))
        case Effect => RecoveryResult(SafeRetry, false, None)
        case _ => RecoveryResult(Resume, false, Some(last.step))
  }

  function Journalled(entries: seq<Entry>, actions: seq<Action>): seq<Entry> {
    if actions == [] then entries
    else
      var before := Journalled(entries, actions[..|actions| - 1]);
      match actions[|actions| - 1]
      case Undo(_) => before
      case Log(phase, step, detail) => before + [Next(before, phase, step, detail)]
  }

  function Undone(actions: seq<Action>): seq<Str> {
    if actions == [] then []
    else Undone(actions[..|actions| - 1])
         + match actions[|actions| - 1] case Undo(step) => [step] case Log(_, _, _) => []
  }

  /** A cancellation that takes no compensation, over boundaries that need one. */
  predicate Stuck(entries: seq<Entry>) {
    entries != [] && entries[|entries| - 1].phase == Cancel && !Resumable(entries[|entries| - 1])
    && Unresolved(entries) != []
  }

  /** A journal no recovery can finish: besides a stuck one, a cancellation that asks for recovery
      when nothing is unresolved, over which recovery does nothing. */
  predicate Blocked(entries: seq<Entry>) {
    || Stuck(entries)
    || (entries != [] && Unresolved(entries) == [] && entries[|entries| - 1].phase == Cancel
        && Says(entries[|entries| - 1].detail, STATUS, "recovery-required"))
  }

  /** One attempt: what is observed, and how many effectful calls complete before the process ends. */
  datatype Attempt = Attempt(observe: Observe, effects: nat)

  function Performed(entries: seq<Entry>, command: Str, a: Attempt): seq<Action> {
    var plan := Plan(entries, command, a.observe);
    var n := if a.effects < |plan| then a.effects else |plan|;
    if !Stuck(entries) then plan[..n]
    else if n > 0 && plan[0].Undo? then plan[..1]
    else []
  }

  function AfterAttempt(entries: seq<Entry>, command: Str, a: Attempt): seq<Entry> {
    Journalled(entries, Performed(entries, command, a))
  }

  function AfterAttempts(entries: seq<Entry>, command: Str, attempts: seq<Attempt>): seq<Entry> {
    if attempts == [] then entries
    else AfterAttempt(AfterAttempts(entries, command, attempts[..|attempts| - 1]), command,
                      attempts[|attempts| - 1])
  }

  function Committed(entries: seq<Entry>, command: Str): seq<Entry> {
    entries + [Next(entries, Commit, command, RECOVERED)]
  }

  // ----- the actions of a plan

  lemma {:induction false} JournalledLast(entries: seq<Entry>, actions: seq<Action>, a: Action)
    ensures Journalled(entries, actions + [a])
         == if a.Undo? then Journalled(entries, actions)
            else Journalled(entries, actions) + [Next(Journalled(entries, actions), a.phase, a.step, a.detail)]
    ensures Undone(actions + [a]) == Undone(actions) + if a.Undo? then [a.step] else []
  {
    assert (actions + [a])[..|actions|] == actions;
  }

  /** after is entries followed by one proven compensation for each of the last n boundaries of u,
      the latest boundary first. */
  ghost predicate Handled(entries: seq<Entry>, after: seq<Entry>, u: seq<Entry>, n: nat) {
    && n <= |u| && |after| == |entries| + n && entries <= after && WellNumbered(after)
    && forall i :: 0 <= i < n ==> HandledAt(after, |entries|, u, i)
  }

  /** The boundary i places before the last one is compensated i places after the start. */
  predicate HandledAt(after: seq<Entry>, start: nat, u: seq<Entry>, i: nat) {
    start + i < |after| && i < |u|
    && Proven(after[start + i]) && after[start + i].step == u[|u| - 1 - i].step
  }

  lemma {:induction false} HandledOneMore(
      entries: seq<Entry>, after: seq<Entry>, u: seq<Entry>, n: nat, e: Entry)
    requires Handled(entries, after, u, n) && n < |u|
    requires e.sequence == |after| + 1 && Proven(e) && e.step == u[|u| - 1 - n].step
    ensures Handled(entries, after + [e], u, n + 1)
  {
    var all := after + [e];
    forall i | 0 <= i < n + 1
      ensures HandledAt(all, |entries|, u, i)
    {
      assert i < n ==> HandledAt(after, |entries|, u, i);
    }
  }

  lemma {:induction false} SettledIsProven(before: seq<Entry>, step: Str, o: Observation)
    ensures Proven(Next(before, Compensate, step, SettledDetail(o)))
  {
    var d := SettledDetail(o);
    assert d[COMPLETION].words != Ascii("unproven");
  }

  lemma {:induction false} SettleHandles(entries: seq<Entry>, u: seq<Entry>, observe: Observe, n: nat)
    requires WellNumbered(entries) && n <= |u|
    ensures Handled(entries, Journalled(entries, SettleLast(u, observe, n)), u, n)
  {
    hide *;
    if n > 0 {
      SettleHandles(entries, u, observe, n - 1);
      OneMoreSettled(entries, u, observe, n);
    } else {
      NothingSettled(entries, u, observe);
    }
  }

  lemma {:induction false} NothingSettled(entries: seq<Entry>, u: seq<Entry>, observe: Observe)
    requires WellNumbered(entries)
    ensures Handled(entries, Journalled(entries, SettleLast(u, observe, 0)), u, 0)
  {
    hide WellNumbered;
    assert entries <= entries;
  }

  lemma {:induction false} OneMoreSettled(entries: seq<Entry>, u: seq<Entry>, observe: Observe, n: nat)
    requires 0 < n <= |u|
    requires Handled(entries, Journalled(entries, SettleLast(u, observe, n - 1)), u, n - 1)
    ensures Handled(entries, Journalled(entries, SettleLast(u, observe, n)), u, n)
  {
    hide Handled, WellNumbered, SettledDetail, SettleOne, Journalled, Undone, Proven;
    var step := u[|u| - n].step;
    var o := observe(step);
    var before := SettleLast(u, observe, n - 1);
    var after := Journalled(entries, before);
    SettleOneJournalled(entries, before, step, o);
    SettledIsProven(after, step, o);
    HandledOneMore(entries, after, u, n - 1, Next(after, Compensate, step, SettledDetail(o)));
  }

  lemma {:induction false} SettleOneJournalled(
      entries: seq<Entry>, before: seq<Action>, step: Str, o: Observation)
    ensures var after := Journalled(entries, before);
            Journalled(entries, before + SettleOne(step, o))
            == after + [Next(after, Compensate, step, SettledDetail(o))]
    ensures Undone(before + SettleOne(step, o))
         == Undone(before) + if o == OwnedMismatch then [step] else []
  {
    var log := Log(Compensate, step, SettledDetail(o));
    if o == OwnedMismatch {
      JournalledLast(entries, before, Undo(step));
      JournalledLast(entries, before + [Undo(step)], log);
      assert before + [Undo(step)] + [log] == before + SettleOne(step, o);
    } else {
      JournalledLast(entries, before, log);
      assert before + [log] == before + SettleOne(step, o);
    }
  }

  lemma {:induction false} HandledOneLess(entries: seq<Entry>, after: seq<Entry>, u: seq<Entry>, n: nat)
    requires Handled(entries, after, u, n) && n > 0
    ensures Handled(entries, after[..|after| - 1], u, n - 1)
    ensures Proven(after[|after| - 1]) && after[|after| - 1].step == u[|u| - n].step
  {
    var before := after[..|after| - 1];
    assert HandledAt(after, |entries|, u, n - 1);
    forall i | 0 <= i < n - 1
      ensures HandledAt(before, |entries|, u, i)
    {
      assert HandledAt(after, |entries|, u, i);
    }
  }

  /** Boundaries once handled are no longer unresolved, and the others still are. */
  lemma {:induction false} HandledIsResolved(entries: seq<Entry>, after: seq<Entry>, n: nat)
    requires WellNumbered(entries) && Handled(entries, after, Unresolved(entries), n)
    ensures Unresolved(after) == Unresolved(entries)[..|Unresolved(entries)| - n]
  {
    var u := Unresolved(entries);
    if n == 0 {
      assert after == entries && u[..|u|] == u;
    } else {
      var before, e := after[..|after| - 1], after[|after| - 1];
      HandledOneLess(entries, after, u, n);
      HandledIsResolved(entries, before, n - 1);
      UnresolvedOrder(entries);
      var left := u[..|u| - (n - 1)];
      hide Handled, WellNumbered, Without;
      assert left[|left| - 1] == u[|u| - n];
      WithoutLast(left);
      assert left[..|left| - 1] == u[..|u| - n];
    }
  }

  lemma {:induction false} HandledInTwoGoes(
      entries: seq<Entry>, mid: seq<Entry>, after: seq<Entry>, u: seq<Entry>, n: nat, m: nat)
    requires Handled(entries, mid, u, n) && Handled(mid, after, u[..|u| - n], m)
    ensures Handled(entries, after, u, n + m)
  {
    forall i | 0 <= i < n + m
      ensures HandledAt(after, |entries|, u, i)
    {
      if i < n {
        assert HandledAt(mid, |entries|, u, i);
      } else {
        assert HandledAt(after, |mid|, u[..|u| - n], i - n);
      }
    }
  }

  // ----- an attempt cut short

  /** Wherever settling is cut, the journal is as after some number of whole settlements. */
  lemma {:induction false} CutOf(entries: seq<Entry>, u: seq<Entry>, observe: Observe, m: nat, k: nat)
    returns (n: nat)
    requires m <= |u| && k <= |SettleLast(u, observe, m)|
    ensures n <= m
    ensures Journalled(entries, SettleLast(u, observe, m)[..k]) == Journalled(entries, SettleLast(u, observe, n))
    ensures k == |SettleLast(u, observe, m)| ==> n == m
    decreases m
  {
    hide Journalled, Undone, SettledDetail;
    var all := SettleLast(u, observe, m);
    if k == |all| {
      assert all[..k] == all;
      return m;
    }
    var before := SettleLast(u, observe, m - 1);
    if k <= |before| {
      assert all[..k] == before[..k];
      n := CutOf(entries, u, observe, m - 1, k);
    } else {
      var step := u[|u| - m].step;
      assert all[..k] == before + [Undo(step)];
      JournalledLast(entries, before, Undo(step));
      n := m - 1;
    }
  }

  /** How far the recovery of entries has come: n boundaries handled, and committed or not. */
  ghost predicate Progress(entries: seq<Entry>, after: seq<Entry>, command: Str, n: nat, committed: bool) {
    var u := Unresolved(entries);
    if committed then
      && n == |u| && |after| > 0 && Handled(entries, after[..|after| - 1], u, n)
      && after[|after| - 1] == Next(after[..|after| - 1], Commit, command, RECOVERED)
    else Handled(entries, after, u, n)
  }

  lemma {:induction false} PlanOfUnresolved(
      entries: seq<Entry>, command: Str, a: Attempt) returns (n: nat, committed: bool)
    requires WellNumbered(entries) && Unresolved(entries) != [] && !Stuck(entries)
    ensures Progress(entries, AfterAttempt(entries, command, a), command, n, committed)
    ensures Clear(Unresolved(entries), a.observe)
            && a.effects >= |SettleLast(Unresolved(entries), a.observe, |Unresolved(entries)|)| + 1
            ==> committed
  {
    var u := Unresolved(entries);
    UnresolvedOrder(entries);
    assert entries[|entries| - 1].phase != Commit;
    var plan := Plan(entries, command, a.observe);
    var done := Performed(entries, command, a);
    if !Clear(u, a.observe) {
      SettleHandles(entries, u, a.observe, 0);
      return 0, false;
    }
    var settle := SettleLast(u, a.observe, |u|);
    if a.effects <= |settle| {
      assert done == settle[..a.effects];
      n := CutOf(entries, u, a.observe, |u|, a.effects);
      SettleHandles(entries, u, a.observe, n);
      return n, false;
    }
    assert done == settle + [CommitAction(command)];
    JournalledLast(entries, settle, CommitAction(command));
    SettleHandles(entries, u, a.observe, |u|);
    return |u|, true;
  }
}
