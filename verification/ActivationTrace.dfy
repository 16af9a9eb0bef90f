/** The online checker of activation traces, and what it accepts task by task. */
module ActivationTrace {
  import opened Text

  datatype Tool = Search | Load | Read

  datatype Outcome = Ok | Empty | Error

  datatype Context = Automatic | UserRequested

  datatype Event = Event(task: Str, tool: Tool, result: Outcome, context: Option<Context>, path: Option<Str>)

  datatype ReasonCode =
    | RepeatedSearch | CallAfterTerminal | ContextEscalation | SecondLoad
    | LoadWithoutSearch | ResourceBeforeLoad | DuplicateResource

  const MAX_EVENTS := 100

  // ----- what a reason code means, on the calls of one task

  predicate Called(t: seq<Event>, tool: Tool) { exists e :: e in t && e.tool == tool }

  predicate Loaded(t: seq<Event>) { exists e :: e in t && e.tool == Load && e.result == Ok }

  predicate Ended(t: seq<Event>) { exists e :: e in t && e.result != Ok }

  predicate HasRead(t: seq<Event>, path: Str) { exists e :: e in t && e.tool == Read && e.path == Some(path) }

  /** The first context the calls declare. */
  function FirstContext(t: seq<Event>): Option<Context> {
    if t == [] then None else if t[0].context.Some? then t[0].context else FirstContext(t[1..])
  }

  /** The call e, made after the calls t of the same task, earns the reason code. */
  predicate Earns(t: seq<Event>, e: Event, code: ReasonCode) {
    match code
    case RepeatedSearch => e.tool == Search && Called(t, Search)
    case CallAfterTerminal => Ended(t)
    case ContextEscalation => FirstContext(t) == Some(Automatic) && e.context == Some(UserRequested)
    case SecondLoad => e.tool == Load && Called(t, Load)
    case LoadWithoutSearch => e.tool == Load && !Called(t, Search)
    case ResourceBeforeLoad => e.tool == Read && !Loaded(t)
    case DuplicateResource => e.tool == Read && e.path.Some? && HasRead(t, e.path.value)
  }

  predicate EarnsAt(t: seq<Event>, i: nat, code: ReasonCode)
    requires i < |t|
  {
    Earns(t[..i], t[i], code)
  }

  predicate HasCode(t: seq<Event>, code: ReasonCode) {
    exists i :: 0 <= i < |t| && EarnsAt(t, i, code)
  }

  function Projection(events: seq<Event>, task: Str): seq<Event> {
    if events == [] then []
    else Projection(events[..|events| - 1], task)
         + if events[|events| - 1].task == task then [events[|events| - 1]] else []
  }

  /** A trace has a code when the calls of some task have it. */
  ghost predicate TraceHasCode(events: seq<Event>, code: ReasonCode) {
    exists task :: HasCode(Projection(events, task), code)
  }

  lemma {:induction false} HasCodeAppend(t: seq<Event>, e: Event, code: ReasonCode)
    ensures HasCode(t + [e], code) <==> HasCode(t, code) || Earns(t, e, code)
  {
    var all := t + [e];
    assert all[..|t|] == t && all[|t|] == e;
    if HasCode(all, code) {
      var i :| 0 <= i < |all| && EarnsAt(all, i, code);
      if i < |t| {
        assert all[..i] == t[..i];
        assert EarnsAt(t, i, code);
      }
    }
    if HasCode(t, code) {
      var i :| 0 <= i < |t| && EarnsAt(t, i, code);
      assert all[..i] == t[..i];
      assert EarnsAt(all, i, code);
    }
    if Earns(t, e, code) {
      assert EarnsAt(all, |t|, code);
    }
  }

  lemma {:induction false} ProjectionAppend(events: seq<Event>, e: Event, task: Str)
    ensures Projection(events + [e], task) == Projection(events, task) + if e.task == task then [e] else []
  {
    assert (events + [e])[..|events|] == events;
  }

  lemma {:induction false} TraceHasCodeAppend(events: seq<Event>, e: Event, code: ReasonCode)
    ensures TraceHasCode(events + [e], code)
       <==> TraceHasCode(events, code) || Earns(Projection(events, e.task), e, code)
  {
    hide HasCode, Earns, Projection;
    var all := events + [e];
    ProjectionAppend(events, e, e.task);
    HasCodeAppend(Projection(events, e.task), e, code);
    forall task | task != e.task
      ensures Projection(all, task) == Projection(events, task)
    {
      ProjectionAppend(events, e, task);
    }
    if TraceHasCode(all, code) {
      var task :| HasCode(Projection(all, task), code);
      assert task != e.task ==> HasCode(Projection(events, task), code);
    }
    if TraceHasCode(events, code) {
      var task :| HasCode(Projection(events, task), code);
      assert HasCode(Projection(all, task), code);
    }
    if Earns(Projection(events, e.task), e, code) {
      assert HasCode(Projection(all, e.task), code);
    }
  }

  // ----- the online checker

  datatype Attempt = Attempt(
    searchCount: nat,
    loadCount: nat,
    loaded: bool,
    terminal: bool,
    context: Option<Context>,
    resourcePaths: set<Str>)

  const NEW_ATTEMPT := Attempt(0, 0, false, false, None, {})

  /** The record of a task holds what its calls so far amount to. */
  ghost predicate Records(a: Attempt, t: seq<Event>) {
    && (a.searchCount > 0 <==> Called(t, Search))
    && (a.loadCount > 0 <==> Called(t, Load))
    && (a.loaded <==> Loaded(t))
    && (a.terminal <==> Ended(t))
    && a.context == FirstContext(t)
    && (forall p :: p in a.resourcePaths <==> HasRead(t, p))
  }

  lemma {:induction false} FirstContextAppend(t: seq<Event>, e: Event)
    ensures FirstContext(t + [e]) == if FirstContext(t).Some? then FirstContext(t) else e.context
  {
    if t == [] {
      assert [e][1..] == [];
    } else {
      FirstContextAppend(t[1..], e);
      assert (t + [e])[1..] == t[1..] + [e];
    }
  }

  lemma {:induction false} CallsAppend(t: seq<Event>, e: Event)
    ensures forall tool :: Called(t + [e], tool) <==> Called(t, tool) || e.tool == tool
    ensures Loaded(t + [e]) <==> Loaded(t) || (e.tool == Load && e.result == Ok)
    ensures Ended(t + [e]) <==> Ended(t) || e.result != Ok
    ensures forall p :: HasRead(t + [e], p) <==> HasRead(t, p) || (e.tool == Read && e.path == Some(p))
  {
    assert forall x :: x in t + [e] <==> x in t || x == e;
  }

  ghost predicate NoRepeats(codes: seq<ReasonCode>) {
    forall i, j :: 0 <= i < j < |codes| ==> codes[i] != codes[j]
  }

  function AddIf(codes: seq<ReasonCode>, code: ReasonCode, earned: bool): (r: seq<ReasonCode>)
    ensures NoRepeats(codes) ==> NoRepeats(r)
    ensures forall c :: c in r <==> c in codes || (c == code && earned)
    ensures codes <= r && (r == codes || r == codes + [code])
  {
    if earned && code !in codes then codes + [code] else codes
  }

  /** The order in which an event is checked. */
  function Turn(code: ReasonCode): nat {
    match code
    case CallAfterTerminal => 0
    case ContextEscalation => 1
    case RepeatedSearch => 2
    case LoadWithoutSearch => 3
    case SecondLoad => 4
    case ResourceBeforeLoad => 5
    case DuplicateResource => 6
  }

  /** From place n on, codes stand in the order of the checks. */
  predicate InTurn(codes: seq<ReasonCode>, n: nat) {
    forall i, j :: n <= i < j < |codes| ==> Turn(codes[i]) < Turn(codes[j])
  }

  /** From place n on, codes stand in the order of the checks, all of them before the given turn. */
  predicate TurnsBelow(codes: seq<ReasonCode>, n: nat, turn: nat) {
    InTurn(codes, n) && forall i :: n <= i < |codes| ==> Turn(codes[i]) < turn
  }

  lemma {:induction false} AddInTurn(codes: seq<ReasonCode>, n: nat, turn: nat, code: ReasonCode, earned: bool)
    requires n <= |codes| && TurnsBelow(codes, n, turn) && turn <= Turn(code)
    ensures TurnsBelow(AddIf(codes, code, earned), n, Turn(code) + 1)
    ensures codes <= AddIf(codes, code, earned)
  {}

  /** The codes one event earns, added in the order of the checks. */
  method NoteCodes(attempt: Attempt, event: Event, codes: seq<ReasonCode>, ghost t: seq<Event>)
    returns (all: seq<ReasonCode>)
    requires Records(attempt, t)
    ensures forall c :: c in all <==> c in codes || Earns(t, event, c)
    ensures NoRepeats(codes) ==> NoRepeats(all)
    ensures codes <= all && InTurn(all, |codes|)
  {
    hide Called, Loaded, Ended, HasRead, FirstContext, NoRepeats, InTurn, TurnsBelow;
    var escalates := attempt.context == Some(Automatic) && event.context == Some(UserRequested);
    all := AddIf(codes, CallAfterTerminal, attempt.terminal);
    all := AddIf(all, ContextEscalation, escalates);
    ghost var both := all;
    CommonInTurn(codes, attempt.terminal, escalates);
    match event.tool {
      case Search =>
        all := AddIf(all, RepeatedSearch, attempt.searchCount > 0);
        ToolInTurn(both, |codes|, RepeatedSearch, attempt.searchCount > 0, SecondLoad, false);
      case Load =>
        all := AddIf(all, LoadWithoutSearch, attempt.searchCount == 0);
        all := AddIf(all, SecondLoad, attempt.loadCount > 0);
        ToolInTurn(both, |codes|, LoadWithoutSearch, attempt.searchCount == 0, SecondLoad, attempt.loadCount > 0);
      case Read =>
        all := AddIf(all, ResourceBeforeLoad, !attempt.loaded);
        var repeated := event.path.Some? && event.path.value in attempt.resourcePaths;
        all := AddIf(all, DuplicateResource, repeated);
        ToolInTurn(both, |codes|, ResourceBeforeLoad, !attempt.loaded, DuplicateResource, repeated);
    }
  }

  lemma {:induction false} CommonInTurn(codes: seq<ReasonCode>, terminal: bool, escalates: bool)
    ensures TurnsBelow(AddIf(AddIf(codes, CallAfterTerminal, terminal), ContextEscalation, escalates), |codes|, 2)
  {
    hide AddIf, TurnsBelow;
    NoneInTurn(codes);
    AddInTurn(codes, |codes|, 0, CallAfterTerminal, terminal);
    AddInTurn(AddIf(codes, CallAfterTerminal, terminal), |codes|, 1, ContextEscalation, escalates);
  }

  lemma {:induction false} ToolInTurn(
      codes: seq<ReasonCode>, n: nat, first: ReasonCode, a: bool, second: ReasonCode, b: bool)
    requires n <= |codes| && TurnsBelow(codes, n, 2) && 2 <= Turn(first) < Turn(second)
    ensures InTurn(AddIf(AddIf(codes, first, a), second, b), n) && (!b ==> InTurn(AddIf(codes, first, a), n))
  {
    hide AddIf;
    AddInTurn(codes, n, 2, first, a);
    AddInTurn(AddIf(codes, first, a), n, Turn(first) + 1, second, b);
  }

  lemma {:induction false} NoneInTurn(codes: seq<ReasonCode>)
    ensures TurnsBelow(codes, |codes|, 0)
  {}

  /** The record of a task after one more of its calls. */
  method Update(attempt: Attempt, event: Event, ghost t: seq<Event>) returns (updated: Attempt)
    requires Records(attempt, t)
    ensures Records(updated, t + [event])
  {
    CallsAppend(t, event);
    FirstContextAppend(t, event);
    hide Called, Loaded, Ended, HasRead, FirstContext;
    updated := attempt;
    if attempt.context.None? {
      updated := updated.(context := event.context);
    }
    match event.tool {
      case Search =>
        updated := updated.(searchCount := updated.searchCount + 1);
      case Load =>
        updated := updated.(loadCount := updated.loadCount + 1, loaded := updated.loaded || event.result == Ok);
      case Read =>
        if event.path.Some? {
          updated := updated.(resourcePaths := updated.resourcePaths + {event.path.value});
        }
    }
    if event.result != Ok {
      updated := updated.(terminal := true);
    }
  }

  datatype Validation = Validation(valid: bool, reasonCodes: seq<ReasonCode>)

  datatype TraceError = TooManyEvents

  ghost predicate Tracks(attempts: map<Str, Attempt>, events: seq<Event>) {
    forall task :: Records(if task in attempts then attempts[task] else NEW_ATTEMPT, Projection(events, task))
  }

  /** The codes reported are exactly those that the calls of some task have, each once. */
  method ValidateActivationTrace(events: seq<Event>) returns (r: Result<Validation, TraceError>)
    ensures r.Failure? <==> |events| > 100
    ensures r.Success? ==>
              && (forall c :: c in r.value.reasonCodes <==> TraceHasCode(events, c))
              && NoRepeats(r.value.reasonCodes) && ByFirstCause(events, r.value.reasonCodes)
              && (r.value.valid <==> Valid(events))
  {
    if |events| > MAX_EVENTS {
      return Failure(TooManyEvents);
    }
    NothingYet();
    hide Projection, Records, Earns, HasCode, TraceHasCode, Tracks, NoRepeats, ByFirstCause, InTurn;
    NoneInOrder(events);
    var codes: seq<ReasonCode> := [];
    var attempts: map<Str, Attempt> := map[];
    for i := 0 to |events|
      invariant Tracks(attempts, events[..i])
      invariant ByFirstCause(events, codes)
      invariant NoRepeats(codes) && forall c :: c in codes <==> TraceHasCode(events[..i], c)
    {
      var event := events[i];
      ghost var before := events[..i];
      assert events[..i + 1] == before + [event];
      var attempt := if event.task in attempts then attempts[event.task] else NEW_ATTEMPT;
      TrackedAttempt(attempts, before, event.task);
      var all := NoteCodes(attempt, event, codes, Projection(before, event.task));
      var updated := Update(attempt, event, Projection(before, event.task));
      forall c
        ensures c in all <==> TraceHasCode(before + [event], c)
      {
        TraceHasCodeAppend(before, event, c);
      }
      NextInOrder(events, i, codes, all);
      TracksAppend(attempts, before, event, updated);
      attempts, codes := attempts[event.task := updated], all;
    }
    assert events[..|events|] == events;
    assert codes != [] ==> codes[0] in codes;
    return Success(Validation(codes == [], codes));
  }

  lemma {:induction false} NothingYet()
    ensures Tracks(map[], []) && NoRepeats([]) && forall c :: !TraceHasCode([], c)
  {}

  lemma {:induction false} TrackedAttempt(attempts: map<Str, Attempt>, events: seq<Event>, task: Str)
    requires Tracks(attempts, events)
    ensures Records(if task in attempts then attempts[task] else NEW_ATTEMPT, Projection(events, task))
  {}

  lemma {:induction false} TracksAppend(
      attempts: map<Str, Attempt>, events: seq<Event>, e: Event, updated: Attempt)
    requires Tracks(attempts, events) && Records(updated, Projection(events, e.task) + [e])
    ensures Tracks(attempts[e.task := updated], events + [e])
  {
    hide Records;
    forall task
      ensures Records(if task in attempts[e.task := updated] then attempts[e.task := updated][task] else NEW_ATTEMPT,
                      Projection(events + [e], task))
    {
      ProjectionAppend(events, e, task);
      assert Projection(events, task) + [] == Projection(events, task);
      assert Records(if task in attempts then attempts[task] else NEW_ATTEMPT, Projection(events, task));
    }
  }

  // ----- what the calls of one task look like when the trace is valid

  predicate SamePath(t: seq<Event>, i: nat, j: nat)
    requires i < |t| && j < |t|
  {
    t[i].path.Some? && t[i].path == t[j].path
  }

  /** The first context given is automatic and a later call claims the user asked. */
  predicate Escalates(t: seq<Event>) {
    FirstContext(t) == Some(Automatic) && exists e :: e in t && e.context == Some(UserRequested)
  }

  /** At most one search, then at most one load, then reads of distinct paths; every call but the
      last succeeded. */
  ghost predicate WellFormed(t: seq<Event>) {
    && (|t| > 0 ==> t[0].tool == Search)
    && (|t| > 1 ==> t[1].tool == Load)
    && (forall i :: 2 <= i < |t| ==> t[i].tool == Read)
    && (forall i :: 0 <= i < |t| - 1 ==> t[i].result == Ok)
    && (forall i, j :: 2 <= i < j < |t| ==> !SamePath(t, i, j))
    && !Escalates(t)
  }

  lemma {:induction false} NoContextYet(t: seq<Event>, e: Event)
    requires FirstContext(t) == None && e in t
    ensures e.context == None
  {
    if e != t[0] {
      NoContextYet(t[1..], e);
    }
  }

  lemma {:induction false} EscalatesAppend(t: seq<Event>, e: Event)
    ensures Escalates(t + [e]) <==> Escalates(t) || Earns(t, e, ContextEscalation)
  {
    FirstContextAppend(t, e);
    assert forall x :: x in t + [e] <==> x in t || x == e;
    if FirstContext(t) == None && Escalates(t + [e]) {
      var x :| x in t + [e] && x.context == Some(UserRequested);
      if x in t {
        NoContextYet(t, x);
      }
    }
  }

  /** What a well-formed sequence of calls has done so far can be read off its length. */
  lemma {:induction false} WellFormedSoFar(t: seq<Event>)
    requires WellFormed(t)
    ensures Called(t, Search) <==> |t| > 0
    ensures Called(t, Load) <==> |t| > 1
    ensures Loaded(t) <==> |t| > 1 && t[1].result == Ok
    ensures Ended(t) <==> |t| > 0 && t[|t| - 1].result != Ok
  {
    hide Escalates, SamePath;
    if |t| > 0 {
      assert t[0] in t && t[|t| - 1] in t;
    }
    if |t| > 1 {
      assert t[1] in t;
    }
  }

  lemma {:induction false} WellFormedAppend(t: seq<Event>, e: Event)
    ensures WellFormed(t + [e]) <==> WellFormed(t) && forall c :: !Earns(t, e, c)
  {
    EscalatesAppend(t, e);
    if WellFormed(t + [e]) {
      WellFormedBefore(t, e);
      NothingEarned(t, e);
    }
    if WellFormed(t) && forall c :: !Earns(t, e, c) {
      NextCall(t, e);
    }
  }

  lemma {:induction false} WellFormedBefore(t: seq<Event>, e: Event)
    requires WellFormed(t + [e])
    ensures WellFormed(t)
  {
    hide Escalates;
    var all := t + [e];
    EscalatesAppend(t, e);
    assert forall i :: 0 <= i < |t| ==> t[i] == all[i];
    forall i, j | 2 <= i < j < |t|
      ensures !SamePath(t, i, j)
    {
      assert !SamePath(all, i, j);
    }
  }

  lemma {:induction false} NothingEarned(t: seq<Event>, e: Event)
    requires WellFormed(t + [e]) && WellFormed(t)
    ensures forall c :: !Earns(t, e, c)
  {
    var all := t + [e];
    WellFormedSoFar(t);
    EscalatesAppend(t, e);
    assert all[|t|] == e;
    assert forall i :: 0 <= i < |t| ==> t[i] == all[i];
    if e.tool == Read && e.path.Some? && HasRead(t, e.path.value) {
      var x :| x in t && x.tool == Read && x.path == e.path;
      var i :| 0 <= i < |t| && t[i] == x;
      assert SamePath(all, i, |t|);
    }
  }

  lemma {:induction false} NextCall(t: seq<Event>, e: Event)
    requires WellFormed(t) && forall c :: !Earns(t, e, c)
    ensures WellFormed(t + [e])
  {
    var all := t + [e];
    WellFormedSoFar(t);
    EscalatesAppend(t, e);
    assert !Earns(t, e, RepeatedSearch) && !Earns(t, e, CallAfterTerminal) && !Earns(t, e, SecondLoad);
    assert !Earns(t, e, LoadWithoutSearch) && !Earns(t, e, ResourceBeforeLoad) && !Earns(t, e, ContextEscalation);
    assert forall i :: 0 <= i < |t| ==> t[i] == all[i];
    forall i, j | 2 <= i < j < |all|
      ensures !SamePath(all, i, j)
    {
      if j < |t| {
        assert !SamePath(t, i, j);
      } else {
        assert !Earns(t, e, DuplicateResource);
        assert t[i] in t;
      }
    }
  }

  /** The calls of one task have no code exactly when they are well formed. */
  lemma {:induction false} NoCodeExactly(t: seq<Event>)
    ensures (forall c :: !HasCode(t, c)) <==> WellFormed(t)
  {
    if t == [] {
      assert !Escalates(t);
    } else {
      var before, e := t[..|t| - 1], t[|t| - 1];
      assert t == before + [e];
      NoCodeExactly(before);
      WellFormedAppend(before, e);
      hide WellFormed, HasCode, Earns;
      forall c
        ensures HasCode(t, c) <==> HasCode(before, c) || Earns(before, e, c)
      {
        HasCodeAppend(before, e, c);
      }
    }
  }

  ghost predicate Valid(events: seq<Event>) { forall c :: !TraceHasCode(events, c) }

  ghost predicate EachWellFormed(events: seq<Event>) { forall task :: WellFormed(Projection(events, task)) }

  /** A trace is valid exactly when the calls of each task, taken alone, are well formed. */
  lemma {:induction false} ValidTaskByTask(events: seq<Event>)
    ensures Valid(events) <==> EachWellFormed(events)
  {
    if Valid(events) {
      forall task
        ensures WellFormed(Projection(events, task))
      {
        ValidMeansWellFormed(events, task);
      }
    }
    if EachWellFormed(events) {
      forall c
        ensures !TraceHasCode(events, c)
      {
        WellFormedHasNoCode(events, c);
      }
    }
  }

  lemma {:induction false} ValidMeansWellFormed(events: seq<Event>, task: Str)
    requires Valid(events)
    ensures WellFormed(Projection(events, task))
  {
    hide WellFormed, HasCode, Projection;
    forall c
      ensures !HasCode(Projection(events, task), c)
    {
      assert !TraceHasCode(events, c);
    }
    NoCodeExactly(Projection(events, task));
  }

  lemma {:induction false} WellFormedHasNoCode(events: seq<Event>, c: ReasonCode)
    requires EachWellFormed(events)
    ensures !TraceHasCode(events, c)
  {
    hide WellFormed, HasCode, Projection;
    if TraceHasCode(events, c) {
      var task :| HasCode(Projection(events, task), c);
      NoCodeExactly(Projection(events, task));
    }
  }

  /** However the calls of different tasks are interleaved, the same codes are reported. */
  lemma {:induction false} InterleavingInvariant(a: seq<Event>, b: seq<Event>, code: ReasonCode)
    requires forall task :: Projection(a, task) == Projection(b, task)
    ensures TraceHasCode(a, code) <==> TraceHasCode(b, code)
  {
    hide HasCode, Projection;
    if TraceHasCode(a, code) {
      var task :| HasCode(Projection(a, task), code);
      assert HasCode(Projection(b, task), code);
    }
    if TraceHasCode(b, code) {
      var task :| HasCode(Projection(b, task), code);
      assert HasCode(Projection(a, task), code);
    }
  }

  /** Calls of different tasks that meet can be swapped. */
  lemma {:induction false} NeighboursCommute(a: seq<Event>, x: Event, y: Event, b: seq<Event>, code: ReasonCode)
    requires x.task != y.task
    ensures TraceHasCode(a + [x, y] + b, code) <==> TraceHasCode(a + [y, x] + b, code)
  {
    forall task
      ensures Projection(a + [x, y] + b, task) == Projection(a + [y, x] + b, task)
    {
      SwapKeepsProjection(a, x, y, b, task);
    }
    InterleavingInvariant(a + [x, y] + b, a + [y, x] + b, code);
  }

  lemma {:induction false} SwapKeepsProjection(a: seq<Event>, x: Event, y: Event, b: seq<Event>, task: Str)
    requires x.task != y.task
    ensures Projection(a + [x, y] + b, task) == Projection(a + [y, x] + b, task)
  {
    ProjectionOfTwo(x, y, task);
    ProjectionOfTwo(y, x, task);
    hide Projection;
    ProjectionInTwoGoes(a, [x, y], task);
    ProjectionInTwoGoes(a, [y, x], task);
    ProjectionInTwoGoes(a + [x, y], b, task);
    ProjectionInTwoGoes(a + [y, x], b, task);
  }

  lemma {:induction false} ProjectionOfTwo(x: Event, y: Event, task: Str)
    requires x.task != y.task
    ensures Projection([x, y], task) == if x.task == task then [x] else if y.task == task then [y] else []
  {
    ProjectionAppend([], x, task);
    ProjectionAppend([x], y, task);
    assert [x, y] == [x] + [y] && [] + [x] == [x];
  }

  lemma {:induction false} ProjectionInTwoGoes(a: seq<Event>, b: seq<Event>, task: Str)
    ensures Projection(a + b, task) == Projection(a, task) + Projection(b, task)
  {
    if b == [] {
      assert a + b == a;
    } else {
      hide *;
      var front, e := b[..|b| - 1], b[|b| - 1];
      assert b == front + [e];
      ProjectionInTwoGoes(a, front, task);
      ProjectionOfLast(a, front, e, task);
    }
  }

  lemma {:induction false} ProjectionOfLast(a: seq<Event>, front: seq<Event>, e: Event, task: Str)
    requires Projection(a + front, task) == Projection(a, task) + Projection(front, task)
    ensures Projection(a + (front + [e]), task) == Projection(a, task) + Projection(front + [e], task)
  {
    hide Projection;
    assert a + (front + [e]) == (a + front) + [e];
    ProjectionAppend(a + front, e, task);
    ProjectionAppend(front, e, task);
  }

  // ----- what each code means, on the positions of the trace

  /** Call i is an earlier call of the task of call j. */
  predicate Before(events: seq<Event>, i: nat, j: nat) {
    i < j < |events| && events[i].task == events[j].task
  }

  /** Call j of a trace is why it has the code. */
  predicate Causes(events: seq<Event>, j: nat, code: ReasonCode)
    requires j < |events|
  {
    var e := events[j];
    match code
    case RepeatedSearch =>
      e.tool == Search && exists i :: 0 <= i < j && Before(events, i, j) && events[i].tool == Search
    case CallAfterTerminal =>
      exists i :: 0 <= i < j && Before(events, i, j) && (events[i].result == Empty || events[i].result == Error)
    case ContextEscalation =>
      e.context == Some(UserRequested) && exists i :: 0 <= i < j && FirstDeclares(events, i, j, Automatic)
    case SecondLoad =>
      e.tool == Load && exists i :: 0 <= i < j && Before(events, i, j) && events[i].tool == Load
    case LoadWithoutSearch =>
      e.tool == Load && forall i :: 0 <= i < j && Before(events, i, j) ==> events[i].tool != Search
    case ResourceBeforeLoad =>
      e.tool == Read && forall i :: 0 <= i < j && Before(events, i, j) ==>
        events[i].tool != Load || events[i].result != Ok
    case DuplicateResource =>
      && e.tool == Read && e.path.Some?
      && exists i :: 0 <= i < j && Before(events, i, j) && events[i].tool == Read && events[i].path == e.path
  }

  /** Call i is the first of the task of call j that declares a context, and declares this one. */
  predicate FirstDeclares(events: seq<Event>, i: nat, j: nat, context: Context) {
    && Before(events, i, j) && events[i].context == Some(context)
    && forall k :: 0 <= k < i && Before(events, k, j) ==> events[k].context == None
  }

  lemma {:induction false} ProjectionMembers(events: seq<Event>, task: Str, e: Event)
    ensures e in Projection(events, task) <==> e in events && e.task == task
  {
    if events != [] {
      var n := |events| - 1;
      ProjectionMembers(events[..n], task, e);
      assert events == events[..n] + [events[n]];
    }
  }

  lemma {:induction false} EarlierCalls(events: seq<Event>, j: nat, e: Event)
    requires j < |events|
    ensures e in Projection(events[..j], events[j].task)
       <==> exists i :: 0 <= i < j && Before(events, i, j) && events[i] == e
  {
    ProjectionMembers(events[..j], events[j].task, e);
    if e in events[..j] && e.task == events[j].task {
      var i :| 0 <= i < j && events[..j][i] == e;
      assert Before(events, i, j);
    }
    if i :| 0 <= i < j && Before(events, i, j) && events[i] == e {
      assert events[..j][i] == e;
    }
  }

  lemma {:induction false} ContextOfFirst(events: seq<Event>, task: Str, n: nat)
    requires 0 < n <= |events|
    ensures var before := FirstContext(Projection(events[..n - 1], task));
            FirstContext(Projection(events[..n], task))
            == if before == None && events[n - 1].task == task then events[n - 1].context else before
  {
    var e := events[n - 1];
    assert events[..n] == events[..n - 1] + [e];
    ProjectionAppend(events[..n - 1], e, task);
    FirstContextAppend(Projection(events[..n - 1], task), e);
    assert Projection(events[..n - 1], task) + [] == Projection(events[..n - 1], task);
  }

  lemma {:induction false} FirstContextAt(events: seq<Event>, j: nat, n: nat, context: Context)
    requires n <= j < |events|
    ensures FirstContext(Projection(events[..n], events[j].task)) == Some(context)
       <==> exists i :: 0 <= i < n && FirstDeclares(events, i, j, context)
    ensures FirstContext(Projection(events[..n], events[j].task)) == None
       <==> forall k :: 0 <= k < n && Before(events, k, j) ==> events[k].context == None
  {
    hide Projection, FirstContext;
    var task := events[j].task;
    if n == 0 {
      NoContextAtStart(events, task);
    } else {
      FirstContextAt(events, j, n - 1, context);
      ContextOfFirst(events, task, n);
      assert Before(events, n - 1, j) <==> events[n - 1].task == task;
      if FirstContext(Projection(events[..n - 1], task)) == None && events[n - 1].task == task
         && events[n - 1].context == Some(context) {
        assert FirstDeclares(events, n - 1, j, context);
      }
    }
  }

  lemma {:induction false} NoContextAtStart(events: seq<Event>, task: Str)
    ensures FirstContext(Projection(events[..0], task)) == None
  {
    assert Projection(events[..0], task) == [];
  }

  lemma {:induction false} EarnsMeansCauses(events: seq<Event>, j: nat, code: ReasonCode)
    requires j < |events|
    ensures Earns(Projection(events[..j], events[j].task), events[j], code) <==> Causes(events, j, code)
  {
    var t := Projection(events[..j], events[j].task);
    forall e
      ensures e in t <==> exists i :: 0 <= i < j && Before(events, i, j) && events[i] == e
    {
      EarlierCalls(events, j, e);
    }
    FirstContextAt(events, j, j, Automatic);
    hide Projection, FirstContext;
    forall i | 0 <= i < j && Before(events, i, j)
      ensures events[i] in t
    {}
  }

  /** A trace has a code exactly when some call of it is a cause: each code, by the calls of one task
      alone and their order. */
  lemma {:induction false} CodesExactly(events: seq<Event>, code: ReasonCode)
    ensures TraceHasCode(events, code) <==> exists j :: 0 <= j < |events| && Causes(events, j, code)
  {
    CodesUpTo(events, |events|, code);
    assert events[..|events|] == events;
  }

  lemma {:induction false} CodesUpTo(events: seq<Event>, n: nat, code: ReasonCode)
    requires n <= |events|
    ensures TraceHasCode(events[..n], code) <==> exists j :: 0 <= j < n && Causes(events, j, code)
  {
    hide Causes, Earns, HasCode;
    if n == 0 {
      NoCodeYet(code);
      assert events[..0] == [];
    } else {
      CodesUpTo(events, n - 1, code);
      assert events[..n] == events[..n - 1] + [events[n - 1]];
      TraceHasCodeAppend(events[..n - 1], events[n - 1], code);
      EarnsMeansCauses(events, n - 1, code);
    }
  }

  lemma {:induction false} NoCodeYet(code: ReasonCode)
    ensures !TraceHasCode([], code)
  {
    forall task
      ensures !HasCode(Projection([], task), code)
    {
      assert Projection([], task) == [];
    }
  }

  // ----- the order of the codes

  predicate FirstCause(events: seq<Event>, j: nat, code: ReasonCode) {
    && j < |events| && Causes(events, j, code)
    && forall k :: 0 <= k < j ==> !Causes(events, k, code)
  }

  /** Codes stand in the order of their first causes, and those of one call in the order of the
      checks. */
  ghost predicate ByFirstCause(events: seq<Event>, codes: seq<ReasonCode>) {
    forall a, b :: 0 <= a < b < |codes| ==> CausedBefore(events, codes[a], codes[b])
  }

  ghost predicate CausedBefore(events: seq<Event>, c: ReasonCode, d: ReasonCode) {
    forall i, j :: FirstCause(events, i, c) && FirstCause(events, j, d) ==> i < j || (i == j && Turn(c) < Turn(d))
  }

  lemma {:induction false} NoneInOrder(events: seq<Event>)
    ensures ByFirstCause(events, [])
  {}

  lemma {:induction false} NextInOrder(events: seq<Event>, i: nat, codes: seq<ReasonCode>, all: seq<ReasonCode>)
    requires i < |events| && ByFirstCause(events, codes) && codes <= all && InTurn(all, |codes|) && NoRepeats(all)
    requires forall c :: c in codes <==> TraceHasCode(events[..i], c)
    requires forall c :: c in all <==> TraceHasCode(events[..i] + [events[i]], c)
    ensures ByFirstCause(events, all)
  {
    hide TraceHasCode;
    forall a, b | 0 <= a < b < |all|
      ensures CausedBefore(events, all[a], all[b])
    {
      if b < |codes| {
        assert all[a] == codes[a] && all[b] == codes[b];
      } else {
        assert a < |codes| ==> all[a] == codes[a];
        assert forall k :: 0 <= k < |codes| ==> codes[k] == all[k];
        LaterCause(events, i, all[a], all[b]);
      }
    }
  }

  lemma {:induction false} LaterCause(events: seq<Event>, i: nat, c: ReasonCode, d: ReasonCode)
    requires i < |events| && (TraceHasCode(events[..i], c) || Turn(c) < Turn(d))
    requires TraceHasCode(events[..i] + [events[i]], c) && TraceHasCode(events[..i] + [events[i]], d)
    requires !TraceHasCode(events[..i], d)
    ensures CausedBefore(events, c, d)
  {
    assert events[..i] + [events[i]] == events[..i + 1];
    CodesUpTo(events, i, c);
    CodesUpTo(events, i, d);
    CodesUpTo(events, i + 1, c);
    CodesUpTo(events, i + 1, d);
    hide Causes, TraceHasCode;
  }
}
