/** Every run of the limiter that takes one token from an account's bucket and one from an API
    key's bucket, or none at all. */
module TwoBucketRuns {
  import opened Text
  import opened TokenBuckets

  datatype Policy = Policy(accountRate: int, apiKeyRate: int, burst: int) {
    predicate Valid() { accountRate >= 1 && apiKeyRate >= 1 && burst >= 1 }
  }

  datatype Call = Call(accountId: Str, apiKeyId: Str, now: real)

  datatype Kind = AccountKind | ApiKeyKind

  /** Buckets are created when first used. */
  datatype Limiter = Limiter(accounts: map<Str, Bucket>, apiKeys: map<Str, Bucket>)

  function RateOf(p: Policy, kind: Kind): int {
    if kind == AccountKind then p.accountRate else p.apiKeyRate
  }

  function IdOf(call: Call, kind: Kind): Str {
    if kind == AccountKind then call.accountId else call.apiKeyId
  }

  function BucketsOf(s: Limiter, kind: Kind): map<Str, Bucket> {
    if kind == AccountKind then s.accounts else s.apiKeys
  }

  /** What an identity can spend at a time; an absent bucket counts as full. */
  function Spendable(p: Policy, s: Limiter, kind: Kind, id: Str, now: real): real {
    if id in BucketsOf(s, kind) then Level(BucketsOf(s, kind)[id], p.burst, RateOf(p, kind), now)
    else p.burst as real
  }

  function Consume(p: Policy, s: Limiter, call: Call): (Limiter, Decision)
    requires p.Valid()
  {
    var account := Spendable(p, s, AccountKind, call.accountId, call.now);
    var apiKey := Spendable(p, s, ApiKeyKind, call.apiKeyId, call.now);
    var admitted := account >= 1.0 && apiKey >= 1.0;
    var taken := if admitted then 1.0 else 0.0;
    var wait := Max(WaitFor(account, p.accountRate), WaitFor(apiKey, p.apiKeyRate));
    (Limiter(s.accounts[call.accountId := Bucket(account - taken, call.now)],
             s.apiKeys[call.apiKeyId := Bucket(apiKey - taken, call.now)]),
     if admitted then Decision(true, 0) else Decision(false, RetrySeconds(wait)))
  }

  function Max(x: real, y: real): real { if x >= y then x else y }

  function After(p: Policy, s: Limiter, calls: seq<Call>): Limiter
    requires p.Valid()
  {
    if calls == [] then s
    else Consume(p, After(p, s, calls[..|calls| - 1]), calls[|calls| - 1]).0
  }

  function DecisionAt(p: Policy, s: Limiter, calls: seq<Call>, i: nat): Decision
    requires p.Valid() && i < |calls|
  {
    Consume(p, After(p, s, calls[..i]), calls[i]).1
  }

  function TimesOf(calls: seq<Call>): (r: seq<real>)
    ensures |r| == |calls| && forall i :: 0 <= i < |calls| ==> r[i] == calls[i].now
  {
    seq(|calls|, i requires 0 <= i < |calls| => calls[i].now)
  }

  /** How many of the calls of one identity in calls[lo..hi] are admitted. */
  function Admitted(p: Policy, s: Limiter, calls: seq<Call>, kind: Kind, id: Str, lo: nat, hi: nat): nat
    requires p.Valid() && lo <= hi <= |calls|
    decreases hi
  {
    if lo == hi then 0
    else Admitted(p, s, calls, kind, id, lo, hi - 1)
         + if DecisionAt(p, s, calls, hi - 1).allowed && IdOf(calls[hi - 1], kind) == id then 1 else 0
  }

  lemma {:induction false} AfterNext(p: Policy, s: Limiter, calls: seq<Call>, n: nat)
    requires p.Valid() && n < |calls|
    ensures After(p, s, calls[..n + 1]) == Consume(p, After(p, s, calls[..n]), calls[n]).0
  {
    assert calls[..n + 1][..n] == calls[..n];
  }

  // ----- one call, seen from one identity

  /** A call takes one token from the identity exactly when it is admitted and concerns it. */
  lemma {:induction false} ConsumeKeepsSpendable(p: Policy, s: Limiter, call: Call, kind: Kind, id: Str)
    requires p.Valid()
    ensures var (after, decision) := Consume(p, s, call);
            Spendable(p, after, kind, id, call.now)
            == Spendable(p, s, kind, id, call.now)
               - (if decision.allowed && IdOf(call, kind) == id then 1.0 else 0.0)
  {
    EarnedAdds(RateOf(p, kind), 0.0, 0.0);
  }

  lemma {:induction false} SpendableGain(
      p: Policy, s: Limiter, kind: Kind, id: Str, t: real, later: real)
    requires p.Valid()
    ensures Spendable(p, s, kind, id, later)
         <= Spendable(p, s, kind, id, t) + Earned(RateOf(p, kind), Max0(later - t))
  {
    EarnedAdds(RateOf(p, kind), 0.0, 0.0);
    EarnedGrows(RateOf(p, kind), 0.0, Max0(later - t));
    if id in BucketsOf(s, kind) {
      LevelGain(BucketsOf(s, kind)[id], p.burst, RateOf(p, kind), t, later);
    }
  }

  lemma {:induction false} SpendableAtMostBurst(p: Policy, s: Limiter, kind: Kind, id: Str, now: real)
    ensures Spendable(p, s, kind, id, now) <= p.burst as real
  {}

  // ----- the rate bound

  lemma {:induction false} AdmittedAndSpendable(
      p: Policy, s: Limiter, calls: seq<Call>, kind: Kind, id: Str, lo: nat, hi: nat)
    requires p.Valid() && lo < hi <= |calls|
    ensures Admitted(p, s, calls, kind, id, lo, hi) as real
            + Spendable(p, After(p, s, calls[..hi]), kind, id, calls[hi - 1].now)
         <= p.burst as real + Earned(RateOf(p, kind), Forward(TimesOf(calls), lo, hi))
    decreases hi
  {
    hide Spendable, Earned, Consume, After;
    var n := hi - 1;
    var before := After(p, s, calls[..n]);
    AfterNext(p, s, calls, n);
    ConsumeKeepsSpendable(p, before, calls[n], kind, id);
    if lo == n {
      SpendableAtMostBurst(p, before, kind, id, calls[n].now);
      EarnedAdds(RateOf(p, kind), 0.0, 0.0);
    } else {
      AdmittedAndSpendable(p, s, calls, kind, id, lo, n);
      SpendableGain(p, before, kind, id, calls[n - 1].now, calls[n].now);
      EarnedAdds(RateOf(p, kind), Forward(TimesOf(calls), lo, n),
                 Max0(calls[n].now - calls[n - 1].now));
    }
  }

  predicate Nonnegative(s: Limiter) {
    && (forall id :: id in s.accounts ==> s.accounts[id].tokens >= 0.0)
    && (forall id :: id in s.apiKeys ==> s.apiKeys[id].tokens >= 0.0)
  }

  lemma {:induction false} SpendableNonnegative(p: Policy, s: Limiter, kind: Kind, id: Str, now: real)
    requires p.Valid() && Nonnegative(s)
    ensures Spendable(p, s, kind, id, now) >= 0.0
  {
    if id in BucketsOf(s, kind) {
      var b := BucketsOf(s, kind)[id];
      EarnedAdds(RateOf(p, kind), 0.0, 0.0);
      EarnedGrows(RateOf(p, kind), 0.0, Max0(now - b.updatedAt));
    }
  }

  lemma {:induction false} StaysNonnegative(p: Policy, s: Limiter, calls: seq<Call>)
    requires p.Valid() && Nonnegative(s)
    ensures Nonnegative(After(p, s, calls))
  {
    if calls != [] {
      var n := |calls| - 1;
      StaysNonnegative(p, s, calls[..n]);
      var before := After(p, s, calls[..n]);
      SpendableNonnegative(p, before, AccountKind, calls[n].accountId, calls[n].now);
      SpendableNonnegative(p, before, ApiKeyKind, calls[n].apiKeyId, calls[n].now);
      hide Spendable;
    }
  }

  const NEW_LIMITER := Limiter(map[], map[])

  /** For every run and every clock, one account, and likewise one API key, is admitted between any
      two calls at most burst times, plus what the clock's forward steps between them earn. */
  lemma {:induction false} RateBound(
      p: Policy, calls: seq<Call>, kind: Kind, id: Str, lo: nat, hi: nat)
    requires p.Valid() && lo < hi <= |calls|
    ensures var admitted := Admitted(p, NEW_LIMITER, calls, kind, id, lo, hi) as real;
            && admitted <= p.burst as real + Earned(RateOf(p, kind), Forward(TimesOf(calls), lo, hi))
            && (Ascends(TimesOf(calls), lo, hi) ==>
                  admitted
                  <= p.burst as real + Earned(RateOf(p, kind), calls[hi - 1].now - calls[lo].now))
  {
    AdmittedAndSpendable(p, NEW_LIMITER, calls, kind, id, lo, hi);
    StaysNonnegative(p, NEW_LIMITER, calls[..hi]);
    SpendableNonnegative(p, After(p, NEW_LIMITER, calls[..hi]), kind, id, calls[hi - 1].now);
    ForwardAtLeast(TimesOf(calls), lo, hi);
  }

  // ----- denied calls are invisible

  /** Every bucket was last refilled by a time. */
  predicate UpdatedBy(s: Limiter, now: real) {
    && (forall id :: id in s.accounts ==> s.accounts[id].updatedAt <= now)
    && (forall id :: id in s.apiKeys ==> s.apiKeys[id].updatedAt <= now)
  }

  /** Two limiters that every identity finds equally full from a time on. */
  ghost predicate Alike(p: Policy, s: Limiter, t: Limiter, now: real) {
    && UpdatedBy(s, now) && UpdatedBy(t, now)
    && forall kind, id :: Spendable(p, s, kind, id, now) == Spendable(p, t, kind, id, now)
  }

  lemma {:induction false} SpendableComposes(
      p: Policy, s: Limiter, kind: Kind, id: Str, now: real, later: real)
    requires p.Valid() && UpdatedBy(s, now) && now <= later
    ensures Spendable(p, s, kind, id, later)
         == Min(p.burst as real,
                Spendable(p, s, kind, id, now) + Earned(RateOf(p, kind), later - now))
  {
    EarnedAdds(RateOf(p, kind), 0.0, 0.0);
    EarnedGrows(RateOf(p, kind), 0.0, later - now);
    if id in BucketsOf(s, kind) {
      LevelComposes(BucketsOf(s, kind)[id], p.burst, RateOf(p, kind), now, later);
    }
  }

  lemma {:induction false} AlikeLater(p: Policy, s: Limiter, t: Limiter, now: real, later: real)
    requires p.Valid() && Alike(p, s, t, now) && now <= later
    ensures Alike(p, s, t, later)
  {
    hide Spendable;
    forall kind, id
      ensures Spendable(p, s, kind, id, later) == Spendable(p, t, kind, id, later)
    {
      SpendableComposes(p, s, kind, id, now, later);
      SpendableComposes(p, t, kind, id, now, later);
    }
  }

  lemma {:induction false} ConsumeAlike(p: Policy, s: Limiter, t: Limiter, call: Call)
    requires p.Valid() && Alike(p, s, t, call.now)
    ensures Consume(p, s, call).1 == Consume(p, t, call).1
    ensures Alike(p, Consume(p, s, call).0, Consume(p, t, call).0, call.now)
  {
    var s', t' := Consume(p, s, call).0, Consume(p, t, call).0;
    forall kind, id
      ensures Spendable(p, s', kind, id, call.now) == Spendable(p, t', kind, id, call.now)
    {
      ConsumeKeepsSpendable(p, s, call, kind, id);
      ConsumeKeepsSpendable(p, t, call, kind, id);
    }
  }

  lemma {:induction false} DeniedAlike(p: Policy, s: Limiter, t: Limiter, call: Call)
    requires p.Valid() && Alike(p, s, t, call.now)
    requires !Consume(p, s, call).1.allowed
    ensures Alike(p, Consume(p, s, call).0, t, call.now)
  {
    var s' := Consume(p, s, call).0;
    forall kind, id
      ensures Spendable(p, s', kind, id, call.now) == Spendable(p, t, kind, id, call.now)
    {
      ConsumeKeepsSpendable(p, s, call, kind, id);
    }
  }

  function Decisions(p: Policy, s: Limiter, calls: seq<Call>): (r: seq<Decision>)
    requires p.Valid()
    ensures |r| == |calls|
    decreases calls
  {
    if calls == [] then []
    else
      var (after, decision) := Consume(p, s, calls[0]);
      [decision] + Decisions(p, after, calls[1..])
  }

  lemma {:induction false} DecisionsFirst(p: Policy, s: Limiter, call: Call, rest: seq<Call>)
    requires p.Valid()
    ensures Decisions(p, s, [call] + rest) == [Consume(p, s, call).1] + Decisions(p, Consume(p, s, call).0, rest)
    ensures Decisions(p, s, []) == []
  {
    hide Consume;
    assert ([call] + rest)[1..] == rest;
  }

  lemma {:induction false} AfterFirst(p: Policy, s: Limiter, calls: seq<Call>)
    requires p.Valid() && calls != []
    ensures After(p, s, calls) == After(p, Consume(p, s, calls[0]).0, calls[1..])
    decreases |calls|
  {
    hide Consume;
    var n := |calls| - 1;
    if n > 0 {
      AfterFirst(p, s, calls[..n]);
      assert calls[..n][1..] == calls[1..][..n - 1];
    } else {
      assert calls[..n] == [];
    }
  }

  /** Running the calls one after another decides each as the state before it does. */
  lemma {:induction false} DecisionsInOrder(p: Policy, s: Limiter, calls: seq<Call>, i: nat)
    requires p.Valid() && i < |calls|
    ensures Decisions(p, s, calls)[i] == DecisionAt(p, s, calls, i)
    decreases calls
  {
    hide Consume;
    if i == 0 {
      assert calls[..0] == [];
    } else {
      DecisionsInOrder(p, Consume(p, s, calls[0]).0, calls[1..], i - 1);
      AfterFirst(p, s, calls[..i]);
      assert calls[..i][1..] == calls[1..][..i - 1];
    }
  }

  /** The entries whose flag is set. */
  function Kept<T>(items: seq<T>, keep: seq<bool>): seq<T>
    requires |items| == |keep|
  {
    if items == [] then []
    else (if keep[0] then [items[0]] else []) + Kept(items[1..], keep[1..])
  }

  predicate Ordered(calls: seq<Call>) {
    forall i :: 0 < i < |calls| ==> calls[i - 1].now <= calls[i].now
  }

  lemma {:induction false} DeniedInvisibleFrom(
      p: Policy, s: Limiter, t: Limiter, start: real, calls: seq<Call>, keep: seq<bool>)
    requires p.Valid() && |keep| == |calls|
    requires Alike(p, s, t, start) && Ordered(calls)
    requires calls != [] ==> start <= calls[0].now
    requires forall i :: 0 <= i < |calls| && !keep[i] ==> !Decisions(p, s, calls)[i].allowed
    ensures Decisions(p, t, Kept(calls, keep)) == Kept(Decisions(p, s, calls), keep)
    decreases calls
  {
    hide Alike, Consume;
    if calls != [] {
      var call := calls[0];
      var (after, decision) := Consume(p, s, call);
      var rest := Decisions(p, after, calls[1..]);
      AlikeLater(p, s, t, start, call.now);
      assert Decisions(p, s, calls) == [decision] + rest;
      assert forall i :: 0 <= i < |rest| ==> Decisions(p, s, calls)[i + 1] == rest[i];
      assert Kept(Decisions(p, s, calls), keep)
        == (if keep[0] then [decision] else []) + Kept(rest, keep[1..]);
      if keep[0] {
        ConsumeAlike(p, s, t, call);
        DeniedInvisibleFrom(p, after, Consume(p, t, call).0, call.now, calls[1..], keep[1..]);
        var kept := Kept(calls, keep);
        assert kept[0] == call && kept[1..] == Kept(calls[1..], keep[1..]);
        assert Decisions(p, t, kept)
          == [Consume(p, t, call).1] + Decisions(p, Consume(p, t, call).0, kept[1..]);
      } else {
        assert !Decisions(p, s, calls)[0].allowed;
        assert Kept(calls, keep) == Kept(calls[1..], keep[1..]);
        assert Kept(Decisions(p, s, calls), keep) == Kept(rest, keep[1..]);
        DeniedAlike(p, s, t, call);
        DeniedInvisibleFrom(p, after, t, call.now, calls[1..], keep[1..]);
      }
    }
  }

  /** Denied calls are invisible: under a clock that does not run back, leaving out any denied calls
      of a run changes no other decision and no other retry time, whichever accounts and keys the
      calls share. */
  lemma {:induction false} DeniedCallsInvisible(p: Policy, calls: seq<Call>, keep: seq<bool>)
    requires p.Valid() && |keep| == |calls| && Ordered(calls)
    requires forall i :: 0 <= i < |calls| && !keep[i] ==> !Decisions(p, NEW_LIMITER, calls)[i].allowed
    ensures Decisions(p, NEW_LIMITER, Kept(calls, keep))
         == Kept(Decisions(p, NEW_LIMITER, calls), keep)
  {
    DeniedInvisibleFrom(p, NEW_LIMITER, NEW_LIMITER, if calls == [] then 0.0 else calls[0].now,
                        calls, keep);
  }

  /** Under a clock that steps back they are not: a denied call there moves its buckets back in
      time, and the next call earns again what had been earned. */
  lemma {:induction false} DeniedCallSeen(id: Str)
    ensures var p := Policy(1, 1, 1);
            var first, back := Call(id, id, 0.0), Call(id, id, -60000.0);
            && Decisions(p, NEW_LIMITER, [first, back, first])
               == [Decision(true, 0), Decision(false, 60), Decision(true, 0)]
            && Decisions(p, NEW_LIMITER, [first, first]) == [Decision(true, 0), Decision(false, 60)]
  {
    var p := Policy(1, 1, 1);
    var first, back := Call(id, id, 0.0), Call(id, id, -60000.0);
    var empty := Limiter(map[id := Bucket(0.0, 0.0)], map[id := Bucket(0.0, 0.0)]);
    var earlier := Limiter(map[id := Bucket(0.0, -60000.0)], map[id := Bucket(0.0, -60000.0)]);
    assert Level(Bucket(0.0, 0.0), 1, 1, -60000.0) == 0.0 && Level(Bucket(0.0, 0.0), 1, 1, 0.0) == 0.0;
    assert Level(Bucket(0.0, -60000.0), 1, 1, 0.0) == 1.0;
    assert WaitFor(0.0, 1) == 60000.0 && RetrySeconds(60000.0) == 60;
    hide Level, RetrySeconds, WaitFor;
    assert empty.accounts[id := Bucket(0.0, -60000.0)] == earlier.accounts;
    assert empty.accounts[id := Bucket(0.0, 0.0)] == earlier.accounts[id := Bucket(0.0, 0.0)] == empty.accounts;
    assert Consume(p, NEW_LIMITER, first) == (empty, Decision(true, 0));
    assert Consume(p, empty, back) == (earlier, Decision(false, 60));
    assert Consume(p, empty, first) == (empty, Decision(false, 60));
    assert Consume(p, earlier, first) == (empty, Decision(true, 0));
    hide Consume;
    DecisionsFirst(p, NEW_LIMITER, first, [back, first]);
    DecisionsFirst(p, empty, back, [first]);
    DecisionsFirst(p, earlier, first, []);
    DecisionsFirst(p, NEW_LIMITER, first, [first]);
    DecisionsFirst(p, empty, first, []);
  }

  // ----- the retry time

  /** No call in calls[i..j] that concerns an identity is admitted. */
  predicate Unspent(p: Policy, s: Limiter, calls: seq<Call>, kind: Kind, id: Str, i: nat, j: nat)
    requires p.Valid() && j <= |calls|
  {
    forall k :: i <= k < j && IdOf(calls[k], kind) == id ==> !DecisionAt(p, s, calls, k).allowed
  }

  /** The times of an identity's calls in calls[lo..hi]. */
  function OwnTimes(calls: seq<Call>, kind: Kind, id: Str, lo: nat, hi: nat): seq<real>
    requires lo <= hi <= |calls|
    decreases hi
  {
    if lo == hi then []
    else OwnTimes(calls, kind, id, lo, hi - 1)
         + if IdOf(calls[hi - 1], kind) == id then [calls[hi - 1].now] else []
  }

  /** The forward steps of the clock an identity sees from call i to call j. */
  function Elapsed(calls: seq<Call>, kind: Kind, id: Str, i: nat, j: nat): real
    requires i <= j < |calls|
  {
    var own := OwnTimes(calls, kind, id, i, j + 1);
    Forward(own, 0, |own|)
  }

  lemma {:induction false} ForwardAppend(own: seq<real>, now: real)
    requires own != []
    ensures Forward(own + [now], 0, |own| + 1)
         == Forward(own, 0, |own|) + Max0(now - own[|own| - 1])
  {
    ForwardPrefix(own, now, |own|);
  }

  lemma {:induction false} ForwardPrefix(own: seq<real>, now: real, n: nat)
    requires n <= |own|
    ensures Forward(own + [now], 0, n) == Forward(own, 0, n)
  {
    if n > 1 {
      ForwardPrefix(own, now, n - 1);
    }
  }

  lemma {:induction false} OwnTimesEnds(calls: seq<Call>, kind: Kind, id: Str, i: nat, j: nat)
    requires i < j <= |calls| && IdOf(calls[i], kind) == id
    ensures var own := OwnTimes(calls, kind, id, i, j);
            && own != [] && own[0] == calls[i].now
            && (IdOf(calls[j - 1], kind) == id ==> own[|own| - 1] == calls[j - 1].now)
    decreases j
  {
    if i < j - 1 {
      OwnTimesEnds(calls, kind, id, i, j - 1);
    } else {
      assert OwnTimes(calls, kind, id, i, i) == [];
    }
  }

  lemma {:induction false} OwnTimesNext(calls: seq<Call>, kind: Kind, id: Str, i: nat, n: nat)
    requires i <= n < |calls|
    ensures OwnTimes(calls, kind, id, i, i) == []
    ensures OwnTimes(calls, kind, id, i, n + 1) ==
            if IdOf(calls[n], kind) == id then OwnTimes(calls, kind, id, i, n) + [calls[n].now]
            else OwnTimes(calls, kind, id, i, n)
  {}

  lemma {:induction false} OwnTimesAscend(calls: seq<Call>, kind: Kind, id: Str, i: nat, j: nat)
    requires i < j <= |calls| && IdOf(calls[i], kind) == id && Ascends(TimesOf(calls), i, j)
    ensures var own := OwnTimes(calls, kind, id, i, j);
            own != [] && Ascends(own, 0, |own|) && own[|own| - 1] <= calls[j - 1].now
    decreases j
  {
    hide Ascends, OwnTimes, TimesOf, IdOf;
    var n := j - 1;
    OwnTimesNext(calls, kind, id, i, n);
    if i < n {
      AscendsFewer(TimesOf(calls), i, n);
      OwnTimesAscend(calls, kind, id, i, n);
      if IdOf(calls[n], kind) == id {
        AscendsAppend(OwnTimes(calls, kind, id, i, n), calls[n].now);
      }
    } else {
      AscendsAlone(calls[i].now);
      assert [] + [calls[i].now] == [calls[i].now];
    }
  }

  lemma {:induction false} AscendsAlone(now: real)
    ensures Ascends([now], 0, 1)
  {}

  lemma {:induction false} AscendsFewer(times: seq<real>, lo: nat, n: nat)
    requires lo < n < |times|
    ensures Ascends(times, lo, n + 1) <==> Ascends(times, lo, n) && times[n - 1] <= times[n]
  {}

  lemma {:induction false} AscendsAppend(own: seq<real>, now: real)
    requires own != [] && Ascends(own, 0, |own|) && own[|own| - 1] <= now
    ensures Ascends(own + [now], 0, |own| + 1)
  {}

  /** An identity sees at least the time that passes, and exactly that when the clock never steps
      back. */
  lemma {:induction false} ElapsedAtLeast(calls: seq<Call>, kind: Kind, id: Str, i: nat, j: nat)
    requires i <= j < |calls| && IdOf(calls[i], kind) == IdOf(calls[j], kind) == id
    ensures Elapsed(calls, kind, id, i, j) >= 0.0
    ensures Elapsed(calls, kind, id, i, j) >= calls[j].now - calls[i].now
    ensures Ascends(TimesOf(calls), i, j + 1) ==>
              Elapsed(calls, kind, id, i, j) == calls[j].now - calls[i].now
  {
    hide Ascends, OwnTimes, TimesOf;
    OwnTimesEnds(calls, kind, id, i, j + 1);
    if Ascends(TimesOf(calls), i, j + 1) {
      OwnTimesAscend(calls, kind, id, i, j + 1);
    }
    var own := OwnTimes(calls, kind, id, i, j + 1);
    ForwardAtLeast(own, 0, |own|);
  }

  /** A bucket after a call that does not admit anything on its identity. */
  lemma {:induction false} UnspentCall(p: Policy, s: Limiter, call: Call, kind: Kind, id: Str)
    requires p.Valid()
    requires IdOf(call, kind) == id ==> !Consume(p, s, call).1.allowed
    ensures var before, after := BucketsOf(s, kind), BucketsOf(Consume(p, s, call).0, kind);
            if IdOf(call, kind) == id then
              id in after && after[id] == Bucket(Spendable(p, s, kind, id, call.now), call.now)
            else (id in after <==> id in before) && (id in before ==> after[id] == before[id])
  {
    hide Spendable;
  }

  /** While nothing is admitted on an identity its bucket only follows the forward steps of the
      clock that its own calls see. */
  lemma {:induction false} UnspentBucket(
      p: Policy, s: Limiter, calls: seq<Call>, kind: Kind, id: Str, i: nat, j: nat)
    requires p.Valid() && i < j <= |calls| && IdOf(calls[i], kind) == id
    requires Unspent(p, s, calls, kind, id, i, j)
    ensures var own := OwnTimes(calls, kind, id, i, j);
            var buckets := BucketsOf(After(p, s, calls[..j]), kind);
            var level := Spendable(p, After(p, s, calls[..i]), kind, id, calls[i].now);
            && own != [] && id in buckets
            && buckets[id] == Bucket(
                 Min(p.burst as real, level + Earned(RateOf(p, kind), Forward(own, 0, |own|))), own[|own| - 1])
    decreases j
  {
    hide Consume, Earned, After;
    var n := j - 1;
    var own, rate := OwnTimes(calls, kind, id, i, n), RateOf(p, kind);
    var before := After(p, s, calls[..n]);
    var level := Spendable(p, After(p, s, calls[..i]), kind, id, calls[i].now);
    EarnedAdds(rate, 0.0, 0.0);
    AfterNext(p, s, calls, n);
    assert IdOf(calls[n], kind) == id ==> !DecisionAt(p, s, calls, n).allowed;
    UnspentCall(p, before, calls[n], kind, id);
    if i == n {
      assert own == [];
      SpendableAtMostBurst(p, before, kind, id, calls[n].now);
    } else {
      UnspentBucket(p, s, calls, kind, id, i, n);
      if IdOf(calls[n], kind) == id {
        var forward, step := Forward(own, 0, |own|), Max0(calls[n].now - own[|own| - 1]);
        ForwardAppend(own, calls[n].now);
        SaturatingSum(p.burst, level + Earned(rate, forward), BucketsOf(before, kind)[id].tokens, rate, step);
        EarnedAdds(rate, forward, step);
      } else {
        assert OwnTimes(calls, kind, id, i, j) == own;
      }
    }
  }

  lemma {:induction false} UnspentFollowsClock(
      p: Policy, s: Limiter, calls: seq<Call>, kind: Kind, id: Str, i: nat, j: nat)
    requires p.Valid() && i < j < |calls| && IdOf(calls[i], kind) == IdOf(calls[j], kind) == id
    requires Unspent(p, s, calls, kind, id, i, j)
    ensures Spendable(p, After(p, s, calls[..j]), kind, id, calls[j].now)
         == Min(p.burst as real,
                Spendable(p, After(p, s, calls[..i]), kind, id, calls[i].now)
                + Earned(RateOf(p, kind), Elapsed(calls, kind, id, i, j)))
  {
    hide Consume, Earned, After, Unspent, Forward;
    var own, rate := OwnTimes(calls, kind, id, i, j), RateOf(p, kind);
    var level := Spendable(p, After(p, s, calls[..i]), kind, id, calls[i].now);
    UnspentBucket(p, s, calls, kind, id, i, j);
    var forward, step := Forward(own, 0, |own|), Max0(calls[j].now - own[|own| - 1]);
    ForwardAppend(own, calls[j].now);
    SaturatingSum(p.burst, level + Earned(rate, forward),
                  BucketsOf(After(p, s, calls[..j]), kind)[id].tokens, rate, step);
    EarnedAdds(rate, forward, step);
  }

  /** The exact wait of an identity for its next token at the time of a call. */
  function WaitAt(p: Policy, s: Limiter, calls: seq<Call>, kind: Kind, i: nat): real
    requires p.Valid() && i < |calls|
  {
    WaitFor(Spendable(p, After(p, s, calls[..i]), kind, IdOf(calls[i], kind), calls[i].now), RateOf(p, kind))
  }

  /** Two calls of one account and key with no admitted call of either from the first to the second. */
  predicate Retries(p: Policy, s: Limiter, calls: seq<Call>, i: nat, j: nat)
    requires p.Valid()
  {
    && i < j < |calls|
    && calls[j].accountId == calls[i].accountId && calls[j].apiKeyId == calls[i].apiKeyId
    && Unspent(p, s, calls, AccountKind, calls[i].accountId, i, j)
    && Unspent(p, s, calls, ApiKeyKind, calls[i].apiKeyId, i, j)
  }

  /** A retry is admitted exactly when account and key have each seen the clock's forward steps add
      up to their exact wait. */
  lemma {:induction false} AdmittedExactly(p: Policy, s: Limiter, calls: seq<Call>, i: nat, j: nat)
    requires p.Valid() && Retries(p, s, calls, i, j)
    ensures DecisionAt(p, s, calls, j).allowed <==>
              && Elapsed(calls, AccountKind, calls[i].accountId, i, j) >= WaitAt(p, s, calls, AccountKind, i)
              && Elapsed(calls, ApiKeyKind, calls[i].apiKeyId, i, j) >= WaitAt(p, s, calls, ApiKeyKind, i)
  {
    hide After, Spendable, WaitFor, RetrySeconds, Unspent, Elapsed;
    var before := After(p, s, calls[..i]);
    forall kind: Kind
      ensures Spendable(p, After(p, s, calls[..j]), kind, IdOf(calls[i], kind), calls[j].now) >= 1.0
         <==> Elapsed(calls, kind, IdOf(calls[i], kind), i, j) >= WaitAt(p, s, calls, kind, i)
    {
      var id := IdOf(calls[i], kind);
      UnspentFollowsClock(p, s, calls, kind, id, i, j);
      SpendableAtMostBurst(p, before, kind, id, calls[i].now);
      ElapsedAtLeast(calls, kind, id, i, j);
      WaitIsExact(Spendable(p, before, kind, id, calls[i].now), p.burst, RateOf(p, kind),
                  Elapsed(calls, kind, id, i, j));
    }
  }

  /** The retry time is sufficient and least, for every clock: a retry of a denied call is admitted
      once the returned seconds have passed. It is denied while neither account nor key has seen the
      clock step forward by more than a second less; what they see is the time that has passed when
      the clock did not step back in between. */
  lemma {:induction false} RetryIsLeast(p: Policy, s: Limiter, calls: seq<Call>, i: nat, j: nat)
    requires p.Valid() && Retries(p, s, calls, i, j)
    ensures var seconds := DecisionAt(p, s, calls, i).retryAfterSeconds;
            var waited := calls[j].now - calls[i].now;
            var account := Elapsed(calls, AccountKind, calls[i].accountId, i, j);
            var apiKey := Elapsed(calls, ApiKeyKind, calls[i].apiKeyId, i, j);
            && (waited >= 1000.0 * seconds as real ==> DecisionAt(p, s, calls, j).allowed)
            && (seconds > 1 && Max(account, apiKey) <= 1000.0 * (seconds - 1) as real ==>
                  !DecisionAt(p, s, calls, j).allowed)
            && (Ascends(TimesOf(calls), i, j + 1) ==> account == apiKey == waited)
  {
    hide After, Spendable, WaitFor, RetrySeconds, Elapsed, TimesOf;
    assert !DecisionAt(p, s, calls, i).allowed;
    AdmittedExactly(p, s, calls, i, j);
    hide Unspent;
    var before := After(p, s, calls[..i]);
    forall kind: Kind
      ensures WaitAt(p, s, calls, kind, i) >= 0.0
    {
      WaitNonnegative(Spendable(p, before, kind, IdOf(calls[i], kind), calls[i].now), RateOf(p, kind));
    }
    ElapsedAtLeast(calls, AccountKind, calls[i].accountId, i, j);
    ElapsedAtLeast(calls, ApiKeyKind, calls[i].apiKeyId, i, j);
    RetrySecondsLeast(Max(WaitAt(p, s, calls, AccountKind, i), WaitAt(p, s, calls, ApiKeyKind, i)));
  }
}
