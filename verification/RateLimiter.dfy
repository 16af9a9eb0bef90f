/** The two stateful limiters of the authentication middleware, proved against their runs. */
module RateLimiter {
  import opened Text
  import opened TokenBuckets
  import opened TwoBucketRuns

  datatype PolicyError = InvalidPolicy

  class TokenBucket {
    var tokens: real
    var updatedAt: real

    constructor (tokens: real, updatedAt: real)
      ensures this.tokens == tokens && this.updatedAt == updatedAt
    {
      this.tokens, this.updatedAt := tokens, updatedAt;
    }

    function View(): Bucket
      reads this
    {
      Bucket(tokens, updatedAt)
    }

    /** Refills up to the burst for the time passed; a clock that ran back earns nothing. */
    method Refill(burst: int, requestsPerMinute: int, now: real)
      modifies this
      ensures View() == Bucket(Level(old(View()), burst, requestsPerMinute, now), now)
    {
      var elapsed := Max0(now - updatedAt);
      tokens := Min(burst as real, tokens + elapsed * requestsPerMinute as real / 60000.0);
      updatedAt := now;
    }
  }

  class AuthenticationRateLimiter {
    const requestsPerMinute: int
    const burst: int
    const bucket: TokenBucket

    ghost predicate Valid() { requestsPerMinute >= 1 && burst >= 1 }

    constructor (requestsPerMinute: int, burst: int, now: real)
      requires requestsPerMinute >= 1 && burst >= 1
      ensures Valid() && fresh(bucket)
      ensures this.requestsPerMinute == requestsPerMinute && this.burst == burst
      ensures bucket.View() == Bucket(burst as real, now)
    {
      this.requestsPerMinute, this.burst := requestsPerMinute, burst;
      this.bucket := new TokenBucket(burst as real, now);
    }

    static method Create(requestsPerMinute: int, burst: int, now: real)
      returns (r: Result<AuthenticationRateLimiter, PolicyError>)
      ensures r.Success? <==> requestsPerMinute >= 1 && burst >= 1
      ensures r.Success? ==>
                && fresh(r.value) && fresh(r.value.bucket) && r.value.Valid()
                && r.value.requestsPerMinute == requestsPerMinute && r.value.burst == burst
                && r.value.bucket.View() == Bucket(burst as real, now)
    {
      if requestsPerMinute < 1 || burst < 1 {
        return Failure(InvalidPolicy);
      }
      var limiter := new AuthenticationRateLimiter(requestsPerMinute, burst, now);
      return Success(limiter);
    }

    method Consume(now: real) returns (r: Decision)
      requires Valid()
      modifies bucket
      ensures (bucket.View(), r) == ConsumeOne(burst, requestsPerMinute, old(bucket.View()), now)
    {
      bucket.Refill(burst, requestsPerMinute, now);
      if bucket.tokens >= 1.0 {
        bucket.tokens := bucket.tokens - 1.0;
        return Decision(true, 0);
      }
      var seconds := Ceiling((1.0 - bucket.tokens) * 60.0 / requestsPerMinute as real);
      SecondsAgree(bucket.tokens, requestsPerMinute);
      return Decision(false, if seconds < 1 then 1 else seconds);
    }
  }

  /** Counting the wait in seconds or in milliseconds divided by a thousand is the same. */
  lemma {:induction false} SecondsAgree(tokens: real, rate: int)
    requires rate >= 1 && tokens < 1.0
    ensures (1.0 - tokens) * 60.0 / rate as real == WaitFor(tokens, rate) / 1000.0
  {
    var d, r := 1.0 - tokens, rate as real;
    assert d * 60000.0 / r == (d * 60.0 / r) * 1000.0;
  }

  // ----- tables of buckets

  function CellsOf(buckets: map<Str, TokenBucket>): set<TokenBucket> {
    set id | id in buckets :: buckets[id]
  }

  predicate Separate(buckets: map<Str, TokenBucket>) {
    forall a, b :: a in buckets && b in buckets && a != b ==> buckets[a] != buckets[b]
  }

  function Contents(buckets: map<Str, TokenBucket>): map<Str, Bucket>
    reads CellsOf(buckets)
  {
    map id | id in buckets :: buckets[id].View()
  }

  /** What an identity finds in a table; an absent bucket counts as full. */
  function Found(contents: map<Str, Bucket>, identity: Str, burst: int, rate: int, now: real): real {
    if identity in contents then Level(contents[identity], burst, rate, now) else burst as real
  }

  lemma {:induction false} SetTwice(m: map<Str, Bucket>, id: Str, first: Bucket, second: Bucket)
    ensures m[id := first][id := second] == m[id := second]
  {}

  /** The step of a run, from what the two identities can spend. */
  lemma {:induction false} StepOf(p: Policy, s: Limiter, call: Call, account: real, apiKey: real)
    requires p.Valid()
    requires account == Found(s.accounts, call.accountId, p.burst, p.accountRate, call.now)
    requires apiKey == Found(s.apiKeys, call.apiKeyId, p.burst, p.apiKeyRate, call.now)
    ensures TwoBucketRuns.Consume(p, s, call) ==
            if account >= 1.0 && apiKey >= 1.0 then
              (Limiter(s.accounts[call.accountId := Bucket(account - 1.0, call.now)],
                       s.apiKeys[call.apiKeyId := Bucket(apiKey - 1.0, call.now)]), Decision(true, 0))
            else
              (Limiter(s.accounts[call.accountId := Bucket(account, call.now)],
                       s.apiKeys[call.apiKeyId := Bucket(apiKey, call.now)]),
               Decision(false, RetrySeconds(
                 Max(WaitFor(account, p.accountRate), WaitFor(apiKey, p.apiKeyRate)))))
  {}

  class AccountApiKeyRateLimiter {
    const policy: Policy
    var accounts: map<Str, TokenBucket>
    var apiKeys: map<Str, TokenBucket>

    /** No two identities share a bucket. */
    ghost predicate Valid()
      reads this
    {
      policy.Valid() && Separate(accounts) && Separate(apiKeys)
      && CellsOf(accounts) !! CellsOf(apiKeys)
    }

    function Cells(): set<TokenBucket>
      reads this
    {
      CellsOf(accounts) + CellsOf(apiKeys)
    }

    function View(): Limiter
      reads this, Cells()
    {
      Limiter(Contents(accounts), Contents(apiKeys))
    }

    constructor (policy: Policy)
      requires policy.Valid()
      ensures Valid() && this.policy == policy && View() == NEW_LIMITER
      ensures Cells() == {}
    {
      this.policy := policy;
      this.accounts, this.apiKeys := map[], map[];
    }

    static method Create(policy: Policy) returns (r: Result<AccountApiKeyRateLimiter, PolicyError>)
      ensures r.Success? <==> policy.Valid()
      ensures r.Success? ==>
                && fresh(r.value) && r.value.Valid() && r.value.policy == policy
                && r.value.View() == NEW_LIMITER && r.value.Cells() == {}
    {
      if policy.accountRate < 1 || policy.apiKeyRate < 1 || policy.burst < 1 {
        return Failure(InvalidPolicy);
      }
      var limiter := new AccountApiKeyRateLimiter(policy);
      return Success(limiter);
    }

    /** The bucket of an identity, created full when missing, refilled and kept in its table. */
    method Refill(buckets: map<Str, TokenBucket>, identity: Str, requestsPerMinute: int, now: real)
      returns (bucket: TokenBucket, updated: map<Str, TokenBucket>)
      requires Separate(buckets) && requestsPerMinute >= 1
      modifies CellsOf(buckets)
      ensures updated == buckets[identity := bucket] && Separate(updated)
      ensures bucket in CellsOf(updated) && CellsOf(updated) <= CellsOf(buckets) + {bucket}
      ensures bucket in CellsOf(buckets) || fresh(bucket)
      ensures bucket.View() == Bucket(
                Found(old(Contents(buckets)), identity, policy.burst, requestsPerMinute, now), now)
      ensures Contents(updated) == old(Contents(buckets))[identity := Bucket(
                Found(old(Contents(buckets)), identity, policy.burst, requestsPerMinute, now), now)]
    {
      if identity in buckets {
        bucket := buckets[identity];
      } else {
        bucket := new TokenBucket(policy.burst as real, now);
        EarnedAdds(requestsPerMinute, 0.0, 0.0);
      }
      bucket.Refill(policy.burst, requestsPerMinute, now);
      updated := buckets[identity := bucket];
      assert updated[identity] in CellsOf(updated);
    }

    method Take(bucket: TokenBucket, ghost buckets: map<Str, TokenBucket>, ghost identity: Str)
      requires Separate(buckets) && identity in buckets && buckets[identity] == bucket
      modifies bucket
      ensures bucket.View() == old(Bucket(bucket.tokens - 1.0, bucket.updatedAt))
      ensures Contents(buckets) == old(Contents(buckets))[identity := bucket.View()]
    {
      bucket.tokens := bucket.tokens - 1.0;
    }

    method TakeBoth(account: TokenBucket, apiKey: TokenBucket, ghost accounts: map<Str, TokenBucket>,
                    ghost apiKeys: map<Str, TokenBucket>, ghost call: Call)
      requires Separate(accounts) && call.accountId in accounts && accounts[call.accountId] == account
      requires Separate(apiKeys) && call.apiKeyId in apiKeys && apiKeys[call.apiKeyId] == apiKey
      requires account in CellsOf(accounts) && apiKey in CellsOf(apiKeys)
      requires CellsOf(accounts) !! CellsOf(apiKeys)
      modifies account, apiKey
      ensures account.View() == old(Bucket(account.tokens - 1.0, account.updatedAt))
      ensures apiKey.View() == old(Bucket(apiKey.tokens - 1.0, apiKey.updatedAt))
      ensures Contents(accounts) == old(Contents(accounts))[call.accountId := account.View()]
      ensures Contents(apiKeys) == old(Contents(apiKeys))[call.apiKeyId := apiKey.View()]
    {
      assert forall c :: c in CellsOf(accounts) + CellsOf(apiKeys) ==> allocated(c);
      hide CellsOf, Separate, Contents;
      Take(account, accounts, call.accountId);
      Take(apiKey, apiKeys, call.apiKeyId);
    }

    /** Takes one token from each bucket, or none: exactly the step of the run. */
    method Consume(call: Call) returns (r: Decision)
      requires Valid()
      modifies this, Cells()
      ensures Valid() && fresh(Cells() - old(Cells()))
      ensures (View(), r) == TwoBucketRuns.Consume(policy, old(View()), call)
    {
      hide CellsOf, Separate, Contents, Found, WaitFor, RetrySeconds, Max, TwoBucketRuns.Consume;
      ghost var s := View();
      var account, apiKey, updatedAccounts, updatedApiKeys := RefillBoth(accounts, apiKeys, call);
      StepOf(policy, s, call, account.tokens, apiKey.tokens);
      if account.tokens >= 1.0 && apiKey.tokens >= 1.0 {
        ghost var accountFull, apiKeyFull := account.View(), apiKey.View();
        TakeBoth(account, apiKey, updatedAccounts, updatedApiKeys, call);
        SetTwice(s.accounts, call.accountId, accountFull, account.View());
        SetTwice(s.apiKeys, call.apiKeyId, apiKeyFull, apiKey.View());
        r := Decision(true, 0);
      } else {
        var accountWait := WaitFor(account.tokens, policy.accountRate);
        var apiKeyWait := WaitFor(apiKey.tokens, policy.apiKeyRate);
        r := Decision(false, RetrySeconds(Max(accountWait, apiKeyWait)));
      }
      accounts, apiKeys := updatedAccounts, updatedApiKeys;
    }

    /** Both refills; the second leaves the first bucket and its table alone. */
    method RefillBoth(accounts: map<Str, TokenBucket>, apiKeys: map<Str, TokenBucket>, call: Call)
      returns (account: TokenBucket, apiKey: TokenBucket,
               updatedAccounts: map<Str, TokenBucket>, updatedApiKeys: map<Str, TokenBucket>)
      requires policy.Valid() && Separate(accounts) && Separate(apiKeys)
      requires CellsOf(accounts) !! CellsOf(apiKeys)
      modifies CellsOf(accounts), CellsOf(apiKeys)
      ensures updatedAccounts == accounts[call.accountId := account] && Separate(updatedAccounts)
      ensures updatedApiKeys == apiKeys[call.apiKeyId := apiKey] && Separate(updatedApiKeys)
      ensures CellsOf(updatedAccounts) !! CellsOf(updatedApiKeys)
      ensures account in CellsOf(updatedAccounts) && apiKey in CellsOf(updatedApiKeys)
      ensures fresh(CellsOf(updatedAccounts) + CellsOf(updatedApiKeys)
                    - CellsOf(accounts) - CellsOf(apiKeys))
      ensures account.View() == Bucket(Found(old(Contents(accounts)), call.accountId, policy.burst,
                                             policy.accountRate, call.now), call.now)
      ensures apiKey.View() == Bucket(Found(old(Contents(apiKeys)), call.apiKeyId, policy.burst,
                                            policy.apiKeyRate, call.now), call.now)
      ensures Contents(updatedAccounts) == old(Contents(accounts))[call.accountId := account.View()]
      ensures Contents(updatedApiKeys) == old(Contents(apiKeys))[call.apiKeyId := apiKey.View()]
    {
      ghost var accountCells, apiKeyCells := CellsOf(accounts), CellsOf(apiKeys);
      assert forall c :: c in accountCells + apiKeyCells ==> allocated(c);
      hide *;
      account, updatedAccounts := Refill(accounts, call.accountId, policy.accountRate, call.now);
      assert account !in apiKeyCells;
      ghost var refilled, view := Contents(updatedAccounts), account.View();
      apiKey, updatedApiKeys := Refill(apiKeys, call.apiKeyId, policy.apiKeyRate, call.now);
      assert Contents(updatedAccounts) == refilled && account.View() == view;
    }
  }
}
