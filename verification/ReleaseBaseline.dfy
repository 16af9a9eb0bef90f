/** The append-only check between the advisory logs of two releases. */
module ReleaseBaseline {
  import opened Text
  import opened AdvisoryChain
  import opened HashChain

  predicate IsEventPrefix(a: seq<Event>, b: seq<Event>) { |a| <= |b| && b[..|a|] == a }

  /** Both texts parse, both logs are valid, the current one ends at the released head, and the
      previous log is a prefix of the current one, event by event. */
  ghost predicate Appends(
      hash: Str -> Str, isDatetime: Str -> bool, previous: Str, current: Str,
      hashes: map<Str, Str>, releasedHead: Str)
  {
    && ParseAdvisoryChain(isDatetime, previous).Success?
    && ParseAdvisoryChain(isDatetime, current).Success?
    && ValidChain(hash, isDatetime, ParseAdvisoryChain(isDatetime, previous).value, hashes)
    && ValidChain(hash, isDatetime, ParseAdvisoryChain(isDatetime, current).value, hashes)
    && Head(ParseAdvisoryChain(isDatetime, current).value, AdvisoryShape()) == releasedHead
    && IsEventPrefix(ParseAdvisoryChain(isDatetime, previous).value,
                     ParseAdvisoryChain(isDatetime, current).value)
  }

  /** The byte-prefix check of the release baseline accepts exactly the releases whose log
      appends events to the previous release's log. */
  method VerifyBaseline(
      hash: Str -> Str, isDatetime: Str -> bool, previousSerialized: Str, currentSerialized: Str,
      hashes: map<Str, Str>, advisoryChainHead: Str)
    returns (accepted: bool)
    ensures accepted <==>
              Appends(hash, isDatetime, previousSerialized, currentSerialized, hashes,
                      advisoryChainHead)
  {
    var previous := ParseAdvisoryChain(isDatetime, previousSerialized);
    var current := ParseAdvisoryChain(isDatetime, currentSerialized);
    if previous.Success? && current.Success? {
      BytePrefixIsEventPrefix(isDatetime, previousSerialized, currentSerialized);
    }
    if !IsPrefixOf(previousSerialized, currentSerialized) {
      return false;
    }
    if previous.Failure? {
      return false;
    }
    var first := VerifyAdvisoryChain(hash, isDatetime, previous.value, hashes, None);
    if first.Failure? || current.Failure? {
      return false;
    }
    var second := VerifyAdvisoryChain(
      hash, isDatetime, current.value, hashes, Some(advisoryChainHead));
    return second.Success?;
  }

  /** For accepted texts, byte prefix and event prefix are the same relation. */
  lemma {:induction false} BytePrefixIsEventPrefix(isDatetime: Str -> bool, a: Str, b: Str)
    requires ParseAdvisoryChain(isDatetime, a).Success?
    requires ParseAdvisoryChain(isDatetime, b).Success?
    ensures IsPrefixOf(a, b)
       <==> IsEventPrefix(ParseAdvisoryChain(isDatetime, a).value,
                          ParseAdvisoryChain(isDatetime, b).value)
  {
    var older := ParseAdvisoryChain(isDatetime, a).value;
    var newer := ParseAdvisoryChain(isDatetime, b).value;
    SerializeParsed(isDatetime, a);
    SerializeParsed(isDatetime, b);
    if IsEventPrefix(older, newer) {
      assert Texts(newer)[..|older|] == Texts(older);
      TerminatedPrefix(Texts(newer), |older|);
    }
    if IsPrefixOf(a, b) && a != [] {
      PrefixLines(a, b);
      ParsedPrefix(BodyLines(a), BodyLines(b), LineParser(isDatetime), older, newer);
    }
  }

  lemma {:induction false} ParsedPrefix<T, E>(
      fewer: seq<Str>, more: seq<Str>, parse: Str -> Result<T, E>, older: seq<T>, newer: seq<T>)
    requires |fewer| <= |more| && more[..|fewer|] == fewer
    requires ParseEach(fewer, parse) == Success(older)
    requires ParseEach(more, parse) == Success(newer)
    ensures |older| <= |newer| && newer[..|older|] == older
  {
    ParseEachPointwise(fewer, parse, older);
    ParseEachPointwise(more, parse, newer);
    forall i | 0 <= i < |older|
      ensures newer[i] == older[i]
    {
      assert more[..|fewer|][i] == fewer[i];
    }
  }

  /** Revocation survives releases: whatever the previous release had revoked is revoked in every
      release whose log the baseline check accepts. */
  lemma {:induction false} RevocationSurvives(
      hash: Str -> Str, isDatetime: Str -> bool, previous: Str, current: Str,
      hashes: map<Str, Str>, releasedHead: Str, key: Str)
    requires Appends(hash, isDatetime, previous, current, hashes, releasedHead)
    ensures LastState(ParseAdvisoryChain(isDatetime, previous).value, key) == Some(Revoked) ==>
              LastState(ParseAdvisoryChain(isDatetime, current).value, key) == Some(Revoked)
  {
    var older := ParseAdvisoryChain(isDatetime, previous).value;
    var newer := ParseAdvisoryChain(isDatetime, current).value;
    RevokedIsFinal(hash, isDatetime, older, hashes, key);
    RevokedIsFinal(hash, isDatetime, newer, hashes, key);
    if j :| 0 <= j < |older| && KeyOf(older[j]) == key && older[j].state == Revoked {
      assert newer[j] == newer[..|older|][j];
    }
  }
}
