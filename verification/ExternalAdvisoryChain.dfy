/** The advisory log of imported revisions. Its events carry textual sequence numbers and are
    verified without a schema. */
module ExternalAdvisoryChain {
  import opened Text
  import opened CanonicalJson
  import opened JsonParser
  import opened HashChain
  import opened AdvisoryChain

  datatype ExternalEvent = ExternalEvent(
    sequence: Str,
    previousEventSha256: Str,
    revisionId: Str,
    kind: AdvisoryKind,
    status: Status,
    reasonCode: Str,
    effectiveAt: Str,
    eventSha256: Str)

  const EXTERNAL_KEYS: seq<Str> := [
    Ascii("sequence"), Ascii("previousEventSha256"), Ascii("revisionId"), Ascii("kind"),
    Ascii("status"), Ascii("reasonCode"), Ascii("effectiveAt")]

  function ExternalValues(e: ExternalEvent): (r: seq<Value>)
    ensures |r| == |EXTERNAL_KEYS|
  {
    [Chars(e.sequence), Chars(e.previousEventSha256), Chars(e.revisionId),
     Chars(KindText(e.kind)), Chars(StatusText(e.status)), Chars(e.reasonCode),
     Chars(e.effectiveAt)]
  }

  function ExternalText(e: ExternalEvent): Str {
    CanonicalText(Obj(Zip(EXTERNAL_KEYS, ExternalValues(e))))
  }

  /** The names under which the hashed record holds an event. */
  lemma {:induction false} ExternalEventSays(e: ExternalEvent)
    ensures var v := Obj(Zip(EXTERNAL_KEYS, ExternalValues(e)));
            && HasField(v, "sequence", Chars(e.sequence)) && HasField(v, "revisionId", Chars(e.revisionId))
            && HasField(v, "previousEventSha256", Chars(e.previousEventSha256))
            && HasField(v, "kind", Chars(KindText(e.kind))) && HasField(v, "status", Chars(StatusText(e.status)))
            && HasField(v, "reasonCode", Chars(e.reasonCode)) && HasField(v, "effectiveAt", Chars(e.effectiveAt))
            && |v.fields| == 7
  {
    hide HasField, KindText, StatusText;
    var vs := ExternalValues(e);
    ZipField(EXTERNAL_KEYS, vs, 0, "sequence");
    ZipField(EXTERNAL_KEYS, vs, 1, "previousEventSha256");
    ZipField(EXTERNAL_KEYS, vs, 2, "revisionId");
    ZipField(EXTERNAL_KEYS, vs, 3, "kind");
    ZipField(EXTERNAL_KEYS, vs, 4, "status");
    ZipField(EXTERNAL_KEYS, vs, 5, "reasonCode");
    ZipField(EXTERNAL_KEYS, vs, 6, "effectiveAt");
  }

  function HashExternalAdvisoryEvent(hash: Str -> Str, e: ExternalEvent): Str {
    hash(ExternalText(e))
  }

  function ExternalShape(): Shape<ExternalEvent> {
    Shape(ExternalText, (e: ExternalEvent) => e.previousEventSha256,
          (e: ExternalEvent) => e.eventSha256)
  }

  ghost predicate ValidExternalEvent(hash: Str -> Str, events: seq<ExternalEvent>, i: nat)
    requires i < |events|
  {
    && events[i].sequence == Decimal(i + 1)
    && events[i].previousEventSha256 == Head(events[..i], ExternalShape())
    && events[i].eventSha256 == HashExternalAdvisoryEvent(hash, events[i])
  }

  ghost predicate ValidExternalChain(hash: Str -> Str, events: seq<ExternalEvent>) {
    forall i :: 0 <= i < |events| ==> ValidExternalEvent(hash, events, i)
  }

  /** Accepts exactly the valid logs that end at the expected head. */
  method VerifyExternalAdvisoryChain(
      hash: Str -> Str, events: seq<ExternalEvent>, expectedHead: Str)
    returns (accepted: bool)
    ensures accepted <==>
              ValidExternalChain(hash, events) && Head(events, ExternalShape()) == expectedHead
  {
    var previous := EMPTY_HEAD;
    for i := 0 to |events|
      invariant forall k :: 0 <= k < i ==> ValidExternalEvent(hash, events, k)
      invariant previous == Head(events[..i], ExternalShape())
    {
      var e := events[i];
      if e.sequence != Decimal(i + 1)
         || e.previousEventSha256 != previous
         || HashExternalAdvisoryEvent(hash, e) != e.eventSha256
      {
        assert !ValidExternalEvent(hash, events, i);
        return false;
      }
      assert events[..i + 1][i] == e;
      previous := e.eventSha256;
    }
    assert events[..|events|] == events;
    return previous == expectedHead;
  }

  lemma {:induction false} ExternalKeysDistinct()
    ensures AllDistinct(EXTERNAL_KEYS)
  {
    assert EXTERNAL_KEYS[2][2] == 'v' as int && EXTERNAL_KEYS[5][2] == 'a' as int;
  }

  lemma {:induction false} ExternalTextFaithful(e: ExternalEvent, f: ExternalEvent)
    requires ExternalText(e) == ExternalText(f)
    ensures e.(eventSha256 := f.eventSha256) == f
  {
    ExternalKeysDistinct();
    SameTextSameValues(EXTERNAL_KEYS, ExternalValues(e), ExternalValues(f));
    ExternalValuesDecide(e, f);
  }

  lemma {:induction false} SameTextSameValues(keys: seq<Str>, vs: seq<Value>, ws: seq<Value>)
    requires |keys| == |vs| == |ws| && AllDistinct(keys)
    requires forall i :: 0 <= i < |vs| ==> vs[i].Chars? && ws[i].Chars?
    requires CanonicalText(Obj(Zip(keys, vs))) == CanonicalText(Obj(Zip(keys, ws)))
    ensures vs == ws
  {
    var a, b := Obj(Zip(keys, vs)), Obj(Zip(keys, ws));
    CanonicalizeRoundTrip(a);
    CanonicalizeRoundTrip(b);
    CanonicalizeInjective(a, b);
    SameRecordSameValues(keys, vs, ws);
    forall i | 0 <= i < |vs|
      ensures vs[i] == ws[i]
    {
      assert SameValue(vs[i], ws[i]);
    }
  }

  lemma {:induction false} ExternalValuesDecide(e: ExternalEvent, f: ExternalEvent)
    requires ExternalValues(e) == ExternalValues(f)
    ensures e.(eventSha256 := f.eventSha256) == f
  {
    var vs, ws := ExternalValues(e), ExternalValues(f);
    assert vs[0] == ws[0] && vs[1] == ws[1] && vs[2] == ws[2] && vs[3] == ws[3];
    assert vs[4] == ws[4] && vs[5] == ws[5] && vs[6] == ws[6];
    TextsDecode();
    assert KindOf(KindText(e.kind)) == KindOf(KindText(f.kind));
    assert StatusOf(StatusText(e.status)) == StatusOf(StatusText(f.status));
  }

  /** Two external logs that verify against one head are the same log, unless hashed texts of
      their own collide or hash to the empty head. */
  lemma {:induction false} SameHeadSameExternalChain(
      hash: Str -> Str, a: seq<ExternalEvent>, b: seq<ExternalEvent>)
    requires ValidExternalChain(hash, a) && ValidExternalChain(hash, b)
    requires Head(a, ExternalShape()) == Head(b, ExternalShape())
    ensures a == b || Broken(hash, ExternalShape(), a, b)
  {
    var shape := ExternalShape();
    var valid := (e: ExternalEvent) => true;
    forall e, f | valid(e) && valid(f)
      ensures TextDecides(shape, e, f)
    {
      if shape.text(e) == shape.text(f) {
        ExternalTextFaithful(e, f);
      }
    }
    ExternalChainLinked(hash, a);
    ExternalChainLinked(hash, b);
    OneHeadOneHistory(hash, valid, shape, a, b);
  }

  lemma {:induction false} ExternalChainLinked(hash: Str -> Str, events: seq<ExternalEvent>)
    requires ValidExternalChain(hash, events)
    ensures Linked(hash, events, ExternalShape())
  {
    forall i | 0 <= i < |events|
      ensures LinkedAt(hash, events, ExternalShape(), i)
    {
      assert ValidExternalEvent(hash, events, i);
    }
  }
}
