/** The hash-chained advisory log of the catalog: serialiser, parser and verifier. */
module AdvisoryChain {
  import opened Text
  import opened CanonicalJson
  import opened JsonParser
  import opened HashChain
  import StableSort

  datatype AdvisoryKind = Security | Availability

  datatype Status = Revoked | Unavailable | Available

  datatype Event = Event(
    sequence: int,
    previousEventHash: Str,
    advisoryId: Str,
    skillId: Str,
    revision: Str,
    revisionSha256: Str,
    kind: AdvisoryKind,
    state: Status,
    reasonCode: Str,
    effectiveAt: Str,
    eventHash: Str)

  datatype ChainError =
    | Oversized | Unterminated | EmptyEvent | NotJson | InvalidEvent | NotCanonical
    | BadSequence | BadPreviousHash | BadEventHash | BadBinding | RevocationUndone | BadHead

  const MAX_CHAIN_BYTES := 2 * 1024 * 1024

  // ----- events as JSON records

  function KindText(kind: AdvisoryKind): Str {
    match kind
    case Security => Ascii("security")
    case Availability => Ascii("availability")
  }

  function StatusText(status: Status): Str {
    match status
    case Revoked => Ascii("revoked")
    case Unavailable => Ascii("unavailable")
    case Available => Ascii("available")
  }

  /** The keys of an event record; the last one is left out of what is hashed. */
  const KEYS: seq<Str> := [
    Ascii("sequence"), Ascii("previousEventHash"), Ascii("advisoryId"), Ascii("skillId"),
    Ascii("revision"), Ascii("revisionSha256"), Ascii("kind"), Ascii("state"),
    Ascii("reasonCode"), Ascii("effectiveAt"), Ascii("eventHash")]

  function ValuesOf(e: Event): (r: seq<Value>)
    ensures |r| == |KEYS|
  {
    [Num(e.sequence), Chars(e.previousEventHash), Chars(e.advisoryId), Chars(e.skillId),
     Chars(e.revision), Chars(e.revisionSha256), Chars(KindText(e.kind)),
     Chars(StatusText(e.state)), Chars(e.reasonCode), Chars(e.effectiveAt), Chars(e.eventHash)]
  }

  function FieldsOf(e: Event): seq<Field> { Zip(KEYS, ValuesOf(e)) }

  function RecordOf(e: Event): Value { Obj(FieldsOf(e)) }

  /** The record without its own hash. */
  function PreimageOf(e: Event): Value {
    Obj(Zip(KEYS[..|KEYS| - 1], ValuesOf(e)[..|KEYS| - 1]))
  }

  function EventText(e: Event): Str { CanonicalText(PreimageOf(e)) }

  function EventHash(hash: Str -> Str, e: Event): Str { hash(EventText(e)) }

  function Lookup(fields: seq<Field>, key: Str): Option<Value> {
    if fields == [] then None
    else if fields[0].key == key then Some(fields[0].value)
    else Lookup(fields[1..], key)
  }

  function KindOf(text: Str): Option<AdvisoryKind> {
    if text == KindText(Security) then Some(Security)
    else if text == KindText(Availability) then Some(Availability)
    else None
  }

  function StatusOf(text: Str): Option<Status> {
    if text == StatusText(Revoked) then Some(Revoked)
    else if text == StatusText(Unavailable) then Some(Unavailable)
    else if text == StatusText(Available) then Some(Available)
    else None
  }

  function CharsAt(fields: seq<Field>, k: nat): Option<Str>
    requires k < |KEYS|
  {
    match Lookup(fields, KEYS[k])
    case Some(Chars(s)) => Some(s)
    case _ => None
  }

  /** The typed event of a strict record: exactly the eleven keys, each of its type. */
  function EventOf(v: Value): Option<Event> {
    match v
    case Obj(fields) =>
      if |fields| != |KEYS| then None
      else
        (match (Lookup(fields, KEYS[0]), CharsAt(fields, 1), CharsAt(fields, 2),
                CharsAt(fields, 3), CharsAt(fields, 4), CharsAt(fields, 5), CharsAt(fields, 6),
                CharsAt(fields, 7), CharsAt(fields, 8), CharsAt(fields, 9), CharsAt(fields, 10))
         case (Some(Num(n)), Some(a), Some(b), Some(c), Some(d), Some(f), Some(g), Some(h),
               Some(i), Some(j), Some(k)) =>
           (match (KindOf(g), StatusOf(h))
            case (Some(kind), Some(state)) => Some(Event(n, a, b, c, d, f, kind, state, i, j, k))
            case _ => None)
         case _ => None)
    case _ => None
  }

  // ----- the schema

  predicate IsLowerAlnum(c: CodeUnit) { 97 <= c <= 122 || 48 <= c <= 57 }

  predicate IsAlnum(c: CodeUnit) { IsLowerAlnum(c) || 65 <= c <= 90 }

  /** Lower-case words joined by single hyphens. */
  predicate IsSlug(s: Str) {
    && s != [] && IsLowerAlnum(s[0]) && IsLowerAlnum(s[|s| - 1])
    && (forall i :: 0 <= i < |s| ==> IsLowerAlnum(s[i]) || s[i] == 45)
    && (forall i :: 0 < i < |s| && s[i] == 45 ==> s[i - 1] != 45)
  }

  predicate IsRevisionName(s: Str) {
    && s != [] && IsAlnum(s[0])
    && (forall i :: 0 <= i < |s| ==> IsAlnum(s[i]) || s[i] in {45, 46, 95})
    && s !in {Ascii("latest"), Ascii("main"), Ascii("master"), Ascii("HEAD")}
  }

  predicate IsReasonCode(s: Str) {
    s != [] && forall i :: 0 <= i < |s| ==> 65 <= s[i] <= 90 || 48 <= s[i] <= 57 || s[i] == 95
  }

  /** The event schema; isDatetime stands for the library's ISO 8601 check. */
  predicate SchemaValid(isDatetime: Str -> bool, e: Event) {
    && 1 <= e.sequence <= MAX_SAFE_INTEGER
    && IsHex(e.previousEventHash, 64) && IsHex(e.revisionSha256, 64) && IsHex(e.eventHash, 64)
    && 1 <= |e.advisoryId| <= 120
    && IsSlug(e.skillId) && |e.skillId| <= 80
    && IsRevisionName(e.revision) && |e.revision| <= 128
    && IsReasonCode(e.reasonCode) && |e.reasonCode| <= 120
    && isDatetime(e.effectiveAt)
    && (e.kind == Security <==> e.state == Revoked)
  }

  // ----- serialiser and parser

  function Texts(events: seq<Event>): (r: seq<Str>)
    ensures |r| == |events|
    ensures forall i :: 0 <= i < |events| ==> r[i] == CanonicalText(RecordOf(events[i]))
  {
    seq(|events|, i requires 0 <= i < |events| => CanonicalText(RecordOf(events[i])))
  }

  /** The serialised log: one canonical record a line. Fails where the printer does. */
  function SerializeAdvisoryChain(events: seq<Event>): Result<Str, CanonicalError> {
    if forall i :: 0 <= i < |events| ==> Canonicalize(RecordOf(events[i])).Success?
    then Success(Terminated(Texts(events)))
    else Failure(UnsafeNumber)
  }

  function ParseLine(isDatetime: Str -> bool, line: Str): Result<Event, ChainError> {
    if line == [] then Failure(EmptyEvent)
    else
      match JsonParse(line)
      case None => Failure(NotJson)
      case Some(v) =>
        match EventOf(v)
        case None => Failure(InvalidEvent)
        case Some(e) =>
          if !SchemaValid(isDatetime, e) then Failure(InvalidEvent)
          else if Canonicalize(RecordOf(e)) != Success(line) then Failure(NotCanonical)
          else Success(e)
  }

  /** Parses line by line; the first line refused is the refusal of the whole. */
  function ParseEach<T, E>(lines: seq<Str>, parse: Str -> Result<T, E>): Result<seq<T>, E> {
    if lines == [] then Success([])
    else
      match parse(lines[0])
      case Failure(err) => Failure(err)
      case Success(item) =>
        match ParseEach(lines[1..], parse)
        case Failure(err) => Failure(err)
        case Success(items) => Success([item] + items)
  }

  function LineParser(isDatetime: Str -> bool): Str -> Result<Event, ChainError> {
    (line: Str) => ParseLine(isDatetime, line)
  }

  function ParseAdvisoryChain(isDatetime: Str -> bool, text: Str): Result<seq<Event>, ChainError> {
    if Utf8Length(text) > MAX_CHAIN_BYTES then Failure(Oversized)
    else if text == [] then Success([])
    else if !EndsLine(text) then Failure(Unterminated)
    else ParseEach(BodyLines(text), LineParser(isDatetime))
  }

  // ----- records of events, read back

  lemma {:induction false} KeysDistinct()
    ensures AllDistinct(KEYS)
  {
    assert KEYS[0][0] == 's' as int && KEYS[4][0] == 'r' as int;
    assert KEYS[2][0] == 'a' as int && KEYS[8][0] == 'r' as int;
  }

  lemma {:induction false} RecordWellFormed(e: Event)
    ensures DistinctKeys(FieldsOf(e))
    ensures WellFormed(RecordOf(e)) && WellFormed(PreimageOf(e))
    ensures -MAX_SAFE_INTEGER <= e.sequence <= MAX_SAFE_INTEGER ==>
              Printable(RecordOf(e)) && Printable(PreimageOf(e))
  {
    KeysDistinct();
    var values := ValuesOf(e);
    forall i | 0 <= i < |KEYS|
      ensures WellFormed(values[i])
      ensures -MAX_SAFE_INTEGER <= e.sequence <= MAX_SAFE_INTEGER ==> Printable(values[i])
    {}
  }

  /** The names under which a line of the log holds the revision an event is about. */
  lemma {:induction false} RevisionSays(e: Event)
    ensures var v := RecordOf(e);
            && HasField(v, "sequence", Num(e.sequence)) && HasField(v, "advisoryId", Chars(e.advisoryId))
            && HasField(v, "previousEventHash", Chars(e.previousEventHash))
            && HasField(v, "skillId", Chars(e.skillId)) && HasField(v, "revision", Chars(e.revision))
            && HasField(v, "revisionSha256", Chars(e.revisionSha256))
  {
    hide HasField, KindText, StatusText;
    var vs := ValuesOf(e);
    ZipField(KEYS, vs, 0, "sequence");
    ZipField(KEYS, vs, 1, "previousEventHash");
    ZipField(KEYS, vs, 2, "advisoryId");
    ZipField(KEYS, vs, 3, "skillId");
    ZipField(KEYS, vs, 4, "revision");
    ZipField(KEYS, vs, 5, "revisionSha256");
  }

  /** The names under which it holds what the event says of it; there are no others. */
  lemma {:induction false} StateSays(e: Event)
    ensures var v := RecordOf(e);
            && HasField(v, "kind", Chars(if e.kind == Security then Ascii("security") else Ascii("availability")))
            && HasField(v, "state", Chars(
                 match e.state
                 case Revoked => Ascii("revoked")
                 case Unavailable => Ascii("unavailable")
                 case Available => Ascii("available")))
            && HasField(v, "reasonCode", Chars(e.reasonCode)) && HasField(v, "effectiveAt", Chars(e.effectiveAt))
            && HasField(v, "eventHash", Chars(e.eventHash)) && |v.fields| == 11
  {
    hide HasField;
    var vs := ValuesOf(e);
    ZipField(KEYS, vs, 6, "kind");
    ZipField(KEYS, vs, 7, "state");
    ZipField(KEYS, vs, 8, "reasonCode");
    ZipField(KEYS, vs, 9, "effectiveAt");
    ZipField(KEYS, vs, 10, "eventHash");
  }

  /** The hash of an event covers all of its record but the hash itself. */
  lemma {:induction false} PreimageLeavesHash(e: Event)
    ensures PreimageOf(e).fields == RecordOf(e).fields[..10]
  {
    hide KindText, StatusText;
  }

  lemma {:induction false} LookupPresent(fields: seq<Field>, i: nat)
    requires i < |fields| && DistinctKeys(fields)
    ensures Lookup(fields, fields[i].key) == Some(fields[i].value)
  {
    if i > 0 {
      LookupPresent(fields[1..], i - 1);
    }
  }

  /** Sorting the fields of a flat record does not change what its keys give. */
  lemma {:induction false} LookupSorted(e: Event, k: nat)
    requires k < |KEYS|
    ensures Normalize(RecordOf(e)).Obj?
    ensures |Normalize(RecordOf(e)).fields| == |KEYS|
    ensures Lookup(Normalize(RecordOf(e)).fields, KEYS[k]) == Some(ValuesOf(e)[k])
  {
    var mapped := NormalizeFields(FieldsOf(e));
    MappedFields(e, k);
    LookupInSorted(mapped, k);
  }

  lemma {:induction false} MappedFields(e: Event, k: nat)
    requires k < |KEYS|
    ensures var mapped := NormalizeFields(FieldsOf(e));
            |mapped| == |KEYS| && DistinctKeys(mapped) && mapped[k] == Field(KEYS[k], ValuesOf(e)[k])
  {
    KeysDistinct();
    var values := ValuesOf(e);
    assert Normalize(values[k]) == values[k];
  }

  lemma {:induction false} LookupInSorted(mapped: seq<Field>, k: nat)
    requires k < |mapped| && DistinctKeys(mapped)
    ensures var sorted := StableSort.Sort(mapped, KEY_ORDER);
            |sorted| == |mapped| && Lookup(sorted, mapped[k].key) == Some(mapped[k].value)
  {
    hide DistinctKeys, Lookup, StableSort.Sort;
    var sorted := StableSort.Sort(mapped, KEY_ORDER);
    StableSort.SortPermutes(mapped, KEY_ORDER);
    StableSort.SortMembers(mapped, KEY_ORDER);
    SortKeepsDistinctKeys(mapped);
    assert mapped[k] in sorted;
    var i :| 0 <= i < |sorted| && sorted[i] == mapped[k];
    LookupPresent(sorted, i);
  }

  lemma {:induction false} TextsDecode()
    ensures forall kind :: KindOf(KindText(kind)) == Some(kind)
    ensures forall status :: StatusOf(StatusText(status)) == Some(status)
  {
    assert |KindText(Security)| != |KindText(Availability)|;
    assert |StatusText(Revoked)| != |StatusText(Unavailable)|;
    assert |StatusText(Available)| != |StatusText(Unavailable)|;
    assert |StatusText(Available)| != |StatusText(Revoked)|;
  }

  lemma {:induction false} FieldsDecode(fields: seq<Field>, e: Event)
    requires |fields| == |KEYS|
    requires forall k :: 0 <= k < |KEYS| ==> Lookup(fields, KEYS[k]) == Some(ValuesOf(e)[k])
    ensures EventOf(Obj(fields)) == Some(e)
  {
    hide Lookup, EventOf;
    var vs := ValuesOf(e);
    assert CharsAt(fields, 1) == Some(e.previousEventHash);
    assert CharsAt(fields, 2) == Some(e.advisoryId) && CharsAt(fields, 3) == Some(e.skillId);
    assert CharsAt(fields, 4) == Some(e.revision) && CharsAt(fields, 5) == Some(e.revisionSha256);
    assert CharsAt(fields, 6) == Some(KindText(e.kind));
    assert CharsAt(fields, 7) == Some(StatusText(e.state));
    assert CharsAt(fields, 8) == Some(e.reasonCode) && CharsAt(fields, 9) == Some(e.effectiveAt);
    assert CharsAt(fields, 10) == Some(e.eventHash);
    assert Lookup(fields, KEYS[0]) == Some(Num(e.sequence));
    FieldsGiveEvent(fields, e);
  }

  lemma {:induction false} FieldsGiveEvent(fields: seq<Field>, e: Event)
    requires |fields| == |KEYS| && Lookup(fields, KEYS[0]) == Some(Num(e.sequence))
    requires CharsAt(fields, 1) == Some(e.previousEventHash)
    requires CharsAt(fields, 2) == Some(e.advisoryId) && CharsAt(fields, 3) == Some(e.skillId)
    requires CharsAt(fields, 4) == Some(e.revision) && CharsAt(fields, 5) == Some(e.revisionSha256)
    requires CharsAt(fields, 6) == Some(KindText(e.kind)) && CharsAt(fields, 7) == Some(StatusText(e.state))
    requires CharsAt(fields, 8) == Some(e.reasonCode) && CharsAt(fields, 9) == Some(e.effectiveAt)
    requires CharsAt(fields, 10) == Some(e.eventHash)
    ensures EventOf(Obj(fields)) == Some(e)
  {
    hide Lookup, CharsAt;
    TextsDecode();
  }

  lemma {:induction false} EventOfNormalized(e: Event)
    ensures EventOf(Normalize(RecordOf(e))) == Some(e)
  {
    var n := Normalize(RecordOf(e));
    LookupSorted(e, 0);
    forall k | 0 <= k < |KEYS|
      ensures Lookup(n.fields, KEYS[k]) == Some(ValuesOf(e)[k])
    {
      LookupSorted(e, k);
    }
    FieldsDecode(n.fields, e);
  }

  lemma {:induction false} ParseLineOfEvent(isDatetime: Str -> bool, e: Event)
    requires SchemaValid(isDatetime, e)
    ensures Canonicalize(RecordOf(e)) == Success(CanonicalText(RecordOf(e)))
    ensures OneLine(CanonicalText(RecordOf(e)))
    ensures ParseLine(isDatetime, CanonicalText(RecordOf(e))) == Success(e)
  {
    var line := CanonicalText(RecordOf(e));
    RecordWellFormed(e);
    CanonicalizeRoundTrip(RecordOf(e));
    assert OneLine(line);
    NormalizedWellFormed(RecordOf(e));
    JsonParseRendered(Normalize(RecordOf(e)));
    EventOfNormalized(e);
  }

  /** Parsing line by line succeeds with the items exactly when every line gives its item. */
  lemma {:induction false} ParseEachPointwise<T, E>(
      lines: seq<Str>, parse: Str -> Result<T, E>, items: seq<T>)
    ensures ParseEach(lines, parse) == Success(items)
       <==> |items| == |lines|
            && forall i :: 0 <= i < |lines| ==> parse(lines[i]) == Success(items[i])
  {
    if lines == [] {
    } else if items == [] {
    } else {
      ParseEachPointwise(lines[1..], parse, items[1..]);
      assert items == [items[0]] + items[1..];
    }
  }

  lemma {:induction false} ParseTerminated<T, E>(
      lines: seq<Str>, parse: Str -> Result<T, E>, items: seq<T>)
    requires lines != [] && |items| == |lines|
    requires forall i :: 0 <= i < |lines| ==> OneLine(lines[i]) && parse(lines[i]) == Success(items[i])
    ensures EndsLine(Terminated(lines))
    ensures ParseEach(BodyLines(Terminated(lines)), parse) == Success(items)
  {
    LinesOfTerminated(lines);
    ParseEachPointwise(lines, parse, items);
  }

  /** Parsing a serialised log of schema-valid events within the size limit returns the events. */
  lemma {:induction false} ParseSerialized(isDatetime: Str -> bool, events: seq<Event>)
    requires forall i :: 0 <= i < |events| ==> SchemaValid(isDatetime, events[i])
    ensures SerializeAdvisoryChain(events).Success?
    ensures Utf8Length(SerializeAdvisoryChain(events).value) <= MAX_CHAIN_BYTES ==>
              ParseAdvisoryChain(isDatetime, SerializeAdvisoryChain(events).value)
              == Success(events)
  {
    forall i | 0 <= i < |events|
      ensures IsLineOf(isDatetime, Texts(events)[i], events[i])
    {
      ParseLineOfEvent(isDatetime, events[i]);
    }
    if events != [] {
      LinesParse(isDatetime, Texts(events), events);
    }
  }

  ghost predicate IsLineOf(isDatetime: Str -> bool, line: Str, e: Event) {
    && Canonicalize(RecordOf(e)) == Success(line)
    && OneLine(line)
    && LineParser(isDatetime)(line) == Success(e)
  }

  lemma {:induction false} LinesParse(
      isDatetime: Str -> bool, lines: seq<Str>, events: seq<Event>)
    requires events != [] && |lines| == |events|
    requires forall i :: 0 <= i < |events| ==> IsLineOf(isDatetime, lines[i], events[i])
    ensures EndsLine(Terminated(lines))
    ensures ParseEach(BodyLines(Terminated(lines)), LineParser(isDatetime)) == Success(events)
  {
    var parse := LineParser(isDatetime);
    forall i | 0 <= i < |lines|
      ensures OneLine(lines[i]) && parse(lines[i]) == Success(events[i])
    {
      assert IsLineOf(isDatetime, lines[i], events[i]);
    }
    ParseTerminated(lines, parse, events);
  }

  lemma {:induction false} ParsedLine(isDatetime: Str -> bool, line: Str)
    requires ParseLine(isDatetime, line).Success?
    ensures var e := ParseLine(isDatetime, line).value;
            && SchemaValid(isDatetime, e)
            && Canonicalize(RecordOf(e)) == Success(line)
            && CanonicalText(RecordOf(e)) == line
  {}

  /** Serialising whatever the parser accepts returns the exact text: there is one text per log. */
  lemma {:induction false} SerializeParsed(isDatetime: Str -> bool, text: Str)
    requires ParseAdvisoryChain(isDatetime, text).Success?
    ensures SerializeAdvisoryChain(ParseAdvisoryChain(isDatetime, text).value) == Success(text)
    ensures var events := ParseAdvisoryChain(isDatetime, text).value;
            forall i :: 0 <= i < |events| ==> SchemaValid(isDatetime, events[i])
  {
    hide SchemaValid, RecordOf, CanonicalText, ParseEach;
    if text != [] {
      var lines := BodyLines(text);
      var events := ParseAdvisoryChain(isDatetime, text).value;
      ParsedLines(isDatetime, lines, events);
      TerminatedOfLines(text[..|text| - 1]);
      assert text == text[..|text| - 1] + [NEWLINE];
    }
  }

  lemma {:induction false} ParsedLines(isDatetime: Str -> bool, lines: seq<Str>, events: seq<Event>)
    requires ParseEach(lines, LineParser(isDatetime)) == Success(events)
    ensures Texts(events) == lines
    ensures forall i :: 0 <= i < |events| ==>
              SchemaValid(isDatetime, events[i]) && Canonicalize(RecordOf(events[i])).Success?
  {
    hide SchemaValid, RecordOf, CanonicalText, ParseEach, Canonicalize;
    ParseEachPointwise(lines, LineParser(isDatetime), events);
    forall i | 0 <= i < |lines|
      ensures SchemaValid(isDatetime, events[i])
      ensures Canonicalize(RecordOf(events[i])).Success? && Texts(events)[i] == lines[i]
    {
      assert LineParser(isDatetime)(lines[i]) == Success(events[i]);
      ParsedLine(isDatetime, lines[i]);
    }
  }

  // ----- the verifier

  function RevisionKey(skillId: Str, revision: Str): Str { skillId + [0] + revision }

  function KeyOf(e: Event): Str { RevisionKey(e.skillId, e.revision) }

  /** The state of the last event about a revision. */
  function LastState(events: seq<Event>, key: Str): Option<Status> {
    if events == [] then None
    else
      var last := events[|events| - 1];
      if KeyOf(last) == key then Some(last.state) else LastState(events[..|events| - 1], key)
  }

  function AdvisoryShape(): Shape<Event> {
    Shape(EventText, (e: Event) => e.previousEventHash, (e: Event) => e.eventHash)
  }

  /** What makes a log valid, event by event and independently of how it is checked. */
  ghost predicate ValidEvent(
      hash: Str -> Str, isDatetime: Str -> bool, events: seq<Event>, hashes: map<Str, Str>, i: nat)
    requires i < |events|
  {
    var e := events[i];
    && SchemaValid(isDatetime, e)
    && e.sequence == i + 1
    && e.previousEventHash == Head(events[..i], AdvisoryShape())
    && e.eventHash == EventHash(hash, e)
    && KeyOf(e) in hashes && hashes[KeyOf(e)] == e.revisionSha256
    && (forall j :: 0 <= j < i && KeyOf(events[j]) == KeyOf(e) && events[j].state == Revoked ==>
          e.state == Revoked)
  }

  ghost predicate ValidChain(
      hash: Str -> Str, isDatetime: Str -> bool, events: seq<Event>, hashes: map<Str, Str>)
  {
    forall i :: 0 <= i < |events| ==> ValidEvent(hash, isDatetime, events, hashes, i)
  }

  /** The first check event i fails, given that the events before it passed. */
  function EventError(
      hash: Str -> Str, isDatetime: Str -> bool, events: seq<Event>, hashes: map<Str, Str>, i: nat)
    : Option<ChainError>
    requires i < |events|
  {
    var e := events[i];
    if !SchemaValid(isDatetime, e) then Some(InvalidEvent)
    else if e.sequence != i + 1 then Some(BadSequence)
    else if e.previousEventHash != Head(events[..i], AdvisoryShape()) then Some(BadPreviousHash)
    else if e.eventHash != EventHash(hash, e) then Some(BadEventHash)
    else if KeyOf(e) !in hashes || hashes[KeyOf(e)] != e.revisionSha256 then Some(BadBinding)
    else if LastState(events[..i], KeyOf(e)) == Some(Revoked) && e.state != Revoked then
      Some(RevocationUndone)
    else None
  }

  datatype VerifiedChain = VerifiedChain(
    events: seq<Event>, head: Str, statusByRevision: map<Str, Status>)

  /** The status table of a log: the last state of every revision it mentions. */
  ghost predicate IsStatusTable(table: map<Str, Status>, events: seq<Event>) {
    forall key :: LastState(events, key) == if key in table then Some(table[key]) else None
  }

  /** A log is accepted exactly when it is valid and ends at the expected head; a refusal names
      the first check that fails on the first bad event. */
  method VerifyAdvisoryChain(
      hash: Str -> Str, isDatetime: Str -> bool, events: seq<Event>, hashes: map<Str, Str>,
      expectedHead: Option<Str>)
    returns (r: Result<VerifiedChain, ChainError>)
    ensures r.Success? <==>
              ValidChain(hash, isDatetime, events, hashes)
              && (expectedHead.Some? ==> expectedHead.value == Head(events, AdvisoryShape()))
    ensures r.Success? ==>
              && r.value.events == events
              && r.value.head == Head(events, AdvisoryShape())
              && IsStatusTable(r.value.statusByRevision, events)
    ensures r.Failure? && ValidChain(hash, isDatetime, events, hashes) ==> r.error == BadHead
    ensures r.Failure? && !ValidChain(hash, isDatetime, events, hashes) ==>
              exists i :: 0 <= i < |events|
                && ValidChain(hash, isDatetime, events[..i], hashes)
                && EventError(hash, isDatetime, events, hashes, i) == Some(r.error)
  {
    var statusByRevision: map<Str, Status> := map[];
    var previousEventHash := EMPTY_HEAD;
    for i := 0 to |events|
      invariant ValidChain(hash, isDatetime, events[..i], hashes)
      invariant previousEventHash == Head(events[..i], AdvisoryShape())
      invariant IsStatusTable(statusByRevision, events[..i])
    {
      var e := events[i];
      var key := KeyOf(e);
      ErrorIffInvalid(hash, isDatetime, events, hashes, i);
      assert LastState(events[..i], key) == Some(Revoked)
        <==> (if key in statusByRevision then statusByRevision[key] else Available) == Revoked;
      if !SchemaValid(isDatetime, e) { return Failure(InvalidEvent); }
      if e.sequence != i + 1 { return Failure(BadSequence); }
      if e.previousEventHash != previousEventHash { return Failure(BadPreviousHash); }
      if e.eventHash != EventHash(hash, e) { return Failure(BadEventHash); }
      if key !in hashes || hashes[key] != e.revisionSha256 { return Failure(BadBinding); }
      var current := if key in statusByRevision then statusByRevision[key] else Available;
      if current == Revoked && e.state != Revoked { return Failure(RevocationUndone); }
      assert events[..i + 1][..i] == events[..i] && events[..i + 1][i] == e;
      ValidChainExtends(hash, isDatetime, events, hashes, i);
      statusByRevision := statusByRevision[key := e.state];
      previousEventHash := e.eventHash;
    }
    assert events[..|events|] == events;
    if expectedHead.Some? && expectedHead.value != previousEventHash {
      return Failure(BadHead);
    }
    return Success(VerifiedChain(events, previousEventHash, statusByRevision));
  }

  lemma {:induction false} ValidChainPrefix(
      hash: Str -> Str, isDatetime: Str -> bool, events: seq<Event>, hashes: map<Str, Str>, n: nat)
    requires n <= |events|
    requires ValidChain(hash, isDatetime, events, hashes)
    ensures ValidChain(hash, isDatetime, events[..n], hashes)
  {
    forall i | 0 <= i < n
      ensures ValidEvent(hash, isDatetime, events[..n], hashes, i)
    {
      assert ValidEvent(hash, isDatetime, events, hashes, i);
      assert events[..n][..i + 1] == events[..i + 1];
      ValidEventLocal(hash, isDatetime, events, events[..n], hashes, i);
    }
  }

  lemma {:induction false} ValidChainExtends(
      hash: Str -> Str, isDatetime: Str -> bool, events: seq<Event>, hashes: map<Str, Str>, i: nat)
    requires i < |events|
    requires ValidChain(hash, isDatetime, events[..i], hashes)
    ensures ValidChain(hash, isDatetime, events[..i + 1], hashes)
       <==> ValidEvent(hash, isDatetime, events, hashes, i)
  {
    var longer, shorter := events[..i + 1], events[..i];
    forall k | 0 <= k < i
      ensures ValidEvent(hash, isDatetime, longer, hashes, k)
    {
      assert ValidEvent(hash, isDatetime, shorter, hashes, k);
      assert shorter[..k + 1] == longer[..k + 1];
      ValidEventLocal(hash, isDatetime, shorter, longer, hashes, k);
    }
    assert longer[..i + 1] == events[..i + 1];
    ValidEventLocal(hash, isDatetime, longer, events, hashes, i);
  }

  /** Whether an event is valid depends on nothing after it. */
  lemma {:induction false} ValidEventLocal(
      hash: Str -> Str, isDatetime: Str -> bool, a: seq<Event>, b: seq<Event>,
      hashes: map<Str, Str>, k: nat)
    requires k < |a| && k < |b| && a[..k + 1] == b[..k + 1]
    ensures ValidEvent(hash, isDatetime, a, hashes, k)
       <==> ValidEvent(hash, isDatetime, b, hashes, k)
  {
    assert a[k] == a[..k + 1][k] && b[k] == b[..k + 1][k];
    assert a[..k] == a[..k + 1][..k] && b[..k] == b[..k + 1][..k];
    forall j | 0 <= j < k
      ensures a[j] == b[j]
    {
      assert a[j] == a[..k + 1][j] && b[j] == b[..k + 1][j];
    }
  }

  /** In a valid log the last state about a revision is revoked as soon as any state was:
      revocation is final. */
  lemma {:induction false} RevokedIsFinal(
      hash: Str -> Str, isDatetime: Str -> bool, events: seq<Event>, hashes: map<Str, Str>, key: Str)
    requires ValidChain(hash, isDatetime, events, hashes)
    ensures LastState(events, key) == Some(Revoked)
       <==> exists j :: 0 <= j < |events| && KeyOf(events[j]) == key && events[j].state == Revoked
  {
    if events != [] {
      var n := |events| - 1;
      var shorter := events[..n];
      ValidChainPrefix(hash, isDatetime, events, hashes, n);
      RevokedIsFinal(hash, isDatetime, shorter, hashes, key);
      assert ValidEvent(hash, isDatetime, events, hashes, n);
      if j :| 0 <= j < |events| && KeyOf(events[j]) == key && events[j].state == Revoked {
        if j < n {
          assert shorter[j] == events[j];
        }
      }
    }
  }

  lemma {:induction false} ErrorIffInvalid(
      hash: Str -> Str, isDatetime: Str -> bool, events: seq<Event>, hashes: map<Str, Str>, i: nat)
    requires i < |events|
    requires ValidChain(hash, isDatetime, events[..i], hashes)
    ensures EventError(hash, isDatetime, events, hashes, i).None?
       <==> ValidEvent(hash, isDatetime, events, hashes, i)
    ensures EventError(hash, isDatetime, events, hashes, i).Some? ==>
              !ValidChain(hash, isDatetime, events, hashes)
  {
    var key := KeyOf(events[i]);
    RevokedIsFinal(hash, isDatetime, events[..i], hashes, key);
    assert forall j :: 0 <= j < i ==> events[..i][j] == events[j];
  }

  // ----- one head, one history

  lemma {:induction false} EventTextFaithful(isDatetime: Str -> bool, e: Event, f: Event)
    requires SchemaValid(isDatetime, e) && SchemaValid(isDatetime, f)
    requires EventText(e) == EventText(f)
    ensures e.(eventHash := f.eventHash) == f
  {
    RecordWellFormed(e);
    RecordWellFormed(f);
    CanonicalizeRoundTrip(PreimageOf(e));
    CanonicalizeRoundTrip(PreimageOf(f));
    CanonicalizeInjective(PreimageOf(e), PreimageOf(f));
    KeysDistinct();
    var n := |KEYS| - 1;
    SameRecordSameValues(KEYS[..n], ValuesOf(e)[..n], ValuesOf(f)[..n]);
    forall i | 0 <= i < n
      ensures SameValue(ValuesOf(e)[i], ValuesOf(f)[i])
    {
      assert ValuesOf(e)[..n][i] == ValuesOf(e)[i] && ValuesOf(f)[..n][i] == ValuesOf(f)[i];
    }
    SameValuesSameEvent(e, f);
  }

  lemma {:induction false} SameValuesSameEvent(e: Event, f: Event)
    requires forall i :: 0 <= i < |KEYS| - 1 ==> SameValue(ValuesOf(e)[i], ValuesOf(f)[i])
    ensures e.(eventHash := f.eventHash) == f
  {
    var vs, ws := ValuesOf(e), ValuesOf(f);
    assert SameValue(vs[0], ws[0]) && SameValue(vs[1], ws[1]) && SameValue(vs[2], ws[2]);
    assert SameValue(vs[3], ws[3]) && SameValue(vs[4], ws[4]) && SameValue(vs[5], ws[5]);
    assert SameValue(vs[6], ws[6]) && SameValue(vs[7], ws[7]) && SameValue(vs[8], ws[8]);
    assert SameValue(vs[9], ws[9]);
    TextsDecode();
    assert KindOf(KindText(e.kind)) == KindOf(KindText(f.kind));
    assert StatusOf(StatusText(e.state)) == StatusOf(StatusText(f.state));
  }

  /** Two logs that verify to the same head are the same log, event by event, unless hashed texts
      of their own collide or hash to the empty head. */
  lemma {:induction false} SameHeadSameChain(
      hash: Str -> Str, isDatetime: Str -> bool, a: seq<Event>, b: seq<Event>,
      hashesA: map<Str, Str>, hashesB: map<Str, Str>)
    requires ValidChain(hash, isDatetime, a, hashesA)
    requires ValidChain(hash, isDatetime, b, hashesB)
    requires Head(a, AdvisoryShape()) == Head(b, AdvisoryShape())
    ensures a == b || Broken(hash, AdvisoryShape(), a, b)
  {
    var shape := AdvisoryShape();
    var valid := (e: Event) => SchemaValid(isDatetime, e);
    forall e, f | valid(e) && valid(f)
      ensures TextDecides(shape, e, f)
    {
      if shape.text(e) == shape.text(f) {
        EventTextFaithful(isDatetime, e, f);
      }
    }
    ValidChainLinked(hash, isDatetime, a, hashesA);
    ValidChainLinked(hash, isDatetime, b, hashesB);
    OneHeadOneHistory(hash, valid, shape, a, b);
  }

  lemma {:induction false} ValidChainLinked(
      hash: Str -> Str, isDatetime: Str -> bool, events: seq<Event>, hashes: map<Str, Str>)
    requires ValidChain(hash, isDatetime, events, hashes)
    ensures Linked(hash, events, AdvisoryShape())
    ensures forall i :: 0 <= i < |events| ==> SchemaValid(isDatetime, events[i])
  {
    forall i | 0 <= i < |events|
      ensures LinkedAt(hash, events, AdvisoryShape(), i)
      ensures SchemaValid(isDatetime, events[i])
    {
      assert ValidEvent(hash, isDatetime, events, hashes, i);
    }
  }

  // ----- status lookup

  function AdvisoryStatusFor(chain: VerifiedChain, skillId: Str, revision: Str): Status {
    var key := RevisionKey(skillId, revision);
    if key in chain.statusByRevision then chain.statusByRevision[key] else Available
  }

  /** Event j is the last that is about a revision of a skill. */
  predicate IsLastAbout(events: seq<Event>, skillId: Str, revision: Str, j: nat) {
    && j < |events| && events[j].skillId == skillId && events[j].revision == revision
    && forall k :: j < k < |events| ==> events[k].skillId != skillId || events[k].revision != revision
  }

  /** Looking a revision up in a verified log gives the state of the last event about it, and
      available when there is none; it is revoked as soon as any event about it was a revocation. */
  lemma {:induction false} StatusIsLastState(
      hash: Str -> Str, isDatetime: Str -> bool, chain: VerifiedChain, hashes: map<Str, Str>,
      skillId: Str, revision: Str)
    requires ValidChain(hash, isDatetime, chain.events, hashes)
    requires IsStatusTable(chain.statusByRevision, chain.events)
    ensures var events, status := chain.events, AdvisoryStatusFor(chain, skillId, revision);
            && (status == Revoked <==>
                  exists j :: 0 <= j < |events| && events[j].skillId == skillId
                              && events[j].revision == revision && events[j].state == Revoked)
            && status == (if LastState(events, RevisionKey(skillId, revision)).Some?
                          then LastState(events, RevisionKey(skillId, revision)).value else Available)
            && (forall j: nat :: IsLastAbout(events, skillId, revision, j) ==> status == events[j].state)
            && ((forall j :: 0 <= j < |events| ==>
                   events[j].skillId != skillId || events[j].revision != revision) ==> status == Available)
  {
    var key, events := RevisionKey(skillId, revision), chain.events;
    RevokedIsFinal(hash, isDatetime, events, hashes, key);
    ValidChainLinked(hash, isDatetime, events, hashes);
    forall j | 0 <= j < |events|
      ensures KeyOf(events[j]) == key <==> events[j].skillId == skillId && events[j].revision == revision
    {
      KeyNamesRevision(isDatetime, events[j], skillId, revision);
    }
    assert LastState(events, key) ==
           if key in chain.statusByRevision then Some(chain.statusByRevision[key]) else None;
    hide ValidChain, SchemaValid, RevisionKey;
    forall j: nat | IsLastAbout(events, skillId, revision, j)
      ensures AdvisoryStatusFor(chain, skillId, revision) == events[j].state
    {
      LastStateAt(events, key, j);
    }
    if forall j :: 0 <= j < |events| ==> KeyOf(events[j]) != key {
      NoEventNoState(events, key);
    }
  }

  lemma {:induction false} LastStateAt(events: seq<Event>, key: Str, j: nat)
    requires j < |events| && KeyOf(events[j]) == key
    requires forall k :: j < k < |events| ==> KeyOf(events[k]) != key
    ensures LastState(events, key) == Some(events[j].state)
  {
    if j < |events| - 1 {
      LastStateAt(events[..|events| - 1], key, j);
    }
  }

  /** Whatever is looked up, an event's key is that of its own skill and revision only. */
  lemma {:induction false} KeyNamesRevision(isDatetime: Str -> bool, e: Event, skillId: Str, revision: Str)
    requires SchemaValid(isDatetime, e)
    ensures KeyOf(e) == RevisionKey(skillId, revision) <==> e.skillId == skillId && e.revision == revision
  {
    if KeyOf(e) == RevisionKey(skillId, revision) {
      var m, n := |e.skillId|, |skillId|;
      OneNul(isDatetime, e, n);
      assert RevisionKey(skillId, revision)[n] == 0;
      assert e.skillId == KeyOf(e)[..m] && skillId == RevisionKey(skillId, revision)[..n];
      assert e.revision == KeyOf(e)[m + 1..] && revision == RevisionKey(skillId, revision)[n + 1..];
    }
  }

  lemma {:induction false} OneNul(isDatetime: Str -> bool, e: Event, n: nat)
    requires SchemaValid(isDatetime, e) && n < |KeyOf(e)| && KeyOf(e)[n] == 0
    ensures n == |e.skillId|
  {
    assert forall i :: 0 <= i < |e.skillId| ==> e.skillId[i] != 0;
    assert forall i :: 0 <= i < |e.revision| ==> e.revision[i] != 0;
  }

  lemma {:induction false} NoEventNoState(events: seq<Event>, key: Str)
    requires forall j :: 0 <= j < |events| ==> KeyOf(events[j]) != key
    ensures LastState(events, key) == None
  {
    if events != [] {
      NoEventNoState(events[..|events| - 1], key);
    }
  }

  /** Keys of schema-valid events name one revision each: a skill id holds no NUL. */
  lemma {:induction false} RevisionKeyInjective(isDatetime: Str -> bool, e: Event, f: Event)
    requires SchemaValid(isDatetime, e) && SchemaValid(isDatetime, f)
    requires KeyOf(e) == KeyOf(f)
    ensures e.skillId == f.skillId && e.revision == f.revision
  {
    KeyNamesRevision(isDatetime, e, f.skillId, f.revision);
  }
}
