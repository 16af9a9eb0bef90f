/** The canonical JSON printer on which every hash of the program rests. */
module CanonicalJson {
  import opened Text
  import opened StableSort

  /** A run-time value. Inexact is a number that is no integer; Foreign is anything JSON cannot
      carry (functions, big integers, symbols); Undefined may sit in a record explicitly. */
  datatype Value =
    | Null
    | Bool(b: bool)
    | Num(n: int)
    | Inexact
    | Chars(s: Str)
    | Arr(items: seq<Value>)
    | Obj(fields: seq<Field>)
    | Undefined
    | Foreign

  /** An own property of a record; fields are listed in insertion order. */
  datatype Field = Field(key: Str, value: Value)

  datatype CanonicalError = UnsafeNumber | NotJsonData | UndefinedField

  const MAX_SAFE_INTEGER := 9007199254740991

  // ----- key order: comparison by UTF-16 code units

  predicate LexLe(a: Str, b: Str) {
    a == [] || (b != [] && (a[0] < b[0] || (a[0] == b[0] && LexLe(a[1..], b[1..]))))
  }

  const KEY_ORDER: (Field, Field) -> bool := (a: Field, b: Field) => LexLe(a.key, b.key)

  lemma {:induction false} LexTotal(a: Str, b: Str)
    ensures LexLe(a, b) || LexLe(b, a)
    ensures LexLe(a, b) && LexLe(b, a) ==> a == b
  {
    if a != [] && b != [] {
      LexTotal(a[1..], b[1..]);
      assert a == [a[0]] + a[1..] && b == [b[0]] + b[1..];
    }
  }

  lemma {:induction false} LexTransitive(a: Str, b: Str, c: Str)
    requires LexLe(a, b) && LexLe(b, c)
    ensures LexLe(a, c)
  {
    if a != [] && a[0] == b[0] == c[0] {
      LexTransitive(a[1..], b[1..], c[1..]);
    }
  }

  lemma {:induction false} KeyOrderIsTotal()
    ensures TotalPreorder(KEY_ORDER)
  {
    forall a, b
      ensures KEY_ORDER(a, b) || KEY_ORDER(b, a)
    {
      LexTotal(a.key, b.key);
    }
    forall a, b, c | KEY_ORDER(a, b) && KEY_ORDER(b, c)
      ensures KEY_ORDER(a, c)
    {
      LexTransitive(a.key, b.key, c.key);
    }
  }

  // ----- well-formed and printable values

  /** No two own properties of a record share a key. */
  predicate DistinctKeys(fields: seq<Field>) {
    forall i, j :: 0 <= i < j < |fields| ==> fields[i].key != fields[j].key
  }

  predicate WellFormed(v: Value)
    decreases v, 1
  {
    match v
    case Arr(items) => forall i :: 0 <= i < |items| ==> WellFormed(items[i])
    case Obj(fields) =>
      DistinctKeys(fields) && forall i :: 0 <= i < |fields| ==> WellFormed(fields[i].value)
    case _ => true
  }

  predicate Printable(v: Value)
    decreases v, 1
  {
    match v
    case Num(n) => -MAX_SAFE_INTEGER <= n <= MAX_SAFE_INTEGER
    case Arr(items) => forall i :: 0 <= i < |items| ==> Printable(items[i])
    case Obj(fields) => forall i :: 0 <= i < |fields| ==> Printable(fields[i].value)
    case Inexact | Undefined | Foreign => false
    case _ => true
  }

  /** The first thing that stops the printer, in printing order. */
  function Obstacle(v: Value): Option<CanonicalError>
    decreases v, 1
  {
    match v
    case Num(n) => if -MAX_SAFE_INTEGER <= n <= MAX_SAFE_INTEGER then None else Some(UnsafeNumber)
    case Inexact => Some(UnsafeNumber)
    case Undefined | Foreign => Some(NotJsonData)
    case Arr(items) => ItemsObstacle(items)
    case Obj(fields) => FieldsObstacle(fields)
    case _ => None
  }

  function ItemsObstacle(items: seq<Value>): Option<CanonicalError>
    decreases items, 0
  {
    if items == [] then None
    else if Obstacle(items[0]).Some? then Obstacle(items[0])
    else ItemsObstacle(items[1..])
  }

  function FieldsObstacle(fields: seq<Field>): Option<CanonicalError>
    decreases fields, 0
  {
    if fields == [] then None
    else if fields[0].value.Undefined? then Some(UndefinedField)
    else if Obstacle(fields[0].value).Some? then Obstacle(fields[0].value)
    else FieldsObstacle(fields[1..])
  }

  lemma {:induction false} ObstacleIffUnprintable(v: Value)
    ensures Obstacle(v).None? <==> Printable(v)
    decreases v, 1
  {
    match v
    case Arr(items) => ItemsObstacleIff(items);
    case Obj(fields) => FieldsObstacleIff(fields);
    case _ =>
  }

  lemma {:induction false} ItemsObstacleIff(items: seq<Value>)
    ensures ItemsObstacle(items).None? <==> forall i :: 0 <= i < |items| ==> Printable(items[i])
    decreases items, 0
  {
    if items != [] {
      ObstacleIffUnprintable(items[0]);
      ItemsObstacleIff(items[1..]);
      assert items == [items[0]] + items[1..];
    }
  }

  lemma {:induction false} FieldsObstacleIff(fields: seq<Field>)
    ensures FieldsObstacle(fields).None?
       <==> forall i :: 0 <= i < |fields| ==> Printable(fields[i].value)
    decreases fields, 0
  {
    if fields != [] {
      ObstacleIffUnprintable(fields[0].value);
      FieldsObstacleIff(fields[1..]);
      assert fields == [fields[0]] + fields[1..];
    }
  }

  // ----- sorting the keys of every record

  function Normalize(v: Value): Value
    decreases v, 1
  {
    match v
    case Arr(items) => Arr(NormalizeItems(items))
    case Obj(fields) => Obj(Sort(NormalizeFields(fields), KEY_ORDER))
    case _ => v
  }

  function NormalizeItems(items: seq<Value>): (r: seq<Value>)
    ensures |r| == |items|
    ensures forall i :: 0 <= i < |items| ==> r[i] == Normalize(items[i])
    decreases items, 0
  {
    if items == [] then [] else [Normalize(items[0])] + NormalizeItems(items[1..])
  }

  function NormalizeFields(fields: seq<Field>): (r: seq<Field>)
    ensures |r| == |fields|
    ensures forall i :: 0 <= i < |fields| ==>
              r[i] == Field(fields[i].key, Normalize(fields[i].value))
    decreases fields, 0
  {
    if fields == [] then []
    else [Field(fields[0].key, Normalize(fields[0].value))] + NormalizeFields(fields[1..])
  }

  // ----- JSON text of a value, in the order its fields are listed

  function Render(v: Value): Str
    decreases v, 1
  {
    match v
    case Null => Ascii("null")
    case Bool(b) => if b then Ascii("true") else Ascii("false")
    case Num(n) => if n < 0 then [MINUS] + Decimal(-n) else Decimal(n)
    case Chars(s) => Quoted(s)
    case Arr(items) => [OPEN_BRACKET] + RenderItems(items) + [CLOSE_BRACKET]
    case Obj(fields) => [OPEN_BRACE] + RenderFields(fields) + [CLOSE_BRACE]
    case Inexact | Undefined | Foreign => []
  }

  function RenderItems(items: seq<Value>): Str
    decreases items, 0
  {
    if items == [] then []
    else if |items| == 1 then Render(items[0])
    else Render(items[0]) + [COMMA] + RenderItems(items[1..])
  }

  function RenderFields(fields: seq<Field>): Str
    decreases fields, 0
  {
    if fields == [] then []
    else if |fields| == 1 then RenderField(fields[0])
    else RenderField(fields[0]) + [COMMA] + RenderFields(fields[1..])
  }

  function RenderField(field: Field): Str
    decreases field, 0
  {
    Quoted(field.key) + [COLON] + Render(field.value)
  }

  const QUOTE: CodeUnit := 0x22
  const COMMA: CodeUnit := 0x2C
  const MINUS: CodeUnit := 0x2D
  const OPEN_BRACKET: CodeUnit := 0x5B
  const BACKSLASH: CodeUnit := 0x5C
  const CLOSE_BRACKET: CodeUnit := 0x5D
  const OPEN_BRACE: CodeUnit := 0x7B
  const CLOSE_BRACE: CodeUnit := 0x7D
  const LETTER_U: CodeUnit := 0x75

  function Decimal(n: nat): Str {
    if n < 10 then [48 + n] else Decimal(n / 10) + [48 + n % 10]
  }

  function Quoted(s: Str): Str { [QUOTE] + Escape(s) + [QUOTE] }

  /** String contents with the escapes of section 7 of RFC 8259 that the printer uses;
      a surrogate is written out only as half of a pair. */
  function Escape(s: Str): Str {
    if s == [] then []
    else if StartsWithPair(s) then [s[0], s[1]] + Escape(s[2..])
    else EscapeUnit(s[0]) + Escape(s[1..])
  }

  function EscapeUnit(c: CodeUnit): Str {
    if c == QUOTE then [BACKSLASH, QUOTE]
    else if c == BACKSLASH then [BACKSLASH, BACKSLASH]
    else if c == 8 then [BACKSLASH, 0x62]
    else if c == 9 then [BACKSLASH, 0x74]
    else if c == 10 then [BACKSLASH, 0x6E]
    else if c == 12 then [BACKSLASH, 0x66]
    else if c == 13 then [BACKSLASH, 0x72]
    else if c < 0x20 || IsHighSurrogate(c) || IsLowSurrogate(c) then
      [BACKSLASH, LETTER_U,
       HexDigit(c / 4096), HexDigit(c / 256 % 16), HexDigit(c / 16 % 16), HexDigit(c % 16)]
    else [c]
  }

  function HexDigit(d: nat): CodeUnit
    requires d < 16
  {
    if d < 10 then 48 + d else 87 + d
  }

  // ----- the printer

  function CanonicalText(v: Value): Str { Render(Normalize(v)) }

  function Canonicalize(v: Value): Result<Str, CanonicalError> {
    match Obstacle(Normalize(v))
    case Some(e) => Failure(e)
    case None => Success(CanonicalText(v))
  }

  // ----- values that are the same up to the order of record keys

  predicate SameValue(a: Value, b: Value)
    decreases a, 1
  {
    match (a, b)
    case (Arr(xs), Arr(ys)) =>
      |xs| == |ys| && forall i :: 0 <= i < |xs| ==> SameValue(xs[i], ys[i])
    case (Obj(fs), Obj(gs)) => CoveredBy(fs, gs) && forall g :: g in gs ==> HasKey(fs, g.key)
    case _ => a == b
  }

  /** Every field of fs has a field of gs with its key and the same value. */
  predicate CoveredBy(fs: seq<Field>, gs: seq<Field>)
    decreases fs, 0
  {
    forall i :: 0 <= i < |fs| ==> HasTwin(fs[i], gs)
  }

  predicate HasTwin(f: Field, gs: seq<Field>)
    decreases f, 0
  {
    exists j :: 0 <= j < |gs| && IsTwin(f, gs[j])
  }

  predicate IsTwin(f: Field, g: Field)
    decreases f, 0, 0
  {
    f.key == g.key && SameValue(f.value, g.value)
  }

  predicate HasKey(fs: seq<Field>, key: Str) {
    exists i :: 0 <= i < |fs| && fs[i].key == key
  }

  lemma {:induction false} MultisetOfDistinct<T>(s: seq<T>)
    requires forall i, j :: 0 <= i < j < |s| ==> s[i] != s[j]
    ensures forall x :: x in s ==> multiset(s)[x] == 1
  {
    if s != [] {
      MultisetOfDistinct(s[1..]);
      assert s == [s[0]] + s[1..];
    }
  }

  lemma {:induction false} DistinctSameMembers<T(!new)>(a: seq<T>, b: seq<T>)
    requires forall i, j :: 0 <= i < j < |a| ==> a[i] != a[j]
    requires forall i, j :: 0 <= i < j < |b| ==> b[i] != b[j]
    requires forall x :: x in a <==> x in b
    ensures multiset(a) == multiset(b)
  {
    MultisetOfDistinct(a);
    MultisetOfDistinct(b);
    forall x
      ensures multiset(a)[x] == multiset(b)[x]
    {
      assert x in a <==> x in multiset(a);
      assert x in b <==> x in multiset(b);
    }
  }

  lemma {:induction false} NormalizedWellFormed(v: Value)
    requires WellFormed(v)
    ensures WellFormed(Normalize(v))
    ensures Printable(Normalize(v)) <==> Printable(v)
    decreases v
  {
    match v
    case Arr(items) =>
      forall i | 0 <= i < |items|
        ensures WellFormed(Normalize(items[i]))
        ensures Printable(Normalize(items[i])) <==> Printable(items[i])
      {
        NormalizedWellFormed(items[i]);
      }
    case Obj(fields) =>
      var mapped := NormalizeFields(fields);
      var sorted := Sort(mapped, KEY_ORDER);
      forall i | 0 <= i < |fields|
        ensures WellFormed(mapped[i].value)
        ensures Printable(mapped[i].value) <==> Printable(fields[i].value)
      {
        NormalizedWellFormed(fields[i].value);
      }
      SortedWellFormed(mapped);
      assert forall i :: 0 <= i < |fields| ==> mapped[i].key == fields[i].key;
    case _ =>
  }

  /** Sorting its fields changes neither whether a record is well formed nor whether it prints. */
  lemma {:induction false} SortedWellFormed(mapped: seq<Field>)
    requires DistinctKeys(mapped) && forall i :: 0 <= i < |mapped| ==> WellFormed(mapped[i].value)
    ensures var sorted := Sort(mapped, KEY_ORDER);
            && WellFormed(Obj(sorted))
            && (Printable(Obj(sorted)) <==> forall i :: 0 <= i < |mapped| ==> Printable(mapped[i].value))
  {
    var sorted := Sort(mapped, KEY_ORDER);
    SortMembers(mapped, KEY_ORDER);
    SortKeepsDistinctKeys(mapped);
    hide Sort, KEY_ORDER;
    forall i | 0 <= i < |sorted|
      ensures sorted[i] in mapped
    {
      assert sorted[i] in sorted;
    }
    forall i | 0 <= i < |mapped|
      ensures mapped[i] in sorted
    {
      assert mapped[i] in mapped;
    }
  }

  lemma {:induction false} SortKeepsDistinctKeys(fields: seq<Field>)
    requires DistinctKeys(fields)
    ensures DistinctKeys(Sort(fields, KEY_ORDER))
  {
    var sorted := Sort(fields, KEY_ORDER);
    SortPermutes(fields, KEY_ORDER);
    SortMembers(fields, KEY_ORDER);
    MultisetOfDistinct(fields);
    forall i, j | 0 <= i < j < |sorted|
      ensures sorted[i].key != sorted[j].key
    {
      assert sorted[i] in fields && sorted[j] in fields;
      if sorted[i] == sorted[j] {
        TwiceInSequence(sorted, i, j);
        assert false;
      }
    }
  }

  lemma {:induction false} TwiceInSequence<T>(s: seq<T>, i: nat, j: nat)
    requires i < j < |s| && s[i] == s[j]
    ensures multiset(s)[s[i]] >= 2
  {
    assert s == s[..j] + s[j..];
    assert s[..j][i] in s[..j] && s[j..][0] in s[j..];
    assert multiset(s) == multiset(s[..j]) + multiset(s[j..]);
  }

  /** Sorting the keys changes nothing but their order, and forgets exactly that. */
  lemma {:induction false} NormalizeDecidesSameValue(a: Value, b: Value)
    requires WellFormed(a) && WellFormed(b)
    ensures Normalize(a) == Normalize(b) <==> SameValue(a, b)
    decreases a, 1
  {
    match (a, b)
    case (Arr(xs), Arr(ys)) =>
      if |xs| == |ys| {
        forall i | 0 <= i < |xs|
          ensures Normalize(xs[i]) == Normalize(ys[i]) <==> SameValue(xs[i], ys[i])
        {
          NormalizeDecidesSameValue(xs[i], ys[i]);
        }
        var ns, ms := NormalizeItems(xs), NormalizeItems(ys);
        if SameValue(a, b) {
          assert ns == ms;
        }
        if ns == ms {
          forall i | 0 <= i < |xs|
            ensures SameValue(xs[i], ys[i])
          {
            assert ns[i] == ms[i];
          }
        }
      }
    case (Obj(fs), Obj(gs)) =>
      forall i, j | 0 <= i < |fs| && 0 <= j < |gs|
        ensures DecidedPair(fs[i].value, gs[j].value)
      {
        NormalizeDecidesSameValue(fs[i].value, gs[j].value);
      }
      if SameValue(a, b) {
        SameFieldsSortAlike(fs, gs);
      }
      if Normalize(a) == Normalize(b) {
        SortedAlikeCovers(fs, gs);
      }
    case _ =>
  }

  /** Normalisation decides sameness for every pair of field values. */
  ghost predicate DecidedFields(fs: seq<Field>, gs: seq<Field>) {
    forall i, j :: 0 <= i < |fs| && 0 <= j < |gs| ==> DecidedPair(fs[i].value, gs[j].value)
  }

  predicate DecidedPair(x: Value, y: Value) {
    Normalize(x) == Normalize(y) <==> SameValue(x, y)
  }

  lemma {:induction false} SameFieldsSortAlike(fs: seq<Field>, gs: seq<Field>)
    requires DistinctKeys(fs) && DistinctKeys(gs)
    requires DecidedFields(fs, gs)
    requires CoveredBy(fs, gs) && forall g :: g in gs ==> HasKey(fs, g.key)
    ensures Sort(NormalizeFields(fs), KEY_ORDER) == Sort(NormalizeFields(gs), KEY_ORDER)
  {
    var ns, ms := NormalizeFields(fs), NormalizeFields(gs);
    hide DecidedFields, CoveredBy, Sort, HasKey, Normalize;
    forall i | 0 <= i < |ns|
      ensures ns[i] in ms
    {
      var j := TwinOf(fs, gs, i);
      assert ms[j] in ms;
    }
    forall j | 0 <= j < |ms|
      ensures ms[j] in ns
    {
      var i := TwinTo(fs, gs, j);
      assert ns[i] in ns;
    }
    assert forall x :: x in ns ==> x in ms;
    assert forall x :: x in ms ==> x in ns;
    SameMembersSortAlike(ns, ms);
  }

  lemma {:induction false} TwinOf(fs: seq<Field>, gs: seq<Field>, i: nat) returns (j: nat)
    requires i < |fs|
    requires DecidedFields(fs, gs)
    requires CoveredBy(fs, gs)
    ensures j < |gs| && gs[j].key == fs[i].key
    ensures NormalizeFields(gs)[j] == NormalizeFields(fs)[i]
  {
    assert HasTwin(fs[i], gs);
    j :| 0 <= j < |gs| && IsTwin(fs[i], gs[j]);
    assert DecidedPair(fs[i].value, gs[j].value);
  }

  lemma {:induction false} TwinTo(fs: seq<Field>, gs: seq<Field>, j: nat) returns (i: nat)
    requires j < |gs| && DistinctKeys(gs)
    requires DecidedFields(fs, gs)
    requires CoveredBy(fs, gs) && forall g :: g in gs ==> HasKey(fs, g.key)
    ensures i < |fs|
    ensures NormalizeFields(gs)[j] == NormalizeFields(fs)[i]
  {
    assert gs[j] in gs && HasKey(fs, gs[j].key);
    i :| 0 <= i < |fs| && fs[i].key == gs[j].key;
    var k := TwinOf(fs, gs, i);
    assert k == j;
  }

  lemma {:induction false} SameMembersSortAlike(ns: seq<Field>, ms: seq<Field>)
    requires DistinctKeys(ns) && DistinctKeys(ms)
    requires forall x :: x in ns <==> x in ms
    ensures Sort(ns, KEY_ORDER) == Sort(ms, KEY_ORDER)
  {
    DistinctSameMembers(ns, ms);
    SortDistinctKeysUnique(ns, ms);
  }

  /** The sorted arrangement of fields with distinct keys depends only on which fields there are. */
  lemma {:induction false} SortDistinctKeysUnique(ns: seq<Field>, ms: seq<Field>)
    requires DistinctKeys(ns)
    requires multiset(ns) == multiset(ms)
    ensures Sort(ns, KEY_ORDER) == Sort(ms, KEY_ORDER)
  {
    SortPermutes(ns, KEY_ORDER);
    SortPermutes(ms, KEY_ORDER);
    KeyOrderIsTotal();
    SortSorted(ns, KEY_ORDER);
    SortSorted(ms, KEY_ORDER);
    SortMembers(ns, KEY_ORDER);
    forall x, y | x in Sort(ns, KEY_ORDER) && y in Sort(ns, KEY_ORDER)
                  && KEY_ORDER(x, y) && KEY_ORDER(y, x)
      ensures x == y
    {
      LexTotal(x.key, y.key);
      assert x in ns && y in ns;
    }
    SortedUnique(Sort(ns, KEY_ORDER), Sort(ms, KEY_ORDER), KEY_ORDER);
  }

  lemma {:induction false} SortedAlikeCovers(fs: seq<Field>, gs: seq<Field>)
    requires DecidedFields(fs, gs)
    requires Sort(NormalizeFields(fs), KEY_ORDER) == Sort(NormalizeFields(gs), KEY_ORDER)
    ensures CoveredBy(fs, gs) && forall g :: g in gs ==> HasKey(fs, g.key)
  {
    hide DecidedFields, Sort, Normalize, IsTwin;
    var ns, ms := NormalizeFields(fs), NormalizeFields(gs);
    assert forall x :: x in ns <==> x in ms by {
      SortMembers(ns, KEY_ORDER);
      SortMembers(ms, KEY_ORDER);
    }
    forall i | 0 <= i < |fs|
      ensures HasTwin(fs[i], gs)
    {
      assert ns[i] in ms;
      var j :| 0 <= j < |ms| && ms[j] == ns[i];
      SameMappedIsTwin(fs, gs, i, j);
    }
    forall g | g in gs
      ensures HasKey(fs, g.key)
    {
      var j :| 0 <= j < |gs| && gs[j] == g;
      assert ms[j] in ns;
      var i :| 0 <= i < |ns| && ns[i] == ms[j];
      assert fs[i].key == g.key;
    }
  }

  lemma {:induction false} SameMappedIsTwin(fs: seq<Field>, gs: seq<Field>, i: nat, j: nat)
    requires DecidedFields(fs, gs) && i < |fs| && j < |gs|
    requires NormalizeFields(fs)[i] == NormalizeFields(gs)[j]
    ensures IsTwin(fs[i], gs[j])
  {
    assert DecidedPair(fs[i].value, gs[j].value);
  }

  // ----- records with a fixed list of keys

  function Zip(keys: seq<Str>, values: seq<Value>): (r: seq<Field>)
    requires |keys| == |values|
    ensures |r| == |keys|
    ensures forall i :: 0 <= i < |keys| ==> r[i] == Field(keys[i], values[i])
  {
    seq(|keys|, i requires 0 <= i < |keys| => Field(keys[i], values[i]))
  }

  predicate AllDistinct(keys: seq<Str>) {
    forall i, j :: 0 <= i < j < |keys| ==> keys[i] != keys[j]
  }

  lemma {:induction false} RecordWellFormedPrintable(keys: seq<Str>, vs: seq<Value>)
    requires |keys| == |vs| && AllDistinct(keys)
    ensures WellFormed(Obj(Zip(keys, vs))) <==> forall i :: 0 <= i < |vs| ==> WellFormed(vs[i])
    ensures Printable(Obj(Zip(keys, vs))) <==> forall i :: 0 <= i < |vs| ==> Printable(vs[i])
  {
    var fs := Zip(keys, vs);
    assert forall i :: 0 <= i < |vs| ==> fs[i].value == vs[i];
  }

  /** Two records over the same keys are the same exactly when their values are, key by key. */
  lemma {:induction false} SameRecordSameValues(keys: seq<Str>, vs: seq<Value>, ws: seq<Value>)
    requires |keys| == |vs| == |ws| && AllDistinct(keys)
    ensures SameValue(Obj(Zip(keys, vs)), Obj(Zip(keys, ws)))
       <==> forall i :: 0 <= i < |keys| ==> SameValue(vs[i], ws[i])
  {
    var fs, gs := Zip(keys, vs), Zip(keys, ws);
    forall i | 0 <= i < |keys|
      ensures HasTwin(fs[i], gs) <==> SameValue(vs[i], ws[i])
    {
      if HasTwin(fs[i], gs) {
        var j :| 0 <= j < |gs| && IsTwin(fs[i], gs[j]);
        assert i == j;
      }
      if SameValue(vs[i], ws[i]) {
        assert IsTwin(fs[i], gs[i]);
      }
    }
    forall g | g in gs
      ensures HasKey(fs, g.key)
    {
      var j :| 0 <= j < |gs| && gs[j] == g;
      assert fs[j].key == g.key;
    }
    assert SameValue(Obj(fs), Obj(gs)) <==> CoveredBy(fs, gs);
    assert CoveredBy(fs, gs) <==> forall i :: 0 <= i < |fs| ==> HasTwin(fs[i], gs);
  }

  // ----- records some of whose keys may be missing

  function Listed(keys: seq<Str>, values: seq<Option<Value>>): seq<Field>
    requires |keys| == |values|
  {
    if keys == [] then []
    else
      (match values[0]
       case None => []
       case Some(v) => [Field(keys[0], v)]) + Listed(keys[1..], values[1..])
  }

  lemma {:induction false} ListedMembers(keys: seq<Str>, values: seq<Option<Value>>)
    requires |keys| == |values|
    ensures forall f :: f in Listed(keys, values) <==>
              exists i :: 0 <= i < |keys| && keys[i] == f.key && values[i] == Some(f.value)
  {
    if keys != [] {
      ListedMembers(keys[1..], values[1..]);
      forall f
        ensures f in Listed(keys, values) <==>
                  exists i :: 0 <= i < |keys| && keys[i] == f.key && values[i] == Some(f.value)
      {
        if i :| 0 <= i < |keys| && keys[i] == f.key && values[i] == Some(f.value) {
          if i > 0 {
            assert keys[1..][i - 1] == f.key && values[1..][i - 1] == Some(f.value);
          }
        }
        if i :| 0 <= i < |keys| - 1 && keys[1..][i] == f.key && values[1..][i] == Some(f.value) {
          assert keys[i + 1] == f.key && values[i + 1] == Some(f.value);
        }
      }
    }
  }

  lemma {:induction false} ListedDistinct(keys: seq<Str>, values: seq<Option<Value>>)
    requires |keys| == |values| && AllDistinct(keys)
    ensures DistinctKeys(Listed(keys, values))
  {
    if keys != [] {
      ListedDistinct(keys[1..], values[1..]);
      ListedMembers(keys[1..], values[1..]);
      var rest := Listed(keys[1..], values[1..]);
      forall j | 0 <= j < |rest|
        ensures rest[j].key != keys[0]
      {
        assert rest[j] in rest;
        var i :| 0 <= i < |keys| - 1 && keys[1..][i] == rest[j].key;
        assert keys[i + 1] != keys[0];
      }
    }
  }

  /** A listed record is well-formed, and is printable exactly when its values are. */
  lemma {:induction false} ListedRecord(keys: seq<Str>, values: seq<Option<Value>>)
    requires |keys| == |values| && AllDistinct(keys)
    requires forall i :: 0 <= i < |values| && values[i].Some? ==> WellFormed(values[i].value)
    ensures WellFormed(Obj(Listed(keys, values)))
    ensures Printable(Obj(Listed(keys, values)))
       <==> forall i :: 0 <= i < |values| && values[i].Some? ==> Printable(values[i].value)
  {
    hide Listed;
    var fs := Listed(keys, values);
    ListedDistinct(keys, values);
    ListedMembers(keys, values);
    forall k | 0 <= k < |fs|
      ensures exists i :: 0 <= i < |keys| && values[i] == Some(fs[k].value)
    {
      assert fs[k] in fs;
    }
    forall i | 0 <= i < |values| && values[i].Some?
      ensures exists k :: 0 <= k < |fs| && fs[k] == Field(keys[i], values[i].value)
    {
      assert Field(keys[i], values[i].value) in fs;
    }
  }

  /** Scalars are the same only when they are equal. */
  lemma {:induction false} SameScalar(v: Value, w: Value)
    requires !v.Arr? && !v.Obj?
    ensures SameValue(v, w) <==> v == w
  {}

  lemma {:induction false} SameToItself(v: Value)
    ensures SameValue(v, v)
    decreases v
  {
    match v
    case Arr(items) =>
      forall i | 0 <= i < |items|
        ensures SameValue(items[i], items[i])
      {
        SameToItself(items[i]);
      }
    case Obj(fields) =>
      forall i | 0 <= i < |fields|
        ensures HasTwin(fields[i], fields)
      {
        SameToItself(fields[i].value);
        assert IsTwin(fields[i], fields[i]);
      }
      assert forall g :: g in fields ==> HasKey(fields, g.key);
    case _ =>
  }

  lemma {:induction false} SameItems(xs: seq<Value>, ys: seq<Value>)
    ensures SameValue(Arr(xs), Arr(ys))
       <==> |xs| == |ys| && forall i :: 0 <= i < |xs| ==> SameValue(xs[i], ys[i])
  {}

  /** Both missing, or both there and the same. */
  predicate SameOption(x: Option<Value>, y: Option<Value>) {
    if x.Some? && y.Some? then SameValue(x.value, y.value) else x.None? && y.None?
  }

  /** Two listed records over the same keys are the same exactly when their values are, key by key. */
  lemma {:induction false} SameListed(keys: seq<Str>, vs: seq<Option<Value>>, ws: seq<Option<Value>>)
    requires |keys| == |vs| == |ws| && AllDistinct(keys)
    ensures SameValue(Obj(Listed(keys, vs)), Obj(Listed(keys, ws)))
       <==> forall i :: 0 <= i < |keys| ==> SameOption(vs[i], ws[i])
  {
    hide Listed, SameValue;
    if SameValue(Obj(Listed(keys, vs)), Obj(Listed(keys, ws))) {
      forall i | 0 <= i < |keys|
        ensures SameOption(vs[i], ws[i])
      {
        SameListedAt(keys, vs, ws, i);
      }
    }
    if forall i :: 0 <= i < |keys| ==> SameOption(vs[i], ws[i]) {
      SameListedConverse(keys, vs, ws);
    }
  }

  lemma {:induction false} SameListedAt(
      keys: seq<Str>, vs: seq<Option<Value>>, ws: seq<Option<Value>>, i: nat)
    requires |keys| == |vs| == |ws| && AllDistinct(keys) && i < |keys|
    requires SameValue(Obj(Listed(keys, vs)), Obj(Listed(keys, ws)))
    ensures SameOption(vs[i], ws[i])
  {
    hide Listed, SameValue;
    var fs, gs := Listed(keys, vs), Listed(keys, ws);
    ListedMembers(keys, vs);
    ListedMembers(keys, ws);
    if ws[i].Some? {
      var f := KeyField(fs, gs, Field(keys[i], ws[i].value));
      var m :| 0 <= m < |keys| && keys[m] == f.key && vs[m] == Some(f.value);
      assert vs[i].Some?;
    }
    if vs[i].Some? {
      var g := TwinField(fs, gs, Field(keys[i], vs[i].value));
      var m :| 0 <= m < |keys| && keys[m] == g.key && ws[m] == Some(g.value);
      assert m == i;
    }
  }

  lemma {:induction false} KeyField(fs: seq<Field>, gs: seq<Field>, g: Field) returns (f: Field)
    requires SameValue(Obj(fs), Obj(gs)) && g in gs
    ensures f in fs && f.key == g.key
  {
    assert HasKey(fs, g.key);
    var i :| 0 <= i < |fs| && fs[i].key == g.key;
    f := fs[i];
  }

  lemma {:induction false} SameListedConverse(keys: seq<Str>, vs: seq<Option<Value>>, ws: seq<Option<Value>>)
    requires |keys| == |vs| == |ws|
    requires forall i :: 0 <= i < |keys| ==> SameOption(vs[i], ws[i])
    ensures SameValue(Obj(Listed(keys, vs)), Obj(Listed(keys, ws)))
  {
    hide Listed;
    var fs, gs := Listed(keys, vs), Listed(keys, ws);
    ListedMembers(keys, vs);
    ListedMembers(keys, ws);
    forall k | 0 <= k < |fs|
      ensures HasTwin(fs[k], gs)
    {
      assert fs[k] in fs;
      var i :| 0 <= i < |keys| && keys[i] == fs[k].key && vs[i] == Some(fs[k].value);
      assert SameOption(vs[i], ws[i]);
      var g := Field(keys[i], ws[i].value);
      assert g in gs;
      var j :| 0 <= j < |gs| && gs[j] == g;
      assert IsTwin(fs[k], gs[j]);
    }
    forall g | g in gs
      ensures HasKey(fs, g.key)
    {
      var i :| 0 <= i < |keys| && keys[i] == g.key && ws[i] == Some(g.value);
      assert SameOption(vs[i], ws[i]);
      assert Field(keys[i], vs[i].value) in fs;
    }
  }

  /** A field of one of two records that are the same has its twin in the other. */
  lemma {:induction false} TwinField(fs: seq<Field>, gs: seq<Field>, f: Field) returns (g: Field)
    requires SameValue(Obj(fs), Obj(gs)) && f in fs
    ensures g in gs && g.key == f.key && SameValue(f.value, g.value)
  {
    assert CoveredBy(fs, gs);
    var k :| 0 <= k < |fs| && fs[k] == f;
    assert HasTwin(fs[k], gs);
    var j :| 0 <= j < |gs| && IsTwin(fs[k], gs[j]);
    g := gs[j];
  }

  // ----- records by name

  predicate HasField(v: Value, key: string, x: Value) { v.Obj? && Field(Ascii(key), x) in v.fields }

  /** A text under a name, when there is one. */
  predicate HasText(v: Value, key: string, x: Option<Str>) {
    && v.Obj? && (x.Some? ==> HasField(v, key, Chars(x.value)))
    && (x.None? ==> forall f :: f in v.fields ==> f.key != Ascii(key))
  }

  lemma {:induction false} ZipField(keys: seq<Str>, vs: seq<Value>, i: nat, key: string)
    requires |keys| == |vs| && i < |keys| && keys[i] == Ascii(key)
    ensures HasField(Obj(Zip(keys, vs)), key, vs[i])
  {
    assert Zip(keys, vs)[i] == Field(keys[i], vs[i]);
  }

  /** A listed record under one of its names. */
  lemma {:induction false} ListedField(keys: seq<Str>, vs: seq<Option<Value>>, i: nat, key: string)
    requires |keys| == |vs| && AllDistinct(keys) && i < |keys| && keys[i] == Ascii(key)
    ensures vs[i].Some? ==> HasField(Obj(Listed(keys, vs)), key, vs[i].value)
    ensures vs[i].None? ==> HasText(Obj(Listed(keys, vs)), key, None)
    ensures vs[i].Some? && vs[i].value.Chars? ==> HasText(Obj(Listed(keys, vs)), key, Some(vs[i].value.s))
  {
    ListedMembers(keys, vs);
  }

  // ----- the printed text stays on one line

  predicate NoControls(s: Str) { forall i :: 0 <= i < |s| ==> s[i] >= 0x20 }

  lemma {:induction false} DecimalNoControls(n: nat)
    ensures NoControls(Decimal(n))
  {
    if n >= 10 {
      DecimalNoControls(n / 10);
    }
  }

  lemma {:induction false} EscapeNoControls(s: Str)
    ensures NoControls(Escape(s))
  {
    if s == [] {
    } else if StartsWithPair(s) {
      EscapeNoControls(s[2..]);
    } else {
      EscapeNoControls(s[1..]);
    }
  }

  lemma {:induction false} RenderNoControls(v: Value)
    ensures NoControls(Render(v))
    decreases v, 1
  {
    match v
    case Num(n) => DecimalNoControls(if n < 0 then -n else n);
    case Chars(s) => EscapeNoControls(s);
    case Arr(items) => RenderItemsNoControls(items);
    case Obj(fields) => RenderFieldsNoControls(fields);
    case Null =>
    case Bool(b) =>
    case _ =>
  }

  lemma {:induction false} RenderItemsNoControls(items: seq<Value>)
    ensures NoControls(RenderItems(items))
    decreases items, 0
  {
    if items != [] {
      RenderNoControls(items[0]);
      RenderItemsNoControls(items[1..]);
    }
  }

  lemma {:induction false} RenderFieldsNoControls(fields: seq<Field>)
    ensures NoControls(RenderFields(fields))
    decreases fields, 0
  {
    if fields != [] {
      RenderNoControls(fields[0].value);
      EscapeNoControls(fields[0].key);
      RenderFieldsNoControls(fields[1..]);
    }
  }
}
