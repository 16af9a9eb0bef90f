/** What any log of hash-linked events guarantees, whatever an event holds. */
module HashChain {
  import opened Text

  /** The head of an empty log: sixty-four zeros. */
  const EMPTY_HEAD: Str := seq(64, i => 48)

  /** How an event is hashed: the text under its hash, the hash it names as its predecessor,
      and the hash it carries itself. */
  datatype Shape<!E> = Shape(text: E -> Str, previous: E -> Str, own: E -> Str)

  function Head<E>(events: seq<E>, shape: Shape<E>): Str {
    if events == [] then EMPTY_HEAD else shape.own(events[|events| - 1])
  }

  /** An empty log ends at sixty-four zeros. */
  lemma {:induction false} EmptyLogHead<E>(shape: Shape<E>)
    ensures |Head([], shape)| == 64 && forall i :: 0 <= i < 64 ==> Head([], shape)[i] == '0' as int
  {}

  ghost predicate Linked<E>(hash: Str -> Str, events: seq<E>, shape: Shape<E>) {
    forall i :: 0 <= i < |events| ==> LinkedAt(hash, events, shape, i)
  }

  ghost predicate LinkedAt<E>(hash: Str -> Str, events: seq<E>, shape: Shape<E>, i: nat)
    requires i < |events|
  {
    && shape.own(events[i]) == hash(shape.text(events[i]))
    && shape.previous(events[i]) == Head(events[..i], shape)
  }

  /** The hashed text holds everything but the hash itself. */
  ghost predicate Faithful<E(!new)>(valid: E -> bool, shape: Shape<E>) {
    forall e, f {:trigger TextDecides(shape, e, f)} ::
      valid(e) && valid(f) ==> TextDecides(shape, e, f)
  }

  ghost predicate TextDecides<E>(shape: Shape<E>, e: E, f: E) {
    shape.text(e) == shape.text(f) ==>
      && shape.previous(e) == shape.previous(f)
      && (shape.own(e) == shape.own(f) ==> e == f)
  }

  predicate Collide(hash: Str -> Str, x: Str, y: Str) { x != y && hash(x) == hash(y) }

  predicate HashesToEmptyHead(hash: Str -> Str, x: Str) { hash(x) == EMPTY_HEAD }

  /** Evidence against the hash function among the hashed texts of two logs: a text of each with
      one hash, or a text that hashes to the empty head. */
  ghost predicate Broken<E>(hash: Str -> Str, shape: Shape<E>, a: seq<E>, b: seq<E>) {
    || (exists i, j :: 0 <= i < |a| && 0 <= j < |b| && Collide(hash, shape.text(a[i]), shape.text(b[j])))
    || (exists i :: 0 <= i < |a| && HashesToEmptyHead(hash, shape.text(a[i])))
    || (exists j :: 0 <= j < |b| && HashesToEmptyHead(hash, shape.text(b[j])))
  }

  lemma {:induction false} BrokenPrefixes<E>(
      hash: Str -> Str, shape: Shape<E>, a: seq<E>, b: seq<E>, m: nat, n: nat)
    requires m <= |a| && n <= |b| && Broken(hash, shape, a[..m], b[..n])
    ensures Broken(hash, shape, a, b)
  {
    if i, j :| 0 <= i < m && 0 <= j < n && Collide(hash, shape.text(a[..m][i]), shape.text(b[..n][j])) {
      assert Collide(hash, shape.text(a[i]), shape.text(b[j]));
    } else if i :| 0 <= i < m && HashesToEmptyHead(hash, shape.text(a[..m][i])) {
      assert HashesToEmptyHead(hash, shape.text(a[i]));
    } else {
      var j :| 0 <= j < n && HashesToEmptyHead(hash, shape.text(b[..n][j]));
      assert HashesToEmptyHead(hash, shape.text(b[j]));
    }
  }

  /** One head, one history: two linked logs with the same head are the same log, event by event,
      unless their own texts break the hash. */
  lemma {:induction false} OneHeadOneHistory<E(!new)>(
      hash: Str -> Str, valid: E -> bool, shape: Shape<E>, a: seq<E>, b: seq<E>)
    requires Faithful(valid, shape)
    requires forall i :: 0 <= i < |a| ==> valid(a[i])
    requires forall i :: 0 <= i < |b| ==> valid(b[i])
    requires Linked(hash, a, shape) && Linked(hash, b, shape)
    requires Head(a, shape) == Head(b, shape)
    ensures a == b || Broken(hash, shape, a, b)
    decreases |a|
  {
    var m, n := |a| - 1, |b| - 1;
    if a == [] && b == [] {
    } else if a == [] {
      assert LinkedAt(hash, b, shape, n);
      assert HashesToEmptyHead(hash, shape.text(b[n]));
    } else if b == [] {
      assert LinkedAt(hash, a, shape, m);
      assert HashesToEmptyHead(hash, shape.text(a[m]));
    } else {
      assert LinkedAt(hash, a, shape, m) && LinkedAt(hash, b, shape, n);
      if shape.text(a[m]) == shape.text(b[n]) {
        assert valid(a[m]) && valid(b[n]) && TextDecides(shape, a[m], b[n]);
        StepBack(hash, shape, a, b);
        OneHeadOneHistory(hash, valid, shape, a[..m], b[..n]);
        if Broken(hash, shape, a[..m], b[..n]) {
          BrokenPrefixes(hash, shape, a, b, m, n);
        } else {
          assert a == a[..m] + [a[m]] && b == b[..n] + [b[n]];
        }
      } else {
        assert Collide(hash, shape.text(a[m]), shape.text(b[n]));
      }
    }
  }

  /** Equal texts under equal heads: the last events agree, and so do the heads before them. */
  lemma {:induction false} StepBack<E(!new)>(
      hash: Str -> Str, shape: Shape<E>, a: seq<E>, b: seq<E>)
    requires a != [] && b != []
    requires TextDecides(shape, a[|a| - 1], b[|b| - 1])
    requires Linked(hash, a, shape) && Linked(hash, b, shape)
    requires Head(a, shape) == Head(b, shape)
    requires shape.text(a[|a| - 1]) == shape.text(b[|b| - 1])
    ensures a[|a| - 1] == b[|b| - 1]
    ensures Linked(hash, a[..|a| - 1], shape) && Linked(hash, b[..|b| - 1], shape)
    ensures Head(a[..|a| - 1], shape) == Head(b[..|b| - 1], shape)
  {
    LinkedPrefix(hash, a, shape, |a| - 1);
    LinkedPrefix(hash, b, shape, |b| - 1);
    assert LinkedAt(hash, a, shape, |a| - 1) && LinkedAt(hash, b, shape, |b| - 1);
  }

  lemma {:induction false} LinkedPrefix<E>(hash: Str -> Str, events: seq<E>, shape: Shape<E>, n: nat)
    requires n <= |events| && Linked(hash, events, shape)
    ensures Linked(hash, events[..n], shape)
  {
    forall i | 0 <= i < n
      ensures LinkedAt(hash, events[..n], shape, i)
    {
      assert LinkedAt(hash, events, shape, i);
      assert events[..n][i] == events[i] && events[..n][..i] == events[..i];
    }
  }
}
