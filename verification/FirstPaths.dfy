/** Paths through a dependency graph, the first of all simple paths to a name, and what a
    depth-first search has to do with them. */
module FirstPaths {
  import opened Text
  import opened ExternalCatalog

  type Graph = map<Str, seq<Dependency>>

  function DependenciesOf(g: Graph, name: Str): seq<Dependency> {
    if name in g then g[name] else []
  }

  function Successors(g: Graph, name: Str): set<Str> {
    set d | d in DependenciesOf(g, name) :: d.skillName
  }

  function IndexOf(s: seq<Str>, name: Str): (i: nat)
    requires name in s
    ensures i < |s| && s[i] == name
    ensures forall k :: 0 <= k < i ==> s[k] != name
  {
    if s[0] == name then 0 else 1 + IndexOf(s[1..], name)
  }

  /** The first place of a name, or the length when it has none. */
  function Rank(order: seq<Str>, name: Str): nat {
    if name in order then IndexOf(order, name) else |order|
  }

  /** What a name found on the stack closes: everything from it to the top. */
  function CycleNames(stack: seq<Str>, name: Str): (r: set<Str>)
    requires name in stack
    ensures name in r && stack[|stack| - 1] in r
  {
    var closed := stack[IndexOf(stack, name)..];
    assert closed[0] == name && closed[|closed| - 1] == stack[|stack| - 1];
    set x | x in closed
  }

  // ----- paths

  function Names(ds: seq<Dependency>): (r: seq<Str>)
    ensures |r| == |ds| && forall i :: 0 <= i < |ds| ==> r[i] == ds[i].skillName
  {
    seq(|ds|, i requires 0 <= i < |ds| => ds[i].skillName)
  }

  /** How a path can go on, in order: from the start to any key, from a name to its dependencies. */
  function Children(g: Graph, keys: seq<Str>, p: seq<Str>): seq<Str> {
    if p == [] then keys else Names(DependenciesOf(g, p[|p| - 1]))
  }

  ghost predicate Simple(p: seq<Str>) {
    forall i, j :: 0 <= i < j < |p| ==> p[i] != p[j]
  }

  predicate GoesOn(g: Graph, keys: seq<Str>, p: seq<Str>, k: nat)
    requires k < |p|
  {
    p[k] in Children(g, keys, p[..k])
  }

  /** A path from a key that visits no name twice. */
  ghost predicate Rooted(g: Graph, keys: seq<Str>, p: seq<Str>) {
    p != [] && Simple(p) && forall k :: 0 <= k < |p| ==> GoesOn(g, keys, p, k)
  }

  predicate DivergesAt(g: Graph, keys: seq<Str>, p: seq<Str>, q: seq<Str>, d: nat) {
    && d < |p| && d < |q| && p[..d] == q[..d]
    && Rank(Children(g, keys, p[..d]), p[d]) < Rank(Children(g, keys, p[..d]), q[d])
  }

  /** Where the paths part, the first takes an earlier child. */
  ghost predicate Earlier(g: Graph, keys: seq<Str>, p: seq<Str>, q: seq<Str>) {
    exists d: nat :: DivergesAt(g, keys, p, q, d)
  }

  ghost predicate NotLater(g: Graph, keys: seq<Str>, p: seq<Str>, q: seq<Str>) {
    p <= q || Earlier(g, keys, p, q)
  }

  /** The first of all simple paths that end where it does. */
  ghost predicate IsFirstPath(g: Graph, keys: seq<Str>, p: seq<Str>) {
    && Rooted(g, keys, p)
    && forall q :: Rooted(g, keys, q) && q[|q| - 1] == p[|p| - 1] ==> NotLater(g, keys, p, q)
  }

  /** An edge leads from the end of a path back to its place k. */
  predicate ClosedAt(g: Graph, p: seq<Str>, k: nat) {
    k < |p| && p[k] in Successors(g, p[|p| - 1])
  }

  /** A name on the part of a first path that an edge closes to a cycle. */
  ghost predicate OnFirstCycle(g: Graph, keys: seq<Str>, name: Str) {
    exists p, k: nat :: IsFirstPath(g, keys, p) && ClosedAt(g, p, k) && name in p[k..]
  }

  lemma {:induction false} ChildIsSuccessor(g: Graph, keys: seq<Str>, p: seq<Str>, name: Str)
    requires p != []
    ensures name in Children(g, keys, p) <==> name in Successors(g, p[|p| - 1])
  {
    var ds := DependenciesOf(g, p[|p| - 1]);
    if name in Children(g, keys, p) {
      var i :| 0 <= i < |ds| && Names(ds)[i] == name;
      assert ds[i] in ds;
    }
    if name in Successors(g, p[|p| - 1]) {
      var i :| 0 <= i < |ds| && ds[i].skillName == name;
      assert Names(ds)[i] == name;
    }
  }

  // ----- the order of paths

  lemma {:induction false} EarlierExtended(
      g: Graph, keys: seq<Str>, p: seq<Str>, q: seq<Str>, d: nat, p': seq<Str>, q': seq<Str>)
    requires DivergesAt(g, keys, p, q, d) && d < |p'| && d < |q'|
    requires p'[..d + 1] == p[..d + 1] && q'[..d + 1] == q[..d + 1]
    ensures Earlier(g, keys, p', q')
  {
    assert p'[..d] == p'[..d + 1][..d] && q'[..d] == q'[..d + 1][..d];
    assert p[..d] == p[..d + 1][..d] && q[..d] == q[..d + 1][..d];
    assert p'[d] == p'[..d + 1][d] && q'[d] == q'[..d + 1][d];
    assert DivergesAt(g, keys, p', q', d);
  }

  lemma {:induction false} EarlierAppend(
      g: Graph, keys: seq<Str>, p: seq<Str>, q: seq<Str>, more: seq<Str>, others: seq<Str>)
    requires Earlier(g, keys, p, q)
    ensures Earlier(g, keys, p + more, q + others)
  {
    var d: nat :| DivergesAt(g, keys, p, q, d);
    EarlierExtended(g, keys, p, q, d, p + more, q + others);
  }

  lemma {:induction false} PrefixAgrees(p: seq<Str>, q: seq<Str>, d: nat)
    requires d <= |p| && d <= |q| && p[..d] == q[..d]
    ensures forall m :: 0 <= m < d ==> p[m] == q[m]
    ensures forall m :: 0 <= m <= d ==> p[..m] == q[..m]
  {
    forall m | 0 <= m <= d
      ensures p[..m] == q[..m]
    {
      assert p[..m] == p[..d][..m] == q[..d][..m] == q[..m];
    }
    forall m | 0 <= m < d
      ensures p[m] == q[m]
    {
      assert p[m] == p[..d][m];
    }
  }

  lemma {:induction false} EarlierTransitive(
      g: Graph, keys: seq<Str>, p: seq<Str>, q: seq<Str>, r: seq<Str>)
    requires Earlier(g, keys, p, q) && Earlier(g, keys, q, r)
    ensures Earlier(g, keys, p, r)
  {
    hide Children;
    var d: nat :| DivergesAt(g, keys, p, q, d);
    var e: nat :| DivergesAt(g, keys, q, r, e);
    PrefixAgrees(p, q, d);
    PrefixAgrees(q, r, e);
    assert DivergesAt(g, keys, p, r, if d < e then d else e);
  }

  lemma {:induction false} PrefixThenEarlier(
      g: Graph, keys: seq<Str>, p: seq<Str>, q: seq<Str>, r: seq<Str>)
    requires p <= q && Earlier(g, keys, q, r)
    ensures NotLater(g, keys, p, r)
  {
    hide Children;
    var e: nat :| DivergesAt(g, keys, q, r, e);
    PrefixAgrees(q, r, e);
    if |p| <= e {
      assert p == q[..|p|] == r[..|p|];
    } else {
      assert p[..e] == q[..e] && p[e] == q[e];
      assert DivergesAt(g, keys, p, r, e);
    }
  }

  lemma {:induction false} NotLaterThenEarlier(
      g: Graph, keys: seq<Str>, p: seq<Str>, q: seq<Str>, r: seq<Str>)
    requires NotLater(g, keys, p, q) && Earlier(g, keys, q, r)
    ensures NotLater(g, keys, p, r)
  {
    hide Earlier;
    if p <= q {
      PrefixThenEarlier(g, keys, p, q, r);
    } else {
      EarlierTransitive(g, keys, p, q, r);
    }
  }

  /** Two simple paths to one name that are neither later than the other are the same. */
  lemma {:induction false} NotLaterBothWays(g: Graph, keys: seq<Str>, p: seq<Str>, q: seq<Str>)
    requires p != [] && q != [] && Simple(p) && Simple(q) && p[|p| - 1] == q[|q| - 1]
    requires NotLater(g, keys, p, q) && NotLater(g, keys, q, p)
    ensures p == q
  {
    hide Earlier, Simple;
    if p <= q {
      SamePrefix(p, q);
    } else if q <= p {
      SamePrefix(q, p);
    } else {
      NotBothEarlier(g, keys, p, q);
    }
  }

  lemma {:induction false} NotBothEarlier(g: Graph, keys: seq<Str>, p: seq<Str>, q: seq<Str>)
    requires Earlier(g, keys, p, q)
    ensures !Earlier(g, keys, q, p) && !(q <= p)
  {
    hide Children;
    if Earlier(g, keys, q, p) {
      EarlierTransitive(g, keys, p, q, p);
    }
    var d: nat :| DivergesAt(g, keys, p, q, d);
    assert p[d] != q[d];
  }

  lemma {:induction false} SamePrefix(p: seq<Str>, q: seq<Str>)
    requires p != [] && p <= q && Simple(q) && p[|p| - 1] == q[|q| - 1]
    ensures p == q
  {
    assert q[|p| - 1] == p[|p| - 1];
    assert |p| == |q|;
  }

  // ----- what a depth-first search knows

  type Paths = map<Str, seq<Str>>

  ghost predicate PathTo(g: Graph, keys: seq<Str>, paths: Paths, x: Str)
    requires x in paths
  {
    var p := paths[x];
    && Rooted(g, keys, p) && p[|p| - 1] == x
    && forall k :: 0 <= k < |p| ==> PrefixKnown(paths, p, k)
  }

  predicate PrefixKnown(paths: Paths, p: seq<Str>, k: nat)
    requires k < |p|
  {
    p[k] in paths && paths[p[k]] == p[..k + 1]
  }

  /** The edge from the end of a path to a name has been followed: it closed a cycle, which is
      marked, or the name had been found by a path that is no later. */
  ghost predicate Scanned(g: Graph, keys: seq<Str>, paths: Paths, marked: set<Str>, p: seq<Str>, w: Str) {
    && w in paths
    && if w in p then Among(p[IndexOf(p, w)..], marked) else NotLater(g, keys, paths[w], p + [w])
  }

  predicate Among(p: seq<Str>, s: set<Str>) { forall x :: x in p ==> x in s }

  ghost predicate MarkedBy(g: Graph, paths: Paths, x: Str) {
    exists u, k: nat :: u in paths && ClosedAt(g, paths[u], k) && x in paths[u][k..]
  }

  /** What is known of the names found so far, of which some are finished and the others are on the
      stack. */
  ghost predicate Charted(
      g: Graph, keys: seq<Str>, stack: seq<Str>, paths: Paths, finished: set<Str>, marked: set<Str>)
  {
    && (forall x :: x in paths <==> x in finished || x in stack)
    && (forall x :: x in paths ==> PathTo(g, keys, paths, x))
    && (stack != [] ==> paths[stack[|stack| - 1]] == stack)
    && (forall u, w :: u in finished && w in Successors(g, u) ==> Scanned(g, keys, paths, marked, paths[u], w))
    && (forall x :: x in marked ==> MarkedBy(g, paths, x))
  }

  /** A path that comes before the one the search takes when it goes on to child i of the stack. */
  ghost predicate Explored(g: Graph, keys: seq<Str>, stack: seq<Str>, i: nat, p: seq<Str>) {
    || NotLater(g, keys, p, stack)
    || (|stack| < |p| && stack <= p && Rank(Children(g, keys, stack), p[|stack|]) < i)
  }

  /** The search is about to go on to child i of its stack. */
  ghost predicate AtChild(
      g: Graph, keys: seq<Str>, stack: seq<Str>, i: nat, paths: Paths, marked: set<Str>)
  {
    && i <= |Children(g, keys, stack)|
    && (forall x :: x in paths ==> Explored(g, keys, stack, i, paths[x]))
    && forall k :: 0 <= k < i ==> Scanned(g, keys, paths, marked, stack, Children(g, keys, stack)[k])
  }

  predicate Grows(paths: Paths, more: Paths) {
    forall x :: x in paths ==> x in more && more[x] == paths[x]
  }

  lemma {:induction false} GrowsSame(paths: Paths)
    ensures Grows(paths, paths)
  {}

  lemma {:induction false} GrowsByOne(paths: Paths, name: Str, p: seq<Str>)
    requires name !in paths
    ensures Grows(paths, paths[name := p])
  {}

  lemma {:induction false} GrowsOn(paths: Paths, mid: Paths, more: Paths, name: Str)
    requires Grows(paths, mid) && Grows(mid, more) && name in mid
    ensures Grows(paths, more) && name in more && more[name] == mid[name]
  {}

  lemma {:induction false} ScannedGrows(
      g: Graph, keys: seq<Str>, paths: Paths, marked: set<Str>, more: Paths, others: set<Str>,
      p: seq<Str>, w: Str)
    requires Grows(paths, more) && marked <= others && Scanned(g, keys, paths, marked, p, w)
    ensures Scanned(g, keys, more, others, p, w)
  {}

  lemma {:induction false} MarkedGrows(g: Graph, paths: Paths, more: Paths, x: Str)
    requires Grows(paths, more) && MarkedBy(g, paths, x)
    ensures MarkedBy(g, more, x)
  {
    var u, k: nat :| u in paths && ClosedAt(g, paths[u], k) && x in paths[u][k..];
    assert u in more && ClosedAt(g, more[u], k) && x in more[u][k..];
  }

  lemma {:induction false} PathToGrows(g: Graph, keys: seq<Str>, paths: Paths, more: Paths, x: Str)
    requires Grows(paths, more) && x in paths && PathTo(g, keys, paths, x)
    ensures PathTo(g, keys, more, x)
  {
    forall k | 0 <= k < |more[x]|
      ensures PrefixKnown(more, more[x], k)
    {
      assert PrefixKnown(paths, paths[x], k);
    }
  }

  lemma {:induction false} ChartedNames(
      g: Graph, keys: seq<Str>, stack: seq<Str>, paths: Paths, finished: set<Str>, marked: set<Str>, x: Str)
    requires Charted(g, keys, stack, paths, finished, marked)
    ensures x in paths <==> x in finished || x in stack
  {}

  lemma {:induction false} ChildOf(g: Graph, keys: seq<Str>, stack: seq<Str>, i: nat)
    requires i < |Children(g, keys, stack)|
    ensures Children(g, keys, stack)[i] in Children(g, keys, stack)
  {}

  // ----- entering a name

  lemma {:induction false} ChildAppended(g: Graph, keys: seq<Str>, stack: seq<Str>, name: Str)
    requires stack != [] ==> Rooted(g, keys, stack)
    requires name in Children(g, keys, stack) && name !in stack
    ensures Rooted(g, keys, stack + [name])
  {
    var p := stack + [name];
    forall k | 0 <= k < |p|
      ensures GoesOn(g, keys, p, k)
    {
      assert p[..k] == stack[..k];
      if k < |stack| {
        assert GoesOn(g, keys, stack, k);
      } else {
        assert stack[..k] == stack;
      }
    }
  }

  /** The stack is the path to its top, and all its prefixes are known. */
  lemma {:induction false} StackKnown(
      g: Graph, keys: seq<Str>, stack: seq<Str>, paths: Paths, finished: set<Str>, marked: set<Str>)
    requires Charted(g, keys, stack, paths, finished, marked) && stack != []
    ensures Rooted(g, keys, stack) && forall k :: 0 <= k < |stack| ==> PrefixKnown(paths, stack, k)
  {
    var top := stack[|stack| - 1];
    assert top in stack && PathTo(g, keys, paths, top);
  }

  lemma {:induction false} NewPath(
      g: Graph, keys: seq<Str>, stack: seq<Str>, paths: Paths, finished: set<Str>, marked: set<Str>, name: Str)
    requires Charted(g, keys, stack, paths, finished, marked)
    requires name in Children(g, keys, stack) && name !in paths
    ensures PathTo(g, keys, paths[name := stack + [name]], name)
  {
    var p, more := stack + [name], paths[name := stack + [name]];
    if stack != [] {
      StackKnown(g, keys, stack, paths, finished, marked);
    }
    ChildAppended(g, keys, stack, name);
    forall k | 0 <= k < |p|
      ensures PrefixKnown(more, p, k)
    {
      if k < |stack| {
        assert PrefixKnown(paths, stack, k);
        assert p[..k + 1] == stack[..k + 1];
      } else {
        assert p[..k + 1] == p;
      }
    }
  }

  lemma {:induction false} EnterCharts(
      g: Graph, keys: seq<Str>, stack: seq<Str>, paths: Paths, finished: set<Str>, marked: set<Str>, name: Str)
    requires Charted(g, keys, stack, paths, finished, marked)
    requires name in Children(g, keys, stack) && name !in paths
    ensures Charted(g, keys, stack + [name], paths[name := stack + [name]], finished, marked)
  {
    hide PathTo, Scanned, MarkedBy;
    var more := paths[name := stack + [name]];
    NewPath(g, keys, stack, paths, finished, marked, name);
    forall x | x in paths
      ensures PathTo(g, keys, more, x)
    {
      PathToGrows(g, keys, paths, more, x);
    }
    forall u, w | u in finished && w in Successors(g, u)
      ensures Scanned(g, keys, more, marked, more[u], w)
    {
      ScannedGrows(g, keys, paths, marked, more, marked, paths[u], w);
    }
    forall x | x in marked
      ensures MarkedBy(g, more, x)
    {
      MarkedGrows(g, paths, more, x);
    }
  }

  lemma {:induction false} ExploredFromChild(
      g: Graph, keys: seq<Str>, stack: seq<Str>, i: nat, p: seq<Str>, name: Str)
    requires Explored(g, keys, stack, i, p) && Rank(Children(g, keys, stack), name) == i
    ensures NotLater(g, keys, p, stack + [name])
  {
    if p <= stack {
      assert p <= stack + [name];
    } else if Earlier(g, keys, p, stack) {
      EarlierAppend(g, keys, p, stack, [], [name]);
      assert p + [] == p;
    } else {
      assert p[..|stack|] == stack == (stack + [name])[..|stack|];
      assert DivergesAt(g, keys, p, stack + [name], |stack|);
    }
  }

  /** A child not found by now has its first place where the search is. */
  lemma {:induction false} FreshRank(
      g: Graph, keys: seq<Str>, stack: seq<Str>, i: nat, paths: Paths, marked: set<Str>, name: Str)
    requires AtChild(g, keys, stack, i, paths, marked) && i < |Children(g, keys, stack)|
    requires Children(g, keys, stack)[i] == name
    ensures Rank(Children(g, keys, stack), name) <= i
    ensures name !in paths ==> Rank(Children(g, keys, stack), name) == i
  {
    var k := IndexOf(Children(g, keys, stack), name);
    assert k < i ==> Scanned(g, keys, paths, marked, stack, Children(g, keys, stack)[k]);
  }

  lemma {:induction false} EnterAtChild(
      g: Graph, keys: seq<Str>, stack: seq<Str>, i: nat, paths: Paths, marked: set<Str>, name: Str)
    requires AtChild(g, keys, stack, i, paths, marked) && i < |Children(g, keys, stack)|
    requires Children(g, keys, stack)[i] == name && name !in paths
    ensures AtChild(g, keys, stack + [name], 0, paths[name := stack + [name]], marked)
  {
    var p, more := stack + [name], paths[name := stack + [name]];
    FreshRank(g, keys, stack, i, paths, marked, name);
    forall x | x in more
      ensures Explored(g, keys, p, 0, more[x])
    {
      if x != name {
        ExploredFromChild(g, keys, stack, i, paths[x], name);
      }
    }
  }

  // ----- finding a name again

  /** A name on the stack closes a cycle, which is then marked. */
  lemma {:induction false} MarkingCharts(
      g: Graph, keys: seq<Str>, stack: seq<Str>, paths: Paths, finished: set<Str>, marked: set<Str>, name: Str)
    requires Charted(g, keys, stack, paths, finished, marked) && stack != []
    requires name in stack && name in Successors(g, stack[|stack| - 1])
    ensures Charted(g, keys, stack, paths, finished, marked + CycleNames(stack, name))
  {
    hide PathTo, Scanned, MarkedBy;
    var index, top := IndexOf(stack, name), stack[|stack| - 1];
    var others := marked + CycleNames(stack, name);
    assert top in stack;
    forall u, w | u in finished && w in Successors(g, u)
      ensures Scanned(g, keys, paths, others, paths[u], w)
    {
      ScannedGrows(g, keys, paths, marked, paths, others, paths[u], w);
    }
    forall x | x in others
      ensures MarkedBy(g, paths, x)
    {
      if x !in marked {
        ClosesCycle(g, paths, top, index, x);
      }
    }
  }

  lemma {:induction false} ClosesCycle(g: Graph, paths: Paths, u: Str, k: nat, x: Str)
    requires u in paths && ClosedAt(g, paths[u], k) && x in paths[u][k..]
    ensures MarkedBy(g, paths, x)
  {}

  /** Having gone past child i, the search is at the next one. */
  lemma {:induction false} NextChild(
      g: Graph, keys: seq<Str>, stack: seq<Str>, i: nat, paths: Paths, marked: set<Str>)
    requires i < |Children(g, keys, stack)|
    requires forall x :: x in paths ==> Explored(g, keys, stack, i + 1, paths[x])
    requires forall k :: 0 <= k < i ==> Scanned(g, keys, paths, marked, stack, Children(g, keys, stack)[k])
    requires Scanned(g, keys, paths, marked, stack, Children(g, keys, stack)[i])
    ensures AtChild(g, keys, stack, i + 1, paths, marked)
  {}

  lemma {:induction false} FoundOnStack(
      g: Graph, keys: seq<Str>, stack: seq<Str>, i: nat, paths: Paths, marked: set<Str>, others: set<Str>)
    requires AtChild(g, keys, stack, i, paths, marked) && i < |Children(g, keys, stack)|
    requires var name := Children(g, keys, stack)[i];
             && name in paths && name in stack
             && others == marked + CycleNames(stack, name)
    ensures AtChild(g, keys, stack, i + 1, paths, others)
  {
    var name := Children(g, keys, stack)[i];
    assert Scanned(g, keys, paths, others, stack, name);
    hide Scanned;
    forall k | 0 <= k < i
      ensures Scanned(g, keys, paths, others, stack, Children(g, keys, stack)[k])
    {
      ScannedGrows(g, keys, paths, marked, paths, others, stack, Children(g, keys, stack)[k]);
    }
    NextChild(g, keys, stack, i, paths, others);
  }

  lemma {:induction false} FoundFinished(
      g: Graph, keys: seq<Str>, stack: seq<Str>, i: nat, paths: Paths, finished: set<Str>, marked: set<Str>)
    requires Charted(g, keys, stack, paths, finished, marked)
    requires AtChild(g, keys, stack, i, paths, marked) && i < |Children(g, keys, stack)|
    requires Children(g, keys, stack)[i] in paths && Children(g, keys, stack)[i] !in stack
    ensures AtChild(g, keys, stack, i + 1, paths, marked)
  {
    var name := Children(g, keys, stack)[i];
    FreshRank(g, keys, stack, i, paths, marked, name);
    var first := IndexOf(Children(g, keys, stack), name);
    if first < i {
      assert Scanned(g, keys, paths, marked, stack, Children(g, keys, stack)[first]);
    } else {
      ExploredFromChild(g, keys, stack, i, paths[name], name);
    }
    hide Scanned;
    NextChild(g, keys, stack, i, paths, marked);
  }

  // ----- leaving a name

  lemma {:induction false} LeaveCharts(
      g: Graph, keys: seq<Str>, stack: seq<Str>, paths: Paths, finished: set<Str>, marked: set<Str>, name: Str)
    requires Charted(g, keys, stack + [name], paths, finished, marked)
    requires AtChild(g, keys, stack + [name], |Children(g, keys, stack + [name])|, paths, marked)
    ensures Charted(g, keys, stack, paths, finished + {name}, marked)
  {
    hide PathTo, Scanned, MarkedBy;
    var p := stack + [name];
    StackKnown(g, keys, p, paths, finished, marked);
    assert p[|p| - 1] == name;
    if stack != [] {
      assert PrefixKnown(paths, p, |stack| - 1);
      assert p[..|stack|] == stack;
    }
    forall w | w in Successors(g, name)
      ensures Scanned(g, keys, paths, marked, p, w)
    {
      ChildIsSuccessor(g, keys, p, w);
      var k :| 0 <= k < |Children(g, keys, p)| && Children(g, keys, p)[k] == w;
    }
  }

  lemma {:induction false} ExploredAfterChild(
      g: Graph, keys: seq<Str>, stack: seq<Str>, i: nat, j: nat, p: seq<Str>, name: Str)
    requires Explored(g, keys, stack + [name], j, p) && Rank(Children(g, keys, stack), name) <= i
    ensures Explored(g, keys, stack, i + 1, p)
  {
    var q := stack + [name];
    if p <= q {
      if |p| <= |stack| {
        assert p == q[..|p|] == stack[..|p|];
      } else {
        assert p == q && p[|stack|] == name;
      }
    } else if Earlier(g, keys, p, q) {
      var d: nat :| DivergesAt(g, keys, p, q, d);
      if d < |stack| {
        assert q[..d + 1] == stack[..d + 1];
        EarlierExtended(g, keys, p, q, d, p, stack);
      } else {
        assert p[..d] == q[..d] == stack;
      }
    } else {
      assert p[..|q|][..|stack|] == stack == p[..|stack|];
      assert p[|stack|] == p[..|q|][|stack|] == name;
    }
  }

  lemma {:induction false} LeaveAtChild(
      g: Graph, keys: seq<Str>, stack: seq<Str>, i: nat, paths: Paths, marked: set<Str>,
      more: Paths, others: set<Str>, name: Str)
    requires AtChild(g, keys, stack, i, paths, marked) && i < |Children(g, keys, stack)|
    requires Children(g, keys, stack)[i] == name && name !in stack
    requires Grows(paths, more) && marked <= others && name in more && more[name] == stack + [name]
    requires AtChild(g, keys, stack + [name], |Children(g, keys, stack + [name])|, more, others)
    ensures AtChild(g, keys, stack, i + 1, more, others)
  {
    FreshRank(g, keys, stack, i, paths, marked, name);
    assert Scanned(g, keys, more, others, stack, name);
    hide Scanned, Explored;
    forall x | x in more
      ensures Explored(g, keys, stack, i + 1, more[x])
    {
      ExploredAfterChild(g, keys, stack, i, |Children(g, keys, stack + [name])|, more[x], name);
    }
    forall k | 0 <= k < i
      ensures Scanned(g, keys, more, others, stack, Children(g, keys, stack)[k])
    {
      ScannedGrows(g, keys, paths, marked, more, others, stack, Children(g, keys, stack)[k]);
    }
    NextChild(g, keys, stack, i, more, others);
  }

  // ----- the three moves of the search

  lemma {:induction false} EnterSearch(
      g: Graph, keys: seq<Str>, stack: seq<Str>, i: nat, paths: Paths, finished: set<Str>, marked: set<Str>, name: Str)
    requires Charted(g, keys, stack, paths, finished, marked) && AtChild(g, keys, stack, i, paths, marked)
    requires i < |Children(g, keys, stack)| && Children(g, keys, stack)[i] == name && name !in paths
    ensures var more := paths[name := stack + [name]];
            && Charted(g, keys, stack + [name], more, finished, marked)
            && AtChild(g, keys, stack + [name], 0, more, marked) && Grows(paths, more)
  {
    hide Charted, AtChild;
    EnterCharts(g, keys, stack, paths, finished, marked, name);
    EnterAtChild(g, keys, stack, i, paths, marked, name);
  }

  lemma {:induction false} MarkSearch(
      g: Graph, keys: seq<Str>, stack: seq<Str>, i: nat, paths: Paths, finished: set<Str>, marked: set<Str>, name: Str)
    requires Charted(g, keys, stack, paths, finished, marked) && AtChild(g, keys, stack, i, paths, marked)
    requires i < |Children(g, keys, stack)| && Children(g, keys, stack)[i] == name
    requires name in stack && name in paths && name in Successors(g, stack[|stack| - 1])
    ensures var others := marked + CycleNames(stack, name);
            Charted(g, keys, stack, paths, finished, others) && AtChild(g, keys, stack, i + 1, paths, others)
  {
    hide Charted, AtChild;
    MarkingCharts(g, keys, stack, paths, finished, marked, name);
    FoundOnStack(g, keys, stack, i, paths, marked, marked + CycleNames(stack, name));
  }

  lemma {:induction false} LeaveSearch(
      g: Graph, keys: seq<Str>, stack: seq<Str>, i: nat, paths: Paths, marked: set<Str>,
      more: Paths, finished: set<Str>, others: set<Str>, name: Str)
    requires AtChild(g, keys, stack, i, paths, marked) && i < |Children(g, keys, stack)|
    requires Children(g, keys, stack)[i] == name && name !in stack
    requires Grows(paths, more) && marked <= others && name in more && more[name] == stack + [name]
    requires Charted(g, keys, stack + [name], more, finished, others)
    requires AtChild(g, keys, stack + [name], |Children(g, keys, stack + [name])|, more, others)
    ensures Charted(g, keys, stack, more, finished + {name}, others)
    ensures AtChild(g, keys, stack, i + 1, more, others)
  {
    hide Charted, AtChild, Grows;
    LeaveCharts(g, keys, stack, more, finished, others, name);
    LeaveAtChild(g, keys, stack, i, paths, marked, more, others, name);
  }

  // ----- a finished search

  ghost predicate Complete(g: Graph, keys: seq<Str>, paths: Paths, marked: set<Str>) {
    && Charted(g, keys, [], paths, paths.Keys, marked)
    && forall key :: key in keys ==> Scanned(g, keys, paths, marked, [], key)
  }

  lemma {:induction false} SearchCompletes(
      g: Graph, keys: seq<Str>, paths: Paths, finished: set<Str>, marked: set<Str>)
    requires Charted(g, keys, [], paths, finished, marked) && AtChild(g, keys, [], |keys|, paths, marked)
    ensures Complete(g, keys, paths, marked)
  {
    hide Scanned, PathTo, MarkedBy, Explored;
    assert paths.Keys == finished;
    forall key | key in keys
      ensures Scanned(g, keys, paths, marked, [], key)
    {
      var k :| 0 <= k < |keys| && keys[k] == key;
      assert Children(g, keys, [])[k] == key;
    }
  }

  lemma {:induction false} RootedPrefix(g: Graph, keys: seq<Str>, q: seq<Str>)
    requires Rooted(g, keys, q) && |q| > 1
    ensures Rooted(g, keys, q[..|q| - 1])
  {
    var shorter := q[..|q| - 1];
    forall k | 0 <= k < |shorter|
      ensures GoesOn(g, keys, shorter, k)
    {
      assert GoesOn(g, keys, q, k) && shorter[..k] == q[..k];
    }
  }

  /** A finished search has found every name that can be reached, by a path that is no later than
      any other. */
  lemma {:induction false} FoundFirst(
      g: Graph, keys: seq<Str>, paths: Paths, marked: set<Str>, q: seq<Str>)
    requires Complete(g, keys, paths, marked) && Rooted(g, keys, q)
    ensures q[|q| - 1] in paths && NotLater(g, keys, paths[q[|q| - 1]], q)
    decreases |q|
  {
    hide NotLater, PathTo, MarkedBy, Charted;
    var n := |q| - 1;
    var w := q[n];
    assert GoesOn(g, keys, q, n);
    if n == 0 {
      assert q[..0] == [] && [] + [w] == q;
      assert Scanned(g, keys, paths, marked, [], w);
    } else {
      var shorter := q[..n];
      RootedPrefix(g, keys, q);
      FoundFirst(g, keys, paths, marked, shorter);
      ChildIsSuccessor(g, keys, shorter, w);
      FoundNext(g, keys, paths, marked, shorter, w);
      assert shorter + [w] == q;
    }
  }

  lemma {:induction false} FoundNext(
      g: Graph, keys: seq<Str>, paths: Paths, marked: set<Str>, q: seq<Str>, w: Str)
    requires Complete(g, keys, paths, marked) && Rooted(g, keys, q) && w !in q
    requires q[|q| - 1] in paths && NotLater(g, keys, paths[q[|q| - 1]], q)
    requires w in Successors(g, q[|q| - 1])
    ensures w in paths && NotLater(g, keys, paths[w], q + [w])
  {
    hide Earlier, Simple, ClosedAt, MarkedBy, Among, Successors;
    var u := q[|q| - 1];
    var p := paths[u];
    assert PathTo(g, keys, paths, u) && Scanned(g, keys, paths, marked, p, w);
    if p <= q {
      SamePrefix(p, q);
    } else if w !in p {
      EarlierAppend(g, keys, p, q, [w], [w]);
      NotLaterThenEarlier(g, keys, paths[w], p + [w], q + [w]);
    } else {
      assert PrefixKnown(paths, p, IndexOf(p, w));
      PrefixIsEarlier(g, keys, p, q, IndexOf(p, w));
    }
  }

  /** A prefix of an earlier path that reaches what the other path has not. */
  lemma {:induction false} PrefixIsEarlier(g: Graph, keys: seq<Str>, p: seq<Str>, q: seq<Str>, m: nat)
    requires Earlier(g, keys, p, q) && m < |p| && p[m] !in q
    ensures Earlier(g, keys, p[..m + 1], q + [p[m]])
  {
    var d: nat :| DivergesAt(g, keys, p, q, d);
    PrefixAgrees(p, q, d);
    assert d <= m;
    assert p[..m + 1][..d + 1] == p[..d + 1] && (q + [p[m]])[..d + 1] == q[..d + 1];
    EarlierExtended(g, keys, p, q, d, p[..m + 1], q + [p[m]]);
  }

  lemma {:induction false} FoundIsFirst(
      g: Graph, keys: seq<Str>, paths: Paths, marked: set<Str>, u: Str)
    requires Complete(g, keys, paths, marked) && u in paths
    ensures IsFirstPath(g, keys, paths[u]) && paths[u][|paths[u]| - 1] == u
  {
    assert PathTo(g, keys, paths, u);
    forall q | Rooted(g, keys, q) && q[|q| - 1] == u
      ensures NotLater(g, keys, paths[u], q)
    {
      FoundFirst(g, keys, paths, marked, q);
    }
  }

  /** What a finished search has marked: exactly the names on the parts of first paths that an edge
      closes to a cycle. */
  lemma {:induction false} MarksFirstCycles(g: Graph, keys: seq<Str>, paths: Paths, marked: set<Str>)
    requires Complete(g, keys, paths, marked)
    ensures forall name :: name in marked <==> OnFirstCycle(g, keys, name)
  {
    hide IsFirstPath, Scanned, PathTo, NotLater;
    forall name | name in marked
      ensures OnFirstCycle(g, keys, name)
    {
      assert MarkedBy(g, paths, name);
      var u, k: nat :| u in paths && ClosedAt(g, paths[u], k) && name in paths[u][k..];
      FoundIsFirst(g, keys, paths, marked, u);
    }
    forall name | OnFirstCycle(g, keys, name)
      ensures name in marked
    {
      var p, k: nat :| IsFirstPath(g, keys, p) && ClosedAt(g, p, k) && name in p[k..];
      ClosedIsMarked(g, keys, paths, marked, p, k, name);
    }
  }

  lemma {:induction false} ClosedIsMarked(
      g: Graph, keys: seq<Str>, paths: Paths, marked: set<Str>, p: seq<Str>, k: nat, name: Str)
    requires Complete(g, keys, paths, marked)
    requires IsFirstPath(g, keys, p) && ClosedAt(g, p, k) && name in p[k..]
    ensures name in marked
  {
    var u := p[|p| - 1];
    FoundFirst(g, keys, paths, marked, p);
    FoundIsFirst(g, keys, paths, marked, u);
    NotLaterBothWays(g, keys, p, paths[u]);
    assert Scanned(g, keys, paths, marked, p, p[k]);
    assert IndexOf(p, p[k]) == k;
  }
}
