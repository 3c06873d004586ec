/** Numbering the variants of a multimodule so that self-peers come first (conf.go, `orderVariants`). */
module ConfVariants {
  import opened Prelude

  /** The variants of one owner and what each names in PEERDIRSELF, known variants or not. */
  datatype Graph = Graph(tags: set<string>, peers: map<string, seq<string>>)

  function Peers(g: Graph, tag: string): seq<string> {
    if tag in g.peers then g.peers[tag] else []
  }

  /** Variants entered so far, and those finished, in order. */
  datatype State = State(done: set<string>, list: seq<string>)

  function Visit(g: Graph, tag: string, st: State): (r: State)
    ensures st.done <= r.done
    decreases g.tags - st.done, 0
  {
    if tag in st.done || tag !in g.tags then st
    else
      assert g.tags - (st.done + {tag}) < g.tags - st.done by {
        assert tag in g.tags - st.done && tag !in g.tags - (st.done + {tag});
      }
      var inner := VisitAll(g, Peers(g, tag), st.(done := st.done + {tag}));
      inner.(list := inner.list + [tag])
  }

  function VisitAll(g: Graph, ts: seq<string>, st: State): (r: State)
    ensures st.done <= r.done
    decreases g.tags - st.done, |ts|
  {
    if ts == [] then st
    else
      var next := Visit(g, ts[0], st);
      assert g.tags - next.done <= g.tags - st.done;
      VisitAll(g, ts[1..], next)
  }

  // ------------------------------------------------------------ what the order is

  ghost predicate Edge(g: Graph, a: string, b: string) {
    a in g.tags && b in g.tags && a in g.peers && b in g.peers[a]
  }

  ghost predicate StepAt(g: Graph, path: seq<string>, i: nat)
    requires i + 1 < |path|
  {
    Edge(g, path[i], path[i + 1])
  }

  /** Each variant on the path names the next as a self-peer. */
  ghost predicate Path(g: Graph, path: seq<string>) {
    path != [] && forall i: nat {:trigger StepAt(g, path, i)} :: i < |path| - 1 ==> StepAt(g, path, i)
  }

  ghost predicate Cycle(g: Graph, path: seq<string>) {
    |path| > 1 && Path(g, path) && path[0] == path[|path| - 1]
  }

  ghost predicate Acyclic(g: Graph) {
    forall path: seq<string> {:trigger Cycle(g, path)} :: !Cycle(g, path)
  }

  ghost predicate PeersBefore(g: Graph, list: seq<string>, k: nat)
    requires k < |list|
  {
    forall p :: p in Peers(g, list[k]) && p in g.tags ==> p in list[..k]
  }

  /** Every self-peer comes before its user. */
  ghost predicate Topological(g: Graph, list: seq<string>) {
    forall k: nat {:trigger PeersBefore(g, list, k)} :: k < |list| ==> PeersBefore(g, list, k)
  }

  /** The variants being entered form a path; they and the finished ones are what is done. */
  ghost predicate Walking(g: Graph, st: State, stack: seq<string>) {
    && (stack != [] ==> Path(g, stack))
    && st.done == Elems(st.list) + Elems(stack) && st.done <= g.tags
    && Elems(st.list) !! Elems(stack)
    && Distinct(st.list)
    && (Acyclic(g) ==> Topological(g, st.list))
  }

  /** A variant named by the innermost open one closes a cycle if it is open itself. */
  lemma {:induction false} OpenPeerIsCycle(g: Graph, stack: seq<string>, i: nat, tag: string)
    requires i < |stack| && Path(g, stack) && stack[i] == tag && Edge(g, stack[|stack| - 1], tag)
    ensures !Acyclic(g)
  {
    var path := stack[i..] + [tag];
    forall k: nat | k < |path| - 1
      ensures StepAt(g, path, k)
    {
      var j := i + k;
      assert j + 1 < |stack| ==> StepAt(g, stack, j);
    }
    assert Cycle(g, path);
  }

  lemma {:induction false} PushPath(g: Graph, stack: seq<string>, tag: string)
    requires stack != [] ==> Path(g, stack) && Edge(g, stack[|stack| - 1], tag)
    ensures Path(g, stack + [tag])
  {
    var path := stack + [tag];
    forall k: nat | k < |path| - 1
      ensures StepAt(g, path, k)
    {
      assert k + 1 < |stack| ==> StepAt(g, stack, k);
    }
  }

  lemma {:induction false} ElemsPush(xs: seq<string>, x: string)
    ensures Elems(xs + [x]) == Elems(xs) + {x}
  {
    assert forall y :: y in xs + [x] <==> y in xs || y == x;
  }

  lemma {:induction false} Finish(g: Graph, st: State, stack: seq<string>, tag: string)
    requires Walking(g, st, stack + [tag]) && tag !in stack && (stack != [] ==> Path(g, stack))
    requires Acyclic(g) ==> forall p :: p in Peers(g, tag) && p in g.tags ==> p in st.list
    ensures Walking(g, st.(list := st.list + [tag]), stack)
  {
    ElemsPush(stack, tag);
    ElemsPush(st.list, tag);
    assert tag in Elems(stack + [tag]);
    assert forall i :: 0 <= i < |st.list| ==> st.list[i] in Elems(st.list);
    var list := st.list + [tag];
    if Acyclic(g) {
      forall k: nat | k < |list|
        ensures PeersBefore(g, list, k)
      {
        assert k < |st.list| ==> PeersBefore(g, st.list, k);
        assert list[..k] == st.list[..k];
      }
    }
  }

  /** One visit: the variant is finished afterwards, unless it is open and so part of a cycle. */
  lemma {:induction false} VisitWalks(g: Graph, tag: string, st: State, stack: seq<string>)
    requires Walking(g, st, stack) && (stack != [] && tag in g.tags ==> Edge(g, stack[|stack| - 1], tag))
    ensures Walking(g, Visit(g, tag, st), stack) && Elems(st.list) <= Elems(Visit(g, tag, st).list)
    ensures tag in g.tags && (Acyclic(g) || stack == []) ==> tag in Visit(g, tag, st).list
    decreases g.tags - st.done, 0
  {
    if tag in g.tags {
      if tag in st.done {
        if tag !in st.list {
          var i :| 0 <= i < |stack| && stack[i] == tag;
          OpenPeerIsCycle(g, stack, i, tag);
        }
      } else {
        Enter(g, tag, st, stack);
      }
    }
  }

  lemma {:induction false} Enter(g: Graph, tag: string, st: State, stack: seq<string>)
    requires Walking(g, st, stack) && tag in g.tags && tag !in st.done
    requires stack != [] ==> Edge(g, stack[|stack| - 1], tag)
    ensures Walking(g, Visit(g, tag, st), stack) && Elems(st.list) <= Elems(Visit(g, tag, st).list)
    ensures tag in Visit(g, tag, st).list
    decreases g.tags - (st.done + {tag}), |Peers(g, tag)| + 1
  {
    var open, in' := stack + [tag], st.(done := st.done + {tag});
    PushPath(g, stack, tag);
    ElemsPush(stack, tag);
    VisitAllWalks(g, Peers(g, tag), in', open);
    var inner := VisitAll(g, Peers(g, tag), in');
    assert tag !in stack by { assert tag in stack ==> tag in Elems(stack); }
    Finish(g, inner, stack, tag);
    ElemsPush(inner.list, tag);
  }

  lemma {:induction false} VisitAllWalks(g: Graph, ts: seq<string>, st: State, stack: seq<string>)
    requires Walking(g, st, stack)
    requires stack != [] ==> forall i :: 0 <= i < |ts| && ts[i] in g.tags ==> Edge(g, stack[|stack| - 1], ts[i])
    ensures Walking(g, VisitAll(g, ts, st), stack) && Elems(st.list) <= Elems(VisitAll(g, ts, st).list)
    ensures Acyclic(g) || stack == [] ==> forall i :: 0 <= i < |ts| && ts[i] in g.tags ==> ts[i] in VisitAll(g, ts, st).list
    decreases g.tags - st.done, |ts|
  {
    if ts != [] {
      var next := Visit(g, ts[0], st);
      assert g.tags - next.done <= g.tags - st.done;
      VisitWalks(g, ts[0], st, stack);
      VisitAllWalks(g, ts[1..], next, stack);
      var end := VisitAll(g, ts[1..], next);
      assert ts[0] in next.list ==> ts[0] in Elems(next.list) && ts[0] in Elems(end.list);
    }
  }

  /** The order in which the variants of `tags` are finished. */
  ghost function Order(g: Graph, tags: seq<string>): seq<string> {
    VisitAll(g, tags, State({}, [])).list
  }

  ghost function GraphOf(tags: seq<string>, peers: map<string, seq<string>>): Graph {
    Graph(Elems(tags), peers)
  }

  lemma {:induction false} CycleIsUnordered(g: Graph, list: seq<string>, path: seq<string>, i: nat, at: nat)
    requires Topological(g, list) && Path(g, path) && i < |path| && at < |list| && path[0] == list[at]
    ensures exists k: nat :: k + i <= at && list[k] == path[i]
    decreases i
  {
    if i > 0 {
      CycleIsUnordered(g, list, path, i - 1, at);
      var k: nat :| k + (i - 1) <= at && list[k] == path[i - 1];
      var j: nat := i - 1;
      assert StepAt(g, path, j) && PeersBefore(g, list, k);
      var m :| 0 <= m < k && list[m] == path[i];
      assert m + i <= at;
    } else {
      assert at + i <= at;
    }
  }

  /** A position that any topological order leaves a variant of a path can only move down, so a cycle has none. */
  lemma {:induction false} TopologicalIsAcyclic(g: Graph, list: seq<string>)
    requires Topological(g, list) && Distinct(list) && Elems(list) == g.tags
    ensures Acyclic(g)
  {
    forall path: seq<string>
      ensures !Cycle(g, path)
    {
      if Cycle(g, path) {
        assert StepAt(g, path, 0) && path[0] in Elems(list);
        var at :| 0 <= at < |list| && list[at] == path[0];
        CycleIsUnordered(g, list, path, |path| - 1, at);
      }
    }
  }

  /**
   * The numbers are the positions in `Order`: every variant has exactly one, they
   * are consecutive, and self-peers come first if and only if the relation has no cycle.
   */
  lemma {:induction false} OrderIsTopological(tags: seq<string>, peers: map<string, seq<string>>)
    ensures var g, list := GraphOf(tags, peers), Order(GraphOf(tags, peers), tags);
            && Distinct(list) && Elems(list) == Elems(tags)
            && (Topological(g, list) <==> Acyclic(g))
  {
    var g := GraphOf(tags, peers);
    var start := State({}, []);
    assert Elems<string>([]) == {};
    VisitAllWalks(g, tags, start, []);
    var end := VisitAll(g, tags, start);
    assert forall i :: 0 <= i < |tags| ==> tags[i] in g.tags;
    assert forall x :: x in tags ==> x in end.list;
    assert forall x :: x in end.list ==> x in Elems(end.list);
    if Topological(g, end.list) { TopologicalIsAcyclic(g, end.list); }
  }

  // ------------------------------------------------------------ sorting

  /** Byte-wise order. */
  predicate Below(a: string, b: string) {
    a == "" || (b != "" && (a[0] < b[0] || (a[0] == b[0] && Below(a[1..], b[1..]))))
  }

  lemma {:induction false} BelowTotal(a: string, b: string)
    ensures Below(a, b) || Below(b, a)
    ensures Below(a, b) && Below(b, a) ==> a == b
    decreases |a|
  {
    if a != "" && b != "" && a[0] == b[0] {
      BelowTotal(a[1..], b[1..]);
      assert a == [a[0]] + a[1..] && b == [b[0]] + b[1..];
    }
  }

  lemma {:induction false} BelowTransitive(a: string, b: string, c: string)
    requires Below(a, b) && Below(b, c)
    ensures Below(a, c)
    decreases |a|
  {
    if a != "" && a[0] == b[0] && b[0] == c[0] { BelowTransitive(a[1..], b[1..], c[1..]); }
  }

  /** It is the order of strings. */
  lemma {:induction false} BelowMeans(a: string, b: string)
    ensures Below(a, b) <==> a == b || Lexically(a, b)
    decreases |a|
  {
    if a != "" && b != "" && a[0] == b[0] {
      BelowMeans(a[1..], b[1..]);
      assert a == [a[0]] + a[1..] && b == [b[0]] + b[1..];
      LexicallyTail(a, b);
    } else {
      LexicallyHead(a, b);
    }
  }

  ghost predicate Sorted(xs: seq<string>) {
    forall i, j :: 0 <= i < j < |xs| ==> Below(xs[i], xs[j])
  }

  lemma {:induction false} SortedHead(xs: seq<string>, ys: seq<string>)
    requires Sorted(xs) && Sorted(ys) && multiset(xs) == multiset(ys) && xs != [] && ys != []
    ensures xs[0] == ys[0]
  {
    assert xs[0] in multiset(ys) && ys[0] in multiset(xs);
    var i :| 0 <= i < |ys| && ys[i] == xs[0];
    var j :| 0 <= j < |xs| && xs[j] == ys[0];
    assert i > 0 ==> Below(ys[0], ys[i]);
    assert j > 0 ==> Below(xs[0], xs[j]);
    BelowTotal(xs[0], ys[0]);
  }

  /** Sorting forgets the order of declaration. */
  lemma {:induction false} SortedIsUnique(xs: seq<string>, ys: seq<string>)
    requires Sorted(xs) && Sorted(ys) && multiset(xs) == multiset(ys)
    ensures xs == ys
    decreases |xs|
  {
    assert |xs| == |multiset(xs)| && |ys| == |multiset(ys)|;
    if xs != [] {
      SortedHead(xs, ys);
      assert xs == [xs[0]] + xs[1..] && ys == [ys[0]] + ys[1..];
      assert multiset(xs[1..]) == multiset(xs) - multiset{xs[0]};
      assert multiset(ys[1..]) == multiset(ys) - multiset{ys[0]};
      SortedIsUnique(xs[1..], ys[1..]);
    }
  }

  function Insert(xs: seq<string>, x: string): seq<string> {
    if xs == [] then [x] else if Below(x, xs[0]) then [x] + xs else [xs[0]] + Insert(xs[1..], x)
  }

  lemma {:induction false} InsertSorts(xs: seq<string>, x: string)
    requires Sorted(xs)
    ensures Sorted(Insert(xs, x)) && multiset(Insert(xs, x)) == multiset(xs) + multiset{x}
  {
    if xs != [] {
      assert xs == [xs[0]] + xs[1..];
      if Below(x, xs[0]) {
        var r := [x] + xs;
        forall i, j | 0 <= i < j < |r|
          ensures Below(r[i], r[j])
        {
          if i == 0 && j > 1 { BelowTransitive(x, xs[0], xs[j - 1]); }
        }
      } else {
        InsertSorts(xs[1..], x);
        InsertAfter(xs, x);
      }
    }
  }

  lemma {:induction false} InsertAfter(xs: seq<string>, x: string)
    requires xs != [] && Sorted(xs) && !Below(x, xs[0])
    requires Sorted(Insert(xs[1..], x)) && multiset(Insert(xs[1..], x)) == multiset(xs[1..]) + multiset{x}
    ensures Sorted([xs[0]] + Insert(xs[1..], x))
  {
    var tail := Insert(xs[1..], x);
    BelowTotal(x, xs[0]);
    forall k | 0 <= k < |tail|
      ensures Below(xs[0], tail[k])
    {
      assert tail[k] in multiset(tail);
      if tail[k] != x {
        assert tail[k] in multiset(xs[1..]);
        var i :| 0 <= i < |xs[1..]| && xs[1..][i] == tail[k];
        assert xs[i + 1] == tail[k];
      }
    }
  }

  /** `slices.Sort`. */
  function SortTags(tags: seq<string>): seq<string> {
    if tags == [] then [] else Insert(SortTags(tags[1..]), tags[0])
  }

  lemma {:induction false} SortTagsSorts(tags: seq<string>)
    ensures Sorted(SortTags(tags)) && multiset(SortTags(tags)) == multiset(tags)
  {
    if tags != [] {
      SortTagsSorts(tags[1..]);
      InsertSorts(SortTags(tags[1..]), tags[0]);
      assert tags == [tags[0]] + tags[1..];
    }
  }

  /** The same variants declared in another order are numbered the same. */
  lemma {:induction false} DeclarationOrderIsIrrelevant(a: seq<string>, b: seq<string>, peers: map<string, seq<string>>)
    requires multiset(a) == multiset(b)
    ensures SortTags(a) == SortTags(b)
    ensures Order(GraphOf(SortTags(a), peers), SortTags(a)) == Order(GraphOf(SortTags(b), peers), SortTags(b))
  {
    SortTagsSorts(a);
    SortTagsSorts(b);
    SortedIsUnique(SortTags(a), SortTags(b));
  }

  lemma {:induction false} VisitAlone(g: Graph, ts: seq<string>, st: State)
    requires Distinct(ts) && (forall i :: 0 <= i < |ts| ==> ts[i] in g.tags && ts[i] !in st.done)
    requires forall a :: a in g.tags ==> forall b :: b in Peers(g, a) ==> b !in g.tags
    ensures VisitAll(g, ts, st) == State(st.done + Elems(ts), st.list + ts)
    decreases |ts|
  {
    if ts == [] {
      assert st.done + Elems(ts) == st.done && st.list + ts == st.list;
    } else {
      var tag := ts[0];
      var entered := st.(done := st.done + {tag});
      VisitStrangers(g, Peers(g, tag), entered);
      var next := State(st.done + {tag}, st.list + [tag]);
      assert Visit(g, tag, st) == next;
      VisitAlone(g, ts[1..], next);
      assert ts == [tag] + ts[1..];
      assert next.done + Elems(ts[1..]) == st.done + Elems(ts) && next.list + ts[1..] == st.list + ts;
    }
  }

  /** What is no variant is passed over. */
  lemma {:induction false} VisitStrangers(g: Graph, ts: seq<string>, st: State)
    requires forall b :: b in ts ==> b !in g.tags
    ensures VisitAll(g, ts, st) == st
    decreases |ts|
  {
    if ts != [] { VisitStrangers(g, ts[1..], st); }
  }

  /** Variants that are not self-peers of each other are numbered alphabetically. */
  lemma {:induction false} AloneIsAlphabetical(tags: seq<string>, peers: map<string, seq<string>>)
    requires Distinct(tags) && forall a, b :: !Edge(GraphOf(tags, peers), a, b)
    ensures var list := Order(GraphOf(SortTags(tags), peers), SortTags(tags));
            multiset(list) == multiset(tags) && forall i, j :: 0 <= i < j < |list| ==> Lexically(list[i], list[j])
  {
    SortTagsSorts(tags);
    var sorted := SortTags(tags);
    var g := GraphOf(sorted, peers);
    SameElems(sorted, tags);
    forall i, j | 0 <= i < j < |sorted|
      ensures sorted[i] != sorted[j] && Lexically(sorted[i], sorted[j])
    {
      SortedDistinct(tags, sorted, i, j);
      BelowMeans(sorted[i], sorted[j]);
    }
    forall a, b | a in g.tags && b in Peers(g, a) ensures b !in g.tags { assert !Edge(GraphOf(tags, peers), a, b); }
    VisitAlone(g, sorted, State({}, []));
    assert [] + sorted == sorted;
  }

  lemma {:induction false} SameElems(a: seq<string>, b: seq<string>)
    requires multiset(a) == multiset(b)
    ensures Elems(a) == Elems(b)
  {
    forall x ensures x in a <==> x in b { assert x in a <==> x in multiset(a); }
  }

  lemma {:induction false} SortedDistinct(a: seq<string>, b: seq<string>, i: nat, j: nat)
    requires Distinct(a) && multiset(a) == multiset(b) && i < j < |b|
    ensures b[i] != b[j]
  {
    if b[i] == b[j] {
      var rest := b[..i] + b[i + 1..];
      assert b == b[..i] + [b[i]] + b[i + 1..];
      assert multiset(b) == multiset(rest) + multiset{b[i]};
      assert rest[j - 1] == b[j];
      assert multiset(a)[b[i]] >= 2;
      OnceOnly(a, b[i]);
    }
  }

  lemma {:induction false} OnceOnly(a: seq<string>, x: string)
    requires Distinct(a)
    ensures multiset(a)[x] <= 1
  {
    if a != [] {
      var init := a[..|a| - 1];
      OnceOnly(init, x);
      assert a == init + [a[|a| - 1]];
      if x == a[|a| - 1] { assert x !in init; }
    }
  }

  // ------------------------------------------------------------ the numbering

  /** The number given to each finished variant is its position. */
  ghost predicate Numbered(orders: map<string, nat>, list: seq<string>, modules: set<string>) {
    && (forall x :: x in orders ==> orders[x] < |list| && list[orders[x]] == x && x in modules)
    && (forall k :: 0 <= k < |list| && list[k] in modules ==> list[k] in orders)
  }

  /** Without cycles, a self-peer gets the smaller number. */
  lemma {:induction false} PeerHasSmallerNumber(tags: seq<string>, peers: map<string, seq<string>>, modules: set<string>,
                                                orders: map<string, nat>, user: string, peer: string)
    requires Numbered(orders, Order(GraphOf(tags, peers), tags), modules) && Acyclic(GraphOf(tags, peers))
    requires Edge(GraphOf(tags, peers), user, peer) && user in modules && peer in modules
    ensures user in orders && peer in orders && orders[peer] < orders[user]
  {
    var g := GraphOf(tags, peers);
    var list := Order(g, tags);
    OrderIsTopological(tags, peers);
    assert user in Elems(list) && peer in Elems(list);
    var k: nat :| k < |list| && list[k] == user;
    assert PeersBefore(g, list, k);
    var m: nat :| m < k && list[..k][m] == peer;
    assert list[m] == peer;
  }

  class Numbering {
    const g: Graph
    /** The variants that have a module to carry the number. */
    const modules: set<string>
    var done: set<string>
    var order: nat
    var orders: map<string, nat>
    ghost var list: seq<string>

    ghost predicate Valid()
      reads this
    {
      order == |list| && Numbered(orders, list, modules)
    }

    constructor (g: Graph, modules: set<string>)
      ensures Valid() && this.g == g && this.modules == modules && done == {} && list == []
    {
      this.g, this.modules := g, modules;
      done, order, orders, list := {}, 0, map[], [];
    }

    /** The recursive `visit`; it ends on cyclic relations too. */
    method VisitTag(tag: string)
      requires Valid()
      modifies this
      ensures Valid() && State(done, list) == Visit(g, tag, State(old(done), old(list)))
      decreases g.tags - done, 0
    {
      if tag in done || tag !in g.tags {
        return;
      }
      assert g.tags - (done + {tag}) < g.tags - done by {
        assert tag in g.tags - done && tag !in g.tags - (done + {tag});
      }
      done := done + {tag};
      VisitTags(Peers(g, tag));
      if tag in modules {
        orders := orders[tag := order];
      }
      order := order + 1;
      list := list + [tag];
    }

    /** The loop over a list of variants. */
    method VisitTags(ts: seq<string>)
      requires Valid()
      modifies this
      ensures Valid() && State(done, list) == VisitAll(g, ts, State(old(done), old(list)))
      decreases g.tags - done, |ts|
    {
      ghost var start := State(done, list);
      assert ts[0..] == ts;
      for i := 0 to |ts|
        invariant Valid() && start.done <= done
        invariant VisitAll(g, ts, start) == VisitAll(g, ts[i..], State(done, list))
      {
        assert ts[i..][1..] == ts[i + 1..];
        assert g.tags - done <= g.tags - start.done;
        VisitTag(ts[i]);
      }
    }
  }

  /** `orderVariants`: sort, then visit each. */
  method OrderVariants(variants: seq<string>, peers: map<string, seq<string>>, modules: set<string>) returns (orders: map<string, nat>)
    ensures Numbered(orders, Order(GraphOf(SortTags(variants), peers), SortTags(variants)), modules)
  {
    var tags := SortTags(variants);
    var n := new Numbering(Graph((set x | x in tags), peers), modules);
    n.VisitTags(tags);
    orders := n.orders;
  }
}
