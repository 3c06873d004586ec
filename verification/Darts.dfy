/**
 * The double-array trie (darts.go): placement of the linked trie into the
 * base/check/value vectors, and the queries that walk those vectors.
 */
module Darts {
  import opened Prelude
  import opened DartsTrie

  /** The three parallel vectors. Cell `c` belongs to state `check[c] - 1`; 0 means free. */
  datatype Table = Table(base: seq<nat>, check: seq<nat>, value: seq<nat>)

  ghost predicate Wf(d: Table) {
    |d.base| == |d.check| == |d.value| && |d.base| >= 1
  }

  /** One transition, exactly as every query takes it. */
  function Next(d: Table, state: nat, b: Byte): Option<nat>
    requires state < |d.base|
  {
    var t := d.base[state] + b + 1;
    if t >= |d.check| || d.check[t] != state + 1 then None else Some(t)
  }

  ghost function Walk(d: Table, s: seq<Byte>): (r: Option<nat>)
    requires Wf(d)
    ensures r.Some? ==> r.value < |d.base|
  {
    if s == [] then Some(0)
    else
      match Walk(d, s[..|s| - 1])
      case None => None
      case Some(state) => Next(d, state, s[|s| - 1])
  }

  /** What the table says of `s` is what the key list says of it. */
  ghost predicate Agrees(d: Table, keys: seq<seq<Byte>>, s: seq<Byte>)
    requires Wf(d)
  {
    && (Walk(d, s).Some? <==> IsPrefixOfSome(keys, s))
    && (s != [] && Walk(d, s).Some? ==> d.value[Walk(d, s).value] == LastKey(keys, s))
  }

  /** What a finished table means: it accepts exactly the prefixes of the keys, and knows each key's last index. */
  ghost predicate Represents(d: Table, keys: seq<seq<Byte>>) {
    Wf(d) && forall s {:trigger Agrees(d, keys, s)} :: Agrees(d, keys, s)
  }

  // ---------------------------------------------------------------- placement

  /** Node-to-state assignment made so far, its inverse, and the nodes whose children are placed. */
  datatype Placement = Placement(at: map<nat, nat>, who: map<nat, nat>, done: set<nat>)

  ghost predicate NodeAt(t: Trie, d: Table, p: Placement, n: nat)
    requires Shape(t) && Wf(d) && n in p.at
  {
    && n < |t.nodes|
    && p.at[n] < |d.base|
    && p.at[n] in p.who && p.who[p.at[n]] == n
    && (n == 0 ==> p.at[n] == 0)
    && (n != 0 ==>
          && t.from[n] in p.done && t.from[n] in p.at
          && p.at[t.from[n]] < |d.base|
          && d.check[p.at[n]] == p.at[t.from[n]] + 1
          && p.at[n] == d.base[p.at[t.from[n]]] + t.edges[n].code + 1
          && d.value[p.at[n]] == t.nodes[n].key)
  }

  ghost predicate CellAt(d: Table, p: Placement, c: nat)
    requires Wf(d) && c < |d.check|
  {
    d.check[c] != 0 ==> c != 0 && c in p.who && p.who[c] in p.at && p.at[p.who[c]] == c
  }

  ghost predicate Placed(t: Trie, d: Table, p: Placement) {
    && Shape(t) && Wf(d)
    && 0 in p.at
    && p.done <= p.at.Keys
    && (forall n {:trigger NodeAt(t, d, p, n)} :: n in p.at ==> NodeAt(t, d, p, n))
    && (forall c: nat :: c < |d.check| ==> CellAt(d, p, c))
  }

  /** Every edge leaving a done node leads to a placed node. */
  ghost predicate ChildrenPlaced(t: Trie, p: Placement, done: set<nat>) {
    forall n, e: nat :: n in done && Leaves(t.from, n, e) ==> e in p.at
  }

  /** Growing the vectors with zeros. */
  ghost predicate Padded(a: seq<nat>, b: seq<nat>) {
    |a| <= |b| && a == b[..|a|] && forall i :: |a| <= i < |b| ==> b[i] == 0
  }

  lemma {:induction false} PaddingKeepsPlaced(t: Trie, d: Table, d': Table, p: Placement)
    requires Placed(t, d, p) && Wf(d')
    requires Padded(d.base, d'.base) && Padded(d.check, d'.check) && Padded(d.value, d'.value)
    ensures Placed(t, d', p)
  {
    forall n | n in p.at ensures NodeAt(t, d', p, n) { assert NodeAt(t, d, p, n); }
    forall c: nat | c < |d'.check|
      ensures CellAt(d', p, c)
    {
      if c < |d.check| { assert CellAt(d, p, c); }
    }
  }

  /** Fixing the base of a node none of whose children are placed yet. */
  lemma {:induction false} BaseSet(t: Trie, d: Table, p: Placement, n: nat, base: nat)
    requires Placed(t, d, p) && n in p.at && n !in p.done && p.at[n] < |d.base|
    ensures Placed(t, d.(base := d.base[p.at[n] := base]), p.(done := p.done + {n}))
  {
    var d' := d.(base := d.base[p.at[n] := base]);
    var p' := p.(done := p.done + {n});
    forall m | m in p'.at
      ensures NodeAt(t, d', p', m)
    {
      assert NodeAt(t, d, p, m) && NodeAt(t, d, p, n);
      if m != 0 { assert NodeAt(t, d, p, t.from[m]); }
    }
    forall c: nat | c < |d'.check| ensures CellAt(d', p', c) { assert CellAt(d, p, c); }
  }

  ghost function PlaceChild(t: Trie, d: Table, p: Placement, e: nat, cell: nat, state: nat): (Table, Placement)
    requires Wf(d) && cell < |d.check| && e < |t.nodes|
  {
    (d.(check := d.check[cell := state + 1], value := d.value[cell := t.nodes[e].key]),
     p.(at := p.at[e := cell], who := p.who[cell := e]))
  }

  lemma {:induction false} ChildPlaced(t: Trie, d: Table, p: Placement, n: nat, e: nat, cell: nat)
    requires Placed(t, d, p) && n in p.done && Leaves(t.from, n, e) && e !in p.at && n in p.at
    requires 0 < cell < |d.check| && d.check[cell] == 0 && p.at[n] < |d.base|
    requires cell == d.base[p.at[n]] + t.edges[e].code + 1
    ensures var (d', p') := PlaceChild(t, d, p, e, cell, p.at[n]);
            Placed(t, d', p')
  {
    var (d', p') := PlaceChild(t, d, p, e, cell, p.at[n]);
    forall m | m in p'.at
      ensures NodeAt(t, d', p', m)
    {
      if m == e {
        assert NodeAt(t, d, p, n);
        assert EdgeAt(t, e);
      } else {
        assert NodeAt(t, d, p, m);
        assert m != 0 ==> p.at[m] != cell;
      }
    }
    forall c: nat | c < |d'.check|
      ensures CellAt(d', p', c)
    {
      assert CellAt(d, p, c);
    }
  }

  /** With every placed node done, every node is placed. */
  lemma {:induction false} AllPlaced(t: Trie, p: Placement, n: nat)
    requires Shape(t) && 0 in p.at && ChildrenPlaced(t, p, p.done) && p.at.Keys == p.done && n < |t.nodes|
    ensures n in p.at
  {
    if n != 0 {
      assert EdgeAt(t, n);
      AllPlaced(t, p, t.from[n]);
      assert Leaves(t.from, t.from[n], n);
    }
  }

  /** A transition out of a placed node leads exactly to that node's child over the byte. */
  lemma {:induction false} NextIsChild(t: Trie, d: Table, p: Placement, m: nat, b: Byte)
    requires Placed(t, d, p) && m in p.at && p.at[m] < |d.base|
    ensures var r := Next(d, p.at[m], b);
            r.Some? ==> r.value in p.who && p.who[r.value] in p.at && p.at[p.who[r.value]] == r.value
                        && Leaves(t.from, m, p.who[r.value]) && t.edges[p.who[r.value]].code == b
  {
    var r := Next(d, p.at[m], b);
    if r.Some? {
      var c := r.value;
      assert CellAt(d, p, c);
      var k := p.who[c];
      assert NodeAt(t, d, p, k) && NodeAt(t, d, p, m);
      assert k != 0 by { assert NodeAt(t, d, p, 0); }
      assert NodeAt(t, d, p, t.from[k]);
    }
  }

  lemma {:induction false} WalkFollowsTrie(t: Trie, d: Table, p: Placement, s: seq<Byte>)
    requires Placed(t, d, p) && forall n :: 0 <= n < |t.nodes| ==> n in p.at
    ensures Walk(d, s).Some? <==> HasPath(t, s)
    ensures forall n :: 0 <= n < |t.nodes| && t.paths[n] == s ==> Walk(d, s) == Some(p.at[n])
    decreases |s|
  {
    assert NodeAt(t, d, p, 0);
    if s == [] {
      assert t.paths[0] == s;
      forall n | 0 <= n < |t.nodes| && t.paths[n] == s ensures n == 0 { }
    } else {
      var q, b := s[..|s| - 1], s[|s| - 1];
      assert s == q + [b];
      WalkFollowsTrie(t, d, p, q);
      forall n | 0 <= n < |t.nodes| && t.paths[n] == s
        ensures Walk(d, s) == Some(p.at[n])
      {
        assert n != 0 && EdgeAt(t, n) && NodeAt(t, d, p, n);
        assert t.paths[n][..|s| - 1] == t.paths[t.from[n]] == q;
        assert t.paths[n][|s| - 1] == b;
      }
      if Walk(d, s).Some? {
        assert HasPath(t, q);
        var m :| 0 <= m < |t.paths| && t.paths[m] == q;
        assert NodeAt(t, d, p, m);
        NextIsChild(t, d, p, m, b);
        var k := p.who[Walk(d, s).value];
        assert EdgeAt(t, k);
        assert t.paths[k] == s;
      }
    }
  }

  lemma {:induction false} FinishedRepresents(t: Trie, d: Table, p: Placement, keys: seq<seq<Byte>>)
    requires Placed(t, d, p) && ChildrenPlaced(t, p, p.done) && p.at.Keys == p.done
    requires Holds(t, keys, [])
    ensures Represents(d, keys)
  {
    forall n: nat | n < |t.nodes| ensures n in p.at { AllPlaced(t, p, n); }
    forall s
      ensures Agrees(d, keys, s)
    {
      WalkFollowsTrie(t, d, p, s);
      PathsAreKeyPrefixes(t, keys, s);
      if s != [] && HasPath(t, s) {
        var n :| 0 <= n < |t.paths| && t.paths[n] == s;
        assert NodeAt(t, d, p, n) && KeyAt(t, keys, n);
      }
    }
  }

  lemma {:induction false} DoneIsBounded(t: Trie, d: Table, p: Placement)
    requires Placed(t, d, p)
    ensures |p.done| <= |t.nodes|
  {
    forall n | n in p.done ensures 0 <= n < |t.nodes| { assert NodeAt(t, d, p, n); }
    BoundedSet(p.done, |t.nodes|);
  }

  lemma {:induction false} BoundedSet(s: set<nat>, n: nat)
    requires forall x :: x in s ==> x < n
    ensures |s| <= n
  {
    if n == 0 {
      assert s == {};
    } else {
      var u := s - {n - 1};
      BoundedSet(u, n - 1);
      assert s == u || s == u + {n - 1};
    }
  }

  /** From index `qi` on, the queue holds each placed node that is not done, once, with its state. */
  ghost predicate Frontier(queue: seq<(nat, nat)>, qi: nat, p: Placement) {
    && qi <= |queue|
    && (forall j :: qi <= j < |queue| ==>
          queue[j].0 in p.at && p.at[queue[j].0] == queue[j].1 && queue[j].0 !in p.done)
    && (forall i, j :: qi <= i < j < |queue| ==> queue[i].0 != queue[j].0)
    && (forall n {:trigger InQueue(queue, qi, n)} :: n in p.at ==> n in p.done || InQueue(queue, qi, n))
  }

  ghost predicate InQueue(queue: seq<(nat, nat)>, qi: nat, n: nat) {
    exists j :: qi <= j < |queue| && queue[j].0 == n
  }

  /** `p'` places the nodes listed in `placed` on top of `p`, and is done with `n`. */
  ghost predicate Grown(p: Placement, p': Placement, n: nat, placed: seq<(nat, nat)>) {
    && p'.done == p.done + {n}
    && (forall m :: m in p.at ==> m in p'.at && p'.at[m] == p.at[m])
    && (forall j :: 0 <= j < |placed| ==>
          placed[j].0 in p'.at && p'.at[placed[j].0] == placed[j].1 && placed[j].0 !in p.at)
    && (forall i, j :: 0 <= i < j < |placed| ==> placed[i].0 != placed[j].0)
    && (forall m {:trigger InQueue(placed, 0, m)} :: m in p'.at ==> m in p.at || InQueue(placed, 0, m))
  }

  lemma {:induction false} FrontierStep(queue: seq<(nat, nat)>, qi: nat, p: Placement, p': Placement, placed: seq<(nat, nat)>)
    requires Frontier(queue, qi, p) && qi < |queue| && p.done <= p.at.Keys && Grown(p, p', queue[qi].0, placed)
    ensures Frontier(queue + placed, qi + 1, p')
  {
    var q := queue + placed;
    forall n | n in p'.at
      ensures n in p'.done || InQueue(q, qi + 1, n)
    {
      if n in p.at {
        if n !in p'.done {
          assert InQueue(queue, qi, n);
          var j :| qi <= j < |queue| && queue[j].0 == n;
          assert q[j].0 == n;
        }
      } else {
        assert InQueue(placed, 0, n);
        var j :| 0 <= j < |placed| && placed[j].0 == n;
        assert q[|queue| + j].0 == n;
      }
    }
  }

  /** The codes and children of one node, read off its edge list. */
  method Children(nodes: seq<Node>, edges: seq<Edge>, n: nat, ghost t: Trie) returns (codes: seq<nat>, children: seq<nat>)
    requires t.nodes == nodes && t.edges == edges && Shape(t) && Linked(t) && n < |nodes|
    ensures Family(t, codes, children, n)
  {
    codes, children := [], [];
    var edge := nodes[n].first;
    assert HeadAt(t, n);
    while edge != 0
      invariant edge != 0 ==> Leaves(t.from, n, edge)
      invariant |codes| == |children|
      invariant forall i :: 0 <= i < |children| ==>
                  Leaves(t.from, n, children[i]) && children[i] > edge && codes[i] == edges[children[i]].code + 1
      invariant forall i, j :: 0 <= i < j < |children| ==> children[i] != children[j]
      invariant forall e: nat :: Leaves(t.from, n, e) && e > edge ==> e in children
      decreases edge
    {
      assert EdgeAt(t, edge) && NextAt(t, edge);
      codes := codes + [edges[edge].code + 1];
      children := children + [edges[edge].child];
      edge := edges[edge].next;
    }
  }

  lemma {:induction false} CodesDistinct(t: Trie, n: nat, e: nat, f: nat)
    requires Shape(t) && Leaves(t.from, n, e) && Leaves(t.from, n, f) && e != f
    ensures t.edges[e].code != t.edges[f].code
  {
    assert EdgeAt(t, e) && EdgeAt(t, f);
  }

  /** `children` lists the edges leaving `n`, `codes` their codes shifted by one. */
  ghost predicate Family(t: Trie, codes: seq<nat>, children: seq<nat>, n: nat) {
    && Shape(t) && |codes| == |children|
    && (forall i :: 0 <= i < |children| ==>
          Leaves(t.from, n, children[i]) && 1 <= children[i] < |t.edges| && codes[i] == t.edges[children[i]].code + 1)
    && (forall i, j :: 0 <= i < j < |children| ==> children[i] != children[j])
    && (forall e: nat :: Leaves(t.from, n, e) ==> e in children)
  }

  /** The first `i` children of `n` are placed on top of `p0`; the cells of the others are still free. */
  ghost predicate Placing(t: Trie, d: Table, p0: Placement, p: Placement, codes: seq<nat>, children: seq<nat>,
                          n: nat, b: nat, i: nat)
  {
    && Placed(t, d, p) && i <= |codes| == |children|
    && n in p0.at && n in p0.done && p0.at[n] < |d.base| && d.base[p0.at[n]] == b >= 1
    && p.done == p0.done
    && (forall m :: m in p0.at ==> m in p.at && p.at[m] == p0.at[m])
    && (forall m :: m in p.at ==> m in p0.at || m in children)
    && (forall j :: 0 <= j < |children| ==> children[j] !in p0.at && (children[j] in p.at <==> j < i))
    && (forall j :: i <= j < |codes| ==> b + codes[j] < |d.check| && d.check[b + codes[j]] == 0)
  }

  /** `placed` pairs the first children with the states they got. */
  ghost predicate Listed(p: Placement, children: seq<nat>, placed: seq<(nat, nat)>) {
    && |placed| <= |children|
    && (forall j :: 0 <= j < |placed| ==>
          placed[j].0 == children[j] && children[j] in p.at && p.at[children[j]] == placed[j].1)
  }

  lemma {:induction false} PlacingStep(t: Trie, d: Table, p0: Placement, p: Placement, codes: seq<nat>, children: seq<nat>,
                    n: nat, b: nat, i: nat)
    requires Family(t, codes, children, n) && i < |codes| && Placing(t, d, p0, p, codes, children, n, b, i)
    ensures var (d', p') := PlaceChild(t, d, p, children[i], b + codes[i], p0.at[n]);
            Placing(t, d', p0, p', codes, children, n, b, i + 1)
  {
    var child := children[i];
    forall j | i < j < |codes|
      ensures codes[j] != codes[i]
    {
      CodesDistinct(t, n, children[j], child);
    }
    ChildPlaced(t, d, p, n, child, b + codes[i]);
  }

  lemma {:induction false} ListedStep(p: Placement, children: seq<nat>, placed: seq<(nat, nat)>, cell: nat)
    requires Listed(p, children, placed) && |placed| < |children|
    requires forall i, j :: 0 <= i < j < |children| ==> children[i] != children[j]
    ensures Listed(p.(at := p.at[children[|placed|] := cell]), children, placed + [(children[|placed|], cell)])
  {
  }

  lemma {:induction false} FamilyUnplaced(t: Trie, d: Table, p: Placement, codes: seq<nat>, children: seq<nat>, n: nat)
    requires Family(t, codes, children, n) && Placed(t, d, p) && n !in p.done
    ensures forall i :: 0 <= i < |children| ==> children[i] !in p.at
  {
    forall i | 0 <= i < |children|
      ensures children[i] !in p.at
    {
      assert children[i] in p.at ==> NodeAt(t, d, p, children[i]);
    }
  }

  lemma {:induction false} FamilyGrown(t: Trie, d: Table, p0: Placement, p: Placement, codes: seq<nat>, children: seq<nat>,
                    n: nat, b: nat, placed: seq<(nat, nat)>)
    requires Family(t, codes, children, n) && |placed| == |children| && Listed(p, children, placed)
    requires Placing(t, d, p0.(done := p0.done + {n}), p, codes, children, n, b, |codes|)
    ensures Grown(p0, p, n, placed)
  {
    forall m | m in p.at
      ensures m in p0.at || InQueue(placed, 0, m)
    {
      if m !in p0.at {
        var j :| 0 <= j < |children| && children[j] == m;
        assert placed[j].0 == m;
      }
    }
  }

  lemma {:induction false} FamilyPlaced(t: Trie, d: Table, p0: Placement, p: Placement, codes: seq<nat>, children: seq<nat>, n: nat, b: nat)
    requires Family(t, codes, children, n) && Placing(t, d, p0, p, codes, children, n, b, |codes|)
    requires ChildrenPlaced(t, p0, p0.done - {n})
    ensures ChildrenPlaced(t, p, p.done)
  {
    forall m, e: nat | m in p.done && Leaves(t.from, m, e)
      ensures e in p.at
    {
      if m == n { assert e in children; }
    }
  }

  /** The key list's answer: longest non-empty key that is a prefix of `s`, by its last index. */
  ghost predicate IsLongest(keys: seq<seq<Byte>>, s: seq<Byte>, best: nat, found: bool) {
    if found then
      && best < |keys| && keys[best] != [] && keys[best] <= s
      && (forall i :: 0 <= i < |keys| && keys[i] <= s ==> |keys[i]| <= |keys[best]|)
      && (forall i :: best < i < |keys| ==> keys[i] != keys[best])
    else
      best == 0 && forall i :: 0 <= i < |keys| && keys[i] <= s ==> keys[i] == []
  }

  /** A query after `n` bytes of `s`: the state it is in and the best answer so far. */
  ghost predicate Matching(d: Table, keys: seq<seq<Byte>>, s: seq<Byte>, n: nat, state: nat, best: nat, found: bool) {
    && Represents(d, keys) && n <= |s|
    && Walk(d, s[..n]) == Some(state)
    && IsLongest(keys, s[..n], best, found)
  }

  /** One more byte with a transition: the answer moves on to the key ending here, if any. */
  lemma {:induction false} LongestStep(d: Table, keys: seq<seq<Byte>>, s: seq<Byte>, n: nat, state: nat, best: nat, found: bool)
    requires Matching(d, keys, s, n, state, best, found) && n < |s| && Next(d, state, s[n]).Some?
    ensures var t := Next(d, state, s[n]).value;
            && t < |d.value|
            && if d.value[t] != 0 then Matching(d, keys, s, n + 1, t, d.value[t] - 1, true)
               else Matching(d, keys, s, n + 1, t, best, found)
  {
    var u := s[..n + 1];
    assert u[..n] == s[..n];
    assert Agrees(d, keys, u);
    forall i | 0 <= i < |keys| && keys[i] <= u
      ensures keys[i] == u || keys[i] <= s[..n]
    {
      if |keys[i]| <= n { assert keys[i] == u[..|keys[i]|] == s[..n][..|keys[i]|]; }
    }
    if LastKey(keys, u) == 0 && found {
      assert keys[best] <= u;
    }
  }

  /** No transition on the next byte: nothing longer can match. */
  lemma {:induction false} LongestStuck(d: Table, keys: seq<seq<Byte>>, s: seq<Byte>, n: nat, state: nat, best: nat, found: bool)
    requires Matching(d, keys, s, n, state, best, found) && n < |s| && Next(d, state, s[n]).None?
    ensures IsLongest(keys, s, best, found)
  {
    assert s[..n + 1][..n] == s[..n];
    assert Agrees(d, keys, s[..n + 1]);
    forall i | 0 <= i < |keys| && keys[i] <= s
      ensures keys[i] <= s[..n]
    {
      assert !(s[..n + 1] <= keys[i]);
      assert keys[i] == s[..|keys[i]|] == s[..n][..|keys[i]|];
    }
    if found { assert keys[best] <= s; }
  }

  lemma {:induction false} MatchingAll(d: Table, keys: seq<seq<Byte>>, s: seq<Byte>, state: nat, best: nat, found: bool)
    requires Matching(d, keys, s, |s|, state, best, found)
    ensures IsLongest(keys, s, best, found)
  {
    assert s[..|s|] == s;
  }

  lemma {:induction false} WalkOneMore(d: Table, keys: seq<seq<Byte>>, s: seq<Byte>, n: nat, state: nat)
    requires Represents(d, keys) && n < |s| && Walk(d, s[..n]) == Some(state)
    ensures Walk(d, s[..n + 1]) == Next(d, state, s[n])
    ensures Next(d, state, s[n]).None? ==> !IsPrefixOfSome(keys, s[..n + 1])
    ensures Next(d, state, s[n]).Some? ==> d.value[Next(d, state, s[n]).value] == LastKey(keys, s[..n + 1])
  {
    assert s[..n + 1][..n] == s[..n];
    assert Agrees(d, keys, s[..n + 1]);
  }

  function Concat(parts: seq<seq<Byte>>): seq<Byte> {
    if parts == [] then [] else Concat(parts[..|parts| - 1]) + parts[|parts| - 1]
  }

  lemma {:induction false} ConcatPrefix(parts: seq<seq<Byte>>, k: nat)
    requires k <= |parts|
    ensures Concat(parts[..k]) <= Concat(parts)
    decreases |parts| - k
  {
    if k == |parts| {
      assert parts[..k] == parts;
    } else {
      ConcatPrefix(parts, k + 1);
      assert parts[..k + 1][..k] == parts[..k];
      assert Concat(parts[..k + 1]) == Concat(parts[..k]) + parts[k];
    }
  }

  /** Where part `k` sits in the concatenation. */
  lemma {:induction false} ConcatStep(parts: seq<seq<Byte>>, k: nat)
    requires k < |parts|
    ensures |Concat(parts[..k + 1])| == |Concat(parts[..k])| + |parts[k]| <= |Concat(parts)|
    ensures forall i :: 0 <= i < |parts[k]| ==> Concat(parts)[|Concat(parts[..k])| + i] == parts[k][i]
  {
    ConcatPrefix(parts, k + 1);
    assert parts[..k + 1][..k] == parts[..k];
    assert Concat(parts[..k + 1]) == Concat(parts[..k]) + parts[k];
  }

  function Reverse(s: seq<Byte>): (r: seq<Byte>)
    ensures |r| == |s|
    ensures forall i :: 0 <= i < |s| ==> r[i] == s[|s| - 1 - i]
  {
    if s == [] then [] else Reverse(s[1..]) + [s[0]]
  }

  ghost predicate IsSuffix(e: seq<Byte>, s: seq<Byte>) {
    |e| <= |s| && s[|s| - |e|..] == e
  }

  lemma {:induction false} ReversePrefixIsSuffix(e: seq<Byte>, s: seq<Byte>)
    ensures Reverse(e) <= Reverse(s) <==> IsSuffix(e, s)
  {
    if |e| <= |s| {
      var w := s[|s| - |e|..];
      if Reverse(e) <= Reverse(s) {
        forall i | 0 <= i < |e| ensures w[i] == e[i] {
          assert Reverse(e)[|e| - 1 - i] == Reverse(s)[|e| - 1 - i];
        }
        assert w == e;
      }
      if w == e {
        forall i | 0 <= i < |e| ensures Reverse(e)[i] == Reverse(s)[i] {
          assert w[|e| - 1 - i] == s[|s| - 1 - i];
        }
        assert Reverse(e) <= Reverse(s);
      }
    }
  }

  /** A visit reported by `walk`: the key's index and whether it is the whole string. */
  datatype Visit = Visit(key: nat, whole: bool)

  /** What `walk` must report on the first `n` bytes: each key that is a prefix, shortest first. */
  ghost function VisitsUpTo(keys: seq<seq<Byte>>, s: seq<Byte>, n: nat): seq<Visit>
    requires n <= |s|
  {
    if n == 0 then []
    else
      var v := LastKey(keys, s[..n]);
      VisitsUpTo(keys, s, n - 1) + (if v != 0 then [Visit(v - 1, n == |s|)] else [])
  }

  lemma {:induction false} NothingToVisit(keys: seq<seq<Byte>>, s: seq<Byte>, n: nat, m: nat)
    requires n <= m <= |s| && n < |s| && !IsPrefixOfSome(keys, s[..n + 1])
    ensures VisitsUpTo(keys, s, m) == VisitsUpTo(keys, s, n)
    decreases m
  {
    if m > n {
      NothingToVisit(keys, s, n, m - 1);
      assert s[..n + 1] <= s[..m];
      assert forall i :: 0 <= i < |keys| ==> !(s[..n + 1] <= keys[i]);
      assert LastKey(keys, s[..m]) == 0;
    }
  }

  /** Where `walk` stands after `n` bytes. */
  ghost predicate Walking(d: Table, keys: seq<seq<Byte>>, s: seq<Byte>, n: nat, state: nat, visits: seq<Visit>) {
    && Wf(d) && n <= |s| && Walk(d, s[..n]) == Some(state) && visits == VisitsUpTo(keys, s, n)
  }

  /** One more byte: stuck, with nothing left to report, or one state further. */
  lemma {:induction false} WalkingStep(d: Table, keys: seq<seq<Byte>>, s: seq<Byte>, n: nat, state: nat, visits: seq<Visit>)
    requires Represents(d, keys) && n < |s| && Walking(d, keys, s, n, state, visits)
    ensures match Next(d, state, s[n])
            case None => visits == VisitsUpTo(keys, s, |s|)
            case Some(t) =>
              Walking(d, keys, s, n + 1, t,
                      if d.value[t] != 0 then visits + [Visit(d.value[t] - 1, n == |s| - 1)] else visits)
  {
    WalkOneMore(d, keys, s, n, state);
    if Next(d, state, s[n]).None? { NothingToVisit(keys, s, n, |s|); }
  }

  /** `v` reports a non-empty key that is a prefix of `s` no longer than `n`, by its last index. */
  ghost predicate TrueVisit(keys: seq<seq<Byte>>, s: seq<Byte>, n: nat, v: Visit) {
    && v.key < |keys| && 0 < |keys[v.key]| <= n && keys[v.key] <= s
    && (v.whole <==> keys[v.key] == s)
    && v.key + 1 == LastKey(keys, keys[v.key])
  }

  ghost predicate Lengthening(keys: seq<seq<Byte>>, vs: seq<Visit>) {
    forall i, j :: 0 <= i < j < |vs| ==>
      vs[i].key < |keys| && vs[j].key < |keys| && |keys[vs[i].key]| < |keys[vs[j].key]|
  }

  /** `walk` reports only non-empty prefix keys, in increasing length. */
  lemma {:induction false} VisitsAreTrue(keys: seq<seq<Byte>>, s: seq<Byte>, n: nat)
    requires n <= |s|
    ensures forall j :: 0 <= j < |VisitsUpTo(keys, s, n)| ==> TrueVisit(keys, s, n, VisitsUpTo(keys, s, n)[j])
    ensures Lengthening(keys, VisitsUpTo(keys, s, n))
  {
    if n > 0 {
      VisitsAreTrue(keys, s, n - 1);
      var before, vs := VisitsUpTo(keys, s, n - 1), VisitsUpTo(keys, s, n);
      forall j | 0 <= j < |vs|
        ensures TrueVisit(keys, s, n, vs[j])
        ensures j < |before| ==> vs[j] == before[j] && |keys[vs[j].key]| < n
        ensures j == |before| ==> |keys[vs[j].key]| == n
      {
        if j < |before| {
          assert TrueVisit(keys, s, n - 1, before[j]);
        } else {
          assert keys[LastKey(keys, s[..n]) - 1] == s[..n];
        }
      }
    }
  }

  /** Some visit reports the key whose last index is `last - 1`. */
  ghost predicate Reports(vs: seq<Visit>, last: nat) {
    exists j :: 0 <= j < |vs| && vs[j].key + 1 == last
  }

  /** `walk` reports every non-empty key that is a prefix of `s`. */
  lemma {:induction false} VisitsAreAll(keys: seq<seq<Byte>>, s: seq<Byte>, n: nat, i: nat)
    requires n <= |s| && i < |keys| && 0 < |keys[i]| <= n && keys[i] <= s
    ensures Reports(VisitsUpTo(keys, s, n), LastKey(keys, keys[i]))
  {
    var before, vs := VisitsUpTo(keys, s, n - 1), VisitsUpTo(keys, s, n);
    if |keys[i]| == n {
      assert keys[i] == s[..n];
      assert LastKey(keys, s[..n]) != 0;
      assert vs[|before|].key + 1 == LastKey(keys, s[..n]);
    } else {
      VisitsAreAll(keys, s, n - 1, i);
      var j :| 0 <= j < |before| && before[j].key + 1 == LastKey(keys, keys[i]);
      assert vs[j] == before[j];
    }
  }

  /** Some child of a node based at `x` would land on an occupied cell. */
  ghost predicate Blocked(check: seq<nat>, codes: seq<nat>, x: nat) {
    exists i :: 0 <= i < |codes| && x + codes[i] < |check| && check[x + codes[i]] != 0
  }

  lemma {:induction false} PaddingKeepsBlocked(a: seq<nat>, b: seq<nat>, codes: seq<nat>, x: nat)
    requires Padded(a, b)
    ensures Blocked(a, codes, x) ==> Blocked(b, codes, x)
  {
    if Blocked(a, codes, x) {
      var i :| 0 <= i < |codes| && x + codes[i] < |a| && a[x + codes[i]] != 0;
      assert b[x + codes[i]] == a[x + codes[i]];
    }
  }

  class DoubleArray {
    var base: seq<nat>
    var check: seq<nat>
    var value: seq<nat>
    var baseHint: nat

    ghost function View(): Table
      reads this
    {
      Table(base, check, value)
    }

    /** `ensure`: grow the three vectors with zeros until cell `n` exists. */
    method Ensure(n: nat)
      requires Wf(View())
      modifies this`base, this`check, this`value
      ensures Wf(View()) && n < |base|
      ensures Padded(old(base), base) && Padded(old(check), check) && Padded(old(value), value)
      ensures |base| <= if n + 1 <= old(|base|) then old(|base|) else n + 1
    {
      while |base| <= n
        invariant Wf(View())
        invariant Padded(old(base), base) && Padded(old(check), check) && Padded(old(value), value)
        invariant |base| <= n + 1 || |base| == old(|base|)
      {
        base := base + [0];
        check := check + [0];
        value := value + [0];
      }
    }

    /** The inner loop of `findBase`: are all the cells a base selects free? */
    method Fits(codes: seq<nat>, b: nat) returns (free: bool)
      requires forall i :: 0 <= i < |codes| ==> b + codes[i] < |check|
      ensures free <==> !Blocked(check, codes, b)
    {
      for i := 0 to |codes|
        invariant forall j :: 0 <= j < i ==> check[b + codes[j]] == 0
      {
        if check[b + codes[i]] != 0 {
          return false;
        }
      }
      return true;
    }

    /** `findBase`: first-fit search from the hint; it terminates because cells past the old end are free. */
    method FindBase(codes: seq<nat>) returns (b: nat)
      requires Wf(View())
      modifies this
      ensures Wf(View()) && baseHint == b >= 1 && b >= old(baseHint)
      ensures Padded(old(base), base) && Padded(old(check), check) && Padded(old(value), value)
      ensures forall i :: 0 <= i < |codes| ==> b + codes[i] < |check| && check[b + codes[i]] == 0
      ensures forall x: nat :: 1 <= x < b && old(baseHint) <= x ==> Blocked(check, codes, x)
    {
      var maxCode := 0;
      for i := 0 to |codes|
        invariant forall j :: 0 <= j < i ==> codes[j] <= maxCode
      {
        if codes[i] > maxCode { maxCode := codes[i]; }
      }
      b := baseHint;
      if b < 1 { b := 1; }
      ghost var first := b;
      ghost var len0 := |check|;
      while true
        invariant Wf(View()) && b >= first && baseHint == old(baseHint)
        invariant Padded(old(base), base) && Padded(old(check), check) && Padded(old(value), value)
        invariant forall x: nat :: first <= x < b ==> Blocked(check, codes, x)
        decreases len0 - b
      {
        ghost var before := check;
        Ensure(b + maxCode);
        forall x: nat | first <= x < b ensures Blocked(check, codes, x) { PaddingKeepsBlocked(before, check, codes, x); }
        var free := Fits(codes, b);
        if free {
          baseHint := b;
          return;
        }
        assert b < len0 by {
          var j :| 0 <= j < |codes| && b + codes[j] < |check| && check[b + codes[j]] != 0;
        }
        b := b + 1;
      }
    }

    /** `newDarts`: build the trie, then place it breadth first. */
    constructor (keys: seq<seq<Byte>>)
      ensures Represents(View(), keys)
    {
      base, check, value, baseHint := [0], [0], [0], 0;
      new;
      var nodes, edges;
      ghost var t;
      nodes, edges, t := BuildTrie(keys);
      var queue: seq<(nat, nat)> := [(0, 0)];
      var qi := 0;
      ghost var p := Placement(map[0 := 0], map[0 := 0], {});
      assert Placed(t, View(), p) by { assert NodeAt(t, View(), p, 0); }
      assert Frontier(queue, 0, p) by { assert queue[0].0 == 0; }
      while qi < |queue|
        invariant Placed(t, View(), p) && ChildrenPlaced(t, p, p.done) && Frontier(queue, qi, p)
        decreases |nodes| - |p.done|
      {
        var it := queue[qi];
        assert NodeAt(t, View(), p, it.0);
        var placed;
        ghost var p';
        placed, p' := PlaceNode(nodes, edges, it.0, it.1, t, p);
        FrontierStep(queue, qi, p, p', placed);
        DoneIsBounded(t, View(), p');
        p := p';
        queue := queue + placed;
        qi := qi + 1;
      }
      assert p.at.Keys == p.done by {
        forall n | n in p.at ensures n in p.done { assert !InQueue(queue, qi, n); }
      }
      FinishedRepresents(t, View(), p, keys);
    }

    /** One step of the breadth-first loop: place the children of `n`, whose state is `state`. */
    method PlaceNode(nodes: seq<Node>, edges: seq<Edge>, n: nat, state: nat, ghost t: Trie, ghost p0: Placement)
      returns (placed: seq<(nat, nat)>, ghost p: Placement)
      requires t.nodes == nodes && t.edges == edges && Shape(t) && Linked(t)
      requires Placed(t, View(), p0) && ChildrenPlaced(t, p0, p0.done)
      requires n in p0.at && n !in p0.done && p0.at[n] == state && n < |nodes|
      modifies this
      ensures Placed(t, View(), p) && ChildrenPlaced(t, p, p.done)
      ensures Grown(p0, p, n, placed)
    {
      placed, p := [], p0;
      assert HeadAt(t, n) && NodeAt(t, View(), p0, n);
      if nodes[n].first == 0 {
        BaseSet(t, View(), p0, n, base[state]);
        assert base[state := base[state]] == base;
        p := p0.(done := p0.done + {n});
        return;
      }
      var codes, children := Children(nodes, edges, n, t);
      ghost var d0 := View();
      var b := FindBase(codes);
      PaddingKeepsPlaced(t, d0, View(), p0);
      BaseSet(t, View(), p0, n, b);
      base := base[state := b];
      p := p0.(done := p0.done + {n});
      FamilyUnplaced(t, d0, p0, codes, children, n);
      ghost var p1 := p;
      placed, p := PlaceChildren(nodes, codes, children, n, state, b, t, p1);
      FamilyPlaced(t, View(), p1, p, codes, children, n, b);
      FamilyGrown(t, View(), p0, p, codes, children, n, b, placed);
    }

    /** The inner loop: each child gets the free cell its code selects. */
    method PlaceChildren(nodes: seq<Node>, codes: seq<nat>, children: seq<nat>, n: nat, state: nat, b: nat,
                         ghost t: Trie, ghost p0: Placement)
      returns (placed: seq<(nat, nat)>, ghost p: Placement)
      requires t.nodes == nodes && Family(t, codes, children, n)
      requires n in p0.at && p0.at[n] == state && Placing(t, View(), p0, p0, codes, children, n, b, 0)
      modifies this`check, this`value
      ensures Placing(t, View(), p0, p, codes, children, n, b, |codes|)
      ensures |placed| == |children| && Listed(p, children, placed)
    {
      placed, p := [], p0;
      for i := 0 to |codes|
        invariant |placed| == i && Listed(p, children, placed)
        invariant Placing(t, View(), p0, p, codes, children, n, b, i)
      {
        ListedStep(p, children, placed, b + codes[i]);
        p := PlaceOne(nodes, codes, children, n, state, b, t, p0, p, i);
        placed := placed + [(children[i], b + codes[i])];
      }
    }

    /** One round: child `i` gets the cell of its code. */
    method PlaceOne(nodes: seq<Node>, codes: seq<nat>, children: seq<nat>, n: nat, state: nat, b: nat,
                    ghost t: Trie, ghost p0: Placement, ghost p: Placement, i: nat)
      returns (ghost p': Placement)
      requires t.nodes == nodes && Family(t, codes, children, n) && i < |codes|
      requires n in p0.at && p0.at[n] == state && Placing(t, View(), p0, p, codes, children, n, b, i)
      modifies this`check, this`value
      ensures Placing(t, View(), p0, p', codes, children, n, b, i + 1)
      ensures p'.at == p.at[children[i] := b + codes[i]]
    {
      var cell, child := b + codes[i], children[i];
      PlacingStep(t, View(), p0, p, codes, children, n, b, i);
      p' := PlaceChild(t, View(), p, child, cell, state).1;
      check := check[cell := state + 1];
      value := value[cell := nodes[child].key];
    }

    /** The inner loop of `longestMatch`: one part, starting at offset `n` of the whole. */
    method MatchPart(p: seq<Byte>, s0: nat, best0: nat, found0: bool,
                     ghost keys: seq<seq<Byte>>, ghost whole: seq<Byte>, ghost n: nat)
      returns (s: nat, best: nat, found: bool, stuck: bool)
      requires Matching(View(), keys, whole, n, s0, best0, found0)
      requires n + |p| <= |whole| && forall i :: 0 <= i < |p| ==> whole[n + i] == p[i]
      ensures stuck ==> IsLongest(keys, whole, best, found)
      ensures !stuck ==> Matching(View(), keys, whole, n + |p|, s, best, found)
    {
      s, best, found, stuck := s0, best0, found0, false;
      ghost var d := View();
      for i := 0 to |p|
        invariant Matching(d, keys, whole, n + i, s, best, found)
      {
        var t := base[s] + p[i] + 1;
        if t >= |check| || check[t] != s + 1 {
          LongestStuck(d, keys, whole, n + i, s, best, found);
          stuck := true;
          return;
        }
        LongestStep(d, keys, whole, n + i, s, best, found);
        s := t;
        if value[s] != 0 {
          best, found := value[s] - 1, true;
        }
      }
    }

    /** `longestMatch` over the concatenation of `parts`. */
    method LongestMatch(parts: seq<seq<Byte>>, ghost keys: seq<seq<Byte>>) returns (best: nat, found: bool)
      requires Represents(View(), keys)
      ensures IsLongest(keys, Concat(parts), best, found)
    {
      var s: nat := 0;
      best, found := 0, false;
      ghost var whole := Concat(parts);
      for k := 0 to |parts|
        invariant Matching(View(), keys, whole, |Concat(parts[..k])|, s, best, found)
      {
        ConcatStep(parts, k);
        var stuck;
        s, best, found, stuck := MatchPart(parts[k], s, best, found, keys, whole, |Concat(parts[..k])|);
        if stuck {
          return;
        }
      }
      assert parts[..|parts|] == parts;
      MatchingAll(View(), keys, whole, s, best, found);
    }

    /** `longestSuffixMatch`: the same walk, over the bytes of `s` from its end. */
    method LongestSuffixMatch(s: seq<Byte>, ghost keys: seq<seq<Byte>>) returns (best: nat, found: bool)
      requires Represents(View(), keys)
      ensures IsLongest(keys, Reverse(s), best, found)
    {
      var st := 0;
      best, found := 0, false;
      ghost var d, whole := View(), Reverse(s);
      var i := |s| - 1;
      while i >= 0
        invariant -1 <= i < |s|
        invariant Matching(d, keys, whole, |s| - 1 - i, st, best, found)
      {
        ghost var n := |s| - 1 - i;
        assert whole[n] == s[i];
        var t := base[st] + s[i] + 1;
        if t >= |check| || check[t] != st + 1 {
          LongestStuck(d, keys, whole, n, st, best, found);
          return;
        }
        LongestStep(d, keys, whole, n, st, best, found);
        st := t;
        if value[st] != 0 {
          best, found := value[st] - 1, true;
        }
        i := i - 1;
      }
      MatchingAll(d, keys, whole, st, best, found);
    }

    /** `walk`: report every key on the way. */
    method WalkKeys(s: seq<Byte>, ghost keys: seq<seq<Byte>>) returns (visits: seq<Visit>)
      requires Represents(View(), keys)
      ensures visits == VisitsUpTo(keys, s, |s|)
    {
      var st: nat := 0;
      visits := [];
      assert Walking(View(), keys, s, 0, st, visits);
      for i := 0 to |s|
        invariant Walking(View(), keys, s, i, st, visits)
      {
        WalkingStep(View(), keys, s, i, st, visits);
        var next := Step(st, s[i]);
        if next.None? {
          return;
        }
        st := next.value;
        if value[st] != 0 {
          visits := visits + [Visit(value[st] - 1, i == |s| - 1)];
        }
      }
    }

    /** One transition over the vectors. */
    method Step(state: nat, b: Byte) returns (r: Option<nat>)
      requires Wf(View()) && state < |base|
      ensures r == Next(View(), state, b)
    {
      var t := base[state] + b + 1;
      r := if t >= |check| || check[t] != state + 1 then None else Some(t);
    }
  }
}
