/** The linked-edge trie that `newDarts` builds before placing it (darts.go). */
module DartsTrie {
  type Byte = x: int | 0 <= x < 256

  /** Slot 0 of both vectors is taken: node 0 is the root, edge 0 means "no edge". */
  datatype Node = Node(first: nat, key: nat)
  datatype Edge = Edge(next: nat, child: nat, code: Byte)

  /** The trie with the two things only a proof needs: each edge's source node and each node's path. */
  datatype Trie = Trie(nodes: seq<Node>, edges: seq<Edge>, from: seq<nat>, paths: seq<seq<Byte>>)

  /** The last index whose key is `s`, plus one; 0 when `s` is not a key. */
  function LastKey(keys: seq<seq<Byte>>, s: seq<Byte>): (r: nat)
    ensures r <= |keys|
    ensures r != 0 ==> keys[r - 1] == s
    ensures forall j :: r <= j < |keys| ==> keys[j] != s
  {
    if keys == [] then 0
    else if keys[|keys| - 1] == s then |keys|
    else LastKey(keys[..|keys| - 1], s)
  }

  ghost predicate IsPrefixOfSome(keys: seq<seq<Byte>>, s: seq<Byte>) {
    s == [] || exists i :: 0 <= i < |keys| && s <= keys[i]
  }

  /** Edge `e` leaves node `n`. Edge 0 leaves nothing. */
  ghost predicate Leaves(from: seq<nat>, n: int, e: int) {
    1 <= e < |from| && from[e] == n
  }

  ghost predicate Sized(t: Trie) {
    |t.nodes| == |t.edges| == |t.from| == |t.paths| && |t.nodes| >= 1
  }

  /** Edge `e` leads to node `e` and extends its source's path by its code. */
  ghost predicate EdgeAt(t: Trie, e: int)
    requires Sized(t) && 1 <= e < |t.edges|
  {
    && t.edges[e].child == e
    && t.from[e] < e
    && t.paths[e] == t.paths[t.from[e]] + [t.edges[e].code]
  }

  ghost predicate Shape(t: Trie) {
    && Sized(t)
    && t.paths[0] == []
    && (forall i, j :: 0 <= i < j < |t.paths| ==> t.paths[i] != t.paths[j])
    && (forall e :: 1 <= e < |t.edges| ==> EdgeAt(t, e))
  }

  /** `e` heads the list of `n`: no later edge leaves `n`. */
  ghost predicate HeadAt(t: Trie, n: int)
    requires 0 <= n < |t.nodes|
  {
    && (t.nodes[n].first != 0 ==> Leaves(t.from, n, t.nodes[n].first))
    && (forall e :: Leaves(t.from, n, e) ==> e <= t.nodes[n].first)
  }

  /** The edge after `e` in its list is the newest older edge of the same node. */
  ghost predicate NextAt(t: Trie, e: int)
    requires Sized(t) && 1 <= e < |t.edges|
  {
    && (t.edges[e].next != 0 ==> t.edges[e].next < e && Leaves(t.from, t.from[e], t.edges[e].next))
    && (forall e' :: Leaves(t.from, t.from[e], e') && e' < e ==> e' <= t.edges[e].next)
  }

  /** Each node's edge list holds exactly the edges that leave it, newest first. */
  ghost predicate Linked(t: Trie)
    requires Shape(t)
  {
    && (forall n :: 0 <= n < |t.nodes| ==> HeadAt(t, n))
    && (forall e :: 1 <= e < |t.edges| ==> NextAt(t, e))
  }

  ghost predicate PathAt(t: Trie, keys: seq<seq<Byte>>, p: seq<Byte>, n: int)
    requires Sized(t) && 0 <= n < |t.paths|
  {
    IsPrefixOfSome(keys, t.paths[n]) || t.paths[n] <= p
  }

  ghost predicate KeyAt(t: Trie, keys: seq<seq<Byte>>, n: int)
    requires Sized(t) && 0 <= n < |t.nodes|
  {
    t.nodes[n].key == LastKey(keys, t.paths[n])
  }

  /**
   * The trie holds every prefix of `keys`, the prefixes of the partly inserted
   * key `p` and nothing else, and each node knows its last key.
   */
  ghost predicate Holds(t: Trie, keys: seq<seq<Byte>>, p: seq<Byte>)
    requires Shape(t)
  {
    && (forall n :: 0 <= n < |t.paths| ==> PathAt(t, keys, p, n))
    && (forall i :: 0 <= i < |keys| ==> HasPath(t, keys[i]))
    && (forall n :: 0 <= n < |t.nodes| ==> KeyAt(t, keys, n))
  }

  ghost predicate HasPath(t: Trie, s: seq<Byte>)
    requires Shape(t)
  {
    exists n :: 0 <= n < |t.paths| && t.paths[n] == s
  }

  lemma {:induction false} PathsArePrefixClosed(t: Trie, s: seq<Byte>, p: seq<Byte>)
    requires Shape(t) && HasPath(t, s) && p <= s
    ensures HasPath(t, p)
    decreases |s|
  {
    if p != s {
      var n :| 0 <= n < |t.paths| && t.paths[n] == s;
      assert n != 0 && EdgeAt(t, n);
      var q := t.paths[t.from[n]];
      assert s == q + [t.edges[n].code];
      assert p <= q by {
        assert p == s[..|p|] == q[..|p|];
      }
      PathsArePrefixClosed(t, q, p);
    }
  }

  /** `newDarts`'s inner edge scan: the child of `n` over `code`, or 0. */
  method FindChild(nodes: seq<Node>, edges: seq<Edge>, n: nat, code: Byte, ghost t: Trie) returns (c: nat)
    requires t.nodes == nodes && t.edges == edges
    requires Shape(t) && Linked(t) && n < |nodes|
    ensures c < |nodes|
    ensures c != 0 ==> t.paths[c] == t.paths[n] + [code]
    ensures c == 0 ==> !HasPath(t, t.paths[n] + [code])
  {
    c := 0;
    var edge := nodes[n].first;
    assert HeadAt(t, n);
    while edge != 0
      invariant edge != 0 ==> Leaves(t.from, n, edge)
      invariant forall e :: Leaves(t.from, n, e) && e > edge ==> edges[e].code != code
      decreases edge
    {
      assert EdgeAt(t, edge) && NextAt(t, edge);
      if edges[edge].code == code {
        c := edges[edge].child;
        return;
      }
      edge := edges[edge].next;
    }
    if HasPath(t, t.paths[n] + [code]) {
      var m :| 0 <= m < |t.paths| && t.paths[m] == t.paths[n] + [code];
      assert EdgeAt(t, m);
      assert t.paths[m][..|t.paths[m]| - 1] == t.paths[n] == t.paths[t.from[m]];
      assert t.paths[m][|t.paths[m]| - 1] == code == edges[m].code;
      assert !Leaves(t.from, n, m);
    }
  }

  /** One new node under `n`, linked at the head of `n`'s list. */
  ghost function AddChild(t: Trie, n: nat, code: Byte): Trie
    requires Shape(t) && n < |t.nodes|
  {
    var c := |t.nodes|;
    Trie((t.nodes + [Node(0, 0)])[n := Node(c, t.nodes[n].key)],
         t.edges + [Edge(t.nodes[n].first, c, code)],
         t.from + [n],
         t.paths + [t.paths[n] + [code]])
  }

  lemma {:induction false} AddChildShape(t: Trie, n: nat, code: Byte)
    requires Shape(t) && n < |t.nodes| && !HasPath(t, t.paths[n] + [code])
    ensures Shape(AddChild(t, n, code))
  {
    var u := AddChild(t, n, code);
    forall e | 1 <= e < |u.edges|
      ensures EdgeAt(u, e)
    {
      if e < |t.edges| { assert EdgeAt(t, e); }
    }
  }

  lemma {:induction false} AddChildLinked(t: Trie, n: nat, code: Byte)
    requires Shape(t) && Linked(t) && n < |t.nodes| && !HasPath(t, t.paths[n] + [code])
    ensures Shape(AddChild(t, n, code)) && Linked(AddChild(t, n, code))
  {
    AddChildShape(t, n, code);
    var u := AddChild(t, n, code);
    assert forall m, e :: e < |t.from| ==> (Leaves(u.from, m, e) <==> Leaves(t.from, m, e));
    forall m | 0 <= m < |u.nodes|
      ensures HeadAt(u, m)
    {
      if m < |t.nodes| {
        assert HeadAt(t, m);
      } else {
        forall e | 1 <= e < |u.from|
          ensures u.from[e] != m
        {
          if e < |t.from| { assert EdgeAt(t, e); }
        }
      }
    }
    assert HeadAt(t, n);
    forall e | 1 <= e < |u.edges|
      ensures NextAt(u, e)
    {
      if e < |t.edges| { assert NextAt(t, e); }
    }
  }

  lemma {:induction false} AddChildHolds(t: Trie, keys: seq<seq<Byte>>, n: nat, code: Byte)
    requires Shape(t) && n < |t.nodes| && !HasPath(t, t.paths[n] + [code])
    requires Holds(t, keys, t.paths[n])
    ensures Shape(AddChild(t, n, code)) && Holds(AddChild(t, n, code), keys, t.paths[n] + [code])
  {
    AddChildShape(t, n, code);
    var u := AddChild(t, n, code);
    var s := t.paths[n] + [code];
    forall i | 0 <= i < |keys|
      ensures HasPath(u, keys[i])
    {
      assert HasPath(t, keys[i]);
      var m :| 0 <= m < |t.paths| && t.paths[m] == keys[i];
      assert u.paths[m] == keys[i];
    }
    assert LastKey(keys, s) == 0 by {
      assert forall i :: 0 <= i < |keys| ==> HasPath(t, keys[i]);
    }
    forall m | 0 <= m < |u.nodes|
      ensures PathAt(u, keys, s, m) && KeyAt(u, keys, m)
    {
      if m < |t.nodes| {
        assert PathAt(t, keys, t.paths[n], m) && KeyAt(t, keys, m);
        assert t.paths[m] <= t.paths[n] ==> t.paths[m] <= s;
      }
    }
  }

  ghost function SetKey(t: Trie, n: nat, i: nat): Trie
    requires n < |t.nodes|
  {
    t.(nodes := t.nodes[n := Node(t.nodes[n].first, i + 1)])
  }

  lemma {:induction false} SetKeyLinked(t: Trie, n: nat, i: nat)
    requires Shape(t) && Linked(t) && n < |t.nodes|
    ensures Shape(SetKey(t, n, i)) && Linked(SetKey(t, n, i))
  {
    var u := SetKey(t, n, i);
    forall e | 1 <= e < |u.edges|
      ensures EdgeAt(u, e) && NextAt(u, e)
    {
      assert EdgeAt(t, e) && NextAt(t, e);
    }
    forall m | 0 <= m < |u.nodes|
      ensures HeadAt(u, m)
    {
      assert HeadAt(t, m);
    }
  }

  /** The whole key `keys[i]` is in: from now on it counts as a key. */
  lemma {:induction false} SetKeyHolds(t: Trie, keys: seq<seq<Byte>>, i: nat, n: nat)
    requires Shape(t) && i < |keys| && n < |t.nodes| && t.paths[n] == keys[i]
    requires Holds(t, keys[..i], keys[i])
    ensures Shape(SetKey(t, n, i)) && Holds(SetKey(t, n, i), keys[..i + 1], [])
  {
    var u := SetKey(t, n, i);
    forall e | 1 <= e < |u.edges| ensures EdgeAt(u, e) { assert EdgeAt(t, e); }
    var ks := keys[..i + 1];
    assert ks[..i] == keys[..i];
    forall m | 0 <= m < |u.paths|
      ensures PathAt(u, ks, [], m) && KeyAt(u, ks, m)
    {
      assert KeyAt(t, keys[..i], m) && PathAt(t, keys[..i], keys[i], m);
      if t.paths[m] <= keys[i] {
        assert t.paths[m] <= ks[i];
      } else if t.paths[m] != [] {
        var x :| 0 <= x < i && t.paths[m] <= keys[..i][x];
        assert ks[x] == keys[..i][x];
      }
    }
    forall x | 0 <= x < |ks|
      ensures HasPath(u, ks[x])
    {
      if x < i {
        assert HasPath(t, keys[..i][x]);
        var m :| 0 <= m < |t.paths| && t.paths[m] == keys[..i][x];
        assert u.paths[m] == ks[x];
      } else {
        assert u.paths[n] == ks[x];
      }
    }
  }

  lemma {:induction false} HoldsLonger(t: Trie, keys: seq<seq<Byte>>, p: seq<Byte>, q: seq<Byte>)
    requires Shape(t) && Holds(t, keys, p) && p <= q
    ensures Holds(t, keys, q)
  {
    forall n | 0 <= n < |t.paths|
      ensures PathAt(t, keys, q, n)
    {
      assert PathAt(t, keys, p, n);
    }
  }

  /** One key of `newDarts`'s first loop: follow it byte by byte, adding what is missing. */
  method InsertKey(nodes0: seq<Node>, edges0: seq<Edge>, k: seq<Byte>, ghost keys: seq<seq<Byte>>, ghost t0: Trie)
    returns (nodes: seq<Node>, edges: seq<Edge>, n: nat, ghost t: Trie)
    requires t0.nodes == nodes0 && t0.edges == edges0
    requires Shape(t0) && Linked(t0) && Holds(t0, keys, [])
    ensures t.nodes == nodes && t.edges == edges
    ensures Shape(t) && Linked(t) && Holds(t, keys, k)
    ensures n < |nodes| && t.paths[n] == k
  {
    nodes, edges, t, n := nodes0, edges0, t0, 0;
    for j := 0 to |k|
      invariant t.nodes == nodes && t.edges == edges
      invariant Shape(t) && Linked(t) && Holds(t, keys, k[..j])
      invariant n < |nodes| && t.paths[n] == k[..j]
    {
      var code := k[j];
      var c := FindChild(nodes, edges, n, code, t);
      assert t.paths[n] + [code] == k[..j + 1];
      if c == 0 {
        AddChildLinked(t, n, code);
        AddChildHolds(t, keys, n, code);
        t := AddChild(t, n, code);
        nodes := nodes + [Node(0, 0)];
        c := |nodes| - 1;
        edges := edges + [Edge(nodes[n].first, c, code)];
        nodes := nodes[n := Node(|edges| - 1, nodes[n].key)];
      } else {
        HoldsLonger(t, keys, k[..j], k[..j + 1]);
      }
      n := c;
    }
    assert k[..|k|] == k;
  }

  /** The first half of `newDarts`: insert every key. */
  method BuildTrie(keys: seq<seq<Byte>>) returns (nodes: seq<Node>, edges: seq<Edge>, ghost t: Trie)
    ensures t.nodes == nodes && t.edges == edges
    ensures Shape(t) && Linked(t) && Holds(t, keys, [])
  {
    nodes, edges := [Node(0, 0)], [Edge(0, 0, 0)];
    t := Trie(nodes, edges, [0], [[]]);
    for i := 0 to |keys|
      invariant t.nodes == nodes && t.edges == edges
      invariant Shape(t) && Linked(t) && Holds(t, keys[..i], [])
    {
      var n;
      nodes, edges, n, t := InsertKey(nodes, edges, keys[i], keys[..i], t);
      SetKeyLinked(t, n, i);
      SetKeyHolds(t, keys, i, n);
      t := SetKey(t, n, i);
      nodes := nodes[n := Node(nodes[n].first, i + 1)];
    }
    assert keys[..|keys|] == keys;
  }

  /** The trie's paths are exactly the prefixes of its keys. */
  lemma {:induction false} PathsAreKeyPrefixes(t: Trie, keys: seq<seq<Byte>>, s: seq<Byte>)
    requires Shape(t) && Holds(t, keys, [])
    ensures HasPath(t, s) <==> IsPrefixOfSome(keys, s)
  {
    if HasPath(t, s) {
      var n :| 0 <= n < |t.paths| && t.paths[n] == s;
      assert PathAt(t, keys, [], n);
    }
    if s == [] {
      assert t.paths[0] == s;
    } else if IsPrefixOfSome(keys, s) {
      var i :| 0 <= i < |keys| && s <= keys[i];
      assert HasPath(t, keys[i]);
      PathsArePrefixClosed(t, keys[i], s);
    }
  }
}
