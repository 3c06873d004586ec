/** Binding generated commands to scopes by one shared-visited traversal (command_scope.go). */
module CommandScopes {
  import opened Prelude

  /** The include graph a scanner walks: a file's resolved children. */
  type Graph = map<nat, seq<nat>>

  function Children(g: Graph, file: nat): seq<nat> {
    if file in g then g[file] else []
  }

  datatype Scope = Scope(id: nat, tick: nat, scanner: nat, headers: seq<nat>)
  datatype Command = Command(scope: Option<nat>, tick: nat)

  // ------------------------------------------------------------ reachability

  ghost predicate IsPath(g: Graph, p: seq<nat>) {
    p != [] && forall i :: 0 <= i < |p| - 1 ==> p[i + 1] in Children(g, p[i])
  }

  ghost predicate Reaches(g: Graph, from: nat, to: nat) {
    exists p :: IsPath(g, p) && p[0] == from && p[|p| - 1] == to
  }

  ghost predicate ReachedBy(g: Graph, headers: seq<nat>, file: nat) {
    exists h :: h in headers && Reaches(g, h, file)
  }

  lemma {:induction false} ReachesSelf(g: Graph, a: nat)
    ensures Reaches(g, a, a)
  {
    assert IsPath(g, [a]);
  }

  lemma {:induction false} ReachesThrough(g: Graph, a: nat, b: nat, c: nat)
    requires b in Children(g, a) && Reaches(g, b, c)
    ensures Reaches(g, a, c)
  {
    var p :| IsPath(g, p) && p[0] == b && p[|p| - 1] == c;
    var q := [a] + p;
    forall i | 0 <= i < |q| - 1
      ensures q[i + 1] in Children(g, q[i])
    {
      if i > 0 { assert p[i] in Children(g, p[i - 1]); }
    }
    assert IsPath(g, q) && q[|q| - 1] == c;
  }

  // ------------------------------------------------------------ claims

  /** `claim`: the scope it already has, or an earlier tick, wins. */
  function Claimed(c: Command, s: Scope): Command {
    if c.scope == Some(s.id) || (c.scope.Some? && c.tick < s.tick) then c else Command(Some(s.id), s.tick)
  }

  function ClaimedAll(scopes: seq<Scope>, c: Command, ks: seq<nat>): Command {
    if ks == [] then c
    else
      var before, k := ClaimedAll(scopes, c, ks[..|ks| - 1]), ks[|ks| - 1];
      if k < |scopes| then Claimed(before, scopes[k]) else before
  }

  ghost predicate TicksIncrease(scopes: seq<Scope>) {
    forall i, j :: 0 <= i < j < |scopes| ==> scopes[i].tick < scopes[j].tick && scopes[i].id != scopes[j].id
  }

  ghost predicate NonDecreasing(ks: seq<nat>, n: nat) {
    && (forall i :: 0 <= i < |ks| ==> ks[i] < n)
    && (forall i, j :: 0 <= i < j < |ks| ==> ks[i] <= ks[j])
  }

  /** The first offer does not come from the command's own scope with a tick smaller than its use. */
  ghost predicate Fair(scopes: seq<Scope>, c: Command, ks: seq<nat>) {
    ks == [] || ks[0] >= |scopes| || c.scope != Some(scopes[ks[0]].id) || c.tick <= scopes[ks[0]].tick
  }

  /** The first offer decides: it wins over no scope and over a later use, and every further offer is too late. */
  lemma {:induction false} FirstOfferDecides(scopes: seq<Scope>, c: Command, ks: seq<nat>)
    requires TicksIncrease(scopes) && NonDecreasing(ks, |scopes|) && ks != [] && Fair(scopes, c, ks)
    ensures ClaimedAll(scopes, c, ks) == Claimed(c, scopes[ks[0]])
  {
    var init, k := ks[..|ks| - 1], ks[|ks| - 1];
    if init != [] {
      FirstOfferDecides(scopes, c, init);
      assert init[0] == ks[0] <= k;
      assert ks[0] < k ==> scopes[ks[0]].tick < scopes[k].tick;
    }
  }

  /** An unfair first offer is skipped and leaves the larger use tick behind; nothing later gets below the skipped tick. */
  lemma {:induction false} UnfairOfferIsLost(scopes: seq<Scope>, c: Command, ks: seq<nat>)
    requires TicksIncrease(scopes) && NonDecreasing(ks, |scopes|) && !Fair(scopes, c, ks)
    ensures ClaimedAll(scopes, c, ks).tick > scopes[ks[0]].tick
    ensures ClaimedAll(scopes, c, ks) == c || ClaimedAll(scopes, c, ks).scope != c.scope
  {
    var init, k := ks[..|ks| - 1], ks[|ks| - 1];
    if init != [] {
      assert init[0] == ks[0];
      UnfairOfferIsLost(scopes, c, init);
      assert ks[0] < k ==> scopes[ks[0]].tick < scopes[k].tick;
      assert ks[0] == k ==> forall i :: 0 <= i < |init| ==> init[i] == k;
      if ks[0] == k { SameOffer(scopes, c, init, k); }
    }
  }

  lemma {:induction false} SameOffer(scopes: seq<Scope>, c: Command, ks: seq<nat>, k: nat)
    requires k < |scopes| && c.scope == Some(scopes[k].id) && forall i :: 0 <= i < |ks| ==> ks[i] == k
    ensures ClaimedAll(scopes, c, ks) == c
  {
    if ks != [] { SameOffer(scopes, c, ks[..|ks| - 1], k); }
  }

  /** `r` is the start or an offer, and no offer (and not the start) has a smaller tick. */
  ghost predicate SmallestTick(scopes: seq<Scope>, c: Command, r: Command, ks: seq<nat>) {
    && (forall i :: 0 <= i < |ks| ==> ks[i] < |scopes| && r.scope.Some? && r.tick <= scopes[ks[i]].tick)
    && (c.scope.Some? ==> r.scope.Some? && r.tick <= c.tick)
    && (r == c || exists i :: 0 <= i < |ks| && ks[i] < |scopes| && r == Command(Some(scopes[ks[i]].id), scopes[ks[i]].tick))
  }

  /** A bound command holds the smallest tick among its use and its offers exactly when its first offer is fair. */
  lemma {:induction false} SmallestTickIffFair(scopes: seq<Scope>, c: Command, ks: seq<nat>)
    requires TicksIncrease(scopes) && NonDecreasing(ks, |scopes|)
    ensures SmallestTick(scopes, c, ClaimedAll(scopes, c, ks), ks) <==> Fair(scopes, c, ks)
  {
    if ks != [] {
      if Fair(scopes, c, ks) {
        FirstOfferDecides(scopes, c, ks);
        forall i | 0 <= i < |ks|
          ensures scopes[ks[0]].tick <= scopes[ks[i]].tick
        {
          assert ks[0] <= ks[i];
        }
      } else {
        UnfairOfferIsLost(scopes, c, ks);
      }
    }
  }

  /** Another scope's offer that is not later than the use. */
  ghost predicate Rival(scopes: seq<Scope>, c: Command, ks: seq<nat>, i: nat)
    requires i < |ks|
  {
    ks[0] < ks[i] < |scopes| && scopes[ks[i]].tick <= c.tick
  }

  /** After an unfair first offer the command leaves its scope exactly when another scope's offer is not later than the use. */
  lemma {:induction false} UnfairLeavesIff(scopes: seq<Scope>, c: Command, ks: seq<nat>)
    requires TicksIncrease(scopes) && NonDecreasing(ks, |scopes|) && !Fair(scopes, c, ks)
    ensures ClaimedAll(scopes, c, ks).scope != c.scope <==> exists i: nat {:trigger Rival(scopes, c, ks, i)} :: i < |ks| && Rival(scopes, c, ks, i)
  {
    var init, k := ks[..|ks| - 1], ks[|ks| - 1];
    if init != [] {
      assert init[0] == ks[0] <= k;
      UnfairLeavesIff(scopes, c, init);
      UnfairOfferIsLost(scopes, c, init);
      if i: nat :| i < |init| && Rival(scopes, c, init, i) { assert Rival(scopes, c, ks, i); }
      if i: nat :| i < |init| && Rival(scopes, c, ks, i) { assert Rival(scopes, c, init, i); }
      var last: nat := |ks| - 1;
      assert Rival(scopes, c, ks, last) <==> ks[0] < k && scopes[k].tick <= c.tick;
      assert ks[0] < k ==> scopes[ks[0]].id != scopes[k].id;
    }
  }

  // ------------------------------------------------------------ the traversal

  /** The files each scope was the first to reach, keyed by scanner and file. */
  type Under = map<(nat, nat), nat>

  /** Command `c` belongs to some file visited under scope `k`. */
  ghost predicate OfferedBy(scopedOf: map<(nat, nat), nat>, under: Under, c: nat, k: nat) {
    exists x :: x in under && under[x] == k && x in scopedOf && scopedOf[x] == c
  }

  /** One command's state is the fold of the offers it got, and those are the scopes of its visited files, in order. */
  ghost predicate CommandAt(scopes: seq<Scope>, scopedOf: map<(nat, nat), nat>, under: Under, c: nat,
                            start: Command, now: Command, ks: seq<nat>, n: nat)
  {
    && now == ClaimedAll(scopes, start, ks)
    && NonDecreasing(ks, n)
    && (forall k {:trigger OfferedBy(scopedOf, under, c, k)} :: k in ks <==> OfferedBy(scopedOf, under, c, k))
  }

  /** A newly visited file's command gets one more offer; the other commands get none. */
  lemma {:induction false} VisitOffers(scopes: seq<Scope>, scopedOf: map<(nat, nat), nat>, under: Under, x: (nat, nat), k: nat,
                                       c: nat, start: Command, now: Command, ks: seq<nat>)
    requires k < |scopes| && x !in under && CommandAt(scopes, scopedOf, under, c, start, now, ks, k + 1)
    ensures x in scopedOf && scopedOf[x] == c ==>
              CommandAt(scopes, scopedOf, under[x := k], c, start, Claimed(now, scopes[k]), ks + [k], k + 1)
    ensures !(x in scopedOf && scopedOf[x] == c) ==>
              CommandAt(scopes, scopedOf, under[x := k], c, start, now, ks, k + 1)
  {
    var under' := under[x := k];
    var mine := x in scopedOf && scopedOf[x] == c;
    assert (ks + [k])[..|ks|] == ks;
    forall j
      ensures OfferedBy(scopedOf, under', c, j) <==> OfferedBy(scopedOf, under, c, j) || (mine && j == k)
    {
      if OfferedBy(scopedOf, under, c, j) {
        var y :| y in under && under[y] == j && y in scopedOf && scopedOf[y] == c;
        assert y in under' && under'[y] == j;
      }
      if mine && j == k { assert x in under' && under'[x] == k; }
    }
  }

  /** Everything the binding of one command has gone through. */
  datatype Binding = Binding(initial: map<nat, Command>, commands: map<nat, Command>, offers: map<nat, seq<nat>>)

  ghost predicate BoundAt(scopes: seq<Scope>, scopedOf: map<(nat, nat), nat>, under: Under, b: Binding, n: nat, c: nat)
    requires c in b.initial && c in b.commands && c in b.offers
  {
    CommandAt(scopes, scopedOf, under, c, b.initial[c], b.commands[c], b.offers[c], n)
  }

  ghost predicate Bound(scopes: seq<Scope>, scopedOf: map<(nat, nat), nat>, under: Under, b: Binding, n: nat) {
    && b.commands.Keys == b.initial.Keys == b.offers.Keys
    && (forall x :: x in scopedOf ==> scopedOf[x] in b.commands)
    && (forall c {:trigger BoundAt(scopes, scopedOf, under, b, n, c)} ::
          c in b.commands ==> BoundAt(scopes, scopedOf, under, b, n, c))
  }

  /** The binding after file `x` is visited under scope `k`. */
  ghost function Offered(scopes: seq<Scope>, scopedOf: map<(nat, nat), nat>, b: Binding, x: (nat, nat), k: nat): Binding
    requires k < |scopes| && (x in scopedOf ==> scopedOf[x] in b.commands && scopedOf[x] in b.offers)
  {
    if x !in scopedOf then b
    else
      var c := scopedOf[x];
      b.(commands := b.commands[c := Claimed(b.commands[c], scopes[k])], offers := b.offers[c := b.offers[c] + [k]])
  }

  lemma {:induction false} OfferedBound(scopes: seq<Scope>, scopedOf: map<(nat, nat), nat>, under: Under, b: Binding,
                                        x: (nat, nat), k: nat)
    requires k < |scopes| && x !in under && Bound(scopes, scopedOf, under, b, k + 1)
    ensures Bound(scopes, scopedOf, under[x := k], Offered(scopes, scopedOf, b, x, k), k + 1)
  {
    var b' := Offered(scopes, scopedOf, b, x, k);
    forall c | c in b'.commands
      ensures BoundAt(scopes, scopedOf, under[x := k], b', k + 1, c)
    {
      assert BoundAt(scopes, scopedOf, under, b, k + 1, c);
      VisitOffers(scopes, scopedOf, under, x, k, c, b.initial[c], b.commands[c], b.offers[c]);
    }
  }

  /** Raising the number of scopes in play changes nothing yet. */
  lemma {:induction false} BoundNext(scopes: seq<Scope>, scopedOf: map<(nat, nat), nat>, under: Under, b: Binding, n: nat)
    requires Bound(scopes, scopedOf, under, b, n)
    ensures Bound(scopes, scopedOf, under, b, n + 1)
  {
    forall c | c in b.commands
      ensures BoundAt(scopes, scopedOf, under, b, n + 1, c)
    {
      assert BoundAt(scopes, scopedOf, under, b, n, c);
    }
  }

  /** What a traversal from `from` under scope `k` adds to the record. */
  ghost predicate Adds(g: Graph, scanner: nat, k: nat, from: seq<nat>, before: Under, after: Under) {
    && (forall x :: x in before ==> x in after && after[x] == before[x])
    && (forall x :: x in after && x !in before ==> x.0 == scanner && after[x] == k && ReachedBy(g, from, x.1))
  }

  /** Every child of a file in `after` but not in `before` (other than `open`) is in `after`. */
  ghost predicate ClosedSince(g: Graph, scanner: nat, before: Under, after: Under, open: set<nat>) {
    forall f, c: nat {:trigger (scanner, f) in after, c in Children(g, f)} ::
      (scanner, f) in after && (scanner, f) !in before && f !in open && c in Children(g, f) ==> (scanner, c) in after
  }

  lemma {:induction false} AddsTrans(g: Graph, scanner: nat, k: nat, file: nat, child: nat, a: Under, b: Under, c: Under)
    requires Adds(g, scanner, k, [file], a, b) && Adds(g, scanner, k, [child], b, c) && child in Children(g, file)
    ensures Adds(g, scanner, k, [file], a, c)
  {
    forall x | x in c && x !in a
      ensures x.0 == scanner && c[x] == k && ReachedBy(g, [file], x.1)
    {
      if x !in b {
        var h :| h in [child] && Reaches(g, h, x.1);
        ReachesThrough(g, file, child, x.1);
        assert file in [file];
      }
    }
  }

  lemma {:induction false} AddsMore(g: Graph, scanner: nat, k: nat, from: seq<nat>, header: nat, a: Under, b: Under, c: Under)
    requires Adds(g, scanner, k, from, a, b) && Adds(g, scanner, k, [header], b, c) && header in from
    ensures Adds(g, scanner, k, from, a, c)
  {
    forall x | x in c && x !in a
      ensures x.0 == scanner && c[x] == k && ReachedBy(g, from, x.1)
    {
      if x !in b {
        var h :| h in [header] && Reaches(g, h, x.1);
        assert h in from;
      }
    }
  }

  lemma {:induction false} ClosedSinceTrans(g: Graph, scanner: nat, k: nat, from: seq<nat>, a: Under, b: Under, c: Under, open: set<nat>)
    requires ClosedSince(g, scanner, a, b, open) && ClosedSince(g, scanner, b, c, {}) && Adds(g, scanner, k, from, b, c)
    ensures ClosedSince(g, scanner, a, c, open)
  {
  }

  /** Every child of a recorded file of this scanner is recorded. */
  ghost predicate ClosedFor(g: Graph, scanner: nat, under: Under) {
    ClosedSince(g, scanner, map[], under, {})
  }

  lemma {:induction false} ClosedHoldsPath(g: Graph, scanner: nat, under: Under, p: seq<nat>)
    requires ClosedFor(g, scanner, under) && IsPath(g, p) && (scanner, p[0]) in under
    ensures (scanner, p[|p| - 1]) in under
  {
    if |p| > 1 {
      var q := p[..|p| - 1];
      assert forall i :: 0 <= i < |q| - 1 ==> q[i + 1] in Children(g, q[i]);
      ClosedHoldsPath(g, scanner, under, q);
      assert p[|q| - 1 + 1] in Children(g, p[|q| - 1]);
    }
  }

  /** What the first `n` scopes reach, and which of them reached it first. */
  ghost predicate ReachedIn(scopes: seq<Scope>, graphs: map<nat, Graph>, k: int, scanner: nat, file: nat) {
    && 0 <= k < |scopes| && scopes[k].scanner == scanner
    && ReachedBy(if scanner in graphs then graphs[scanner] else map[], scopes[k].headers, file)
  }

  ghost predicate IsFirst(scopes: seq<Scope>, graphs: map<nat, Graph>, k: int, scanner: nat, file: nat) {
    ReachedIn(scopes, graphs, k, scanner, file) && forall i :: 0 <= i < k ==> !ReachedIn(scopes, graphs, i, scanner, file)
  }

  /** The record is right for the first `n` scopes. */
  ghost predicate Recorded(scopes: seq<Scope>, graphs: map<nat, Graph>, under: Under, n: nat) {
    && n <= |scopes|
    && (forall x :: x in under ==> under[x] < n && ReachedIn(scopes, graphs, under[x], x.0, x.1))
    && (forall k, s: nat, f: nat {:trigger ReachedIn(scopes, graphs, k, s, f)} ::
          k < n && ReachedIn(scopes, graphs, k, s, f) ==> (s, f) in under && under[(s, f)] <= k)
    && (forall s {:trigger ScannerClosed(graphs, under, s)} :: ScannerClosed(graphs, under, s))
  }

  ghost predicate ScannerClosed(graphs: map<nat, Graph>, under: Under, s: nat) {
    ClosedFor(if s in graphs then graphs[s] else map[], s, under)
  }

  lemma {:induction false} RecordedStep(scopes: seq<Scope>, graphs: map<nat, Graph>, a: Under, b: Under, n: nat, g: Graph)
    requires n < |scopes| && Recorded(scopes, graphs, a, n)
    requires var s := scopes[n].scanner;
             && g == (if s in graphs then graphs[s] else map[])
             && Adds(g, s, n, scopes[n].headers, a, b) && ClosedSince(g, s, a, b, {})
             && forall h :: h in scopes[n].headers ==> (s, h) in b
    ensures Recorded(scopes, graphs, b, n + 1)
  {
    forall s
      ensures ScannerClosed(graphs, b, s)
    {
      assert ScannerClosed(graphs, a, s);
    }
    forall k, s: nat, f: nat | k < n + 1 && ReachedIn(scopes, graphs, k, s, f)
      ensures (s, f) in b && b[(s, f)] <= k
    {
      if k == n {
        assert ScannerClosed(graphs, b, s);
        var h :| h in scopes[n].headers && Reaches(g, h, f);
        var p :| IsPath(g, p) && p[0] == h && p[|p| - 1] == f;
        ClosedHoldsPath(g, s, b, p);
      } else {
        assert (s, f) in a;
      }
    }
  }

  /** A file is visited under a scope exactly when that scope is the first whose headers reach it. */
  lemma {:induction false} RecordedIsFirst(scopes: seq<Scope>, graphs: map<nat, Graph>, under: Under, k: nat, s: nat, f: nat)
    requires Recorded(scopes, graphs, under, |scopes|)
    ensures (s, f) in under && under[(s, f)] == k <==> IsFirst(scopes, graphs, k, s, f)
  {
    if (s, f) in under && under[(s, f)] == k {
      assert forall i :: 0 <= i < k ==> !ReachedIn(scopes, graphs, i, s, f);
    }
    if IsFirst(scopes, graphs, k, s, f) {
      var j := under[(s, f)];
      assert ReachedIn(scopes, graphs, j, s, f);
    }
  }

  /** With ticks in publish order, the first scope that reaches a file is the one with the smallest tick. */
  lemma {:induction false} FirstHasSmallestTick(scopes: seq<Scope>, graphs: map<nat, Graph>, k: nat, s: nat, f: nat)
    requires TicksIncrease(scopes)
    ensures IsFirst(scopes, graphs, k, s, f) <==>
            && ReachedIn(scopes, graphs, k, s, f)
            && forall j {:trigger ReachedIn(scopes, graphs, j, s, f)} :: ReachedIn(scopes, graphs, j, s, f) ==> scopes[k].tick <= scopes[j].tick
  {
    if IsFirst(scopes, graphs, k, s, f) {
      forall j | ReachedIn(scopes, graphs, j, s, f)
        ensures scopes[k].tick <= scopes[j].tick
      {
        assert j >= k;
      }
    }
  }

  /** The include graph is the one the visits observe: a generated file's children are computed when it is visited, once. */
  class Binder {
    /** All scopes in publish order, the graph of each scanner, and the scoped command of a build file, if any; headers are sources. */
    const scopes: seq<Scope>
    const graphs: map<nat, Graph>
    const scopedOf: map<(nat, nat), nat>
    /** Every file the graphs and headers mention, and the commands at the start. */
    ghost const files: set<nat>
    ghost const initial: map<nat, Command>
    var seen: map<nat, set<nat>>
    var commands: map<nat, Command>
    ghost var under: Under
    ghost var offers: map<nat, seq<nat>>

    ghost predicate Fixed() {
      && (forall s, f, c :: s in graphs && c in Children(graphs[s], f) ==> c in files)
      && (forall k, h :: 0 <= k < |scopes| && h in scopes[k].headers ==> h in files)
      && (forall k: nat {:trigger FromSources(k)} :: FromSources(k))
      && (forall x: (nat, nat) {:trigger CommandsOfBuild(x)} :: CommandsOfBuild(x))
    }

    ghost predicate FromSources(k: nat) {
      k < |scopes| ==> forall h :: h in scopes[k].headers ==> !IsBuild(h)
    }

    ghost predicate CommandsOfBuild(x: (nat, nat)) {
      x in scopedOf ==> IsBuild(x.1)
    }

    function GraphOf(scanner: nat): Graph {
      if scanner in graphs then graphs[scanner] else map[]
    }

    function Visited(scanner: nat): set<nat>
      reads this`seen
    {
      if scanner in seen then seen[scanner] else {}
    }

    ghost function State(): Binding
      reads this
    {
      Binding(initial, commands, offers)
    }

    /** The record matches the bit sets, and every command is what its offers from the first `n` scopes make it. */
    ghost predicate Valid(n: nat)
      reads this
    {
      && Fixed()
      && (forall s: nat, f: nat :: (s, f) in under <==> f in Visited(s))
      && Bound(scopes, scopedOf, under, State(), n)
    }

    constructor (scopes: seq<Scope>, graphs: map<nat, Graph>, scopedOf: map<(nat, nat), nat>,
                 commands: map<nat, Command>, ghost files: set<nat>)
      requires forall s, f, c :: s in graphs && c in Children(graphs[s], f) ==> c in files
      requires forall k, h :: 0 <= k < |scopes| && h in scopes[k].headers ==> h in files && !IsBuild(h)
      requires forall x :: x in scopedOf ==> scopedOf[x] in commands && IsBuild(x.1)
      ensures this.scopes == scopes && this.graphs == graphs && this.scopedOf == scopedOf && this.files == files
      ensures Valid(0) && this.commands == commands && initial == commands && under == map[]
    {
      this.scopes, this.graphs, this.scopedOf, this.files := scopes, graphs, scopedOf, files;
      this.commands, this.initial, seen := commands, commands, map[];
      under := map[];
      offers := map c | c in commands :: [];
      new;
      assert forall c :: c in commands ==> BoundAt(scopes, scopedOf, under, State(), 0, c);
    }

    /** Enter a file: set its bit and, for a build file, let its command, if any, be claimed. */
    method Enter(file: nat, k: nat)
      requires k < |scopes| && Valid(k + 1) && (scopes[k].scanner, file) !in under
      modifies this
      ensures Valid(k + 1) && under == old(under)[(scopes[k].scanner, file) := k]
    {
      var scanner := scopes[k].scanner;
      assert CommandsOfBuild((scanner, file));
      OfferedBound(scopes, scopedOf, under, State(), (scanner, file), k);
      seen := seen[scanner := Visited(scanner) + {file}];
      under := under[(scanner, file) := k];
      if IsBuild(file) && (scanner, file) in scopedOf {
        var c := scopedOf[(scanner, file)];
        commands := commands[c := Claimed(commands[c], scopes[k])];
        offers := offers[c := offers[c] + [k]];
      }
    }

    /** The recursive `visit`. */
    method Visit(file: nat, k: nat)
      requires k < |scopes| && Valid(k + 1) && file in files
      modifies this
      ensures Valid(k + 1) && (scopes[k].scanner, file) in under
      ensures Adds(GraphOf(scopes[k].scanner), scopes[k].scanner, k, [file], old(under), under)
      ensures ClosedSince(GraphOf(scopes[k].scanner), scopes[k].scanner, old(under), under, {})
      decreases files - Visited(scopes[k].scanner), 0
    {
      var s := scopes[k].scanner;
      if file in Visited(s) {
        return;
      }
      Enter(file, k);
      var g := GraphOf(s);
      ReachesSelf(g, file);
      VisitChildren(file, k, Children(g, file), old(under));
    }

    /** The loop of `visit` over a file's children. */
    method VisitChildren(file: nat, k: nat, children: seq<nat>, ghost before: Under)
      requires k < |scopes| && Valid(k + 1) && (scopes[k].scanner, file) in under
      requires children == Children(GraphOf(scopes[k].scanner), file)
      requires Adds(GraphOf(scopes[k].scanner), scopes[k].scanner, k, [file], before, under)
      requires ClosedSince(GraphOf(scopes[k].scanner), scopes[k].scanner, before, under, {file})
      modifies this
      ensures Valid(k + 1) && (scopes[k].scanner, file) in under
      ensures Adds(GraphOf(scopes[k].scanner), scopes[k].scanner, k, [file], before, under)
      ensures ClosedSince(GraphOf(scopes[k].scanner), scopes[k].scanner, before, under, {})
      decreases files - Visited(scopes[k].scanner), 1
    {
      var s, g := scopes[k].scanner, GraphOf(scopes[k].scanner);
      for i := 0 to |children|
        invariant Valid(k + 1) && old(Visited(s)) <= Visited(s) && (s, file) in under
        invariant Adds(g, s, k, [file], before, under)
        invariant ClosedSince(g, s, before, under, {file})
        invariant forall j :: 0 <= j < i ==> (s, children[j]) in under
      {
        ghost var u := under;
        Visit(children[i], k);
        AddsTrans(g, s, k, file, children[i], before, u, under);
        ClosedSinceTrans(g, s, k, [children[i]], before, u, under, {file});
      }
    }

    /** The loop over one scope's headers. */
    method VisitHeaders(k: nat)
      requires k < |scopes| && Valid(k + 1)
      modifies this
      ensures Valid(k + 1)
      ensures Adds(GraphOf(scopes[k].scanner), scopes[k].scanner, k, scopes[k].headers, old(under), under)
      ensures ClosedSince(GraphOf(scopes[k].scanner), scopes[k].scanner, old(under), under, {})
      ensures forall h :: h in scopes[k].headers ==> (scopes[k].scanner, h) in under
    {
      var s, g, headers := scopes[k].scanner, GraphOf(scopes[k].scanner), scopes[k].headers;
      for i := 0 to |headers|
        invariant Valid(k + 1)
        invariant Adds(g, s, k, headers, old(under), under)
        invariant ClosedSince(g, s, old(under), under, {})
        invariant forall j :: 0 <= j < i ==> (s, headers[j]) in under
      {
        ghost var u := under;
        Visit(headers[i], k);
        AddsMore(g, s, k, headers, headers[i], old(under), u, under);
        ClosedSinceTrans(g, s, k, [headers[i]], old(under), u, under, {});
      }
    }

    /** `bindCommandScopes` after the replay: one pass over the published scopes, sharing each scanner's visited set. */
    method BindCommandScopes()
      requires Valid(0) && under == map[]
      modifies this
      ensures Valid(|scopes|)
      ensures forall k: nat, s: nat, f: nat :: (s, f) in under && under[(s, f)] == k <==> IsFirst(scopes, graphs, k, s, f)
      ensures TicksIncrease(scopes) ==> forall c :: c in commands ==>
                && BoundAt(scopes, scopedOf, under, State(), |scopes|, c)
                && (SmallestTick(scopes, initial[c], commands[c], offers[c]) <==> Fair(scopes, initial[c], offers[c]))
    {
      assert Recorded(scopes, graphs, under, 0) by {
        forall s ensures ScannerClosed(graphs, under, s) { }
      }
      for k := 0 to |scopes|
        invariant Valid(k) && Recorded(scopes, graphs, under, k)
      {
        ghost var u := under;
        BoundNext(scopes, scopedOf, under, State(), k);
        VisitHeaders(k);
        RecordedStep(scopes, graphs, u, under, k, GraphOf(scopes[k].scanner));
      }
      forall k: nat, s: nat, f: nat
        ensures (s, f) in under && under[(s, f)] == k <==> IsFirst(scopes, graphs, k, s, f)
      {
        RecordedIsFirst(scopes, graphs, under, k, s, f);
      }
      if TicksIncrease(scopes) {
        forall c | c in commands
          ensures BoundAt(scopes, scopedOf, under, State(), |scopes|, c)
          ensures SmallestTick(scopes, initial[c], commands[c], offers[c]) <==> Fair(scopes, initial[c], offers[c])
        {
          assert BoundAt(scopes, scopedOf, under, State(), |scopes|, c);
          SmallestTickIffFair(scopes, initial[c], offers[c]);
        }
      }
    }
  }
}
