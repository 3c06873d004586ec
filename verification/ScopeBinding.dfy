/** `bindCommandScopes` as a whole: the replayed log numbers the scopes and commands that the traversal binds (command_scope.go). */
module ScopeBinding {
  import opened Prelude
  import opened CommandScopes
  import E = ExportReplay
  import R = ReplayOrder

  /** What `publishSearchScope` keeps of a module's include roots. */
  function Sources(roots: seq<nat>): (r: seq<nat>)
    ensures forall f :: f in r <==> f in roots && !IsBuild(f)
  {
    if roots == [] then []
    else (if IsBuild(roots[0]) then [] else [roots[0]]) + Sources(roots[1..])
  }

  /** The published scopes in publish order; a scope carries the id of its module. */
  function ScopesOf(order: seq<nat>, ticks: map<nat, nat>, scanners: map<nat, nat>, included: map<nat, seq<nat>>): (r: seq<Scope>)
    ensures |r| == |order|
  {
    seq(|order|, i requires 0 <= i < |order| => ScopeOf(order[i], ticks, scanners, included))
  }

  function ScopeOf(m: nat, ticks: map<nat, nat>, scanners: map<nat, nat>, included: map<nat, seq<nat>>): Scope {
    Scope(m, if m in ticks then ticks[m] else 0, if m in scanners then scanners[m] else 0, if m in included then Sources(included[m]) else [])
  }

  /** A command before the traversal: the scope its use gave it, and the tick of that use. */
  function CommandOf(c: nat, usedIn: map<nat, nat>, ticks: map<nat, nat>): Command {
    Command(if c in usedIn then Some(usedIn[c]) else None, if c in ticks then ticks[c] else 0)
  }

  /** Publish order is tick order, so the replay delivers what the traversal relies on. */
  lemma {:induction false} ReplayedTicksIncrease(log: seq<E.ExportEntry>, order: seq<nat>, scanners: map<nat, nat>, included: map<nat, seq<nat>>)
    requires E.InLog(log, order) && Distinct(order) && E.OwnObjects(log)
    ensures TicksIncrease(ScopesOf(E.Tally(log, order).exportOrder, E.Tally(log, order).scopeTick, scanners, included))
  {
    var t := E.Tally(log, order);
    var scopes := ScopesOf(t.exportOrder, t.scopeTick, scanners, included);
    forall i, j | 0 <= i < j < |scopes|
      ensures scopes[i].tick < scopes[j].tick && scopes[i].id != scopes[j].id
    {
      E.PublishOrderIsTickOrder(log, order, i, j);
    }
  }

  /** Every command that has a scope got it from a use in the log. */
  ghost predicate UseOf(log: seq<E.ExportEntry>, u: nat, c: nat) {
    u < |log| && log[u].step == E.Use && log[u].scoped == c
  }

  ghost predicate UsesLogged(log: seq<E.ExportEntry>, usedIn: map<nat, nat>) {
    forall c :: c in usedIn ==> exists u: nat {:trigger UseOf(log, u, c)} :: UseOf(log, u, c)
  }

  /** The use at `u` precedes the publish at `p`, directly in the same visit. */
  ghost predicate UseFirst(log: seq<E.ExportEntry>, roots: seq<(nat, nat)>, u: nat, p: nat) {
    exists v: nat {:trigger R.Siblings(log, v, u, p)} :: R.Siblings(log, v, u, p) && R.RootsOutside(log, roots, v)
  }

  ghost predicate PublishOf(log: seq<E.ExportEntry>, p: nat, m: nat) {
    p < |log| && log[p].step == E.Publish && log[p].module_ == m
  }

  /** Every scope's uses come before its publish, in the visit that publishes it. */
  ghost predicate UsesFirst(log: seq<E.ExportEntry>, roots: seq<(nat, nat)>, usedIn: map<nat, nat>) {
    forall u: nat, p: nat, c: nat {:trigger UseOf(log, u, c), UseFirst(log, roots, u, p)} ::
      UseOf(log, u, c) && c in usedIn && PublishOf(log, p, usedIn[c]) ==> UseFirst(log, roots, u, p)
  }

  /** What a replay has left: its order, and the counters that follow it. */
  ghost predicate Replayed(log: seq<E.ExportEntry>, exportAt: map<nat, nat>, roots: seq<(nat, nat)>, order: seq<nat>) {
    && E.Nested(log) && E.FirstVisits(log, exportAt) && E.OwnObjects(log)
    && E.InLog(log, order) && Distinct(order) && (forall i: nat :: i < |log| ==> i in order)
    && order == E.Preorder(log, exportAt, E.Agenda(log, roots), seq(|log|, _ => false))
  }

  /** A use logged before its scope's publish, in the same visit, has the smaller tick. */
  lemma {:induction false} UseTickIsSmaller(log: seq<E.ExportEntry>, exportAt: map<nat, nat>, roots: seq<(nat, nat)>, order: seq<nat>,
                                            u: nat, p: nat, c: nat, m: nat)
    requires Replayed(log, exportAt, roots, order) && UseOf(log, u, c) && PublishOf(log, p, m) && UseFirst(log, roots, u, p)
    ensures var t := E.Tally(log, order);
            c in t.scopedTick && m in t.scopeTick && t.scopedTick[c] < t.scopeTick[m]
  {
    var v: nat :| R.Siblings(log, v, u, p) && R.RootsOutside(log, roots, v);
    var a, b := R.SiblingTicks(log, exportAt, roots, order, v, u, p);
  }

  /** Then no offer is unfair. */
  lemma {:induction false} UsesFirstIsFair(log: seq<E.ExportEntry>, exportAt: map<nat, nat>, roots: seq<(nat, nat)>, order: seq<nat>,
                                           scanners: map<nat, nat>, included: map<nat, seq<nat>>, usedIn: map<nat, nat>, c: nat, ks: seq<nat>)
    requires Replayed(log, exportAt, roots, order) && UsesLogged(log, usedIn) && UsesFirst(log, roots, usedIn)
    ensures var t := E.Tally(log, order);
            Fair(ScopesOf(t.exportOrder, t.scopeTick, scanners, included), CommandOf(c, usedIn, t.scopedTick), ks)
  {
    var t := E.Tally(log, order);
    if c in usedIn && ks != [] && ks[0] < |t.exportOrder| && usedIn[c] == t.exportOrder[ks[0]] {
      var u: nat :| UseOf(log, u, c);
      E.TallyCounts(log, order);
      var xs := E.Numbered(log, order);
      var a := E.PublishedOne(log, xs, ks[0]);
      var p := xs[a];
      assert PublishOf(log, p, usedIn[c]);
      assert UseFirst(log, roots, u, p);
      UseTickIsSmaller(log, exportAt, roots, order, u, p, c, usedIn[c]);
    }
  }

  /** A file is offered under the scope with the smallest tick among those that reach it, and under no other. */
  ghost predicate OfferedToSmallest(scopes: seq<Scope>, graphs: map<nat, Graph>, under: Under, k: nat, s: nat, f: nat) {
    (s, f) in under && under[(s, f)] == k <==>
      && ReachedIn(scopes, graphs, k, s, f)
      && forall j {:trigger ReachedIn(scopes, graphs, j, s, f)} :: ReachedIn(scopes, graphs, j, s, f) ==> scopes[k].tick <= scopes[j].tick
  }

  ghost predicate AllToSmallest(scopes: seq<Scope>, graphs: map<nat, Graph>, under: Under) {
    forall k: nat, s: nat, f: nat {:trigger OfferedToSmallest(scopes, graphs, under, k, s, f)} ::
      OfferedToSmallest(scopes, graphs, under, k, s, f)
  }

  lemma {:induction false} FirstIsSmallest(scopes: seq<Scope>, graphs: map<nat, Graph>, under: Under)
    requires TicksIncrease(scopes)
    requires forall k: nat, s: nat, f: nat :: (s, f) in under && under[(s, f)] == k <==> IsFirst(scopes, graphs, k, s, f)
    ensures AllToSmallest(scopes, graphs, under)
  {
    forall k: nat, s: nat, f: nat
      ensures OfferedToSmallest(scopes, graphs, under, k, s, f)
    {
      FirstHasSmallestTick(scopes, graphs, k, s, f);
    }
  }

  /** One command after the traversal: the fold of its offers, with the smallest tick exactly when the first of them is fair. */
  ghost predicate BoundCommand(scopes: seq<Scope>, scopedOf: map<(nat, nat), nat>, under: Under, b: Binding, c: nat)
    requires c in b.initial && c in b.commands && c in b.offers
  {
    && BoundAt(scopes, scopedOf, under, b, |scopes|, c)
    && (SmallestTick(scopes, b.initial[c], b.commands[c], b.offers[c]) <==> Fair(scopes, b.initial[c], b.offers[c]))
  }

  ghost predicate AllBound(scopes: seq<Scope>, scopedOf: map<(nat, nat), nat>, under: Under, b: Binding) {
    && b.commands.Keys == b.initial.Keys == b.offers.Keys
    && forall c {:trigger BoundCommand(scopes, scopedOf, under, b, c)} :: c in b.commands ==> BoundCommand(scopes, scopedOf, under, b, c)
  }

  /** `replayExport`, and the scopes it leaves in publish order. */
  method ReplayScopes(ctx: E.GenCtx, scanners: map<nat, nat>, included: map<nat, seq<nat>>) returns (scopes: seq<Scope>)
    requires ctx.Recorded() && ctx.open == [] && ctx.Given() == E.Counters(0, map[], map[], []) && E.OwnObjects(ctx.log)
    modifies ctx`replayed, ctx`tick, ctx`scopedTick, ctx`scopeTick, ctx`exportOrder, ctx`order
    ensures Replayed(ctx.log, ctx.exportAt, ctx.roots, ctx.order) && ctx.Given() == E.Tally(ctx.log, ctx.order)
    ensures scopes == ScopesOf(ctx.exportOrder, ctx.scopeTick, scanners, included) && TicksIncrease(scopes)
  {
    ctx.ReplayExport();
    scopes := ScopesOf(ctx.exportOrder, ctx.scopeTick, scanners, included);
    ReplayedTicksIncrease(ctx.log, ctx.order, scanners, included);
  }

  /** The walk over the published scopes. */
  method Walk(scopes: seq<Scope>, commands: map<nat, Command>, graphs: map<nat, Graph>, scopedOf: map<(nat, nat), nat>,
              ghost files: set<nat>) returns (b: Binder)
    requires TicksIncrease(scopes)
    requires forall s, f, c :: s in graphs && c in Children(graphs[s], f) ==> c in files
    requires forall k, h :: 0 <= k < |scopes| && h in scopes[k].headers ==> h in files && !IsBuild(h)
    requires forall x :: x in scopedOf ==> scopedOf[x] in commands && IsBuild(x.1)
    ensures fresh(b) && b.scopes == scopes && b.initial == commands
    ensures AllToSmallest(scopes, graphs, b.under) && AllBound(scopes, scopedOf, b.under, b.State())
  {
    b := new Binder(scopes, graphs, scopedOf, commands, files);
    b.BindCommandScopes();
    FirstIsSmallest(scopes, graphs, b.under);
  }

  /** When uses come before publishes every command ends with the smallest tick. */
  ghost predicate AllSmallest(scopes: seq<Scope>, b: Binding) {
    && b.commands.Keys == b.initial.Keys == b.offers.Keys
    && forall c :: c in b.commands ==> SmallestTick(scopes, b.initial[c], b.commands[c], b.offers[c])
  }

  lemma {:induction false} UsesFirstIsSmallest(log: seq<E.ExportEntry>, exportAt: map<nat, nat>, roots: seq<(nat, nat)>, order: seq<nat>,
                                               scanners: map<nat, nat>, included: map<nat, seq<nat>>, usedIn: map<nat, nat>,
                                               scopes: seq<Scope>, scopedOf: map<(nat, nat), nat>, under: Under, b: Binding)
    requires Replayed(log, exportAt, roots, order) && UsesLogged(log, usedIn) && UsesFirst(log, roots, usedIn)
    requires scopes == ScopesOf(E.Tally(log, order).exportOrder, E.Tally(log, order).scopeTick, scanners, included)
    requires AllBound(scopes, scopedOf, under, b)
    requires forall c :: c in b.initial ==> b.initial[c] == CommandOf(c, usedIn, E.Tally(log, order).scopedTick)
    ensures AllSmallest(scopes, b)
  {
    forall c | c in b.commands
      ensures SmallestTick(scopes, b.initial[c], b.commands[c], b.offers[c])
    {
      assert BoundCommand(scopes, scopedOf, under, b, c);
      UsesFirstIsFair(log, exportAt, roots, order, scanners, included, usedIn, c, b.offers[c]);
    }
  }

  /**
   * `bindCommandScopes`: replay the log, then walk the published scopes. A file is
   * offered to the scope with the smallest tick among those that reach it. A
   * command holds the smallest tick among its use and its offers exactly when its
   * first offer is fair; all do when every scope's uses come before its publish.
   */
  method BindCommandScopes(ctx: E.GenCtx, usedIn: map<nat, nat>, ids: set<nat>, scanners: map<nat, nat>, included: map<nat, seq<nat>>,
                           graphs: map<nat, Graph>, scopedOf: map<(nat, nat), nat>, ghost files: set<nat>) returns (b: Binder)
    requires ctx.Recorded() && ctx.open == [] && ctx.Given() == E.Counters(0, map[], map[], []) && E.OwnObjects(ctx.log)
    requires forall s, f, c :: s in graphs && c in Children(graphs[s], f) ==> c in files
    requires forall m, h :: m in included && h in included[m] ==> h in files
    requires forall x :: x in scopedOf ==> scopedOf[x] in ids && IsBuild(x.1)
    modifies ctx`replayed, ctx`tick, ctx`scopedTick, ctx`scopeTick, ctx`exportOrder, ctx`order
    ensures fresh(b) && Replayed(ctx.log, ctx.exportAt, ctx.roots, ctx.order) && ctx.Given() == E.Tally(ctx.log, ctx.order)
    ensures b.scopes == ScopesOf(ctx.exportOrder, ctx.scopeTick, scanners, included) && TicksIncrease(b.scopes)
    ensures b.initial == map c | c in ids :: CommandOf(c, usedIn, ctx.scopedTick)
    ensures AllToSmallest(b.scopes, graphs, b.under) && AllBound(b.scopes, scopedOf, b.under, b.State())
    ensures UsesLogged(ctx.log, usedIn) && UsesFirst(ctx.log, ctx.roots, usedIn) ==> AllSmallest(b.scopes, b.State())
  {
    var scopes := ReplayScopes(ctx, scanners, included);
    var commands := map c | c in ids :: CommandOf(c, usedIn, ctx.scopedTick);
    b := Walk(scopes, commands, graphs, scopedOf, files);
    if UsesLogged(ctx.log, usedIn) && UsesFirst(ctx.log, ctx.roots, usedIn) {
      UsesFirstIsSmallest(ctx.log, ctx.exportAt, ctx.roots, ctx.order, scanners, included, usedIn, scopes, scopedOf, b.under, b.State());
    }
  }
}
