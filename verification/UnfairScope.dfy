/**
 * A log on which a command does not end with the smallest tick. A script module's
 * deferred emission puts the frame of the module that registered it back on top
 * (emit_script_module.go) wherever it fires, so a scope can be used in the visit
 * of another module, after it was published.
 */
module UnfairScope {
  import opened Prelude
  import opened CommandScopes
  import opened ScopeBinding
  import E = ExportReplay

  /** Modules 1 and 2 publish in their visits; command 7 is used in scope 1 during the visit of module 3. */
  const LOG: seq<E.ExportEntry> := [
    E.ExportEntry(E.Visit, 1, 0, 2), E.ExportEntry(E.Publish, 1, 0, 2),
    E.ExportEntry(E.Visit, 2, 0, 4), E.ExportEntry(E.Publish, 2, 0, 4),
    E.ExportEntry(E.Visit, 3, 0, 6), E.ExportEntry(E.Use, 0, 7, 6)]

  const USED_IN: map<nat, nat> := map[7 := 1]
  /** The modules' include roots, source files 10 and 20, each of which includes a build file. */
  const INCLUDED: map<nat, seq<nat>> := map[1 := [10], 2 := [20]]
  const INCLUDES: Graph := map[10 := [11], 20 := [21]]
  /** Both modules are scanned by scanner 3. */
  const SCANNERS: map<nat, nat> := map[1 := 3, 2 := 3]
  const GRAPHS: map<nat, Graph> := map[3 := INCLUDES]
  /** The build files 11 and 21 are outputs of the command. */
  const SCOPED_OF: map<(nat, nat), nat> := map[(3, 11) := 7, (3, 21) := 7]

  lemma {:induction false} Meets(exportAt: map<nat, nat>, x: nat, rest: seq<nat>, replayed: seq<bool>, next: seq<nat>)
    requires |replayed| == |LOG| && x < |LOG| && !replayed[x] && E.After(LOG, exportAt, x) == next
    ensures E.Preorder(LOG, exportAt, [x] + rest, replayed) == [x] + E.Preorder(LOG, exportAt, next + rest, replayed[x := true])
  {
    assert ([x] + rest)[1..] == rest;
  }

  lemma {:induction false} Ranges()
    ensures E.TopLevel(LOG, 0, 6) == [0, 2, 4]
    ensures E.TopLevel(LOG, 1, 2) == [1] && E.TopLevel(LOG, 3, 4) == [3] && E.TopLevel(LOG, 5, 6) == [5]
  {
    assert E.TopLevel(LOG, 6, 6) == [] && E.TopLevel(LOG, 4, 6) == [4];
    assert E.TopLevel(LOG, 2, 6) == [2, 4];
    assert E.TopLevel(LOG, 2, 2) == [] && E.TopLevel(LOG, 4, 4) == [];
  }

  /** One visit and the entry in it. */
  lemma {:induction false} MeetsVisit(exportAt: map<nat, nat>, x: nat, rest: seq<nat>, replayed: seq<bool>)
    requires x in {0, 2, 4} && |replayed| == 6 && !replayed[x] && !replayed[x + 1]
    ensures E.Preorder(LOG, exportAt, [x] + rest, replayed) ==
            [x, x + 1] + E.Preorder(LOG, exportAt, rest, replayed[x := true][x + 1 := true])
  {
    Ranges();
    Meets(exportAt, x, rest, replayed, [x + 1]);
    Meets(exportAt, x + 1, rest, replayed[x := true], []);
    assert [] + rest == rest;
  }

  lemma {:induction false} Order(exportAt: map<nat, nat>)
    ensures E.Preorder(LOG, exportAt, E.Agenda(LOG, []), [false, false, false, false, false, false]) == [0, 1, 2, 3, 4, 5]
  {
    Ranges();
    var none := [false, false, false, false, false, false];
    var two, four := none[0 := true][1 := true], none[0 := true][1 := true][2 := true][3 := true];
    MeetsVisit(exportAt, 0, [2, 4], none);
    MeetsVisit(exportAt, 2, [4], two);
    MeetsVisit(exportAt, 4, [], four);
    assert [0] + [2, 4] == [0, 2, 4] && [2] + [4] == [2, 4] && [4] + [] == [4];
    assert E.Preorder(LOG, exportAt, [], four[4 := true][5 := true]) == [];
  }

  /** Scope 1 is published at tick 1, scope 2 at tick 2, and the command is used at tick 3. */
  lemma {:induction false} Ticks()
    ensures E.Tally(LOG, [0, 1, 2, 3, 4, 5]) == E.Counters(3, map[7 := 3], map[1 := 1, 2 := 2], [1, 2])
  {
    assert E.Tally(LOG, []) == E.Counters(0, map[], map[], []);
    E.TallyStep(LOG, [], 0);
    E.TallyStep(LOG, [0], 1);
    E.TallyStep(LOG, [0, 1], 2);
    E.TallyStep(LOG, [0, 1, 2], 3);
    E.TallyStep(LOG, [0, 1, 2, 3], 4);
    E.TallyStep(LOG, [0, 1, 2, 3, 4], 5);
    assert [] + [0] == [0] && [0] + [1] == [0, 1] && [0, 1] + [2] == [0, 1, 2] && [0, 1, 2] + [3] == [0, 1, 2, 3];
    assert [0, 1, 2, 3] + [4] == [0, 1, 2, 3, 4] && [0, 1, 2, 3, 4] + [5] == [0, 1, 2, 3, 4, 5];
  }

  /** Recording the log, call by call. */
  method Record() returns (ctx: E.GenCtx)
    ensures fresh(ctx) && ctx.Recorded() && ctx.open == [] && ctx.Given() == E.Counters(0, map[], map[], [])
    ensures ctx.log == LOG && ctx.roots == [] && E.OwnObjects(ctx.log)
  {
    ctx := new E.GenCtx();
    RecordVisit(ctx, E.Publish, 1, 0, 1);
    RecordVisit(ctx, E.Publish, 2, 0, 2);
    RecordVisit(ctx, E.Use, 0, 7, 3);
  }

  /** A visit of module `m` with one use or publish in it. */
  method RecordVisit(ctx: E.GenCtx, step: E.ExportStep, result: nat, scoped: nat, m: nat)
    requires ctx.Recorded() && ctx.open == [] && step != E.Visit
    modifies ctx`log, ctx`open, ctx`exportAt
    ensures ctx.Recorded() && ctx.open == []
    ensures ctx.log == old(ctx.log) + [E.ExportEntry(E.Visit, m, 0, old(|ctx.log|) + 2), E.ExportEntry(step, result, scoped, old(|ctx.log|) + 2)]
  {
    var at := ctx.Enter();
    ctx.Log(step, result, scoped);
    ctx.Leave(at, m);
  }

  /** A path from a source file stays on it or goes on to the file it includes. */
  lemma {:induction false} Paths(p: seq<nat>)
    requires IsPath(INCLUDES, p) && p[0] in {10, 20}
    ensures p == [p[0]] || p == [p[0], p[0] + 1]
  {
    if |p| > 1 {
      assert p[0 + 1] in Children(INCLUDES, p[0]);
      assert p[1] == p[0] + 1;
      assert |p| > 2 ==> p[1 + 1] in Children(INCLUDES, p[1]);
    }
  }

  lemma {:induction false} Reach(from: nat, to: nat)
    requires from in {10, 20}
    ensures Reaches(INCLUDES, from, to) <==> to == from || to == from + 1
  {
    ReachesSelf(INCLUDES, from);
    ReachesSelf(INCLUDES, from + 1);
    ReachesThrough(INCLUDES, from, from + 1, from + 1);
    if Reaches(INCLUDES, from, to) {
      var p :| IsPath(INCLUDES, p) && p[0] == from && p[|p| - 1] == to;
      Paths(p);
    }
  }

  /** Scope `k` reaches the build file behind its own header, and not the other one. */
  lemma {:induction false} ScopeReach(scopes: seq<Scope>, k: nat, f: nat)
    requires scopes == [Scope(1, 1, 3, [10]), Scope(2, 2, 3, [20])] && k < 2 && f in {11, 21}
    ensures ReachedIn(scopes, GRAPHS, k, 3, f) <==> f == 10 * k + 11
  {
    var h := 10 * k + 10;
    Reach(h, f);
    assert scopes[k].headers == [h] && GRAPHS[3] == INCLUDES;
    assert h in scopes[k].headers && forall x :: x in scopes[k].headers ==> x == h;
  }

  /** The offers to the command begin with its own scope and go on with the other one. */
  lemma {:induction false} Offers(scopes: seq<Scope>, under: Under, b: Binding)
    requires scopes == [Scope(1, 1, 3, [10]), Scope(2, 2, 3, [20])] && 7 in b.commands
    requires AllToSmallest(scopes, GRAPHS, under) && AllBound(scopes, SCOPED_OF, under, b)
    ensures var ks := b.offers[7]; NonDecreasing(ks, 2) && ks != [] && ks[0] == 0 && 1 in ks && b.commands[7] == ClaimedAll(scopes, b.initial[7], ks)
  {
    ScopeReach(scopes, 0, 11);
    ScopeReach(scopes, 1, 11);
    ScopeReach(scopes, 0, 21);
    ScopeReach(scopes, 1, 21);
    assert OfferedToSmallest(scopes, GRAPHS, under, 0, 3, 11);
    assert OfferedToSmallest(scopes, GRAPHS, under, 1, 3, 21);
    assert BoundCommand(scopes, SCOPED_OF, under, b, 7);
    assert OfferedBy(SCOPED_OF, under, 7, 0) by { assert (3, 11) in under && under[(3, 11)] == 0; }
    assert OfferedBy(SCOPED_OF, under, 7, 1) by { assert (3, 21) in under && under[(3, 21)] == 1; }
  }

  /** What the replay of the log leaves. */
  lemma {:induction false} Outcome(exportAt: map<nat, nat>, order: seq<nat>)
    requires Replayed(LOG, exportAt, [], order)
    ensures E.Tally(LOG, order) == E.Counters(3, map[7 := 3], map[1 := 1, 2 := 2], [1, 2])
    ensures ScopesOf([1, 2], map[1 := 1, 2 := 2], SCANNERS, INCLUDED) == [Scope(1, 1, 3, [10]), Scope(2, 2, 3, [20])]
    ensures CommandOf(7, USED_IN, map[7 := 3]) == Command(Some(1), 3)
  {
    Order(exportAt);
    Ticks();
    assert seq(|LOG|, _ => false) == [false, false, false, false, false, false];
    assert Sources([10]) == [10] && Sources([20]) == [20] by { assert Sources([10][1..]) == [] && Sources([20][1..]) == []; }
  }

  /** The command ends in scope 2, although scope 1, which reaches it first, has the smaller tick. */
  method UnfairRun() returns (b: Binder)
    ensures 7 in b.commands && 7 in b.initial && 7 in b.offers
    ensures b.scopes == [Scope(1, 1, 3, [10]), Scope(2, 2, 3, [20])] && 0 in b.offers[7]
    ensures b.commands[7] == Command(Some(2), 2)
    ensures !SmallestTick(b.scopes, b.initial[7], b.commands[7], b.offers[7])
  {
    var ctx := Record();
    b := BindCommandScopes(ctx, USED_IN, {7}, SCANNERS, INCLUDED, GRAPHS, SCOPED_OF, {10, 11, 20, 21});
    Outcome(ctx.exportAt, ctx.order);
    Offers(b.scopes, b.under, b.State());
    Taken(b.scopes, b.offers[7]);
  }

  lemma {:induction false} Taken(scopes: seq<Scope>, ks: seq<nat>)
    requires scopes == [Scope(1, 1, 3, [10]), Scope(2, 2, 3, [20])] && NonDecreasing(ks, 2) && ks != [] && ks[0] == 0 && 1 in ks
    ensures ClaimedAll(scopes, Command(Some(1), 3), ks) == Command(Some(2), 2)
    ensures !SmallestTick(scopes, Command(Some(1), 3), Command(Some(2), 2), ks)
  {
    var init, k := ks[..|ks| - 1], ks[|ks| - 1];
    assert init[0] == 0;
    if 1 in init {
      Taken(scopes, init);
    } else {
      SameOffer(scopes, Command(Some(1), 3), init, 0);
    }
  }
}
