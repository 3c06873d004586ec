/** Recomputing conditional variables through a memo of the values that their conditions read (conf.go). */
module ConfRecalc {
  import opened Prelude
  import opened ConfConditions

  /** A recorded read; a truth-only read cares about emptiness alone. */
  datatype Read = Read(variable: nat, truth: bool)

  // ------------------------------------------------------------ recording the reads

  ghost predicate CoveredBy(recorded: seq<Read>, v: nat, exact: bool, i: nat)
    requires i < |recorded|
  {
    recorded[i].variable == v && (exact ==> !recorded[i].truth)
  }

  /** `v` is recorded, exactly if need be. */
  ghost predicate Covered(recorded: seq<Read>, v: nat, exact: bool) {
    exists i: nat {:trigger CoveredBy(recorded, v, exact, i)} :: i < |recorded| && CoveredBy(recorded, v, exact, i)
  }

  /** Whatever was recorded stays recorded, at least as exactly. */
  ghost predicate Extends(before: seq<Read>, after: seq<Read>) {
    && |before| <= |after|
    && forall i :: 0 <= i < |before| ==>
         after[i].variable == before[i].variable && (!before[i].truth ==> !after[i].truth)
  }

  lemma {:induction false} ExtendsCovers(before: seq<Read>, after: seq<Read>, v: nat, exact: bool)
    requires Extends(before, after) && Covered(before, v, exact)
    ensures Covered(after, v, exact)
  {
    var i: nat :| i < |before| && CoveredBy(before, v, exact, i);
    assert CoveredBy(after, v, exact, i);
  }

  /** Node `j` reads nothing that is not recorded, other than the target itself. */
  ghost predicate NodeCovered(recorded: seq<Read>, cond: seq<Node>, target: nat, j: nat)
    requires j < |cond|
  {
    && !Dollar(cond[j])
    && (cond[j].Ident? && cond[j].v != target ==> Covered(recorded, cond[j].v, Operand(cond, j)))
  }

  ghost predicate CondCovered(recorded: seq<Read>, cond: seq<Node>, target: nat, n: nat) {
    n <= |cond| && forall j: nat {:trigger NodeCovered(recorded, cond, target, j)} :: j < n ==> NodeCovered(recorded, cond, target, j)
  }

  ghost predicate ChainCovered(recorded: seq<Read>, chain: seq<Link>, target: nat, n: nat) {
    n <= |chain| && forall k :: 0 <= k < n ==> CondCovered(recorded, chain[k].cond, target, |chain[k].cond|)
  }

  ghost predicate StmtsCovered(recorded: seq<Read>, stmts: seq<Stmt>, target: nat, n: nat) {
    n <= |stmts| && forall i :: 0 <= i < n ==> ChainCovered(recorded, stmts[i].chain, target, |stmts[i].chain|)
  }

  lemma {:induction false} CondStaysCovered(before: seq<Read>, after: seq<Read>, cond: seq<Node>, target: nat, n: nat)
    requires Extends(before, after) && CondCovered(before, cond, target, n)
    ensures CondCovered(after, cond, target, n)
  {
    forall j: nat | j < n
      ensures NodeCovered(after, cond, target, j)
    {
      assert NodeCovered(before, cond, target, j);
      if cond[j].Ident? && cond[j].v != target { ExtendsCovers(before, after, cond[j].v, Operand(cond, j)); }
    }
  }

  lemma {:induction false} ChainStaysCovered(before: seq<Read>, after: seq<Read>, chain: seq<Link>, target: nat, n: nat)
    requires Extends(before, after) && ChainCovered(before, chain, target, n)
    ensures ChainCovered(after, chain, target, n)
  {
    forall k | 0 <= k < n
      ensures CondCovered(after, chain[k].cond, target, |chain[k].cond|)
    {
      CondStaysCovered(before, after, chain[k].cond, target, |chain[k].cond|);
    }
  }

  ghost predicate CondExpands(cond: seq<Node>) {
    exists j :: 0 <= j < |cond| && Dollar(cond[j])
  }

  ghost predicate ChainExpands(chain: seq<Link>) {
    exists k :: 0 <= k < |chain| && CondExpands(chain[k].cond)
  }

  /** Some condition of the statements has a literal that could be expanded. */
  ghost predicate StmtsExpand(stmts: seq<Stmt>) {
    exists i :: 0 <= i < |stmts| && ChainExpands(stmts[i].chain)
  }

  function IndexOfRead(recorded: seq<Read>, v: nat): (r: Option<nat>)
    ensures r.Some? ==> r.value < |recorded| && recorded[r.value].variable == v
    ensures r.None? ==> forall i :: 0 <= i < |recorded| ==> recorded[i].variable != v
  {
    if recorded == [] then None
    else if recorded[|recorded| - 1].variable == v then Some(|recorded| - 1)
    else IndexOfRead(recorded[..|recorded| - 1], v)
  }

  /** Record one read; a second read of the variable stays truth-only only if both are. */
  function AddRead(recorded: seq<Read>, v: nat, truth: bool): (r: seq<Read>) {
    match IndexOfRead(recorded, v)
    case Some(i) => recorded[i := Read(v, recorded[i].truth && truth)]
    case None => recorded + [Read(v, truth)]
  }

  lemma {:induction false} AddReadCovers(recorded: seq<Read>, v: nat, truth: bool)
    ensures Extends(recorded, AddRead(recorded, v, truth)) && Covered(AddRead(recorded, v, truth), v, !truth)
  {
    var r := AddRead(recorded, v, truth);
    var i := if IndexOfRead(recorded, v).Some? then IndexOfRead(recorded, v).value else |recorded|;
    assert CoveredBy(r, v, !truth, i);
  }

  /** `condInputs` for one condition. */
  method CollectCond(recorded0: seq<Read>, cond: seq<Node>, target: nat) returns (recorded: seq<Read>, literal: bool)
    ensures Extends(recorded0, recorded) && (if literal then CondExpands(cond) else CondCovered(recorded, cond, target, |cond|))
  {
    recorded, literal := recorded0, false;
    for j := 0 to |cond|
      invariant Extends(recorded0, recorded) && (if literal then CondExpands(cond) else CondCovered(recorded, cond, target, j))
    {
      ghost var before := recorded;
      if cond[j].Ident? && cond[j].v != target {
        AddReadCovers(recorded, cond[j].v, !Operand(cond, j));
        recorded := AddRead(recorded, cond[j].v, !Operand(cond, j));
      }
      literal := literal || Dollar(cond[j]);
      if !literal {
        CondStaysCovered(before, recorded, cond, target, j);
        assert NodeCovered(recorded, cond, target, j);
      }
    }
  }

  method CollectChain(recorded0: seq<Read>, chain: seq<Link>, target: nat) returns (recorded: seq<Read>, literal: bool)
    ensures Extends(recorded0, recorded) && (if literal then ChainExpands(chain) else ChainCovered(recorded, chain, target, |chain|))
  {
    recorded, literal := recorded0, false;
    for k := 0 to |chain|
      invariant Extends(recorded0, recorded) && (if literal then ChainExpands(chain) else ChainCovered(recorded, chain, target, k))
    {
      ghost var before := recorded;
      var found;
      recorded, found := CollectCond(recorded, chain[k].cond, target);
      if !literal { ChainStaysCovered(before, recorded, chain, target, k); }
      literal := literal || found;
    }
  }

  /** The reads recorded for a target: none at all (no memo) once some literal could be expanded. */
  method CollectReads(stmts: seq<Stmt>, target: nat) returns (r: Option<seq<Read>>)
    ensures if r.None? then StmtsExpand(stmts) else StmtsCovered(r.value, stmts, target, |stmts|)
  {
    var recorded, literal: bool := [], false;
    for i := 0 to |stmts|
      invariant if literal then StmtsExpand(stmts) else StmtsCovered(recorded, stmts, target, i)
    {
      ghost var before := recorded;
      var found;
      recorded, found := CollectChain(recorded, stmts[i].chain, target);
      if !literal {
        forall h | 0 <= h < i
          ensures ChainCovered(recorded, stmts[h].chain, target, |stmts[h].chain|)
        {
          ChainStaysCovered(before, recorded, stmts[h].chain, target, |stmts[h].chain|);
        }
      }
      literal := literal || found;
    }
    r := if literal then None else Some(recorded);
  }

  // ------------------------------------------------------------ inputs

  function KindCode(kind: Kind): nat {
    match kind
    case Str => 1
    case Int => 2
    case Vfs => 3
  }

  /** What a read contributes to the memo key. */
  function Input(b: Option<Binding>, truth: bool): nat {
    match b
    case None => 0
    case Some(x) =>
      if !truth then KindCode(x.kind) * IDS + x.id
      else if x.kind == Str && (x.id == 0 || x.id == EMPTY) then 1 else 2
  }

  ghost predicate NotEmptyInt(b: Option<Binding>) {
    b.Some? && b.value.kind == Int ==> b.value.id != 0 && b.value.id != EMPTY
  }

  /** Integers are interned digits, never the empty string. */
  ghost predicate EnvOk(env: Env) {
    forall v {:trigger Lookup(env, v)} :: NotEmptyInt(Lookup(env, v))
  }

  /** Equal inputs: the same binding, or for a truth-only read the same emptiness. */
  lemma {:induction false} InputMeans(a: Option<Binding>, b: Option<Binding>, truth: bool)
    requires Input(a, truth) == Input(b, truth) && NotEmptyInt(a) && NotEmptyInt(b)
    ensures IsEmpty(a) == IsEmpty(b) && (!truth ==> a == b)
  {
  }

  ghost predicate SameInput(a: Env, b: Env, recorded: seq<Read>, i: nat)
    requires i < |recorded|
  {
    Input(Lookup(a, recorded[i].variable), recorded[i].truth) == Input(Lookup(b, recorded[i].variable), recorded[i].truth)
  }

  ghost predicate SameInputs(a: Env, b: Env, recorded: seq<Read>) {
    forall i: nat {:trigger SameInput(a, b, recorded, i)} :: i < |recorded| ==> SameInput(a, b, recorded, i)
  }

  ghost function Inputs(env: Env, recorded: seq<Read>): seq<nat> {
    seq(|recorded|, i requires 0 <= i < |recorded| => Input(Lookup(env, recorded[i].variable), recorded[i].truth))
  }

  lemma {:induction false} EqualInputs(a: Env, b: Env, recorded: seq<Read>)
    requires Inputs(a, recorded) == Inputs(b, recorded)
    ensures SameInputs(a, b, recorded)
  {
    forall i: nat | i < |recorded|
      ensures SameInput(a, b, recorded, i)
    {
      assert Inputs(a, recorded)[i] == Inputs(b, recorded)[i];
    }
  }

  // ------------------------------------------------------------ recomputing

  /** The statements of one target, each under its condition; `None` is a thrown condition. */
  function RunFrom(names: Names, stmts: seq<Stmt>, env: Env): Option<Env>
    requires forall i :: 0 <= i < |stmts| ==> ChainOk(stmts[i].chain)
    decreases |stmts|
  {
    if stmts == [] then Some(env)
    else
      match ChainHolds(names, stmts[0].chain, env)
      case None => None
      case Some(b) => RunFrom(names, stmts[1..], if b then Apply(names, env, stmts[0], true) else env)
  }

  /** All the target's statements, and nothing but. */
  ghost predicate StmtsOk(stmts: seq<Stmt>, target: nat) {
    forall i :: 0 <= i < |stmts| ==> ChainOk(stmts[i].chain) && stmts[i].name == target && stmts[i].scalar.kind != Int
  }

  /** Alike in every recorded read and in the target's value so far. */
  ghost predicate Alike(a: Env, b: Env, recorded: seq<Read>, target: nat) {
    && SameInputs(a, b, recorded) && Lookup(a, target) == Lookup(b, target)
    && (forall v {:trigger Lookup(a, v)} :: v != target ==> NotEmptyInt(Lookup(a, v)))
    && (forall v {:trigger Lookup(b, v)} :: v != target ==> NotEmptyInt(Lookup(b, v)))
  }

  lemma {:induction false} CoveredReadAgrees(a: Env, b: Env, recorded: seq<Read>, target: nat, v: nat, exact: bool)
    requires Alike(a, b, recorded, target) && (v == target || Covered(recorded, v, exact))
    ensures IsEmpty(Lookup(a, v)) == IsEmpty(Lookup(b, v)) && (exact ==> Lookup(a, v) == Lookup(b, v))
  {
    if v != target {
      var i: nat :| i < |recorded| && CoveredBy(recorded, v, exact, i);
      assert SameInput(a, b, recorded, i);
      InputMeans(Lookup(a, v), Lookup(b, v), recorded[i].truth);
    }
  }

  lemma {:induction false} CoveredCondAgrees(names: Names, a: Env, b: Env, recorded: seq<Read>, target: nat, cond: seq<Node>)
    requires Alike(a, b, recorded, target) && CondCovered(recorded, cond, target, |cond|)
    ensures SameReads(names, cond, a, b)
  {
    forall j: nat | j < |cond|
      ensures SameRead(names, cond, a, b, j)
    {
      assert NodeCovered(recorded, cond, target, j);
      if cond[j].Ident? { CoveredReadAgrees(a, b, recorded, target, cond[j].v, Operand(cond, j)); }
    }
  }

  lemma {:induction false} CoveredChainAgrees(names: Names, a: Env, b: Env, recorded: seq<Read>, target: nat, chain: seq<Link>)
    requires Alike(a, b, recorded, target) && ChainOk(chain) && ChainCovered(recorded, chain, target, |chain|)
    ensures ChainHolds(names, chain, a) == ChainHolds(names, chain, b)
  {
    forall k: nat | k < |chain|
      ensures SameLink(names, chain, a, b, k)
    {
      CoveredCondAgrees(names, a, b, recorded, target, chain[k].cond);
    }
    ChainAgrees(names, chain, a, b);
  }

  /** `b` is `a` with another binding for the target. */
  ghost predicate OnlyTarget(a: Env, b: Env, target: nat) {
    b == WithBinding(a, target, Lookup(b, target))
  }

  lemma {:induction false} OnlyTargetElsewhere(a: Env, b: Env, target: nat, v: nat)
    requires OnlyTarget(a, b, target) && v != target
    ensures Lookup(a, v) == Lookup(b, v)
  {
    assert Lookup(WithBinding(a, target, Lookup(b, target)), v) == Lookup(a, v);
  }

  /** No statement of the target disturbs the recorded reads of other variables, or makes the environments differ. */
  lemma {:induction false} ApplyKeepsAlike(names: Names, a: Env, b: Env, recorded: seq<Read>, target: nat, s: Stmt)
    requires Alike(a, b, recorded, target) && s.name == target
    ensures Alike(Apply(names, a, s, true), Apply(names, b, s, true), recorded, target)
  {
    var a', b' := Apply(names, a, s, true), Apply(names, b, s, true);
    ApplyIsLocal(names, a, s, true, target);
    ApplyIsLocal(names, b, s, true, target);
    forall i: nat | i < |recorded|
      ensures SameInput(a', b', recorded, i)
    {
      assert SameInput(a, b, recorded, i);
      ApplyIsLocal(names, a, s, true, recorded[i].variable);
      ApplyIsLocal(names, b, s, true, recorded[i].variable);
    }
    forall v | v != target
      ensures NotEmptyInt(Lookup(a', v)) && NotEmptyInt(Lookup(b', v))
    {
      ApplyIsLocal(names, a, s, true, v);
      ApplyIsLocal(names, b, s, true, v);
    }
  }

  lemma {:induction false} RunAgrees(names: Names, stmts: seq<Stmt>, a: Env, b: Env, recorded: seq<Read>, target: nat)
    requires StmtsOk(stmts, target) && StmtsCovered(recorded, stmts, target, |stmts|) && Alike(a, b, recorded, target)
    ensures RunFrom(names, stmts, a).None? == RunFrom(names, stmts, b).None?
    ensures RunFrom(names, stmts, a).Some? ==>
              Lookup(RunFrom(names, stmts, a).value, target) == Lookup(RunFrom(names, stmts, b).value, target)
    decreases |stmts|
  {
    if stmts != [] {
      var s := stmts[0];
      CoveredChainAgrees(names, a, b, recorded, target, s.chain);
      ApplyKeepsAlike(names, a, b, recorded, target, s);
      if ChainHolds(names, s.chain, a).Some? {
        var yes := ChainHolds(names, s.chain, a).value;
        RunAgrees(names, stmts[1..], if yes then Apply(names, a, s, true) else a, if yes then Apply(names, b, s, true) else b,
                  recorded, target);
      }
    }
  }

  lemma {:induction false} RunOnlyTarget(names: Names, stmts: seq<Stmt>, env: Env, target: nat)
    requires StmtsOk(stmts, target) && RunFrom(names, stmts, env).Some?
    ensures OnlyTarget(env, RunFrom(names, stmts, env).value, target)
    decreases |stmts|
  {
    if stmts != [] {
      var yes := ChainHolds(names, stmts[0].chain, env).value;
      RunOnlyTarget(names, stmts[1..], if yes then Apply(names, env, stmts[0], true) else env, target);
    }
  }

  lemma {:induction false} RunNoInt(names: Names, stmts: seq<Stmt>, env: Env, target: nat)
    requires StmtsOk(stmts, target) && RunFrom(names, stmts, env).Some? && (forall s :: names.bind(s).kind != Int)
    requires NotEmptyInt(Lookup(env, target))
    ensures NotEmptyInt(Lookup(RunFrom(names, stmts, env).value, target))
    decreases |stmts|
  {
    if stmts != [] {
      var yes := ChainHolds(names, stmts[0].chain, env).value;
      ApplyIsLocal(names, env, stmts[0], true, target);
      RunNoInt(names, stmts[1..], if yes then Apply(names, env, stmts[0], true) else env, target);
    }
  }

  // ------------------------------------------------------------ the memo

  /** What is fixed once the configuration is loaded. */
  datatype Tables = Tables(
    names: Names,
    byTarget: map<nat, seq<Stmt>>,
    byVariable: map<nat, seq<nat>>,
    recorded: map<nat, seq<Read>>,
    inherited: map<nat, Binding>,
    platform: Env)

  function Stmts(t: Tables, target: nat): seq<Stmt> {
    if target in t.byTarget then t.byTarget[target] else []
  }

  ghost predicate TargetOk(t: Tables, target: nat) {
    && StmtsOk(Stmts(t, target), target)
    && (target in t.recorded ==> StmtsCovered(t.recorded[target], Stmts(t, target), target, |Stmts(t, target)|))
    && (target in t.inherited ==> t.inherited[target].kind != Int)
  }

  ghost predicate TablesOk(t: Tables) {
    (forall s :: t.names.bind(s).kind != Int) && forall target: nat {:trigger TargetOk(t, target)} :: TargetOk(t, target)
  }

  /** The value before the conditional statements: inherited, or set by the user on top of it. Original 0 means not set. */
  function Base(t: Tables, target: nat, original: Id): Option<Binding> {
    var base := Lookup(t.inherited, target);
    if original == 0 then base
    else
      var inherited := TextOf(t.names, Lookup(t.platform, target));
      if base.Some? && inherited != "" then
        Some(t.names.bind(inherited + " " + t.names.text(Binding(Str, original))))
      else Some(Binding(Str, original))
  }

  /** The recomputation without a memo. */
  ghost function Fresh(t: Tables, env: Env, target: nat, original: Id): Option<Env>
    requires TablesOk(t)
  {
    assert TargetOk(t, target);
    RunFrom(t.names, Stmts(t, target), WithBinding(env, target, Base(t, target, original)))
  }

  // ------------------------------------------------------------ what a recomputation means

  /** The text a target starts with: what it inherits, then what the user set. */
  ghost function StartText(t: Tables, target: nat, original: Id): string {
    var above := if original == 0 then Lookup(t.inherited, target) else if target in t.inherited then Lookup(t.platform, target) else None;
    Spaced(NonEmpty(TextOf(t.names, above)) + (if original == 0 then [] else [t.names.text(Binding(Str, original))]))
  }

  /** The base has that text; it is the inherited binding if the user set nothing, the user's own if nothing is inherited. */
  lemma {:induction false} BaseMeans(t: Tables, target: nat, original: Id)
    requires Faithful(t.names)
    ensures TextOf(t.names, Base(t, target, original)) == StartText(t, target, original)
    ensures original == 0 ==> Base(t, target, original) == Lookup(t.inherited, target)
    ensures original != 0 && (target !in t.inherited || TextOf(t.names, Lookup(t.platform, target)) == "") ==>
              Base(t, target, original) == Some(Binding(Str, original))
  {
    if original != 0 && target in t.inherited {
      var a, b := TextOf(t.names, Lookup(t.platform, target)), t.names.text(Binding(Str, original));
      assert [a] + [b] == [a, b] && [a, b][..1] == [a];
      assert Spaced([a, b]) == a + " " + b;
    }
  }

  /** The statements that apply, by their flags. */
  ghost function Chosen(stmts: seq<Stmt>, held: seq<bool>): seq<Stmt>
    requires |held| == |stmts|
  {
    if stmts == [] then []
    else Chosen(stmts[..|stmts| - 1], held[..|stmts| - 1]) + if held[|stmts| - 1] then [stmts[|stmts| - 1]] else []
  }

  lemma {:induction false} RunSnoc(names: Names, stmts: seq<Stmt>, s: Stmt, env: Env)
    requires (forall i :: 0 <= i < |stmts| ==> ChainOk(stmts[i].chain)) && ChainOk(s.chain)
    ensures RunFrom(names, stmts + [s], env) ==
            match RunFrom(names, stmts, env)
            case None => None
            case Some(e) =>
              match ChainHolds(names, s.chain, e)
              case None => None
              case Some(b) => Some(if b then Apply(names, e, s, true) else e)
    decreases |stmts|
  {
    var all := stmts + [s];
    if stmts == [] {
      assert all[1..] == [];
    } else {
      assert all[1..] == stmts[1..] + [s];
      match ChainHolds(names, stmts[0].chain, env)
      case None =>
      case Some(b) => RunSnoc(names, stmts[1..], s, if b then Apply(names, env, stmts[0], true) else env);
    }
  }

  /** `held` says of each statement whether its conditions hold once the statements before it have been applied to `start`. */
  ghost predicate HeldAt(names: Names, stmts: seq<Stmt>, env: Env, target: nat, start: Option<Binding>, held: seq<bool>, i: nat)
    requires |held| == |stmts| && i < |stmts| && ChainOk(stmts[i].chain)
  {
    ChainHolds(names, stmts[i].chain, WithBinding(env, target, AppliedAll(names, start, Chosen(stmts[..i], held[..i]), true))) == Some(held[i])
  }

  lemma {:induction false} RunMeans(names: Names, stmts: seq<Stmt>, env: Env, target: nat, start: Option<Binding>) returns (held: seq<bool>)
    requires StmtsOk(stmts, target) && RunFrom(names, stmts, WithBinding(env, target, start)).Some?
    ensures |held| == |stmts| && forall i: nat :: i < |stmts| ==> HeldAt(names, stmts, env, target, start, held, i)
    ensures RunFrom(names, stmts, WithBinding(env, target, start)).value ==
            WithBinding(env, target, AppliedAll(names, start, Chosen(stmts, held), true))
    decreases |stmts|
  {
    if stmts == [] {
      return [];
    }
    var n := |stmts| - 1;
    var init, s := stmts[..n], stmts[n];
    assert stmts == init + [s];
    RunSnoc(names, init, s, WithBinding(env, target, start));
    var held0 := RunMeans(names, init, env, target, start);
    var e := RunFrom(names, init, WithBinding(env, target, start)).value;
    held := held0 + [ChainHolds(names, s.chain, e).value];
    assert held[..n] == held0;
    forall i: nat | i < |stmts|
      ensures HeldAt(names, stmts, env, target, start, held, i)
    {
      if i < n {
        assert HeldAt(names, init, env, target, start, held0, i);
        assert init[..i] == stmts[..i] && held0[..i] == held[..i];
      }
    }
    AppliedSnoc(names, env, target, start, Chosen(init, held0), s);
    assert Chosen(stmts, held) == if held[n] then Chosen(init, held0) + [s] else Chosen(init, held0);
  }

  lemma {:induction false} AppliedSnoc(names: Names, env: Env, target: nat, start: Option<Binding>, stmts: seq<Stmt>, s: Stmt)
    requires s.name == target
    ensures Apply(names, WithBinding(env, target, AppliedAll(names, start, stmts, true)), s, true)
         == WithBinding(env, target, AppliedAll(names, start, stmts + [s], true))
  {
    assert (stmts + [s])[..|stmts|] == stmts;
  }

  /**
   * What a recomputation leaves in the target: the base, with every statement applied
   * in order whose conditions hold by then. Nothing else changes.
   */
  lemma {:induction false} FreshMeans(t: Tables, env: Env, target: nat, original: Id) returns (held: seq<bool>)
    requires TablesOk(t) && Fresh(t, env, target, original).Some?
    ensures var stmts, base := Stmts(t, target), Base(t, target, original);
            && |held| == |stmts| && StmtsOk(stmts, target)
            && (forall i: nat :: i < |stmts| ==> HeldAt(t.names, stmts, env, target, base, held, i))
            && Fresh(t, env, target, original).value == WithBinding(env, target, AppliedAll(t.names, base, Chosen(stmts, held), true))
  {
    assert TargetOk(t, target);
    held := RunMeans(t.names, Stmts(t, target), env, target, Base(t, target, original));
  }

  lemma {:induction false} ChosenAppends(names: Names, stmts: seq<Stmt>, held: seq<bool>)
    requires |held| == |stmts| && Appends(names, stmts)
    ensures Appends(names, Chosen(stmts, held))
  {
    if stmts != [] { ChosenAppends(names, stmts[..|stmts| - 1], held[..|stmts| - 1]); }
  }

  /** A target that is only appended to: inherited text, user text and the appended texts in order, separated by single spaces. */
  lemma {:induction false} RecalcSpellsOut(t: Tables, env: Env, target: nat, original: Id) returns (held: seq<bool>)
    requires TablesOk(t) && Faithful(t.names) && Appends(t.names, Stmts(t, target)) && Fresh(t, env, target, original).Some?
    ensures var stmts := Stmts(t, target);
            && |held| == |stmts| && StmtsOk(stmts, target)
            && (forall i: nat :: i < |stmts| ==> HeldAt(t.names, stmts, env, target, Base(t, target, original), held, i))
            && TextOf(t.names, Lookup(Fresh(t, env, target, original).value, target))
               == Spaced(NonEmpty(StartText(t, target, original)) + Texts(Chosen(stmts, held)))
  {
    held := FreshMeans(t, env, target, original);
    ChosenAppends(t.names, Stmts(t, target), held);
    BaseMeans(t, target, original);
    AppendsSpellOut(t.names, Base(t, target, original), Chosen(Stmts(t, target), held), true);
  }

  /** The target's value depends only on the target, the original and the inputs, whatever else the environment holds. */
  lemma {:induction false} FreshByInputs(t: Tables, a: Env, b: Env, target: nat, original: Id)
    requires TablesOk(t) && target in t.recorded && EnvOk(a) && EnvOk(b) && Inputs(a, t.recorded[target]) == Inputs(b, t.recorded[target])
    ensures Fresh(t, a, target, original).None? == Fresh(t, b, target, original).None?
    ensures Fresh(t, a, target, original).Some? ==>
              Lookup(Fresh(t, a, target, original).value, target) == Lookup(Fresh(t, b, target, original).value, target)
  {
    assert TargetOk(t, target);
    var base, recorded := Base(t, target, original), t.recorded[target];
    var a', b' := WithBinding(a, target, base), WithBinding(b, target, base);
    EqualInputs(a, b, recorded);
    forall v | v != target
      ensures Lookup(a', v) == Lookup(a, v) && Lookup(b', v) == Lookup(b, v)
      ensures NotEmptyInt(Lookup(a', v)) && NotEmptyInt(Lookup(b', v))
    {
      assert NotEmptyInt(Lookup(a, v)) && NotEmptyInt(Lookup(b, v));
    }
    forall i: nat | i < |recorded|
      ensures SameInput(a', b', recorded, i)
    {
      assert SameInput(a, b, recorded, i);
    }
    assert Lookup(a', target) == base && Lookup(b', target) == base;
    RunAgrees(t.names, Stmts(t, target), a', b', recorded, target);
  }

  lemma {:induction false} FreshOnlyTarget(t: Tables, env: Env, target: nat, original: Id)
    requires TablesOk(t) && Fresh(t, env, target, original).Some?
    ensures OnlyTarget(env, Fresh(t, env, target, original).value, target)
  {
    assert TargetOk(t, target);
    var start := WithBinding(env, target, Base(t, target, original));
    RunOnlyTarget(t.names, Stmts(t, target), start, target);
    assert forall x: Option<Binding> :: WithBinding(start, target, x) == WithBinding(env, target, x);
  }

  lemma {:induction false} FreshKeepsEnvOk(t: Tables, env: Env, target: nat, original: Id)
    requires TablesOk(t) && EnvOk(env) && Fresh(t, env, target, original).Some?
    ensures EnvOk(Fresh(t, env, target, original).value)
  {
    assert TargetOk(t, target);
    var out := Fresh(t, env, target, original).value;
    var base := Base(t, target, original);
    assert Lookup(WithBinding(env, target, base), target) == base;
    RunNoInt(t.names, Stmts(t, target), WithBinding(env, target, base), target);
    FreshOnlyTarget(t, env, target, original);
    forall v
      ensures NotEmptyInt(Lookup(out, v))
    {
      if v != target {
        OnlyTargetElsewhere(env, out, target, v);
        assert NotEmptyInt(Lookup(env, v));
      }
    }
  }

  datatype Entry = Entry(target: nat, original: Id, inputs: seq<nat>, value: Option<Binding>)

  /** In environment `env`, if it has the entry's inputs, a fresh recomputation gives the entry's value. */
  ghost predicate RightIn(t: Tables, e: Entry, env: Env)
    requires TablesOk(t)
  {
    EnvOk(env) && e.target in t.recorded && Inputs(env, t.recorded[e.target]) == e.inputs ==>
      Fresh(t, env, e.target, e.original).Some? && Lookup(Fresh(t, env, e.target, e.original).value, e.target) == e.value
  }

  ghost predicate EntryOk(t: Tables, e: Entry) {
    TablesOk(t) && forall env: Env {:trigger RightIn(t, e, env)} :: RightIn(t, e, env)
  }

  lemma {:induction false} FreshEntryOk(t: Tables, env: Env, target: nat, original: Id)
    requires TablesOk(t) && EnvOk(env) && target in t.recorded && Fresh(t, env, target, original).Some?
    ensures EntryOk(t, Entry(target, original, Inputs(env, t.recorded[target]), Lookup(Fresh(t, env, target, original).value, target)))
  {
    var e := Entry(target, original, Inputs(env, t.recorded[target]), Lookup(Fresh(t, env, target, original).value, target));
    forall other: Env
      ensures RightIn(t, e, other)
    {
      if EnvOk(other) && Inputs(other, t.recorded[target]) == e.inputs { FreshByInputs(t, env, other, target, original); }
    }
  }

  /** All the targets of a variable, one after the other. */
  ghost function FreshAll(t: Tables, env: Env, targets: seq<nat>, originals: nat -> Id): Option<Env>
    requires TablesOk(t)
    decreases |targets|
  {
    if targets == [] then Some(env)
    else
      match Fresh(t, env, targets[0], originals(targets[0]))
      case None => None
      case Some(next) => FreshAll(t, next, targets[1..], originals)
  }

  /** The targets are recomputed one after the other, each in what the ones before it left. */
  lemma {:induction false} FreshAllSnoc(t: Tables, env: Env, targets: seq<nat>, last: nat, originals: nat -> Id)
    requires TablesOk(t)
    ensures FreshAll(t, env, targets + [last], originals) ==
            match FreshAll(t, env, targets, originals)
            case None => None
            case Some(e) => Fresh(t, e, last, originals(last))
    decreases |targets|
  {
    var all := targets + [last];
    if targets == [] {
      assert all[1..] == [];
    } else {
      assert all[1..] == targets[1..] + [last];
      match Fresh(t, env, targets[0], originals(targets[0]))
      case None =>
      case Some(next) => FreshAllSnoc(t, next, targets[1..], last, originals);
    }
  }

  class Conf {
    const tables: Tables
    /** The key hash, any function at all. */
    const hash: (seq<nat>, nat, nat) -> nat
    var recalcs: map<nat, seq<Entry>>

    ghost predicate KeyOk(key: nat)
      reads this
    {
      key in recalcs ==> forall i :: 0 <= i < |recalcs[key]| ==> EntryOk(tables, recalcs[key][i])
    }

    ghost predicate Valid()
      reads this
    {
      TablesOk(tables) && forall key: nat {:trigger KeyOk(key)} :: KeyOk(key)
    }

    constructor (tables: Tables, hash: (seq<nat>, nat, nat) -> nat)
      requires TablesOk(tables)
      ensures Valid() && this.tables == tables && this.hash == hash && recalcs == map[]
    {
      this.tables, this.hash, this.recalcs := tables, hash, map[];
    }

    /** `recalcKey`: the inputs of the reads, in order. */
    method RecalcKey(env: Env, recorded: seq<Read>) returns (inputs: seq<nat>)
      ensures inputs == Inputs(env, recorded)
    {
      inputs := [];
      for i := 0 to |recorded|
        invariant |inputs| == i
        invariant forall j :: 0 <= j < i ==> inputs[j] == Input(Lookup(env, recorded[j].variable), recorded[j].truth)
      {
        inputs := inputs + [Input(Lookup(env, recorded[i].variable), recorded[i].truth)];
      }
    }

    /** `recalcHit`: `None` is a miss; a hit is what a fresh recomputation would give in every environment with these inputs. */
    method RecalcHit(key: nat, target: nat, original: Id, inputs: seq<nat>) returns (r: Option<Option<Binding>>)
      requires Valid()
      ensures r.Some? ==> EntryOk(tables, Entry(target, original, inputs, r.value))
    {
      assert KeyOk(key);
      var list := if key in recalcs then recalcs[key] else [];
      for i := 0 to |list| {
        if list[i].target == target && list[i].original == original && list[i].inputs == inputs {
          assert list[i] == Entry(target, original, inputs, list[i].value);
          return Some(list[i].value);
        }
      }
      r := None;
    }

    method RecalcPut(key: nat, e: Entry)
      requires Valid() && EntryOk(tables, e)
      modifies this
      ensures Valid()
    {
      assert KeyOk(key);
      ghost var before := recalcs;
      assert forall k: nat {:trigger k in before} :: KeyOk(k);
      recalcs := recalcs[key := (if key in recalcs then recalcs[key] else []) + [e]];
      forall k: nat
        ensures KeyOk(k)
      {
        if k in recalcs && k != key { assert recalcs[k] == before[k]; }
      }
    }

    /** The loop over the target's statements. */
    method RunStmts(stmts: seq<Stmt>, start: Env) returns (r: Option<Env>)
      requires forall i :: 0 <= i < |stmts| ==> ChainOk(stmts[i].chain)
      ensures r == RunFrom(tables.names, stmts, start)
    {
      var env := start;
      assert stmts[0..] == stmts;
      for i := 0 to |stmts|
        invariant RunFrom(tables.names, stmts, start) == RunFrom(tables.names, stmts[i..], env)
      {
        assert stmts[i..][1..] == stmts[i + 1..];
        var holds := ChainHolds(tables.names, stmts[i].chain, env);
        if holds.None? {
          return None;
        }
        if holds.value {
          env := Apply(tables.names, env, stmts[i], true);
        }
      }
      r := Some(env);
    }

    /** One round of `recalcInto`: hit or miss, the result is that of a fresh recomputation. */
    method RecalcOne(env: Env, target: nat, original: Id) returns (r: Option<Env>)
      requires Valid() && EnvOk(env)
      modifies this
      ensures Valid() && r == Fresh(tables, env, target, original)
    {
      assert TargetOk(tables, target);
      if target !in tables.recorded {
        r := RunStmts(Stmts(tables, target), WithBinding(env, target, Base(tables, target, original)));
        return;
      }
      var inputs := RecalcKey(env, tables.recorded[target]);
      var key := hash(inputs, target, original);
      var hit := RecalcHit(key, target, original, inputs);
      if hit.Some? {
        assert RightIn(tables, Entry(target, original, inputs, hit.value), env);
        FreshOnlyTarget(tables, env, target, original);
        return Some(WithBinding(env, target, hit.value));
      }
      r := RunStmts(Stmts(tables, target), WithBinding(env, target, Base(tables, target, original)));
      if r.Some? {
        FreshEntryOk(tables, env, target, original);
        RecalcPut(key, Entry(target, original, inputs, Lookup(r.value, target)));
      }
    }

    /** `recalcInto`. */
    method RecalcInto(start: Env, variable: nat, originals: nat -> Id) returns (r: Option<Env>)
      requires Valid() && EnvOk(start)
      modifies this
      ensures Valid()
      ensures r == FreshAll(tables, start, if variable in tables.byVariable then tables.byVariable[variable] else [], originals)
    {
      var targets := if variable in tables.byVariable then tables.byVariable[variable] else [];
      var env := start;
      assert targets[0..] == targets;
      for i := 0 to |targets|
        invariant Valid() && EnvOk(env)
        invariant FreshAll(tables, start, targets, originals) == FreshAll(tables, env, targets[i..], originals)
      {
        assert targets[i..][1..] == targets[i + 1..];
        var next := RecalcOne(env, targets[i], originals(targets[i]));
        if next.None? {
          return None;
        }
        FreshKeepsEnvOk(tables, env, targets[i], originals(targets[i]));
        env := next.value;
      }
      r := Some(env);
    }
  }
}
