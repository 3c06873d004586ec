/** The backward slice that `loadConf` runs instead of the whole configuration program (conf.go). */
module ConfSlice {
  import opened Prelude
  import opened ConfConditions

  ghost predicate ProgramOk(stmts: seq<Stmt>) {
    forall i :: 0 <= i < |stmts| ==> ChainOk(stmts[i].chain)
  }

  // ------------------------------------------------------------ what a statement needs

  function CondVars(cond: seq<Node>): set<nat> {
    set i | 0 <= i < |cond| && cond[i].Ident? :: cond[i].v
  }

  function ChainVars(chain: seq<Link>): set<nat> {
    if chain == [] then {} else CondVars(chain[0].cond) + ChainVars(chain[1..])
  }

  /** The variables that using `s` makes needed: those its text refers to, and those its conditions name. */
  function Wants(s: Stmt): set<nat> {
    Elems(s.refs) + ChainVars(s.chain)
  }

  lemma {:induction false} ChainVarsCover(chain: seq<Link>, k: nat, i: nat)
    requires k < |chain| && i < |chain[k].cond| && chain[k].cond[i].Ident?
    ensures chain[k].cond[i].v in ChainVars(chain)
    decreases k
  {
    if k > 0 {
      var rest, j := chain[1..], k - 1;
      assert rest[j] == chain[k];
      ChainVarsCover(rest, j, i);
    }
  }

  ghost predicate WantsWithin(stmts: seq<Stmt>, needed: set<nat>, i: nat)
    requires i < |stmts|
  {
    stmts[i].name in needed ==> Wants(stmts[i]) <= needed
  }

  /** `needed` has every seed, and everything that a statement for a needed variable wants. */
  ghost predicate ClosedUnder(stmts: seq<Stmt>, seeds: set<nat>, needed: set<nat>) {
    seeds <= needed && forall i: nat {:trigger WantsWithin(stmts, needed, i)} :: i < |stmts| ==> WantsWithin(stmts, needed, i)
  }

  // ------------------------------------------------------------ the closure loop

  function Unused(used: seq<bool>): nat {
    if used == [] then 0 else Unused(used[1..]) + if used[0] then 0 else 1
  }

  lemma {:induction false} UseOne(used: seq<bool>, i: nat)
    requires i < |used| && !used[i]
    ensures Unused(used[i := true]) == Unused(used) - 1
    decreases i
  {
    if i > 0 {
      assert used[i := true][1..] == used[1..][i - 1 := true];
      UseOne(used[1..], i - 1);
    } else {
      assert used[i := true][1..] == used[1..];
    }
  }

  ghost predicate UsedAt(stmts: seq<Stmt>, used: seq<bool>, needed: set<nat>, i: nat)
    requires |used| == |stmts| && i < |stmts|
  {
    used[i] ==> stmts[i].name in needed && Wants(stmts[i]) <= needed
  }

  /** What holds throughout the loop: used statements are needed and have what they want. */
  ghost predicate Growing(stmts: seq<Stmt>, seeds: set<nat>, needed: set<nat>, used: seq<bool>) {
    && |used| == |stmts| && seeds <= needed
    && (forall i: nat {:trigger UsedAt(stmts, used, needed, i)} :: i < |stmts| ==> UsedAt(stmts, used, needed, i))
    && (forall other: set<nat> {:trigger ClosedUnder(stmts, seeds, other)} :: ClosedUnder(stmts, seeds, other) ==> needed <= other)
  }

  lemma {:induction false} GrowOne(stmts: seq<Stmt>, seeds: set<nat>, needed: set<nat>, used: seq<bool>, i: nat)
    requires Growing(stmts, seeds, needed, used) && i < |stmts| && !used[i] && stmts[i].name in needed
    ensures Growing(stmts, seeds, needed + Wants(stmts[i]), used[i := true])
    ensures Unused(used[i := true]) < Unused(used)
  {
    UseOne(used, i);
    var more, used' := needed + Wants(stmts[i]), used[i := true];
    forall k: nat | k < |stmts|
      ensures UsedAt(stmts, used', more, k)
    {
      assert UsedAt(stmts, used, needed, k);
    }
    forall other: set<nat> | ClosedUnder(stmts, seeds, other)
      ensures more <= other
    {
      assert WantsWithin(stmts, other, i);
    }
  }

  /** Nothing left to use: the needed set is the least closed one, and exactly its statements are used. */
  ghost predicate Sliced(stmts: seq<Stmt>, seeds: set<nat>, needed: set<nat>, used: seq<bool>) {
    && |used| == |stmts| && ClosedUnder(stmts, seeds, needed)
    && (forall other: set<nat> {:trigger ClosedUnder(stmts, seeds, other)} :: ClosedUnder(stmts, seeds, other) ==> needed <= other)
    && (forall i: nat :: i < |stmts| ==> (used[i] <==> stmts[i].name in needed))
  }

  lemma {:induction false} GrownIsSliced(stmts: seq<Stmt>, seeds: set<nat>, needed: set<nat>, used: seq<bool>)
    requires Growing(stmts, seeds, needed, used)
    requires forall i: nat :: i < |stmts| && stmts[i].name in needed ==> used[i]
    ensures Sliced(stmts, seeds, needed, used)
  {
    forall i: nat | i < |stmts|
      ensures WantsWithin(stmts, needed, i) && (used[i] ==> stmts[i].name in needed)
    {
      assert UsedAt(stmts, used, needed, i);
    }
  }

  /** The sweep over the program: using a statement may make later and earlier ones needed. */
  method Sweep(stmts: seq<Stmt>, ghost seeds: set<nat>, needed0: set<nat>, used0: seq<bool>)
      returns (needed: set<nat>, used: seq<bool>, grown: bool)
    requires Growing(stmts, seeds, needed0, used0)
    ensures Growing(stmts, seeds, needed, used)
    ensures Unused(used) <= Unused(used0)
    ensures if grown then Unused(used) < Unused(used0) else Sliced(stmts, seeds, needed, used)
  {
    needed, used, grown := needed0, used0, false;
    for i := 0 to |stmts|
      invariant Growing(stmts, seeds, needed, used) && Unused(used) <= Unused(used0)
      invariant grown ==> Unused(used) < Unused(used0)
      invariant !grown ==> needed == needed0 && forall k :: 0 <= k < i && stmts[k].name in needed ==> used[k]
    {
      if used[i] || stmts[i].name !in needed {
        continue;
      }
      GrowOne(stmts, seeds, needed, used, i);
      used, grown := used[i := true], true;
      needed := needed + Wants(stmts[i]);
    }
    if !grown { GrownIsSliced(stmts, seeds, needed, used); }
  }

  /** The closure loop of `loadConf`: it ends, at the least fixpoint. */
  method Slice(stmts: seq<Stmt>, seeds: set<nat>) returns (needed: set<nat>, used: seq<bool>)
    ensures Sliced(stmts, seeds, needed, used)
  {
    needed, used := seeds, seq(|stmts|, _ => false);
    var grown := true;
    while grown
      invariant Growing(stmts, seeds, needed, used)
      invariant !grown ==> Sliced(stmts, seeds, needed, used)
      decreases Unused(used), grown
    {
      needed, used, grown := Sweep(stmts, seeds, needed, used);
    }
  }

  // ------------------------------------------------------------ running the program

  /** One statement of a pass; `None` is a thrown condition. */
  function Step(names: Names, env: Env, s: Stmt, conditional: bool): Option<Env>
    requires ChainOk(s.chain)
  {
    if (s.chain != []) != conditional then Some(env)
    else if !conditional then Some(Apply(names, env, s, false))
    else
      match ChainHolds(names, s.chain, env)
      case None => None
      case Some(b) => Some(if b then Apply(names, env, s, true) else env)
  }

  /** A pass over the statements selected by `used`, from `k` on. */
  function Pass(names: Names, stmts: seq<Stmt>, used: seq<bool>, conditional: bool, env: Env, k: nat): Option<Env>
    requires ProgramOk(stmts) && |used| == |stmts| && k <= |stmts|
    decreases |stmts| - k
  {
    if k == |stmts| then Some(env)
    else if !used[k] then Pass(names, stmts, used, conditional, env, k + 1)
    else
      match Step(names, env, stmts[k], conditional)
      case None => None
      case Some(next) => Pass(names, stmts, used, conditional, next, k + 1)
  }

  /** The unconditional pass, then the conditional one. */
  function Run(names: Names, stmts: seq<Stmt>, used: seq<bool>, env: Env): Option<Env>
    requires ProgramOk(stmts) && |used| == |stmts|
  {
    match Pass(names, stmts, used, false, env, 0)
    case None => None
    case Some(mid) => Pass(names, stmts, used, true, mid, 0)
  }

  function Everything(stmts: seq<Stmt>): seq<bool> {
    seq(|stmts|, _ => true)
  }

  /** The variables that some statement assigns and that are not needed: what the slice leaves behind. */
  function Dropped(stmts: seq<Stmt>, needed: set<nat>): set<nat> {
    set i | 0 <= i < |stmts| && stmts[i].name !in needed :: stmts[i].name
  }

  /** The same binding for every variable outside `off`. */
  ghost predicate AgreeOff(a: Env, b: Env, off: set<nat>) {
    forall v {:trigger Lookup(a, v)} :: v !in off ==> Lookup(a, v) == Lookup(b, v)
  }

  /** A literal of the condition that is expanded as a truth value mentions nothing in `off`. */
  ghost predicate LiteralOff(names: Names, cond: seq<Node>, off: set<nat>, i: nat)
    requires i < |cond|
  {
    Dollar(cond[i]) && InTruth(cond, i) ==> names.mentions(cond[i].text) !! off
  }

  ghost predicate CondOff(names: Names, cond: seq<Node>, off: set<nat>) {
    forall i: nat {:trigger LiteralOff(names, cond, off, i)} :: i < |cond| ==> LiteralOff(names, cond, off, i)
  }

  ghost predicate ChainOff(names: Names, chain: seq<Link>, off: set<nat>) {
    forall k :: 0 <= k < |chain| ==> CondOff(names, chain[k].cond, off)
  }

  /** No expanded literal of a used statement mentions a variable that the slice leaves behind. */
  ghost predicate LiteralsOff(names: Names, stmts: seq<Stmt>, used: seq<bool>, off: set<nat>) {
    |used| == |stmts| && forall i :: 0 <= i < |stmts| && used[i] ==> ChainOff(names, stmts[i].chain, off)
  }

  lemma {:induction false} ReadsAgree(names: Names, chain: seq<Link>, a: Env, b: Env, off: set<nat>)
    requires Local(names) && AgreeOff(a, b, off) && ChainVars(chain) !! off && ChainOff(names, chain, off)
    ensures SameChain(names, chain, a, b)
  {
    forall k: nat | k < |chain|
      ensures SameLink(names, chain, a, b, k)
    {
      var cond := chain[k].cond;
      forall i: nat | i < |cond|
        ensures SameRead(names, cond, a, b, i)
      {
        if cond[i].Ident? {
          ChainVarsCover(chain, k, i);
          assert Lookup(a, cond[i].v) == Lookup(b, cond[i].v);
        }
        if Dollar(cond[i]) && InTruth(cond, i) {
          assert CondOff(names, cond, off) && LiteralOff(names, cond, off, i);
          assert LocalAt(names, cond[i].text, a, b);
        }
      }
    }
  }

  lemma {:induction false} ApplyAgrees(names: Names, a: Env, b: Env, s: Stmt, conditional: bool, off: set<nat>)
    requires AgreeOff(a, b, off) && s.name !in off
    ensures AgreeOff(Apply(names, a, s, conditional), Apply(names, b, s, conditional), off)
  {
    forall v | v !in off
      ensures Lookup(Apply(names, a, s, conditional), v) == Lookup(Apply(names, b, s, conditional), v)
    {
      ApplyIsLocal(names, a, s, conditional, v);
      ApplyIsLocal(names, b, s, conditional, v);
      assert Lookup(a, v) == Lookup(b, v);
    }
  }

  lemma {:induction false} StepAgrees(names: Names, a: Env, b: Env, s: Stmt, conditional: bool, off: set<nat>)
    requires Local(names) && AgreeOff(a, b, off) && s.name !in off && Wants(s) !! off && ChainOk(s.chain) && ChainOff(names, s.chain, off)
    ensures Step(names, a, s, conditional).None? == Step(names, b, s, conditional).None?
    ensures Step(names, a, s, conditional).Some? ==>
              AgreeOff(Step(names, a, s, conditional).value, Step(names, b, s, conditional).value, off)
  {
    ReadsAgree(names, s.chain, a, b, off);
    ChainAgrees(names, s.chain, a, b);
    ApplyAgrees(names, a, b, s, conditional, off);
  }

  /** A statement for a variable that is left behind changes nothing else. */
  lemma {:induction false} StepElsewhere(names: Names, a: Env, b: Env, s: Stmt, conditional: bool, off: set<nat>)
    requires AgreeOff(a, b, off) && s.name in off && ChainOk(s.chain) && Step(names, a, s, conditional).Some?
    ensures AgreeOff(Step(names, a, s, conditional).value, b, off)
  {
    forall v | v !in off
      ensures Lookup(Step(names, a, s, conditional).value, v) == Lookup(b, v)
    {
      ApplyIsLocal(names, a, s, conditional, v);
      assert Lookup(a, v) == Lookup(b, v);
    }
  }

  /** One pass: running everything from `a` and the slice from `b` keeps all that is not left behind alike. */
  lemma {:induction false} PassAgrees(names: Names, stmts: seq<Stmt>, seeds: set<nat>, needed: set<nat>, used: seq<bool>,
                                      conditional: bool, a: Env, b: Env, k: nat)
    requires Local(names) && ProgramOk(stmts) && Sliced(stmts, seeds, needed, used)
    requires LiteralsOff(names, stmts, used, Dropped(stmts, needed))
    requires k <= |stmts| && AgreeOff(a, b, Dropped(stmts, needed))
    requires Pass(names, stmts, Everything(stmts), conditional, a, k).Some?
    ensures var full, cut := Pass(names, stmts, Everything(stmts), conditional, a, k), Pass(names, stmts, used, conditional, b, k);
            cut.Some? && AgreeOff(full.value, cut.value, Dropped(stmts, needed))
    decreases |stmts| - k
  {
    if k < |stmts| {
      var off := Dropped(stmts, needed);
      var a' := Step(names, a, stmts[k], conditional).value;
      if used[k] {
        assert WantsWithin(stmts, needed, k);
        StepAgrees(names, a, b, stmts[k], conditional, off);
        PassAgrees(names, stmts, seeds, needed, used, conditional, a', Step(names, b, stmts[k], conditional).value, k + 1);
      } else {
        StepElsewhere(names, a, b, stmts[k], conditional, off);
        PassAgrees(names, stmts, seeds, needed, used, conditional, a', b, k + 1);
      }
    }
  }

  /**
   * The slice keeps the meaning: whenever the whole program runs from `env`
   * without a thrown condition, so does the slice, and every variable that some
   * needed statement or no statement at all assigns ends up with the same binding.
   */
  lemma {:induction false} SliceMeansTheSame(names: Names, stmts: seq<Stmt>, seeds: set<nat>, needed: set<nat>, used: seq<bool>, env: Env)
    requires Local(names) && ProgramOk(stmts) && Sliced(stmts, seeds, needed, used)
    requires LiteralsOff(names, stmts, used, Dropped(stmts, needed))
    requires Run(names, stmts, Everything(stmts), env).Some?
    ensures Run(names, stmts, used, env).Some?
    ensures AgreeOff(Run(names, stmts, Everything(stmts), env).value, Run(names, stmts, used, env).value, Dropped(stmts, needed))
    ensures AgreeOn(Run(names, stmts, Everything(stmts), env).value, Run(names, stmts, used, env).value, needed)
  {
    PassAgrees(names, stmts, seeds, needed, used, false, env, env, 0);
    var a, b := Pass(names, stmts, Everything(stmts), false, env, 0).value, Pass(names, stmts, used, false, env, 0).value;
    PassAgrees(names, stmts, seeds, needed, used, true, a, b, 0);
    AgreeNeeded(Run(names, stmts, Everything(stmts), env).value, Run(names, stmts, used, env).value, stmts, needed);
  }

  lemma {:induction false} AgreeNeeded(a: Env, b: Env, stmts: seq<Stmt>, needed: set<nat>)
    requires AgreeOff(a, b, Dropped(stmts, needed))
    ensures AgreeOn(a, b, needed)
  {
    forall v | v in needed
      ensures Lookup(a, v) == Lookup(b, v)
    {
      assert v !in Dropped(stmts, needed);
    }
  }

  /** And it binds nothing else. */
  lemma {:induction false} PassStaysInside(names: Names, stmts: seq<Stmt>, seeds: set<nat>, needed: set<nat>, used: seq<bool>,
                                           conditional: bool, env: Env, k: nat, v: nat)
    requires ProgramOk(stmts) && Sliced(stmts, seeds, needed, used) && k <= |stmts| && v !in needed
    requires Pass(names, stmts, used, conditional, env, k).Some?
    ensures Lookup(Pass(names, stmts, used, conditional, env, k).value, v) == Lookup(env, v)
    decreases |stmts| - k
  {
    if k < |stmts| {
      if used[k] {
        ApplyIsLocal(names, env, stmts[k], conditional, v);
        PassStaysInside(names, stmts, seeds, needed, used, conditional, Step(names, env, stmts[k], conditional).value, k + 1, v);
      } else {
        PassStaysInside(names, stmts, seeds, needed, used, conditional, env, k + 1, v);
      }
    }
  }

  // ------------------------------------------------------------ what texts mention

  ghost predicate JoinKnown(names: Names, x: string, y: string) {
    names.mentions(names.text(names.bind(x + " " + y))) <= names.mentions(x) + names.mentions(y)
  }

  ghost predicate CutKnown(names: Names, x: string, y: string) {
    names.mentions(names.text(names.bind(Without(x, y)))) <= names.mentions(x)
  }

  /** `refs` has what the statement's text mentions, and excluding that text from another makes no new reference. */
  ghost predicate StmtKnown(names: Names, s: Stmt) {
    && names.mentions(names.text(s.scalar)) <= Elems(s.refs) && names.mentions(s.text) <= Elems(s.refs)
    && (s.op == Exclude ==> forall x {:trigger CutKnown(names, x, s.text)} :: CutKnown(names, x, s.text))
  }

  /** So it is for every statement of a needed variable, and joining two texts by a space makes no new reference. */
  ghost predicate TextsKnown(names: Names, stmts: seq<Stmt>, needed: set<nat>) {
    && names.mentions("") == {} && (forall x, y {:trigger JoinKnown(names, x, y)} :: JoinKnown(names, x, y))
    && forall i :: 0 <= i < |stmts| && stmts[i].name in needed ==> StmtKnown(names, stmts[i])
  }

  lemma {:induction false} AppliedWithin(names: Names, was: Option<Binding>, s: Stmt, conditional: bool, vars: set<nat>)
    requires names.mentions(TextOf(names, was)) <= vars && StmtKnown(names, s) && Elems(s.refs) <= vars
    requires forall x, y {:trigger JoinKnown(names, x, y)} :: JoinKnown(names, x, y)
    ensures names.mentions(TextOf(names, Applied(names, was, s, conditional))) <= vars
  {
    match s.op
    case Append => assert JoinKnown(names, TextOf(names, was), s.text);
    case Exclude => assert CutKnown(names, TextOf(names, was), s.text);
    case _ =>
  }

  /** Every statement of the program keeps the texts of the needed variables within them. */
  lemma {:induction false} StepWithin(names: Names, stmts: seq<Stmt>, seeds: set<nat>, needed: set<nat>, used: seq<bool>,
                                      env: Env, conditional: bool, k: nat)
    requires Sliced(stmts, seeds, needed, used) && TextsKnown(names, stmts, needed) && k < |stmts| && ChainOk(stmts[k].chain)
    requires Within(names, env, needed)
    requires Step(names, env, stmts[k], conditional).Some?
    ensures Within(names, Step(names, env, stmts[k], conditional).value, needed)
  {
    var s := stmts[k];
    assert WantsWithin(stmts, needed, k);
    forall v | v in needed
      ensures names.mentions(TextOf(names, Lookup(Step(names, env, s, conditional).value, v))) <= needed
    {
      assert names.mentions(TextOf(names, Lookup(env, v))) <= needed;
      ApplyIsLocal(names, env, s, conditional, v);
      if v == s.name { AppliedWithin(names, Lookup(env, v), s, conditional, needed); }
    }
  }

  lemma {:induction false} PassWithin(names: Names, stmts: seq<Stmt>, seeds: set<nat>, needed: set<nat>, used: seq<bool>,
                                      conditional: bool, env: Env, k: nat)
    requires ProgramOk(stmts) && Sliced(stmts, seeds, needed, used) && TextsKnown(names, stmts, needed) && k <= |stmts|
    requires Within(names, env, needed)
    requires Pass(names, stmts, Everything(stmts), conditional, env, k).Some?
    ensures Within(names, Pass(names, stmts, Everything(stmts), conditional, env, k).value, needed)
    decreases |stmts| - k
  {
    if k < |stmts| {
      StepWithin(names, stmts, seeds, needed, used, env, conditional, k);
      PassWithin(names, stmts, seeds, needed, used, conditional, Step(names, env, stmts[k], conditional).value, k + 1);
    }
  }

  /** What the text of a needed variable's statement refers to is needed. */
  lemma {:induction false} RefsAreNeeded(stmts: seq<Stmt>, seeds: set<nat>, needed: set<nat>, used: seq<bool>, i: nat, v: nat)
    requires Sliced(stmts, seeds, needed, used) && i < |stmts| && stmts[i].name in needed && v in stmts[i].refs
    ensures v in needed
  {
    assert WantsWithin(stmts, needed, i);
    assert v in Wants(stmts[i]);
  }

  /**
   * So needed variables can be expanded in what the slice binds: their texts mention
   * needed variables only, and expand as they do in what the whole program binds.
   */
  lemma {:induction false} SliceExpandsTheSame(names: Names, stmts: seq<Stmt>, seeds: set<nat>, needed: set<nat>, used: seq<bool>,
                                               env: Env, v: nat)
    requires ProgramOk(stmts) && Sliced(stmts, seeds, needed, used) && Substitutes(names) && TextsKnown(names, stmts, needed)
    requires (forall x :: x in needed ==> x !in env) && v in needed
    requires Run(names, stmts, Everything(stmts), env).Some? && Run(names, stmts, used, env).Some?
    requires AgreeOn(Run(names, stmts, Everything(stmts), env).value, Run(names, stmts, used, env).value, needed)
    ensures var full, cut := Run(names, stmts, Everything(stmts), env).value, Run(names, stmts, used, env).value;
            && names.mentions(TextOf(names, Lookup(full, v))) <= needed
            && Expanded(names, TextOf(names, Lookup(cut, v)), cut, 1) == Expanded(names, TextOf(names, Lookup(full, v)), full, 1)
  {
    var full, cut := Run(names, stmts, Everything(stmts), env).value, Run(names, stmts, used, env).value;
    assert Within(names, env, needed);
    PassWithin(names, stmts, seeds, needed, used, false, env, 0);
    PassWithin(names, stmts, seeds, needed, used, true, Pass(names, stmts, Everything(stmts), false, env, 0).value, 0);
    assert Lookup(full, v) == Lookup(cut, v);
    ExpandedAgrees(names, TextOf(names, Lookup(full, v)), full, cut, needed, 1);
  }

  method RunPass(names: Names, stmts: seq<Stmt>, used: seq<bool>, conditional: bool, env: Env) returns (r: Option<Env>)
    requires ProgramOk(stmts) && |used| == |stmts|
    ensures r == Pass(names, stmts, used, conditional, env, 0)
  {
    var now := env;
    for k := 0 to |stmts|
      invariant Pass(names, stmts, used, conditional, env, 0) == Pass(names, stmts, used, conditional, now, k)
    {
      if used[k] {
        var next := Step(names, now, stmts[k], conditional);
        if next.None? {
          return None;
        }
        now := next.value;
      }
    }
    r := Some(now);
  }

  /**
   * The selected part of `loadConf`: slice, unbind what is needed, run the two
   * passes. Every needed variable gets what the whole program would give it
   * from the same start, and its text expands to what it would expand to there.
   */
  method LoadSelected(names: Names, stmts: seq<Stmt>, seeds: set<nat>, platform: Env)
      returns (needed: set<nat>, ghost used: seq<bool>, r: Option<Env>)
    requires ProgramOk(stmts)
    ensures Sliced(stmts, seeds, needed, used)
    ensures Local(names) && LiteralsOff(names, stmts, used, Dropped(stmts, needed))
            && Run(names, stmts, Everything(stmts), platform - needed).Some? ==>
              r.Some? && AgreeOn(Run(names, stmts, Everything(stmts), platform - needed).value, r.value, needed)
    ensures Local(names) && LiteralsOff(names, stmts, used, Dropped(stmts, needed)) && Substitutes(names) && TextsKnown(names, stmts, needed)
            && Run(names, stmts, Everything(stmts), platform - needed).Some? ==>
              var full := Run(names, stmts, Everything(stmts), platform - needed).value;
              r.Some? && forall v :: v in needed ==>
                Expanded(names, TextOf(names, Lookup(r.value, v)), r.value, 1) == Expanded(names, TextOf(names, Lookup(full, v)), full, 1)
    ensures r.Some? ==> forall v {:trigger Lookup(platform, v)} :: v !in needed ==> Lookup(r.value, v) == Lookup(platform, v)
  {
    var selected;
    needed, selected := Slice(stmts, seeds);
    used := selected;
    var start := platform - needed;
    r := RunPass(names, stmts, selected, false, start);
    if r.Some? {
      var mid := r.value;
      r := RunPass(names, stmts, selected, true, mid);
      if r.Some? {
        forall v | v !in needed
          ensures Lookup(r.value, v) == Lookup(platform, v)
        {
          PassStaysInside(names, stmts, seeds, needed, used, false, start, 0, v);
          PassStaysInside(names, stmts, seeds, needed, used, true, mid, 0, v);
        }
      }
    }
    if Local(names) && LiteralsOff(names, stmts, used, Dropped(stmts, needed)) && Run(names, stmts, Everything(stmts), start).Some? {
      SliceMeansTheSame(names, stmts, seeds, needed, used, start);
      if Substitutes(names) && TextsKnown(names, stmts, needed) {
        var full := Run(names, stmts, Everything(stmts), start).value;
        forall v | v in needed
          ensures Expanded(names, TextOf(names, Lookup(r.value, v)), r.value, 1) == Expanded(names, TextOf(names, Lookup(full, v)), full, 1)
        {
          SliceExpandsTheSame(names, stmts, seeds, needed, used, start, v);
        }
      }
    }
  }

  // ------------------------------------------------------------ why literals matter

  const LITERAL: string := "${X}"

  /** A program that sets variable 2, called X, always, and variable 1 when the literal `"${X}"` is true. */
  function LiteralProgram(b: Binding): seq<Stmt> {
    [Stmt(2, Set, "x", b, [], []), Stmt(1, Set, "x", b, [], [Link(true, [Lit(LITERAL)])])]
  }

  /** The literal expands to the text of X, which is true when X is bound to `b` and false when it is not bound. */
  ghost predicate ExpandsToX(names: Names, b: Binding) {
    && (forall env: Env :: names.expand(LITERAL, env) == TextOf(names, Lookup(env, 2)))
    && names.truthy(names.text(b)) && !names.truthy("")
  }

  lemma {:induction false} ChainOnLiteral(names: Names, b: Binding, env: Env)
    requires ExpandsToX(names, b) && (2 in env ==> env[2] == b)
    ensures ChainOk([Link(true, [Lit(LITERAL)])]) && ChainHolds(names, [Link(true, [Lit(LITERAL)])], env) == Some(2 in env)
  {
    var chain := [Link(true, [Lit(LITERAL)])];
    assert chain[0].cond == [Lit(LITERAL)] && CondOk(chain[0].cond);
    assert LITERAL[0] == '$';
    assert names.expand(LITERAL, env) == TextOf(names, Lookup(env, 2));
    assert Eval(names, chain[0].cond, 0, env) == Some(2 in env);
    assert ChainHolds(names, chain[1..], env) == Some(true);
  }

  lemma {:induction false} LiteralPass(names: Names, b: Binding, used: seq<bool>, conditional: bool, env: Env)
    requires |used| == 2 && ExpandsToX(names, b) && (2 in env ==> env[2] == b)
    ensures ProgramOk(LiteralProgram(b))
    ensures Pass(names, LiteralProgram(b), used, conditional, env, 0) ==
            if !conditional then Some(if used[0] then env[2 := b] else env)
            else Some(if used[1] && 2 in env then env[1 := b] else env)
  {
    var p := LiteralProgram(b);
    assert p[1].chain[0].cond == [Lit(LITERAL)];
    var env' := if used[0] && !conditional then env[2 := b] else env;
    ChainOnLiteral(names, b, env');
    assert used[0] ==> Step(names, env, p[0], conditional) == Some(env');
    var env'' := if used[1] && conditional && 2 in env' then env'[1 := b] else env';
    assert Pass(names, p, used, conditional, env'', 2) == Some(env'');
    assert used[1] ==> Step(names, env', p[1], conditional) == Some(env'');
    assert Pass(names, p, used, conditional, env', 1) == Some(env'');
  }

  /** With the literal as a condition the slice differs: X is read, is assigned, and is not needed. */
  lemma {:induction false} LiteralBreaksSlice(names: Names, b: Binding, used: seq<bool>, needed: set<nat>)
    requires Sliced(LiteralProgram(b), {1}, needed, used) && ExpandsToX(names, b)
    ensures ProgramOk(LiteralProgram(b)) && needed == {1} && Dropped(LiteralProgram(b), needed) == {2}
    ensures Run(names, LiteralProgram(b), Everything(LiteralProgram(b)), map[]) == Some(map[2 := b, 1 := b])
    ensures Run(names, LiteralProgram(b), used, map[]) == Some(map[])
  {
    var p := LiteralProgram(b);
    var chain := p[1].chain;
    assert chain[0].cond == [Lit(LITERAL)] && CondVars(chain[0].cond) == {} && chain[1..] == [];
    assert ChainVars(chain[1..]) == {} && ChainVars(chain) == {} && ChainVars(p[0].chain) == {};
    assert Elems(p[0].refs) == {} && Elems(p[1].refs) == {};
    assert Wants(p[1]) == {} && Wants(p[0]) == {};
    forall i: nat | i < |p| ensures WantsWithin(p, {1}, i) {}
    assert ClosedUnder(p, {1}, {1});
    assert p[0].name == 2 && p[1].name == 1;
    assert used == [false, true] && Everything(p) == [true, true];
    LiteralRuns(names, b);
  }

  lemma {:induction false} LiteralRuns(names: Names, b: Binding)
    requires ExpandsToX(names, b)
    ensures ProgramOk(LiteralProgram(b))
    ensures Run(names, LiteralProgram(b), [true, true], map[]) == Some(map[2 := b, 1 := b])
    ensures Run(names, LiteralProgram(b), [false, true], map[]) == Some(map[])
  {
    var none: Env := map[];
    LiteralPass(names, b, [true, true], false, none);
    LiteralPass(names, b, [true, true], true, none[2 := b]);
    LiteralPass(names, b, [false, true], false, none);
    LiteralPass(names, b, [false, true], true, none);
  }
}
