/** Configuration variables, statements and the conditions that guard them (conf.go, macros.go, env.go). */
module ConfConditions {
  import opened Prelude

  /** One more than the largest id. */
  const IDS: nat := 0x1_0000_0000
  type Id = x: nat | x < 0x1_0000_0000

  /** The interned empty string; id 0 stands for no string at all. */
  const EMPTY: Id := 1

  datatype Kind = Str | Int | Vfs
  datatype Binding = Binding(kind: Kind, id: Id)
  type Env = map<nat, Binding>

  /**
   * What interning, text lookup, the expansion of a condition's literal and one
   * round of variable substitution do; only that they are functions matters.
   * `mentions` bounds the variables that a text refers to.
   */
  datatype Names = Names(
    text: Binding -> string,
    bind: string -> Binding,
    truthy: string -> bool,
    expand: (string, Env) -> string,
    subst: (string, Env) -> string,
    mentions: string -> set<nat>)

  function Lookup(env: Env, v: nat): Option<Binding> {
    if v in env then Some(env[v]) else None
  }

  /** The same binding for every variable in `vars`. */
  ghost predicate AgreeOn(a: Env, b: Env, vars: set<nat>) {
    forall v {:trigger Lookup(a, v)} :: v in vars ==> Lookup(a, v) == Lookup(b, v)
  }

  ghost predicate LocalAt(names: Names, text: string, a: Env, b: Env) {
    AgreeOn(a, b, names.mentions(text)) ==> names.expand(text, a) == names.expand(text, b)
  }

  /** Expanding a text reads what it mentions and nothing else. */
  ghost predicate Local(names: Names) {
    forall text, a: Env, b: Env {:trigger LocalAt(names, text, a, b)} :: LocalAt(names, text, a, b)
  }

  function TextOf(names: Names, b: Option<Binding>): string {
    match b
    case None => ""
    case Some(x) => names.text(x)
  }

  /** `env.is(v, strEmpty)`. */
  function IsEmpty(b: Option<Binding>): bool {
    match b
    case None => true
    case Some(x) => x.kind != Vfs && (x.id == 0 || x.id == EMPTY)
  }

  datatype Node =
    | Ident(v: nat)
    | Lit(text: string)
    | Num(n: int)
    | Not(l: nat)
    | And(l: nat, r: nat)
    | Or(l: nat, r: nat)
    | Eq(l: nat, r: nat)
    | Lt(l: nat, r: nat)

  /** A parsed condition: operands come before their operators, the root is last; the empty list is always true. */
  ghost predicate NodeOk(nodes: seq<Node>, i: nat)
    requires i < |nodes|
  {
    match nodes[i]
    case Not(l) => l < i
    case And(l, r) => l < i && r < i
    case Or(l, r) => l < i && r < i
    case Eq(l, r) => l < i && r < i
    case Lt(l, r) => l < i && r < i
    case _ => true
  }

  ghost predicate CondOk(nodes: seq<Node>) {
    forall i: nat {:trigger NodeOk(nodes, i)} :: i < |nodes| ==> NodeOk(nodes, i)
  }

  /** Byte-wise order of strings. */
  function Less(a: string, b: string): bool
    decreases |a|
  {
    b != "" && (a == "" || a[0] < b[0] || (a[0] == b[0] && Less(a[1..], b[1..])))
  }

  predicate IsText(node: Node) {
    node.Ident? || node.Lit?
  }

  function Atom(names: Names, node: Node, env: Env): string {
    match node
    case Ident(v) => TextOf(names, Lookup(env, v))
    case Lit(text) => text
    case _ => ""
  }

  /** `evalCondAt`; `None` is the thrown bare integer. */
  function Eval(names: Names, nodes: seq<Node>, i: nat, env: Env): Option<bool>
    requires CondOk(nodes) && i < |nodes|
    decreases i, 0
  {
    assert NodeOk(nodes, i);
    match nodes[i]
    case Ident(v) => Some(!IsEmpty(Lookup(env, v)))
    case Lit(text) => Some(names.truthy(if '$' in text then names.expand(text, env) else text))
    case Num(_) => None
    case Not(l) =>
      (match Eval(names, nodes, l, env)
       case None => None
       case Some(b) => Some(!b))
    case And(l, r) =>
      (match Eval(names, nodes, l, env)
       case None => None
       case Some(b) => if b then Eval(names, nodes, r, env) else Some(false))
    case Or(l, r) =>
      (match Eval(names, nodes, l, env)
       case None => None
       case Some(b) => if b then Some(true) else Eval(names, nodes, r, env))
    case Eq(l, r) =>
      if IsText(nodes[l]) && IsText(nodes[r]) then Some(Atom(names, nodes[l], env) == Atom(names, nodes[r], env))
      else
        var a, b := Number(names, nodes, l, env), Number(names, nodes, r, env);
        if a.None? || b.None? then None else Some(a.value == b.value)
    case Lt(l, r) =>
      if IsText(nodes[l]) && IsText(nodes[r]) then Some(Less(Atom(names, nodes[l], env), Atom(names, nodes[r], env)))
      else
        var a, b := Number(names, nodes, l, env), Number(names, nodes, r, env);
        if a.None? || b.None? then None else Some(a.value < b.value)
  }

  /** `confNumber`. */
  function Number(names: Names, nodes: seq<Node>, i: nat, env: Env): Option<int>
    requires CondOk(nodes) && i < |nodes|
    decreases i, 1
  {
    if nodes[i].Num? then Some(nodes[i].n)
    else if IsText(nodes[i]) then Some(if Atom(names, nodes[i], env) != "" then 1 else 0)
    else
      match Eval(names, nodes, i, env)
      case None => None
      case Some(b) => Some(if b then 1 else 0)
  }

  /** `condOperand`: node `i` is compared by some node. */
  predicate Operand(nodes: seq<Node>, i: nat) {
    exists k :: 0 <= k < |nodes| && (nodes[k].Eq? || nodes[k].Lt?) && (nodes[k].l == i || nodes[k].r == i)
  }

  predicate Dollar(node: Node) {
    node.Lit? && '$' in node.text
  }

  /** Node `k` takes the truth of node `i`. */
  predicate TakesTruth(nodes: seq<Node>, k: nat, i: nat)
    requires k < |nodes|
  {
    match nodes[k]
    case Not(l) => l == i
    case And(l, r) => l == i || r == i
    case Or(l, r) => l == i || r == i
    case _ => false
  }

  /** Node `i` is evaluated as a truth value: it is the root, or an operand of a logical operator. */
  ghost predicate InTruth(nodes: seq<Node>, i: nat) {
    i == |nodes| - 1 || exists k: nat {:trigger TakesTruth(nodes, k, i)} :: k < |nodes| && TakesTruth(nodes, k, i)
  }

  /**
   * Two environments look the same to a node: to an identifier exactly, or in
   * emptiness if it is used as a truth value; to a literal that is expanded, in
   * its expansion.
   */
  ghost predicate SameRead(names: Names, nodes: seq<Node>, a: Env, b: Env, i: nat)
    requires i < |nodes|
  {
    && (nodes[i].Ident? ==>
          && IsEmpty(Lookup(a, nodes[i].v)) == IsEmpty(Lookup(b, nodes[i].v))
          && (Operand(nodes, i) ==> Lookup(a, nodes[i].v) == Lookup(b, nodes[i].v)))
    && (Dollar(nodes[i]) && InTruth(nodes, i) ==> names.expand(nodes[i].text, a) == names.expand(nodes[i].text, b))
  }

  ghost predicate SameReads(names: Names, nodes: seq<Node>, a: Env, b: Env) {
    forall i: nat {:trigger SameRead(names, nodes, a, b, i)} :: i < |nodes| ==> SameRead(names, nodes, a, b, i)
  }

  lemma {:induction false} OperandAgrees(names: Names, nodes: seq<Node>, i: nat, k: nat, a: Env, b: Env)
    requires SameReads(names, nodes, a, b) && i < |nodes| && k < |nodes|
    requires (nodes[k].Eq? || nodes[k].Lt?) && (nodes[k].l == i || nodes[k].r == i)
    ensures Atom(names, nodes[i], a) == Atom(names, nodes[i], b)
  {
    assert Operand(nodes, i) && SameRead(names, nodes, a, b, i);
  }

  /** A condition depends only on its reads, and on the emptiness alone of the identifiers it does not compare. */
  lemma {:induction false} EvalAgrees(names: Names, nodes: seq<Node>, i: nat, a: Env, b: Env)
    requires CondOk(nodes) && i < |nodes| && SameReads(names, nodes, a, b)
    requires Dollar(nodes[i]) ==> InTruth(nodes, i)
    ensures Eval(names, nodes, i, a) == Eval(names, nodes, i, b)
    decreases i, 0
  {
    assert NodeOk(nodes, i) && SameRead(names, nodes, a, b, i);
    match nodes[i]
    case Not(l) => TruthAgrees(names, nodes, i, l, a, b);
    case And(l, r) =>
      TruthAgrees(names, nodes, i, l, a, b);
      TruthAgrees(names, nodes, i, r, a, b);
    case Or(l, r) =>
      TruthAgrees(names, nodes, i, l, a, b);
      TruthAgrees(names, nodes, i, r, a, b);
    case Eq(l, r) =>
      NumberAgrees(names, nodes, l, i, a, b);
      NumberAgrees(names, nodes, r, i, a, b);
    case Lt(l, r) =>
      NumberAgrees(names, nodes, l, i, a, b);
      NumberAgrees(names, nodes, r, i, a, b);
    case _ =>
  }

  lemma {:induction false} TruthAgrees(names: Names, nodes: seq<Node>, k: nat, i: nat, a: Env, b: Env)
    requires CondOk(nodes) && i < k < |nodes| && SameReads(names, nodes, a, b) && TakesTruth(nodes, k, i)
    ensures Eval(names, nodes, i, a) == Eval(names, nodes, i, b)
    decreases i, 1
  {
    EvalAgrees(names, nodes, i, a, b);
  }

  lemma {:induction false} NumberAgrees(names: Names, nodes: seq<Node>, i: nat, k: nat, a: Env, b: Env)
    requires CondOk(nodes) && i < k < |nodes| && SameReads(names, nodes, a, b)
    requires (nodes[k].Eq? || nodes[k].Lt?) && (nodes[k].l == i || nodes[k].r == i)
    ensures Atom(names, nodes[i], a) == Atom(names, nodes[i], b)
    ensures Number(names, nodes, i, a) == Number(names, nodes, i, b)
    decreases i, 1
  {
    OperandAgrees(names, nodes, i, k, a, b);
    if !nodes[i].Num? && !IsText(nodes[i]) { EvalAgrees(names, nodes, i, a, b); }
  }

  // ------------------------------------------------------------ chains and statements

  /** One link of a condition chain: the condition, and the truth it must have. */
  datatype Link = Link(want: bool, cond: seq<Node>)

  function CondHolds(names: Names, cond: seq<Node>, env: Env): Option<bool>
    requires CondOk(cond)
  {
    if cond == [] then Some(true) else Eval(names, cond, |cond| - 1, env)
  }

  ghost predicate ChainOk(chain: seq<Link>) {
    forall k :: 0 <= k < |chain| ==> CondOk(chain[k].cond)
  }

  /** `holds`: the first failing link decides, and later links are not looked at. */
  function ChainHolds(names: Names, chain: seq<Link>, env: Env): Option<bool>
    requires ChainOk(chain)
    decreases |chain|
  {
    if chain == [] then Some(true)
    else
      match CondHolds(names, chain[0].cond, env)
      case None => None
      case Some(b) => if b != chain[0].want then Some(false) else ChainHolds(names, chain[1..], env)
  }

  ghost predicate SameLink(names: Names, chain: seq<Link>, a: Env, b: Env, k: nat)
    requires k < |chain|
  {
    SameReads(names, chain[k].cond, a, b)
  }

  ghost predicate SameChain(names: Names, chain: seq<Link>, a: Env, b: Env) {
    forall k: nat {:trigger SameLink(names, chain, a, b, k)} :: k < |chain| ==> SameLink(names, chain, a, b, k)
  }

  lemma {:induction false} ChainAgrees(names: Names, chain: seq<Link>, a: Env, b: Env)
    requires ChainOk(chain) && SameChain(names, chain, a, b)
    ensures ChainHolds(names, chain, a) == ChainHolds(names, chain, b)
    decreases |chain|
  {
    if chain != [] {
      var rest := chain[1..];
      assert SameLink(names, chain, a, b, 0);
      var cond := chain[0].cond;
      if cond != [] { EvalAgrees(names, cond, |cond| - 1, a, b); }
      forall k: nat | k < |rest|
        ensures SameLink(names, rest, a, b, k)
      {
        var j := k + 1;
        assert SameLink(names, chain, a, b, j);
      }
      ChainAgrees(names, rest, a, b);
    }
  }

  datatype Op = Set | Append | Define | Exclude

  /** A statement; an empty chain is branch 0. `refs` are the variables its text refers to. */
  datatype Stmt = Stmt(name: nat, op: Op, text: string, scalar: Binding, refs: seq<nat>, chain: seq<Link>)

  predicate OccursAt(s: string, sub: string, k: nat) {
    k + |sub| <= |s| && s[k..k + |sub|] == sub
  }

  /** `strings.Index`, from `k` on. */
  function Index(s: string, sub: string, k: nat): (r: Option<nat>)
    requires k <= |s|
    ensures r.Some? ==> OccursAt(s, sub, r.value) && r.value >= k
    ensures r.None? ==> forall j: nat {:trigger OccursAt(s, sub, j)} :: k <= j ==> !OccursAt(s, sub, j)
    decreases |s| - k
  {
    if OccursAt(s, sub, k) then Some(k) else if k == |s| then None else Index(s, sub, k + 1)
  }

  /** The loop that excludes a piece of text until it is gone. */
  function Without(s: string, sub: string): (r: string)
    ensures sub != "" ==> Index(r, sub, 0).None?
    ensures sub == "" || Index(s, sub, 0).None? ==> r == s
    decreases |s|
  {
    if sub == "" || Index(s, sub, 0).None? then s
    else var k := Index(s, sub, 0).value; Without(s[..k] + s[k + |sub|..], sub)
  }

  /** What a statement makes of the binding of its variable. */
  function Applied(names: Names, was: Option<Binding>, s: Stmt, conditional: bool): Option<Binding> {
    match s.op
    case Set => Some(s.scalar)
    case Append => if TextOf(names, was) != "" then Some(names.bind(TextOf(names, was) + " " + s.text)) else Some(s.scalar)
    case Define => if was.None? then Some(s.scalar) else was
    case Exclude => if conditional then was else Some(names.bind(Without(TextOf(names, was), s.text)))
  }

  function WithBinding(env: Env, v: nat, b: Option<Binding>): Env {
    match b
    case None => env - {v}
    case Some(x) => env[v := x]
  }

  /** `applyConfStmt`. */
  function Apply(names: Names, env: Env, s: Stmt, conditional: bool): Env {
    WithBinding(env, s.name, Applied(names, Lookup(env, s.name), s, conditional))
  }

  /** Only the statement's own variable changes, and what it becomes depends on nothing else. */
  lemma {:induction false} ApplyIsLocal(names: Names, env: Env, s: Stmt, conditional: bool, v: nat)
    ensures Lookup(Apply(names, env, s, conditional), v) ==
            if v == s.name then Applied(names, Lookup(env, v), s, conditional) else Lookup(env, v)
  {
  }

  // ------------------------------------------------------------ expanding a variable's text

  /** The texts of the variables in `vars` mention only `vars`. */
  ghost predicate Within(names: Names, env: Env, vars: set<nat>) {
    forall v {:trigger Lookup(env, v)} :: v in vars ==> names.mentions(TextOf(names, Lookup(env, v))) <= vars
  }

  ghost predicate SubstAt(names: Names, text: string, a: Env, b: Env, vars: set<nat>) {
    names.mentions(text) <= vars && Within(names, a, vars) && AgreeOn(a, b, vars) ==>
      names.subst(text, a) == names.subst(text, b) && names.mentions(names.subst(text, a)) <= vars
  }

  /** One round of substitution reads what the text mentions, and what it leaves mentions only what those texts mention. */
  ghost predicate Substitutes(names: Names) {
    forall text, a: Env, b: Env, vars: set<nat> {:trigger SubstAt(names, text, a, b, vars)} :: SubstAt(names, text, a, b, vars)
  }

  /** How often a text is substituted before `substMacroDeeply` gives up. */
  const ROUNDS := 128

  /** `expandVariable`: substitute until nothing changes or no `$` is left; `None` is the thrown limit. */
  function Expanded(names: Names, text: string, env: Env, round: nat): Option<string>
    decreases ROUNDS - round
  {
    if '$' !in text then Some(text)
    else
      var next := names.subst(text, env);
      if next == text || '$' !in next then Some(next)
      else if round >= ROUNDS then None
      else Expanded(names, next, env, round + 1)
  }

  /** The text after `m` rounds of substitution. */
  function Substituted(names: Names, text: string, env: Env, m: nat): string
    decreases m
  {
    if m == 0 then text else Substituted(names, names.subst(text, env), env, m - 1)
  }

  /** Round `m` is not the last: it changed the text and left a `$`. */
  ghost predicate GoesOn(names: Names, text: string, env: Env, m: nat)
    requires m > 0
  {
    Substituted(names, text, env, m) != Substituted(names, text, env, m - 1) && '$' in Substituted(names, text, env, m)
  }

  /** Expanding is substituting until that changes nothing or leaves no `$`; it gives up exactly if 128 rounds are not enough. */
  lemma {:induction false} ExpandedMeans(names: Names, text: string, env: Env) returns (m: nat)
    ensures m <= 128 && ('$' !in text <==> m == 0) && forall k: nat :: 0 < k < m ==> GoesOn(names, text, env, k)
    ensures Expanded(names, text, env, 1) ==
            if m > 0 && GoesOn(names, text, env, m) then None else Some(Substituted(names, text, env, m))
    ensures m > 0 && GoesOn(names, text, env, m) ==> m == 128
  {
    m := RoundsFrom(names, text, env, 1);
  }

  lemma {:induction false} RoundsFrom(names: Names, text: string, env: Env, round: nat) returns (m: nat)
    requires 1 <= round <= ROUNDS
    ensures round + m <= ROUNDS + 1 && ('$' !in text <==> m == 0) && forall k: nat :: 0 < k < m ==> GoesOn(names, text, env, k)
    ensures Expanded(names, text, env, round) ==
            if m > 0 && GoesOn(names, text, env, m) then None else Some(Substituted(names, text, env, m))
    ensures m > 0 && GoesOn(names, text, env, m) ==> round + m == ROUNDS + 1
    decreases ROUNDS - round
  {
    if '$' !in text {
      return 0;
    }
    var next := names.subst(text, env);
    assert Substituted(names, text, env, 1) == Substituted(names, next, env, 0) == next;
    if next == text || '$' !in next || round == ROUNDS {
      return 1;
    }
    var rest := RoundsFrom(names, next, env, round + 1);
    m := rest + 1;
    forall k: nat | 0 < k <= m
      ensures k > 1 ==> GoesOn(names, text, env, k) == GoesOn(names, next, env, k - 1)
    {
    }
  }

  /** Environments that agree on a set of variables whose texts stay within it expand its texts alike. */
  lemma {:induction false} ExpandedAgrees(names: Names, text: string, a: Env, b: Env, vars: set<nat>, round: nat)
    requires Substitutes(names) && names.mentions(text) <= vars && Within(names, a, vars) && AgreeOn(a, b, vars)
    ensures Expanded(names, text, a, round) == Expanded(names, text, b, round)
    decreases ROUNDS - round
  {
    assert SubstAt(names, text, a, b, vars);
    if round < ROUNDS { ExpandedAgrees(names, names.subst(text, a), a, b, vars, round + 1); }
  }

  // ------------------------------------------------------------ what statements do to a text

  /** Interning keeps the text. */
  ghost predicate Faithful(names: Names) {
    forall s {:trigger names.bind(s)} :: names.text(names.bind(s)) == s
  }

  /** The binding after a list of statements for one variable. */
  function AppliedAll(names: Names, was: Option<Binding>, stmts: seq<Stmt>, conditional: bool): Option<Binding> {
    if stmts == [] then was
    else Applied(names, AppliedAll(names, was, stmts[..|stmts| - 1], conditional), stmts[|stmts| - 1], conditional)
  }

  /** Texts separated by single spaces. */
  function Spaced(texts: seq<string>): string {
    if texts == [] then "" else if |texts| == 1 then texts[0]
    else Spaced(texts[..|texts| - 1]) + " " + texts[|texts| - 1]
  }

  ghost function Texts(stmts: seq<Stmt>): seq<string> {
    seq(|stmts|, i requires 0 <= i < |stmts| => stmts[i].text)
  }

  ghost predicate Appends(names: Names, stmts: seq<Stmt>) {
    forall i :: 0 <= i < |stmts| ==> stmts[i].op == Append && stmts[i].text != "" && stmts[i].scalar == names.bind(stmts[i].text)
  }

  /** A text, unless it is empty. */
  function NonEmpty(text: string): seq<string> {
    if text == "" then [] else [text]
  }

  lemma {:induction false} SpacedSnoc(texts: seq<string>, text: string)
    ensures Spaced(texts + [text]) == if texts == [] then text else Spaced(texts) + " " + text
  {
    assert (texts + [text])[..|texts|] == texts;
  }

  lemma {:induction false} AppendOne(names: Names, was: Option<Binding>, s: Stmt, conditional: bool)
    requires Faithful(names) && s.op == Append && s.scalar == names.bind(s.text)
    ensures TextOf(names, Applied(names, was, s, conditional)) ==
            if TextOf(names, was) == "" then s.text else TextOf(names, was) + " " + s.text
  {
  }

  /** What the variable had, unless that was empty, and the texts. */
  ghost function Parts(names: Names, was: Option<Binding>, stmts: seq<Stmt>): seq<string> {
    NonEmpty(TextOf(names, was)) + Texts(stmts)
  }

  lemma {:induction false} PartsSnoc(names: Names, was: Option<Binding>, stmts: seq<Stmt>)
    requires stmts != []
    ensures Parts(names, was, stmts) == Parts(names, was, stmts[..|stmts| - 1]) + [stmts[|stmts| - 1].text]
  {
  }

  /** Appending spells out the texts in order, after whatever the variable had. */
  lemma {:induction false} AppendsSpellOut(names: Names, was: Option<Binding>, stmts: seq<Stmt>, conditional: bool)
    requires Faithful(names) && Appends(names, stmts)
    ensures TextOf(names, AppliedAll(names, was, stmts, conditional)) == Spaced(Parts(names, was, stmts))
    ensures Parts(names, was, stmts) != [] ==> Spaced(Parts(names, was, stmts)) != ""
  {
    if stmts == [] {
      assert Parts(names, was, stmts) == NonEmpty(TextOf(names, was));
    } else {
      var init, s := stmts[..|stmts| - 1], stmts[|stmts| - 1];
      AppendsSpellOut(names, was, init, conditional);
      AppendOne(names, AppliedAll(names, was, init, conditional), s, conditional);
      PartsSnoc(names, was, stmts);
      SpacedSnoc(Parts(names, was, init), s.text);
    }
  }

  /** A definition binds an unbound variable and leaves a bound one alone; an assignment always binds. */
  lemma {:induction false} DefineOnce(names: Names, env: Env, s: Stmt, later: Stmt, conditional: bool)
    requires s.op == Define && later.op == Define && later.name == s.name
    ensures Apply(names, Apply(names, env, s, conditional), later, conditional) == Apply(names, env, s, conditional)
    ensures Lookup(Apply(names, env, s, conditional), s.name) == if s.name in env then Some(env[s.name]) else Some(s.scalar)
    ensures Lookup(Apply(names, env, s.(op := Set), conditional), s.name) == Some(s.scalar)
  {
  }

  /** An unconditional exclusion leaves a text in which the excluded one does not occur; a conditional one changes nothing. */
  lemma {:induction false} ExclusionIsTotal(names: Names, was: Option<Binding>, s: Stmt, k: nat)
    requires Faithful(names) && s.op == Exclude && s.text != ""
    ensures !OccursAt(TextOf(names, Applied(names, was, s, false)), s.text, k)
    ensures Applied(names, was, s, true) == was
  {
    var r := Without(TextOf(names, was), s.text);
    assert Index(r, s.text, 0).None?;
  }
}
