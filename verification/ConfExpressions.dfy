/** Conditions as expressions: what a list of condition nodes means (macros.go, conf.go). */
module ConfExpressions {
  import opened Prelude
  import opened ConfConditions

  datatype Expr =
    | Variable(v: nat)
    | Literal(text: string)
    | Integer(n: int)
    | Negation(e: Expr)
    | Both(a: Expr, b: Expr)
    | Either(a: Expr, b: Expr)
    | Same(a: Expr, b: Expr)
    | Before(a: Expr, b: Expr)

  /** Node `i` and the nodes below it are the expression `e`. */
  ghost predicate Represents(nodes: seq<Node>, i: nat, e: Expr)
    decreases e
  {
    i < |nodes| &&
    match nodes[i]
    case Ident(v) => e == Variable(v)
    case Lit(text) => e == Literal(text)
    case Num(n) => e == Integer(n)
    case Not(l) => e.Negation? && Represents(nodes, l, e.e)
    case And(l, r) => e.Both? && Represents(nodes, l, e.a) && Represents(nodes, r, e.b)
    case Or(l, r) => e.Either? && Represents(nodes, l, e.a) && Represents(nodes, r, e.b)
    case Eq(l, r) => e.Same? && Represents(nodes, l, e.a) && Represents(nodes, r, e.b)
    case Lt(l, r) => e.Before? && Represents(nodes, l, e.a) && Represents(nodes, r, e.b)
  }

  /** Every node of a condition is an expression. */
  ghost function ExprAt(nodes: seq<Node>, i: nat): (e: Expr)
    requires CondOk(nodes) && i < |nodes|
    ensures Represents(nodes, i, e)
    decreases i
  {
    assert NodeOk(nodes, i);
    match nodes[i]
    case Ident(v) => Variable(v)
    case Lit(text) => Literal(text)
    case Num(n) => Integer(n)
    case Not(l) => Negation(ExprAt(nodes, l))
    case And(l, r) => Both(ExprAt(nodes, l), ExprAt(nodes, r))
    case Or(l, r) => Either(ExprAt(nodes, l), ExprAt(nodes, r))
    case Eq(l, r) => Same(ExprAt(nodes, l), ExprAt(nodes, r))
    case Lt(l, r) => Before(ExprAt(nodes, l), ExprAt(nodes, r))
  }

  predicate Textual(e: Expr) {
    e.Variable? || e.Literal?
  }

  /** A truth value: no bare integer where one is asked for. */
  ghost predicate Logical(e: Expr) {
    match e
    case Variable(_) => true
    case Literal(_) => true
    case Integer(_) => false
    case Negation(x) => Logical(x)
    case Both(a, b) => Logical(a) && Logical(b)
    case Either(a, b) => Logical(a) && Logical(b)
    case Same(a, b) => (a.Integer? || Logical(a)) && (b.Integer? || Logical(b))
    case Before(a, b) => (a.Integer? || Logical(a)) && (b.Integer? || Logical(b))
  }

  ghost function String(names: Names, e: Expr, env: Env): string {
    match e
    case Variable(v) => if v in env then names.text(env[v]) else ""
    case Literal(text) => text
    case _ => ""
  }

  /** What a logical expression means. Texts compare as texts; anything else as a number, a truth value being 0 or 1. */
  ghost function Holds(names: Names, e: Expr, env: Env): bool
    requires Logical(e)
    decreases e, 0
  {
    match e
    case Variable(v) => v in env && (env[v].kind == Vfs || env[v].id !in {0, EMPTY})
    case Literal(text) => names.truthy(if exists k :: 0 <= k < |text| && text[k] == '$' then names.expand(text, env) else text)
    case Negation(x) => !Holds(names, x, env)
    case Both(a, b) => Holds(names, a, env) && Holds(names, b, env)
    case Either(a, b) => Holds(names, a, env) || Holds(names, b, env)
    case Same(a, b) =>
      if Textual(a) && Textual(b) then String(names, a, env) == String(names, b, env) else Amount(names, a, env) == Amount(names, b, env)
    case Before(a, b) =>
      if Textual(a) && Textual(b) then Lexically(String(names, a, env), String(names, b, env))
      else Amount(names, a, env) < Amount(names, b, env)
  }

  ghost function Amount(names: Names, e: Expr, env: Env): int
    requires e.Integer? || Logical(e)
    decreases e, 1
  {
    if e.Integer? then e.n
    else if Textual(e) then (if String(names, e, env) == "" then 0 else 1)
    else if Holds(names, e, env) then 1 else 0
  }

  lemma {:induction false} LessMeans(a: string, b: string)
    ensures Less(a, b) <==> Lexically(a, b)
    decreases |a|
  {
    if a != "" && b != "" && a[0] == b[0] {
      LessMeans(a[1..], b[1..]);
      LexicallyTail(a, b);
    } else {
      LexicallyHead(a, b);
    }
  }

  lemma {:induction false} AtomMeans(names: Names, nodes: seq<Node>, i: nat, e: Expr, env: Env)
    requires Represents(nodes, i, e)
    ensures Atom(names, nodes[i], env) == String(names, e, env) && (IsText(nodes[i]) <==> Textual(e)) && (nodes[i].Num? <==> e.Integer?)
  {
  }

  /** Evaluating the nodes of a logical expression throws nothing and gives its meaning. */
  lemma {:induction false} EvalMeans(names: Names, nodes: seq<Node>, i: nat, e: Expr, env: Env)
    requires CondOk(nodes) && Represents(nodes, i, e) && Logical(e)
    ensures Eval(names, nodes, i, env) == Some(Holds(names, e, env))
    decreases e, 0
  {
    assert NodeOk(nodes, i);
    match e
    case Variable(v) =>
    case Literal(text) => assert '$' in text <==> exists k :: 0 <= k < |text| && text[k] == '$';
    case Negation(x) => EvalMeans(names, nodes, nodes[i].l, x, env);
    case Both(a, b) =>
      EvalMeans(names, nodes, nodes[i].l, a, env);
      EvalMeans(names, nodes, nodes[i].r, b, env);
    case Either(a, b) =>
      EvalMeans(names, nodes, nodes[i].l, a, env);
      EvalMeans(names, nodes, nodes[i].r, b, env);
    case Same(a, b) =>
      OperandMeans(names, nodes, nodes[i].l, a, env);
      OperandMeans(names, nodes, nodes[i].r, b, env);
    case Before(a, b) =>
      OperandMeans(names, nodes, nodes[i].l, a, env);
      OperandMeans(names, nodes, nodes[i].r, b, env);
      LessMeans(String(names, a, env), String(names, b, env));
  }

  lemma {:induction false} OperandMeans(names: Names, nodes: seq<Node>, i: nat, e: Expr, env: Env)
    requires CondOk(nodes) && Represents(nodes, i, e) && (e.Integer? || Logical(e))
    ensures Number(names, nodes, i, env) == Some(Amount(names, e, env))
    ensures Atom(names, nodes[i], env) == String(names, e, env) && (IsText(nodes[i]) <==> Textual(e))
    decreases e, 1
  {
    AtomMeans(names, nodes, i, e, env);
    if !e.Integer? && !Textual(e) { EvalMeans(names, nodes, i, e, env); }
  }

  /** A whole condition: its last node is its root, and no nodes at all are always true. */
  lemma {:induction false} ConditionMeans(names: Names, cond: seq<Node>, e: Expr, env: Env)
    requires CondOk(cond)
    ensures cond == [] ==> CondHolds(names, cond, env) == Some(true)
    ensures cond != [] && Represents(cond, |cond| - 1, e) && Logical(e) ==> CondHolds(names, cond, env) == Some(Holds(names, e, env))
  {
    if cond != [] && Represents(cond, |cond| - 1, e) && Logical(e) { EvalMeans(names, cond, |cond| - 1, e, env); }
  }

  /** A right operand that the left one already decides about is not looked at, even if it would throw. */
  lemma {:induction false} ShortCircuits(names: Names, nodes: seq<Node>, i: nat, left: Expr, env: Env)
    requires CondOk(nodes) && i < |nodes| && (nodes[i].And? || nodes[i].Or?) && Represents(nodes, nodes[i].l, left) && Logical(left)
    requires Holds(names, left, env) == nodes[i].Or?
    ensures Eval(names, nodes, i, env) == Some(nodes[i].Or?)
  {
    assert NodeOk(nodes, i);
    EvalMeans(names, nodes, nodes[i].l, left, env);
  }
}
