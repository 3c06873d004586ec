/** The condition chains of a file are the links that the slice and the memo evaluate (conf.go). */
module ConfBranches {
  import opened Prelude
  import opened ConfConditions
  import C = ConfChains

  /** The conditions by name, all of them parsed. */
  ghost predicate Parsed(conds: nat -> seq<Node>) {
    forall c: nat {:trigger conds(c)} :: CondOk(conds(c))
  }

  /** The link that a signed chain entry stands for. */
  function LinkOf(bs: seq<C.Branch>, conds: nat -> seq<Node>, at: int): Link {
    var b := if at > 0 then at else -at;
    Link(at > 0, if b < |bs| then conds(bs[b].cond) else [])
  }

  function LinksOf(bs: seq<C.Branch>, conds: nat -> seq<Node>, chain: seq<int>): (r: seq<Link>)
    ensures |r| == |chain|
  {
    seq(|chain|, i requires 0 <= i < |chain| => LinkOf(bs, conds, chain[i]))
  }

  /** The truth of a condition that does not throw. */
  ghost function Truth(names: Names, conds: nat -> seq<Node>, env: Env): nat -> bool
    requires Parsed(conds)
  {
    (c: nat) => CondOk(conds(c)) && CondHolds(names, conds(c), env) == Some(true)
  }

  /** No condition throws in this environment. */
  ghost predicate NoThrow(names: Names, conds: nat -> seq<Node>, env: Env)
    requires Parsed(conds)
  {
    forall c: nat {:trigger conds(c)} :: CondHolds(names, conds(c), env).Some?
  }

  lemma {:induction false} LinksOk(bs: seq<C.Branch>, conds: nat -> seq<Node>, chain: seq<int>)
    requires Parsed(conds)
    ensures ChainOk(LinksOf(bs, conds, chain))
  {
    forall k | 0 <= k < |chain|
      ensures CondOk(LinksOf(bs, conds, chain)[k].cond)
    {
      var b := if chain[k] > 0 then chain[k] else -chain[k];
      assert b < |bs| ==> CondOk(conds(bs[b].cond));
    }
  }

  lemma {:induction false} LinksHold(names: Names, bs: seq<C.Branch>, conds: nat -> seq<Node>, chain: seq<int>, env: Env)
    requires Parsed(conds) && NoThrow(names, conds, env) && C.InRange(bs, chain)
    ensures ChainOk(LinksOf(bs, conds, chain))
    ensures ChainHolds(names, LinksOf(bs, conds, chain), env) == Some(C.AllHold(bs, Truth(names, conds, env), chain))
    decreases |chain|
  {
    LinksOk(bs, conds, chain);
    if chain != [] {
      var rest := chain[1..];
      assert C.InRange(bs, rest);
      LinksHold(names, bs, conds, rest, env);
      assert LinksOf(bs, conds, chain)[1..] == LinksOf(bs, conds, rest);
      C.AllHoldConcat(bs, Truth(names, conds, env), [chain[0]], rest);
      assert chain == [chain[0]] + rest;
      LinkHoldsOne(names, bs, conds, chain[0], env);
      assert C.AllHold(bs, Truth(names, conds, env), [chain[0]]) <==> C.LinkHolds(bs, Truth(names, conds, env), chain[0]) by {
        assert [chain[0]][0] == chain[0];
      }
    }
  }

  lemma {:induction false} LinkHoldsOne(names: Names, bs: seq<C.Branch>, conds: nat -> seq<Node>, at: int, env: Env)
    requires Parsed(conds) && NoThrow(names, conds, env) && at != 0 && -|bs| < at < |bs|
    ensures var link := LinkOf(bs, conds, at);
            && CondOk(link.cond) && CondHolds(names, link.cond, env).Some?
            && (CondHolds(names, link.cond, env).value == link.want <==> C.LinkHolds(bs, Truth(names, conds, env), at))
  {
    var b := if at > 0 then at else -at;
    assert CondHolds(names, conds(bs[b].cond), env).Some?;
  }

  /**
   * Evaluating the links of a branch, first to last, decides whether the branch
   * holds in the sense of the nested file.
   */
  lemma {:induction false} BranchHolds(names: Names, bs: seq<C.Branch>, conds: nat -> seq<Node>, b: nat, env: Env)
    requires Parsed(conds) && NoThrow(names, conds, env) && C.Linked(bs) && b < |bs|
    ensures ChainOk(LinksOf(bs, conds, C.Chain(bs, b)))
    ensures ChainHolds(names, LinksOf(bs, conds, C.Chain(bs, b)), env) == Some(C.Holds(bs, Truth(names, conds, env), b))
  {
    C.LinksInRange(bs, b);
    LinksHold(names, bs, conds, C.Chain(bs, b), env);
    C.ChainMeans(bs, Truth(names, conds, env), b);
  }
}
