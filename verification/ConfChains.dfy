/** Flattened when/elsewhen/otherwise/select blocks and their condition chains (conf.go). */
module ConfChains {
  import opened Prelude

  /** A branch of the flattened file: `cond` names its condition, 0 stands for no link. */
  datatype Branch = Branch(parent: nat, previous: nat, cond: nat)

  /** Branch 0 is the file itself; every other branch links to earlier branches only. */
  ghost predicate Linked(bs: seq<Branch>) {
    |bs| > 0 && forall b :: 1 <= b < |bs| ==> bs[b].parent < b && bs[b].previous < b
  }

  // ------------------------------------------------------------ what a branch means

  /** No alternative from `p` back through its chain is true. */
  ghost predicate NoneTrue(bs: seq<Branch>, env: nat -> bool, p: nat)
    requires Linked(bs) && p < |bs|
    decreases p
  {
    p == 0 || (!env(bs[p].cond) && NoneTrue(bs, env, bs[p].previous))
  }

  /** The condition is true, every earlier alternative is false, and the parent holds. */
  ghost predicate Holds(bs: seq<Branch>, env: nat -> bool, b: nat)
    requires Linked(bs) && b < |bs|
    decreases b
  {
    b == 0 || (env(bs[b].cond) && NoneTrue(bs, env, bs[b].previous) && Holds(bs, env, bs[b].parent))
  }

  /** `p` is an earlier alternative of `b`. */
  ghost predicate Earlier(bs: seq<Branch>, p: nat, b: nat)
    requires Linked(bs) && b < |bs|
    decreases b
  {
    b != 0 && bs[b].previous != 0 && (bs[b].previous == p || Earlier(bs, p, bs[b].previous))
  }

  lemma {:induction false} EarlierIsFalse(bs: seq<Branch>, env: nat -> bool, p: nat, b: nat)
    requires Linked(bs) && b < |bs| && Earlier(bs, p, b) && NoneTrue(bs, env, bs[b].previous)
    ensures 0 < p < b && !env(bs[p].cond)
    decreases b
  {
    if bs[b].previous != p { EarlierIsFalse(bs, env, p, bs[b].previous); }
  }

  /** At most one alternative of a chain is ever active. */
  lemma {:induction false} OneAlternative(bs: seq<Branch>, env: nat -> bool, p: nat, b: nat)
    requires Linked(bs) && b < |bs| && Earlier(bs, p, b) && Holds(bs, env, b)
    ensures p < b && !Holds(bs, env, p)
  {
    EarlierIsFalse(bs, env, p, b);
  }

  // ------------------------------------------------------------ the nested file

  /** A configuration file before flattening; `linked` blocks (elsewhen, otherwise, select cases) continue the last block. */
  datatype Item = Stmt(name: nat) | Block(linked: bool, cond: nat, body: Items)
  datatype Items = Nil | Cons(head: Item, tail: Items)

  /** The statements in force: `taken` says that the chain so far had a true alternative. */
  function Active(items: Items, env: nat -> bool, taken: bool): seq<nat> {
    match items
    case Nil => []
    case Cons(Stmt(name), tail) => [name] + Active(tail, env, taken)
    case Cons(Block(linked, cond, body), tail) =>
      var before := linked && taken;
      (if env(cond) && !before then Active(body, env, false) else []) + Active(tail, env, before || env(cond))
  }

  /** An if, its else-ifs and its else: the first block starts a chain, the others continue it. */
  function Alternatives(blocks: seq<(nat, Items)>, started: bool, tail: Items): Items
    decreases |blocks|
  {
    if blocks == [] then tail else Cons(Block(started, blocks[0].0, blocks[0].1), Alternatives(blocks[1..], true, tail))
  }

  /** The first block whose condition is true. */
  function FirstTrue(blocks: seq<(nat, Items)>, env: nat -> bool): Option<nat>
    decreases |blocks|
  {
    if blocks == [] then None
    else if env(blocks[0].0) then Some(0)
    else
      match FirstTrue(blocks[1..], env)
      case None => None
      case Some(i) => Some(i + 1)
  }

  /** Of a chain of alternatives exactly the first true one is in force, and none if an earlier one was. */
  lemma {:induction false} FirstTrueIsActive(blocks: seq<(nat, Items)>, started: bool, tail: Items, env: nat -> bool, taken: bool)
    requires blocks != []
    ensures var i := FirstTrue(blocks, env);
            && (i.Some? ==> i.value < |blocks|)
            && Active(Alternatives(blocks, started, tail), env, taken) ==
               (if i.None? || (started && taken) then [] else Active(blocks[i.value].1, env, false))
               + Active(tail, env, (started && taken) || i.Some?)
    decreases |blocks|
  {
    var before := started && taken;
    if |blocks| == 1 {
      assert blocks[1..] == [];
    } else {
      FirstTrueIsActive(blocks[1..], true, tail, env, before || env(blocks[0].0));
    }
  }

  datatype Placed = Placed(name: nat, branch: nat)
  datatype File = File(branches: seq<Branch>, stmts: seq<Placed>)

  /** The branch left as `previous` after the items. */
  function LastBlock(items: Items, previous: nat, bs: seq<Branch>, parent: nat): nat {
    match items
    case Nil => previous
    case Cons(Stmt(_), tail) => LastBlock(tail, previous, bs, parent)
    case Cons(Block(linked, cond, body), tail) =>
      LastBlock(tail, |bs|, Flatten(body, |bs|, 0, Opened(bs, parent, linked, previous, cond)).branches, parent)
  }

  function Opened(bs: seq<Branch>, parent: nat, linked: bool, previous: nat, cond: nat): seq<Branch> {
    bs + [Branch(parent, if linked then previous else 0, cond)]
  }

  /** The branches and statements that the items add to `bs` below `parent`. */
  function Flatten(items: Items, parent: nat, previous: nat, bs: seq<Branch>): File {
    match items
    case Nil => File(bs, [])
    case Cons(Stmt(name), tail) =>
      var rest := Flatten(tail, parent, previous, bs);
      rest.(stmts := [Placed(name, parent)] + rest.stmts)
    case Cons(Block(linked, cond, body), tail) =>
      var inner := Flatten(body, |bs|, 0, Opened(bs, parent, linked, previous, cond));
      var rest := Flatten(tail, parent, |bs|, inner.branches);
      rest.(stmts := inner.stmts + rest.stmts)
  }

  lemma {:induction false} FlattenExtends(items: Items, parent: nat, previous: nat, bs: seq<Branch>)
    requires Linked(bs) && parent < |bs| && previous < |bs|
    ensures var f := Flatten(items, parent, previous, bs);
            && Linked(f.branches) && bs <= f.branches && LastBlock(items, previous, bs, parent) < |f.branches|
            && forall k :: 0 <= k < |f.stmts| ==> f.stmts[k].branch < |f.branches|
    decreases items
  {
    match items
    case Nil =>
    case Cons(Stmt(name), tail) => FlattenExtends(tail, parent, previous, bs);
    case Cons(Block(linked, cond, body), tail) =>
      var bs1 := Opened(bs, parent, linked, previous, cond);
      FlattenExtends(body, |bs|, 0, bs1);
      FlattenExtends(tail, parent, |bs|, Flatten(body, |bs|, 0, bs1).branches);
  }

  /** The statements whose branch holds. */
  ghost function InForce(bs: seq<Branch>, env: nat -> bool, stmts: seq<Placed>): seq<nat>
    requires Linked(bs)
  {
    if stmts == [] then []
    else NameIfHeld(bs, env, stmts[0]) + InForce(bs, env, stmts[1..])
  }

  ghost function NameIfHeld(bs: seq<Branch>, env: nat -> bool, s: Placed): seq<nat>
    requires Linked(bs)
  {
    if s.branch < |bs| && Holds(bs, env, s.branch) then [s.name] else []
  }

  lemma {:induction false} Regroup(one: seq<nat>, a: seq<nat>, b: seq<nat>)
    ensures one + (a + b) == (one + a) + b
  {
  }

  lemma {:induction false} InForceConcat(bs: seq<Branch>, env: nat -> bool, a: seq<Placed>, b: seq<Placed>)
    requires Linked(bs)
    ensures InForce(bs, env, a + b) == InForce(bs, env, a) + InForce(bs, env, b)
    decreases |a|
  {
    if a == [] {
      assert a + b == b;
    } else {
      InForceConcat(bs, env, a[1..], b);
      assert (a + b)[1..] == a[1..] + b && (a + b)[0] == a[0];
      Regroup(NameIfHeld(bs, env, a[0]), InForce(bs, env, a[1..]), InForce(bs, env, b));
    }
  }

  /**
   * Flattening keeps the nested meaning: within any larger file `all`, the
   * statements in force among those the items added are the active ones when the
   * enclosing branch holds, and none otherwise.
   */
  lemma {:induction false} FlattenMeans(items: Items, parent: nat, previous: nat, bs: seq<Branch>, all: seq<Branch>, env: nat -> bool)
    requires Linked(bs) && Linked(all) && parent < |bs| && previous < |bs|
    requires Flatten(items, parent, previous, bs).branches <= all
    ensures previous < |all| && parent < |all|
    ensures InForce(all, env, Flatten(items, parent, previous, bs).stmts) ==
            if Holds(all, env, parent) then Active(items, env, !NoneTrue(all, env, previous)) else []
    decreases items
  {
    FlattenExtends(items, parent, previous, bs);
    match items
    case Nil =>
    case Cons(Stmt(name), tail) =>
      FlattenMeans(tail, parent, previous, bs, all, env);
      InForceConcat(all, env, [Placed(name, parent)], Flatten(tail, parent, previous, bs).stmts);
      InForceOne(all, env, Placed(name, parent));
    case Cons(Block(linked, cond, body), tail) =>
      var b, bs1 := |bs|, Opened(bs, parent, linked, previous, cond);
      var inner := Flatten(body, b, 0, bs1);
      FlattenExtends(body, b, 0, bs1);
      FlattenExtends(tail, parent, b, inner.branches);
      FlattenMeans(body, b, 0, bs1, all, env);
      FlattenMeans(tail, parent, b, inner.branches, all, env);
      InForceConcat(all, env, inner.stmts, Flatten(tail, parent, b, inner.branches).stmts);
      assert all[b] == bs1[b];
  }

  lemma {:induction false} InForceOne(bs: seq<Branch>, env: nat -> bool, s: Placed)
    requires Linked(bs)
    ensures InForce(bs, env, [s]) == if s.branch < |bs| && Holds(bs, env, s.branch) then [s.name] else []
  {
    assert InForce(bs, env, [s][1..]) == [];
  }

  const ROOT: seq<Branch> := [Branch(0, 0, 0)]

  /** A whole file: the statements whose branch holds are exactly the active ones, in order. */
  lemma {:induction false} FileMeans(items: Items, env: nat -> bool)
    ensures Linked(Flatten(items, 0, 0, ROOT).branches)
    ensures InForce(Flatten(items, 0, 0, ROOT).branches, env, Flatten(items, 0, 0, ROOT).stmts) == Active(items, env, false)
  {
    var f := Flatten(items, 0, 0, ROOT);
    FlattenExtends(items, 0, 0, ROOT);
    FlattenMeans(items, 0, 0, ROOT, f.branches, env);
  }

  // ------------------------------------------------------------ reading a file

  datatype Event = Line(name: nat) | Open(linked: bool, cond: nat) | Close

  function Events(items: Items): seq<Event> {
    match items
    case Nil => []
    case Cons(Stmt(name), tail) => [Line(name)] + Events(tail)
    case Cons(Block(linked, cond, body), tail) => [Open(linked, cond)] + Events(body) + [Close] + Events(tail)
  }

  /** The reader's state: the open branches, the last closed one, and the file so far. */
  datatype Reader = Reader(stack: seq<nat>, previous: nat, branches: seq<Branch>, stmts: seq<Placed>)
  /** One line; `None` is the thrown unmatched brace. */
  function Read(r: Reader, e: Event): Option<Reader>
    requires r.stack != []
    ensures Read(r, e).Some? ==> Read(r, e).value.stack != []
  {
    var top := r.stack[|r.stack| - 1];
    match e
    case Line(name) => Some(r.(stmts := r.stmts + [Placed(name, top)]))
    case Open(linked, cond) =>
      Some(Reader(r.stack + [|r.branches|], 0, Opened(r.branches, top, linked, r.previous, cond), r.stmts))
    case Close =>
      if |r.stack| == 1 then None else Some(r.(stack := r.stack[..|r.stack| - 1], previous := top))
  }

  function ReadAll(r: Reader, events: seq<Event>): Option<Reader>
    requires r.stack != []
    decreases |events|
  {
    if events == [] then Some(r)
    else
      match Read(r, events[0])
      case None => None
      case Some(next) => ReadAll(next, events[1..])
  }

  lemma {:induction false} ReadAllStep(r: Reader, e: Event, rest: seq<Event>)
    requires r.stack != [] && Read(r, e).Some?
    ensures ReadAll(r, [e] + rest) == ReadAll(Read(r, e).value, rest)
  {
    assert ([e] + rest)[1..] == rest;
  }

  /** The reader after all the items. */
  function After(r: Reader, items: Items): Reader
    requires r.stack != []
  {
    var top := r.stack[|r.stack| - 1];
    var f := Flatten(items, top, r.previous, r.branches);
    Reader(r.stack, LastBlock(items, r.previous, r.branches, top), f.branches, r.stmts + f.stmts)
  }

  lemma {:induction false} ReadLine(r: Reader, name: nat, tail: Items)
    requires r.stack != []
    ensures After(Read(r, Line(name)).value, tail) == After(r, Cons(Stmt(name), tail))
  {
    var top := r.stack[|r.stack| - 1];
    var f := Flatten(tail, top, r.previous, r.branches);
    assert r.stmts + [Placed(name, top)] + f.stmts == r.stmts + ([Placed(name, top)] + f.stmts);
  }

  /** A whole block: opened, its body read, closed again. */
  lemma {:induction false} ReadBlock(r: Reader, linked: bool, cond: nat, body: Items, tail: Items)
    requires r.stack != []
    ensures var closed := Read(After(Read(r, Open(linked, cond)).value, body), Close);
            && closed.Some? && closed.value.stack == r.stack
            && After(closed.value, tail) == After(r, Cons(Block(linked, cond, body), tail))
  {
    var top, b := r.stack[|r.stack| - 1], |r.branches|;
    var entered := Read(r, Open(linked, cond)).value;
    var f := Flatten(body, b, 0, entered.branches);
    var inner := After(entered, body);
    assert inner.branches == f.branches && inner.stmts == r.stmts + f.stmts;
    var closed := Read(inner, Close).value;
    assert closed.stack == r.stack && closed.previous == b;
    var g := Flatten(tail, top, b, f.branches);
    assert r.stmts + f.stmts + g.stmts == r.stmts + (f.stmts + g.stmts);
  }

  lemma {:induction false} EventsBlock(linked: bool, cond: nat, body: Items, tail: Items, rest: seq<Event>)
    ensures Events(Cons(Block(linked, cond, body), tail)) + rest ==
            [Open(linked, cond)] + (Events(body) + ([Close] + (Events(tail) + rest)))
  {
  }

  /** Reading the lines of some items, whatever follows, does what flattening says. */
  lemma {:induction false} ReadIsFlatten(r: Reader, items: Items, rest: seq<Event>)
    requires r.stack != []
    ensures ReadAll(r, Events(items) + rest) == ReadAll(After(r, items), rest)
    decreases items, 1
  {
    match items
    case Nil =>
      assert Events(items) + rest == rest && r.stmts + [] == r.stmts;
    case Cons(Stmt(name), tail) =>
      assert Events(items) + rest == [Line(name)] + (Events(tail) + rest);
      ReadAllStep(r, Line(name), Events(tail) + rest);
      ReadIsFlatten(Read(r, Line(name)).value, tail, rest);
      ReadLine(r, name, tail);
    case Cons(Block(linked, cond, body), tail) =>
      EventsBlock(linked, cond, body, tail, rest);
      ReadBlockEvents(r, linked, cond, body, tail, rest);
  }

  lemma {:induction false} ReadBlockEvents(r: Reader, linked: bool, cond: nat, body: Items, tail: Items, rest: seq<Event>)
    requires r.stack != []
    ensures ReadAll(r, [Open(linked, cond)] + (Events(body) + ([Close] + (Events(tail) + rest)))) ==
            ReadAll(After(r, Cons(Block(linked, cond, body), tail)), rest)
    decreases Cons(Block(linked, cond, body), tail), 0
  {
    var after := Events(tail) + rest;
    var more := [Close] + after;
    var entered := Read(r, Open(linked, cond)).value;
    ReadAllStep(r, Open(linked, cond), Events(body) + more);
    ReadIsFlatten(entered, body, more);
    ReadBlock(r, linked, cond, body, tail);
    var inner := After(entered, body);
    ReadAllStep(inner, Close, after);
    ReadIsFlatten(Read(inner, Close).value, tail, rest);
  }

  /** What `readFile` makes of the lines: `None` for an unmatched brace or an unfinished block. */
  function Outcome(events: seq<Event>): Option<File> {
    match ReadAll(Reader([0], 0, ROOT, []), events)
    case None => None
    case Some(r) => if |r.stack| != 1 then None else Some(File(r.branches, r.stmts))
  }

  /** The lines of a nested file are read as its flattening. */
  lemma {:induction false} NestedIsRead(items: Items)
    ensures Outcome(Events(items)) == Some(Flatten(items, 0, 0, ROOT))
  {
    var start := Reader([0], 0, ROOT, []);
    ReadIsFlatten(start, items, []);
    assert Events(items) + [] == Events(items);
    assert [] + Flatten(items, 0, 0, ROOT).stmts == Flatten(items, 0, 0, ROOT).stmts;
  }

  /** The items at the front of the lines, up to an unmatched closing brace; `None` if some block is unfinished. */
  ghost function Nest(events: seq<Event>): (r: Option<(Items, seq<Event>)>)
    ensures r.Some? ==> |r.value.1| <= |events| && (r.value.1 == [] || r.value.1[0] == Close)
    decreases |events|
  {
    if events == [] || events[0] == Close then Some((Nil, events))
    else
      match (events[0], Nest(events[1..]))
      case (_, None) => None
      case (Line(name), Some((tail, rest))) => Some((Cons(Stmt(name), tail), rest))
      case (Open(linked, cond), Some((body, rest))) =>
        if rest == [] then None
        else
          match Nest(rest[1..])
          case None => None
          case Some((tail, after)) => Some((Cons(Block(linked, cond, body), tail), after))
  }

  lemma {:induction false} NestSplits(events: seq<Event>)
    requires Nest(events).Some?
    ensures events == Events(Nest(events).value.0) + Nest(events).value.1
    decreases |events|
  {
    if events != [] && events[0] != Close {
      var (items, rest) := Nest(events[1..]).value;
      NestSplits(events[1..]);
      if events[0].Open? {
        NestSplits(rest[1..]);
        NestOpen(events, items, rest, Nest(rest[1..]).value.0, Nest(rest[1..]).value.1);
      } else {
        NestLine(events, items, rest);
      }
    }
  }

  lemma {:induction false} NestLine(events: seq<Event>, items: Items, rest: seq<Event>)
    requires events != [] && events[0].Line? && events[1..] == Events(items) + rest
    ensures events == Events(Cons(Stmt(events[0].name), items)) + rest
  {
    assert events == [events[0]] + events[1..];
  }

  lemma {:induction false} NestOpen(events: seq<Event>, body: Items, rest: seq<Event>, tail: Items, after: seq<Event>)
    requires events != [] && events[0].Open? && events[1..] == Events(body) + rest
    requires rest != [] && rest[0] == Close && rest[1..] == Events(tail) + after
    ensures events == Events(Cons(Block(events[0].linked, events[0].cond, body), tail)) + after
  {
    assert events == [events[0]] + events[1..] && rest == [Close] + rest[1..];
    EventsBlock(events[0].linked, events[0].cond, body, tail, after);
  }

  /** Lines with an unfinished block end with more open branches than they began with, if they are read at all. */
  lemma {:induction false} UnfinishedStaysOpen(r: Reader, events: seq<Event>)
    requires r.stack != [] && Nest(events).None?
    ensures ReadAll(r, events).Some? ==> |ReadAll(r, events).value.stack| > |r.stack|
    decreases |events|
  {
    var next := Read(r, events[0]).value;
    var more := events[1..];
    if Nest(more).None? {
      UnfinishedStaysOpen(next, more);
    } else {
      var (body, rest) := Nest(more).value;
      NestSplits(more);
      ReadIsFlatten(next, body, rest);
      var inner := After(next, body);
      if rest != [] {
        assert rest == [Close] + rest[1..];
        ReadAllStep(inner, Close, rest[1..]);
        UnfinishedStaysOpen(Read(inner, Close).value, rest[1..]);
      }
    }
  }

  /** A file is accepted exactly when its lines are those of some nested file. */
  lemma {:induction false} AcceptedIffNested(events: seq<Event>)
    ensures Outcome(events).Some? <==> exists items :: events == Events(items)
  {
    if items :| events == Events(items) {
      NestedIsRead(items);
    }
    if Outcome(events).Some? {
      var start := Reader([0], 0, ROOT, []);
      if Nest(events).None? {
        UnfinishedStaysOpen(start, events);
      } else {
        var (items, rest) := Nest(events).value;
        NestSplits(events);
        ReadIsFlatten(start, items, rest);
        assert Events(items) + [] == Events(items);
      }
    }
  }

  /** The reading loop of `readFile`. */
  method ReadFile(events: seq<Event>) returns (r: Option<File>)
    ensures r == Outcome(events)
  {
    var st := Reader([0], 0, ROOT, []);
    ghost var start := st;
    assert events[0..] == events;
    for k := 0 to |events|
      invariant st.stack != [] && ReadAll(start, events) == ReadAll(st, events[k..])
    {
      assert events[k..][1..] == events[k + 1..];
      var next := Read(st, events[k]);
      if next.None? {
        return None;
      }
      st := next.value;
    }
    if |st.stack| != 1 {
      return None;
    }
    r := Some(File(st.branches, st.stmts));
  }

  // ------------------------------------------------------------ chains

  function Minus(p: int): int {
    -p
  }

  /** The earlier alternatives from `p` back, negated. */
  function Negated(bs: seq<Branch>, p: nat): seq<int>
    requires Linked(bs) && p < |bs|
    decreases p
  {
    if p == 0 then [] else [Minus(p)] + Negated(bs, bs[p].previous)
  }

  /** The chain of a branch: itself, its earlier alternatives negated, then its parent's chain. */
  function Chain(bs: seq<Branch>, b: nat): seq<int>
    requires Linked(bs) && b < |bs|
    decreases b
  {
    if b == 0 then [] else [b] + Negated(bs, bs[b].previous) + Chain(bs, bs[b].parent)
  }

  /** All chains up to branch `n`, one after the other. */
  function AllChains(bs: seq<Branch>, n: nat): seq<int>
    requires Linked(bs) && n <= |bs|
    decreases n
  {
    if n <= 1 then [] else AllChains(bs, n - 1) + Chain(bs, n - 1)
  }

  /** One signed link: a positive one wants its condition true, a negative one false. */
  predicate LinkHolds(bs: seq<Branch>, env: nat -> bool, at: int) {
    if at > 0 then at < |bs| && env(bs[at].cond) else -at < |bs| && !env(bs[-at].cond)
  }

  ghost predicate AllHold(bs: seq<Branch>, env: nat -> bool, chain: seq<int>) {
    forall k :: 0 <= k < |chain| ==> LinkHolds(bs, env, chain[k])
  }

  lemma {:induction false} AllHoldConcat(bs: seq<Branch>, env: nat -> bool, a: seq<int>, b: seq<int>)
    ensures AllHold(bs, env, a + b) == (AllHold(bs, env, a) && AllHold(bs, env, b))
  {
    if AllHold(bs, env, a + b) {
      assert forall k :: 0 <= k < |a| ==> (a + b)[k] == a[k];
      assert forall k :: 0 <= k < |b| ==> (a + b)[|a| + k] == b[k];
    }
  }

  lemma {:induction false} NegatedMeans(bs: seq<Branch>, env: nat -> bool, p: nat)
    requires Linked(bs) && p < |bs|
    ensures AllHold(bs, env, Negated(bs, p)) == NoneTrue(bs, env, p)
    decreases p
  {
    if p != 0 {
      NegatedMeans(bs, env, bs[p].previous);
      AllHoldConcat(bs, env, [Minus(p)], Negated(bs, bs[p].previous));
      assert [Minus(p)][0] == Minus(p);
    }
  }

  /** Walking a chain decides whether its branch holds. */
  lemma {:induction false} ChainMeans(bs: seq<Branch>, env: nat -> bool, b: nat)
    requires Linked(bs) && b < |bs|
    ensures AllHold(bs, env, Chain(bs, b)) == Holds(bs, env, b)
    decreases b
  {
    if b != 0 {
      ChainMeans(bs, env, bs[b].parent);
      NegatedMeans(bs, env, bs[b].previous);
      AllHoldConcat(bs, env, [b], Negated(bs, bs[b].previous));
      AllHoldConcat(bs, env, [b] + Negated(bs, bs[b].previous), Chain(bs, bs[b].parent));
      assert [b][0] == b;
    }
  }

  ghost predicate InRange(bs: seq<Branch>, chain: seq<int>) {
    forall k :: 0 <= k < |chain| ==> chain[k] != 0 && -|bs| < chain[k] < |bs|
  }

  lemma {:induction false} LinksInRange(bs: seq<Branch>, b: nat)
    requires Linked(bs) && b < |bs|
    ensures InRange(bs, Chain(bs, b))
    decreases b
  {
    if b != 0 {
      LinksInRange(bs, bs[b].parent);
      NegatedInRange(bs, bs[b].previous);
    }
  }

  lemma {:induction false} NegatedInRange(bs: seq<Branch>, p: nat)
    requires Linked(bs) && p < |bs|
    ensures forall k :: 0 <= k < |Negated(bs, p)| ==> -|bs| < Negated(bs, p)[k] < 0
    decreases p
  {
    if p != 0 { NegatedInRange(bs, bs[p].previous); }
  }

  lemma {:induction false} AllChainsPrefix(bs: seq<Branch>, n: nat, b: nat)
    requires Linked(bs) && 1 <= b <= n <= |bs|
    ensures AllChains(bs, b) <= AllChains(bs, n)
    decreases n
  {
    if b < n { AllChainsPrefix(bs, n - 1, b); }
  }

  ghost predicate SliceIs(all: seq<int>, off: nat, part: seq<int>) {
    off + |part| <= |all| && all[off..off + |part|] == part
  }

  lemma {:induction false} AllChainsStep(bs: seq<Branch>, b: nat)
    requires Linked(bs) && 1 <= b < |bs|
    ensures AllChains(bs, b + 1) == AllChains(bs, b) + Chain(bs, b)
  {
  }

  lemma {:induction false} AllChainsAt(bs: seq<Branch>, n: nat, b: nat)
    requires Linked(bs) && 1 <= b < n <= |bs|
    ensures SliceIs(AllChains(bs, n), |AllChains(bs, b)|, Chain(bs, b))
  {
    assert AllChains(bs, b + 1) == AllChains(bs, b) + Chain(bs, b) by { AllChainsStep(bs, b); }
    assert AllChains(bs, b + 1) <= AllChains(bs, n) by { AllChainsPrefix(bs, n, b + 1); }
    SliceOfPrefix(AllChains(bs, b), Chain(bs, b), AllChains(bs, b + 1), AllChains(bs, n));
  }

  lemma {:induction false} SliceOfPrefix(a: seq<int>, b: seq<int>, ab: seq<int>, all: seq<int>)
    requires ab == a + b && ab <= all
    ensures SliceIs(all, |a|, b)
  {
    assert all[|a|..|a| + |b|] == (a + b)[|a|..];
  }

  /** A slice of the shared block. */
  datatype Span = Span(start: nat, len: nat)

  ghost predicate SpanAt(bs: seq<Branch>, spans: seq<Span>, b: nat)
    requires Linked(bs) && b < |bs| && b < |spans|
  {
    spans[b] == if b == 0 then Span(0, 0) else Span(|AllChains(bs, b)|, |Chain(bs, b)|)
  }

  ghost predicate LengthAt(bs: seq<Branch>, lengths: seq<nat>, b: nat)
    requires Linked(bs) && b < |bs| && b < |lengths|
  {
    lengths[b] == |Chain(bs, b)|
  }

  /** The scratch holds the right lengths below `n`. */
  ghost predicate Measured(bs: seq<Branch>, lengths: seq<nat>, n: nat) {
    && Linked(bs) && n <= |lengths| == |bs|
    && forall b: nat {:trigger LengthAt(bs, lengths, b)} :: b < n ==> LengthAt(bs, lengths, b)
  }

  ghost predicate Spanned(bs: seq<Branch>, spans: seq<Span>) {
    && Linked(bs) && |spans| <= |bs|
    && forall b: nat {:trigger SpanAt(bs, spans, b)} :: b < |spans| ==> SpanAt(bs, spans, b)
  }

  lemma {:induction false} MeasureOne(bs: seq<Branch>, lengths: seq<nat>, b: nat, n: nat)
    requires 1 <= b < |bs| && Measured(bs, lengths, b) && n == 1 + |Negated(bs, bs[b].previous)| + lengths[bs[b].parent]
    ensures Measured(bs, lengths[b := n], b + 1) && |AllChains(bs, b + 1)| == |AllChains(bs, b)| + n
  {
    assert LengthAt(bs, lengths, bs[b].parent);
    assert n == |Chain(bs, b)|;
    var after := lengths[b := n];
    forall c: nat | c <= b
      ensures LengthAt(bs, after, c)
    {
      if c < b { assert LengthAt(bs, lengths, c); }
    }
  }

  /** The parent's chain lies finished in the block, before the next chain's share. */
  lemma {:induction false} ParentSpan(bs: seq<Branch>, spans: seq<Span>, done: seq<int>, b: nat)
    requires 1 <= b < |bs| && Spanned(bs, spans) && |spans| == b && done == AllChains(bs, b)
    ensures var up := spans[bs[b].parent];
            && up.len == |Chain(bs, bs[b].parent)| && up.start + up.len <= |done|
            && done[up.start..up.start + up.len] == Chain(bs, bs[b].parent)
  {
    var p := bs[b].parent;
    assert SpanAt(bs, spans, p);
    if p > 0 {
      AllChainsAt(bs, b, p);
    }
  }

  lemma {:induction false} SpanOne(bs: seq<Branch>, spans: seq<Span>)
    requires Spanned(bs, spans) && 1 <= |spans| < |bs|
    ensures Spanned(bs, spans + [Span(|AllChains(bs, |spans|)|, |Chain(bs, |spans|)|)])
  {
    var more := spans + [Span(|AllChains(bs, |spans|)|, |Chain(bs, |spans|)|)];
    forall b: nat | b < |more|
      ensures SpanAt(bs, more, b)
    {
      if b < |spans| { assert SpanAt(bs, spans, b); }
    }
  }

  lemma {:induction false} ChainSlice(bs: seq<Branch>, spans: seq<Span>, block: seq<int>, b: nat)
    requires Spanned(bs, spans) && |spans| == |bs| && block == AllChains(bs, |bs|) && b < |bs|
    ensures var s := spans[b];
            s.start + s.len <= |block| && block[s.start..s.start + s.len] == Chain(bs, b)
  {
    assert SpanAt(bs, spans, b);
    if b > 0 { AllChainsAt(bs, |bs|, b); }
  }

  /** The slice of a branch is its chain, so walking it decides whether the branch holds. */
  lemma {:induction false} ChainRead(bs: seq<Branch>, spans: seq<Span>, block: seq<int>, env: nat -> bool, b: nat)
    requires Spanned(bs, spans) && |spans| == |bs| && block == AllChains(bs, |bs|) && b < |bs|
    ensures var s := spans[b];
            && s.start + s.len <= |block| && InRange(bs, block[s.start..s.start + s.len])
            && AllHold(bs, env, block[s.start..s.start + s.len]) == Holds(bs, env, b)
  {
    ChainSlice(bs, spans, block, b);
    ChainMeans(bs, env, b);
    LinksInRange(bs, b);
  }

  ghost predicate CellAt(now: seq<int>, was: seq<int>, off: nat, part: seq<int>, j: nat)
    requires j < |now| == |was|
  {
    now[j] == if off <= j < off + |part| then part[j - off] else was[j]
  }

  /** `now` is `was` with `part` written over its cells from `off`, and nothing else changed. */
  ghost predicate Written(now: seq<int>, was: seq<int>, off: nat, part: seq<int>) {
    && |now| == |was| && off + |part| <= |was|
    && forall j: nat {:trigger CellAt(now, was, off, part, j)} :: j < |now| ==> CellAt(now, was, off, part, j)
  }

  lemma {:induction false} WrittenTwice(was: seq<int>, mid: seq<int>, now: seq<int>, off: nat, a: seq<int>, b: seq<int>, ab: seq<int>)
    requires Written(mid, was, off, a) && Written(now, mid, off + |a|, b) && ab == a + b
    ensures Written(now, was, off, ab)
  {
    var next := off + |a|;
    forall j: nat | j < |now|
      ensures CellAt(now, was, off, ab, j)
    {
      assert CellAt(mid, was, off, a, j) && CellAt(now, mid, next, b, j);
    }
  }

  lemma {:induction false} WrittenNone(was: seq<int>, off: nat)
    requires off <= |was|
    ensures Written(was, was, off, [])
  {
    forall j: nat | j < |was| ensures CellAt(was, was, off, [], j) {}
  }

  lemma {:induction false} WrittenOne(now: seq<int>, was: seq<int>, off: nat, x: int)
    requires off < |was| && now == was[off := x]
    ensures Written(now, was, off, [x])
  {
    forall j: nat | j < |now| ensures CellAt(now, was, off, [x], j) {}
  }

  lemma {:induction false} WrittenBefore(now: seq<int>, was: seq<int>, off: nat, part: seq<int>, lo: nat, hi: nat)
    requires Written(now, was, off, part) && lo <= hi <= off
    ensures now[lo..hi] == was[lo..hi]
  {
    forall j: nat | lo <= j < hi
      ensures now[j] == was[j]
    {
      assert CellAt(now, was, off, part, j);
    }
  }

  lemma {:induction false} WrittenPrefix(now: seq<int>, was: seq<int>, off: nat, part: seq<int>)
    requires Written(now, was, off, part)
    ensures now[..off + |part|] == was[..off] + part
  {
    forall j: nat | j < off + |part|
      ensures now[j] == (was[..off] + part)[j]
    {
      assert CellAt(now, was, off, part, j);
    }
  }

  /** The chains of one file, carved out of one block, and the scratch lengths kept between files. */
  class Chains {
    var block: array<int>
    var spans: seq<Span>
    var lengths: seq<nat>

    /** What the scratch must keep between files: the entry of branch 0 is never anything but 0. */
    ghost predicate ScratchOk()
      reads this
    {
      lengths != [] ==> lengths[0] == 0
    }

    ghost predicate LinkedTo(bs: seq<Branch>)
      reads this, block
    {
      Spanned(bs, spans) && |spans| == |bs| && block[..] == AllChains(bs, |bs|)
    }

    constructor ()
      ensures ScratchOk()
    {
      block, spans, lengths := new int[0], [], [];
    }

    /** The first pass: the length of every chain and their sum. */
    method Measure(bs: seq<Branch>) returns (total: nat)
      requires Linked(bs) && ScratchOk()
      modifies this`lengths
      ensures ScratchOk() && Measured(bs, lengths, |bs|) && total == |AllChains(bs, |bs|)|
    {
      if |lengths| < |bs| {
        lengths := lengths + seq(|bs| - |lengths|, _ => 0);
      } else {
        lengths := lengths[..|bs|];
      }
      total := 0;
      for b := 1 to |bs|
        invariant ScratchOk() && Measured(bs, lengths, b) && total == |AllChains(bs, b)|
      {
        assert LengthAt(bs, lengths, bs[b].parent);
        var n := CountBack(bs, bs[b].previous, 1 + lengths[bs[b].parent]);
        MeasureOne(bs, lengths, b, n);
        lengths := lengths[b := n];
        total := total + n;
      }
    }

    /** The inner loop over the earlier alternatives. */
    static method CountBack(bs: seq<Branch>, first: nat, start: nat) returns (n: nat)
      requires Linked(bs) && first < |bs|
      ensures n == start + |Negated(bs, first)|
    {
      n := start;
      var p: nat := first;
      while p != 0
        invariant p < |bs| && n + |Negated(bs, p)| == start + |Negated(bs, first)|
        decreases p
      {
        n := n + 1;
        p := bs[p].previous;
      }
    }

    /** `linkChains`: every chain is written into its own share of the block, which is used up exactly. */
    method LinkChains(bs: seq<Branch>)
      requires Linked(bs) && ScratchOk()
      modifies this
      ensures ScratchOk() && LinkedTo(bs) && fresh(block)
    {
      var total := Measure(bs);
      var buf := new int[total];
      spans := Fill(bs, lengths, buf);
      block := buf;
    }

    /** The second pass: `off` is where the unused rest of the block begins. */
    static method Fill(bs: seq<Branch>, lengths: seq<nat>, buf: array<int>) returns (at: seq<Span>)
      requires Measured(bs, lengths, |bs|) && buf.Length == |AllChains(bs, |bs|)|
      modifies buf
      ensures Spanned(bs, at) && |at| == |bs| && buf[..] == AllChains(bs, |bs|)
    {
      at := [Span(0, 0)];
      var off := 0;
      assert SpanAt(bs, at, 0);
      for b := 1 to |bs|
        invariant Spanned(bs, at) && |at| == b
        invariant off == |AllChains(bs, b)| <= buf.Length && buf[..off] == AllChains(bs, b)
      {
        assert LengthAt(bs, lengths, b);
        var n := lengths[b];
        AllChainsAt(bs, |bs|, b);
        LinkOne(bs, b, buf, off, n, at);
        SpanOne(bs, at);
        at := at + [Span(off, n)];
        off := off + n;
      }
      assert buf[..] == buf[..off];
    }

    /** One round of the second loop. */
    static method LinkOne(bs: seq<Branch>, b: nat, buf: array<int>, off: nat, n: nat, at: seq<Span>)
      requires 1 <= b < |bs| && Spanned(bs, at) && |at| == b && n == |Chain(bs, b)| && off + n <= buf.Length
      requires buf[..off] == AllChains(bs, b)
      modifies buf
      ensures buf[..off + n] == AllChains(bs, b + 1)
    {
      ghost var was := buf[..];
      ParentSpan(bs, at, was[..off], b);
      var up := at[bs[b].parent];
      assert was[up.start..up.start + up.len] == was[..off][up.start..up.start + up.len];
      WriteChain(bs, b, buf, off, up, Chain(bs, bs[b].parent), Negated(bs, bs[b].previous));
      WrittenPrefix(buf[..], was, off, Chain(bs, b));
      AllChainsStep(bs, b);
      assert buf[..off + n] == buf[..][..off + n];
    }

    /** One chain, within its own cells: the branch, its earlier alternatives, and a copy of the parent's chain. */
    static method WriteChain(bs: seq<Branch>, b: nat, buf: array<int>, off: nat, up: Span, ghost parents: seq<int>,
                             ghost negated: seq<int>)
      requires Linked(bs) && 1 <= b < |bs| && negated == Negated(bs, bs[b].previous)
      requires off + 1 + |negated| + up.len <= buf.Length
      requires up.start + up.len <= off && buf[..][up.start..up.start + up.len] == parents
      modifies buf
      ensures Written(buf[..], old(buf[..]), off, [b] + negated + parents)
    {
      ghost var was, head: seq<int> := buf[..], [b];
      buf[off] := b;
      ghost var first := buf[..];
      WrittenOne(first, was, off, b);
      var m := WriteNegated(bs, bs[b].previous, buf, off + 1);
      ghost var second := buf[..];
      WrittenTwice(was, first, second, off, head, negated, head + negated);
      WrittenBefore(second, was, off, head + negated, up.start, up.start + up.len);
      CopyUp(buf, up, off + 1 + m);
      WrittenTwice(was, second, buf[..], off, head + negated, parents, head + negated + parents);
    }

    /** Copy an earlier span to `to`. */
    static method CopyUp(buf: array<int>, up: Span, to: nat)
      requires up.start + up.len <= to && to + up.len <= buf.Length
      modifies buf
      ensures Written(buf[..], old(buf[..]), to, old(buf[..])[up.start..up.start + up.len])
    {
      ghost var was, done: seq<int> := buf[..], [];
      WrittenNone(was, to);
      for k := 0 to up.len
        invariant done == was[up.start..up.start + k] && Written(buf[..], was, to, done)
      {
        assert CellAt(buf[..], was, to, done, up.start + k);
        var x := buf[up.start + k];
        WriteOne(buf, was, to, done, x, to + k);
        done := done + [x];
      }
    }

    /** One more cell after those written from `off`. */
    static method WriteOne(buf: array<int>, ghost was: seq<int>, ghost off: nat, ghost done: seq<int>, x: int, at: nat)
      requires off + |done| < |was| && at == off + |done| && Written(buf[..], was, off, done)
      modifies buf
      ensures Written(buf[..], was, off, done + [x])
    {
      ghost var mid := buf[..];
      buf[at] := x;
      WrittenOne(buf[..], mid, at, x);
      WrittenTwice(was, mid, buf[..], off, done, [x], done + [x]);
    }

    static method WriteNegated(bs: seq<Branch>, first: nat, buf: array<int>, off: nat) returns (m: nat)
      requires Linked(bs) && first < |bs| && off + |Negated(bs, first)| <= buf.Length
      modifies buf
      ensures m == |Negated(bs, first)| && Written(buf[..], old(buf[..]), off, Negated(bs, first))
    {
      m := 0;
      var p: nat := first;
      ghost var was, done: seq<int> := buf[..], [];
      WrittenNone(was, off);
      while p != 0
        invariant p < |bs| && m == |done| && done + Negated(bs, p) == Negated(bs, first)
        invariant Written(buf[..], was, off, done)
        decreases p
      {
        WriteOne(buf, was, off, done, Minus(p), off + m);
        done := done + [Minus(p)];
        m := m + 1;
        p := bs[p].previous;
      }
      assert done == Negated(bs, first);
    }

    /** `holds`: walk the chain and stop at the first link that fails. */
    method HoldsAt(bs: seq<Branch>, env: nat -> bool, b: nat) returns (r: bool)
      requires LinkedTo(bs) && b < |bs|
      ensures r == Holds(bs, env, b)
    {
      var s := spans[b];
      ChainRead(bs, spans, block[..], env, b);
      var chain := block[..][s.start..s.start + s.len];
      r := Walk(bs, env, chain);
    }

    static method Walk(bs: seq<Branch>, env: nat -> bool, chain: seq<int>) returns (r: bool)
      requires InRange(bs, chain)
      ensures r == AllHold(bs, env, chain)
    {
      for k := 0 to |chain|
        invariant forall j :: 0 <= j < k ==> LinkHolds(bs, env, chain[j])
      {
        var at := chain[k];
        if at > 0 {
          if !env(bs[at].cond) {
            return false;
          }
        } else if env(bs[-at].cond) {
          return false;
        }
      }
      r := true;
    }
  }
}
