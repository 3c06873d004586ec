/** The export log: recording, and the single replay that numbers it (command_scope.go). */
module ExportReplay {
  import opened Prelude

  datatype ExportStep = Visit | Use | Publish

  /** An entry covers the entries from the next one up to `end`. Module and command ids are positive; 0 is nil. */
  datatype ExportEntry = ExportEntry(step: ExportStep, module_: nat, scoped: nat, end: nat)

  // ------------------------------------------------------------ shape of a log

  ghost predicate NestedAt(log: seq<ExportEntry>, i: int)
    requires 0 <= i < |log|
  {
    && i < log[i].end <= |log|
    && (log[i].step != Visit ==> log[i].end == i + 1)
    && (forall j :: i < j < log[i].end ==> log[j].end <= log[i].end)
  }

  /** Intervals nest, and only visits enclose others. */
  ghost predicate Nested(log: seq<ExportEntry>) {
    forall i {:trigger NestedAt(log, i)} :: 0 <= i < |log| ==> NestedAt(log, i)
  }

  /** While recording: everything but the open visits is closed, and the open ones enclose all that follows them. */
  ghost predicate ClosedAt(log: seq<ExportEntry>, open: seq<nat>, i: int)
    requires 0 <= i < |log|
  {
    i !in open ==>
      && i < log[i].end <= |log|
      && (log[i].step != Visit ==> log[i].end == i + 1)
      && (forall j :: i < j < log[i].end ==> j !in open && log[j].end <= log[i].end)
  }

  ghost predicate Recording(log: seq<ExportEntry>, open: seq<nat>) {
    && (forall k :: 0 <= k < |open| ==> open[k] < |log|)
    && (forall k, l :: 0 <= k < l < |open| ==> open[k] < open[l])
    && (forall i {:trigger ClosedAt(log, open, i)} :: 0 <= i < |log| ==> ClosedAt(log, open, i))
  }

  lemma {:induction false} PushKeepsRecording(log: seq<ExportEntry>, open: seq<nat>, e: ExportEntry)
    requires Recording(log, open) && e.end == |log| + 1
    ensures Recording(log + [e], open)
  {
    var log' := log + [e];
    assert forall k :: 0 <= k < |open| ==> open[k] in open;
    forall i | 0 <= i < |log'|
      ensures ClosedAt(log', open, i)
    {
      if i < |log| { assert ClosedAt(log, open, i); }
    }
  }

  lemma {:induction false} EnterKeepsRecording(log: seq<ExportEntry>, open: seq<nat>, e: ExportEntry)
    requires Recording(log, open)
    ensures Recording(log + [e], open + [|log|])
  {
    var log', open' := log + [e], open + [|log|];
    assert forall j :: j in open' <==> j in open || j == |log|;
    forall i | 0 <= i < |log'|
      ensures ClosedAt(log', open', i)
    {
      if i < |log| { assert ClosedAt(log, open, i); }
    }
  }

  lemma {:induction false} LeaveKeepsRecording(log: seq<ExportEntry>, open: seq<nat>, e: ExportEntry)
    requires Recording(log, open) && open != [] && e.end == |log| && e.step == Visit
    ensures Recording(log[open[|open| - 1] := e], open[..|open| - 1])
  {
    var at, open' := open[|open| - 1], open[..|open| - 1];
    var log' := log[at := e];
    assert open == open' + [at];
    assert forall j :: j in open <==> j in open' || j == at;
    assert forall k :: 0 <= k < |open'| ==> open'[k] < at;
    assert at !in open';
    forall i | 0 <= i < |log'|
      ensures ClosedAt(log', open', i)
    {
      assert ClosedAt(log, open, i);
      if i == at {
        forall j | at < j < |log|
          ensures j !in open' && log'[j].end <= |log|
        {
          assert ClosedAt(log, open, j);
        }
      }
    }
  }

  /** `exportAt` names visits, counted from 1. */
  ghost predicate FirstVisits(log: seq<ExportEntry>, exportAt: map<nat, nat>) {
    forall m :: m in exportAt ==> 1 <= exportAt[m] <= |log| && log[exportAt[m] - 1].step == Visit
  }

  /** With every visit left, a recorded log is well nested. */
  lemma {:induction false} RecordedIsNested(log: seq<ExportEntry>)
    requires Recording(log, [])
    ensures Nested(log)
  {
    forall i | 0 <= i < |log| ensures NestedAt(log, i) { assert ClosedAt(log, [], i); }
  }

  // ------------------------------------------------------------ what a replay has done

  ghost predicate InLog(log: seq<ExportEntry>, order: seq<nat>) {
    forall i :: 0 <= i < |order| ==> order[i] < |log|
  }

  /** What replaying hands out: the tick counter, the ticks given to commands and to scopes, and the publish order. */
  datatype Counters = Counters(tick: nat, scopedTick: map<nat, nat>, scopeTick: map<nat, nat>, exportOrder: seq<nat>)

  /** The effect of replaying one entry. */
  function Counted(c: Counters, e: ExportEntry): Counters {
    match e.step
    case Use => c.(tick := c.tick + 1, scopedTick := c.scopedTick[e.scoped := c.tick + 1])
    case Publish =>
      c.(tick := c.tick + 1, scopeTick := c.scopeTick[e.module_ := c.tick + 1], exportOrder := c.exportOrder + [e.module_])
    case Visit => c
  }

  ghost function Tally(log: seq<ExportEntry>, order: seq<nat>): Counters {
    if order == [] then Counters(0, map[], map[], [])
    else
      var before, last := Tally(log, order[..|order| - 1]), order[|order| - 1];
      if last < |log| then Counted(before, log[last]) else before
  }

  lemma {:induction false} TallyStep(log: seq<ExportEntry>, order: seq<nat>, at: nat)
    requires at < |log|
    ensures Tally(log, order + [at]) == Counted(Tally(log, order), log[at])
  {
    assert (order + [at])[..|order|] == order;
  }

  /** The use and publish entries of a replay, in replay order. */
  ghost function Numbered(log: seq<ExportEntry>, order: seq<nat>): (xs: seq<nat>)
    requires InLog(log, order)
    ensures InLog(log, xs)
  {
    if order == [] then []
    else
      var rest, last := Numbered(log, order[..|order| - 1]), order[|order| - 1];
      if log[last].step == Visit then rest else rest + [last]
  }

  /** The modules of the publish entries among `xs`. */
  ghost function Published(log: seq<ExportEntry>, xs: seq<nat>): seq<nat>
    requires InLog(log, xs)
  {
    if xs == [] then []
    else
      var rest, last := Published(log, xs[..|xs| - 1]), xs[|xs| - 1];
      if log[last].step == Publish then rest + [log[last].module_] else rest
  }

  /** Ticks count the numbered entries, and the publish order lists the numbered publishes. */
  lemma {:induction false} TallyCounts(log: seq<ExportEntry>, order: seq<nat>)
    requires InLog(log, order)
    ensures Tally(log, order).tick == |Numbered(log, order)|
    ensures Tally(log, order).exportOrder == Published(log, Numbered(log, order))
  {
    if order != [] {
      var init, last := order[..|order| - 1], order[|order| - 1];
      TallyCounts(log, init);
      var xs := Numbered(log, init);
      assert (xs + [last])[..|xs|] == xs;
    }
  }

  /** No two use entries share a command, no two publish entries a module. */
  ghost predicate OwnObjects(log: seq<ExportEntry>) {
    forall i, j :: 0 <= i < j < |log| ==>
      && (log[i].step == Use && log[j].step == Use ==> log[i].scoped != log[j].scoped)
      && (log[i].step == Publish && log[j].step == Publish ==> log[i].module_ != log[j].module_)
  }

  ghost predicate HasTick(c: Counters, e: ExportEntry, tick: nat) {
    && (e.step == Use ==> e.scoped in c.scopedTick && c.scopedTick[e.scoped] == tick)
    && (e.step == Publish ==> e.module_ in c.scopeTick && c.scopeTick[e.module_] == tick)
  }

  /** The `k`-th numbered entry holds tick `k + 1`: ticks 1 to n, without gaps or repeats. */
  lemma {:induction false} TallyTicks(log: seq<ExportEntry>, order: seq<nat>, k: nat)
    requires InLog(log, order) && Distinct(order) && OwnObjects(log) && k < |Numbered(log, order)|
    ensures HasTick(Tally(log, order), log[Numbered(log, order)[k]], k + 1)
  {
    var init, last := order[..|order| - 1], order[|order| - 1];
    var xs := Numbered(log, init);
    TallyCounts(log, init);
    if k < |xs| {
      TallyTicks(log, init, k);
      NumberedMembers(log, init, xs[k]);
      assert xs[k] in xs;
      assert last !in init;
    }
  }

  lemma {:induction false} NumberedMembers(log: seq<ExportEntry>, order: seq<nat>, x: nat)
    requires InLog(log, order)
    ensures x in Numbered(log, order) <==> x in order && x < |log| && log[x].step != Visit
  {
    if order != [] {
      var init := order[..|order| - 1];
      assert order == init + [order[|order| - 1]];
      NumberedMembers(log, init, x);
    }
  }

  lemma {:induction false} NumberedDistinct(log: seq<ExportEntry>, order: seq<nat>)
    requires InLog(log, order) && Distinct(order)
    ensures Distinct(Numbered(log, order))
  {
    if order != [] {
      var init, last := order[..|order| - 1], order[|order| - 1];
      NumberedDistinct(log, init);
      NumberedMembers(log, init, last);
      assert last !in init;
      var xs := Numbered(log, init);
      assert forall i :: 0 <= i < |xs| ==> xs[i] in xs;
    }
  }

  ghost function Pending(replayed: seq<bool>): nat {
    if replayed == [] then 0
    else Pending(replayed[..|replayed| - 1]) + (if replayed[|replayed| - 1] then 0 else 1)
  }

  /** `b` has replayed everything `a` has. */
  ghost predicate Grows(a: seq<bool>, b: seq<bool>) {
    |a| == |b| && forall i :: 0 <= i < |a| && a[i] ==> b[i]
  }

  lemma {:induction false} PendingShrinks(a: seq<bool>, b: seq<bool>)
    requires Grows(a, b)
    ensures Pending(b) <= Pending(a)
    ensures forall i :: 0 <= i < |a| && !a[i] && b[i] ==> Pending(b) < Pending(a)
  {
    if a != [] {
      PendingShrinks(a[..|a| - 1], b[..|b| - 1]);
      forall i | 0 <= i < |a| && !a[i] && b[i]
        ensures Pending(b) < Pending(a)
      {
        if i < |a| - 1 { assert !a[..|a| - 1][i] && b[..|b| - 1][i]; }
      }
    }
  }

  /** `j` lies inside an entry that is still being replayed, at or after `i`. */
  ghost predicate Underway(log: seq<ExportEntry>, active: set<nat>, i: int, j: int)
    requires 0 <= i < j < |log|
  {
    exists a {:trigger a in active} :: a in active && i <= a < j && j < log[a].end
  }

  /** Everything inside a replayed entry is replayed, or inside an entry still being replayed. */
  ghost predicate SettledAt(log: seq<ExportEntry>, replayed: seq<bool>, active: set<nat>, i: int, j: int)
    requires |log| == |replayed| && 0 <= i < j < |log|
  {
    replayed[i] && j < log[i].end ==> replayed[j] || Underway(log, active, i, j)
  }

  ghost predicate Settled(log: seq<ExportEntry>, replayed: seq<bool>, active: set<nat>) {
    && |log| == |replayed|
    && (forall a :: a in active ==> a < |log| && replayed[a])
    && (forall i, j {:trigger SettledAt(log, replayed, active, i, j)} ::
          0 <= i < j < |log| ==> SettledAt(log, replayed, active, i, j))
  }

  /** Marking `at` as replayed and as being replayed. */
  lemma {:induction false} BeginSettled(log: seq<ExportEntry>, replayed: seq<bool>, active: set<nat>, at: nat)
    requires Settled(log, replayed, active) && at < |log|
    ensures Settled(log, replayed[at := true], active + {at})
  {
    var replayed', active' := replayed[at := true], active + {at};
    forall i, j | 0 <= i < j < |log|
      ensures SettledAt(log, replayed', active', i, j)
    {
      assert SettledAt(log, replayed, active, i, j);
      if replayed'[i] && j < log[i].end && !replayed'[j] {
        if i == at {
          assert at in active';
        } else {
          var a :| a in active && i <= a < j && j < log[a].end;
          assert a in active';
        }
      }
    }
  }

  /** The entries `at < j < next` all lie in a replayed entry that starts after `at`. */
  ghost predicate Swept(log: seq<ExportEntry>, replayed: seq<bool>, at: int, next: int)
    requires |log| == |replayed|
  {
    forall j {:trigger InReplayed(log, replayed, at, j)} :: at < j < next ==> InReplayed(log, replayed, at, j)
  }

  ghost predicate InReplayed(log: seq<ExportEntry>, replayed: seq<bool>, at: int, j: int)
    requires |log| == |replayed|
  {
    exists c :: at < c <= j && 0 <= c < |log| && replayed[c] && j < log[c].end
  }

  lemma {:induction false} SweptGrows(log: seq<ExportEntry>, a: seq<bool>, b: seq<bool>, at: int, next: int)
    requires |log| == |a| && Grows(a, b) && Swept(log, a, at, next)
    ensures Swept(log, b, at, next)
  {
    forall j | at < j < next
      ensures InReplayed(log, b, at, j)
    {
      assert InReplayed(log, a, at, j);
    }
  }

  lemma {:induction false} SweptNothing(log: seq<ExportEntry>, replayed: seq<bool>, at: int)
    requires |log| == |replayed|
    ensures Swept(log, replayed, at, at + 1)
  {
  }

  lemma {:induction false} SweptFurther(log: seq<ExportEntry>, replayed: seq<bool>, at: int, next: int)
    requires |log| == |replayed| && Swept(log, replayed, at, next) && 0 <= next < |log| && at < next
    requires replayed[next] && next < log[next].end
    ensures Swept(log, replayed, at, log[next].end)
  {
    forall j | at < j < log[next].end
      ensures InReplayed(log, replayed, at, j)
    {
      if j < next { assert InReplayed(log, replayed, at, j); } else { assert replayed[next]; }
    }
  }

  /** All of `at`'s inside being swept, `at` is no longer needed as an excuse. */
  lemma {:induction false} EndSettled(log: seq<ExportEntry>, replayed: seq<bool>, active: set<nat>, at: nat)
    requires Settled(log, replayed, active + {at}) && at < |log| && Swept(log, replayed, at, log[at].end)
    ensures Settled(log, replayed, active)
  {
    var active' := active + {at};
    forall i, j | 0 <= i < j < |log|
      ensures SettledAt(log, replayed, active, i, j)
    {
      assert SettledAt(log, replayed, active', i, j);
      if replayed[i] && j < log[i].end && !replayed[j] {
        var a :| a in active' && i <= a < j && j < log[a].end;
        if a == at {
          assert InReplayed(log, replayed, at, j);
          var c :| at < c <= j && 0 <= c < |log| && replayed[c] && j < log[c].end;
          assert SettledAt(log, replayed, active', c, j);
          var a' :| a' in active' && c <= a' < j && j < log[a'].end;
          assert a' in active;
        }
      }
    }
  }

  /** Once nothing is being replayed and the top level is swept, everything is replayed. */
  lemma {:induction false} AllReplayed(log: seq<ExportEntry>, replayed: seq<bool>, i: nat)
    requires Settled(log, replayed, {}) && Swept(log, replayed, -1, |log|) && i < |log|
    ensures replayed[i]
  {
    assert InReplayed(log, replayed, -1, i);
    var c :| -1 < c <= i && 0 <= c < |log| && replayed[c] && i < log[c].end;
    if c < i { assert SettledAt(log, replayed, {}, c, i); }
  }

  /** The flags are what `order` says. */
  ghost predicate Flags(replayed: seq<bool>, order: seq<nat>) {
    forall i :: 0 <= i < |replayed| ==> (replayed[i] <==> i in order)
  }

  /** The flags and the counters follow `order`. */
  ghost predicate Ordered(log: seq<ExportEntry>, replayed: seq<bool>, order: seq<nat>, c: Counters) {
    |replayed| == |log| && Flags(replayed, order) && c == Tally(log, order)
  }

  lemma {:induction false} OrderedStep(log: seq<ExportEntry>, replayed: seq<bool>, order: seq<nat>, c: Counters, at: nat)
    requires Ordered(log, replayed, order, c) && at < |log| && !replayed[at]
    ensures Ordered(log, replayed[at := true], order + [at], Counted(c, log[at]))
  {
    TallyStep(log, order, at);
  }

  lemma {:induction false} NothingReplayed(log: seq<ExportEntry>, replayed: seq<bool>)
    requires |replayed| == |log| && forall i :: 0 <= i < |replayed| ==> !replayed[i]
    ensures Settled(log, replayed, {}) && Ordered(log, replayed, [], Counters(0, map[], map[], []))
  {
    forall i, j | 0 <= i < j < |log| ensures SettledAt(log, replayed, {}, i, j) { }
  }

  lemma {:induction false} AllInOrder(log: seq<ExportEntry>, replayed: seq<bool>, order: seq<nat>, c: Counters)
    requires Settled(log, replayed, {}) && Swept(log, replayed, -1, |log|) && Ordered(log, replayed, order, c)
    ensures forall i: nat :: i < |log| ==> i in order
  {
    forall i: nat | i < |log| ensures i in order { AllReplayed(log, replayed, i); }
  }

  lemma {:induction false} AllTicked(log: seq<ExportEntry>, order: seq<nat>)
    requires InLog(log, order) && Distinct(order) && OwnObjects(log)
    ensures forall k :: 0 <= k < |Numbered(log, order)| ==>
              HasTick(Tally(log, order), log[Numbered(log, order)[k]], k + 1)
  {
    forall k | 0 <= k < |Numbered(log, order)|
      ensures HasTick(Tally(log, order), log[Numbered(log, order)[k]], k + 1)
    {
      TallyTicks(log, order, k);
    }
  }

  // ------------------------------------------------------------ the order a replay follows

  /** The entries met stepping from `start` over whole intervals up to `stop`. */
  ghost function TopLevel(log: seq<ExportEntry>, start: nat, stop: nat): seq<nat>
    decreases stop - start
  {
    if start >= stop || start >= |log| || log[start].end <= start then []
    else [start] + TopLevel(log, log[start].end, stop)
  }

  /** What replaying `x` replays next: its inside, or, for a repeated visit, the module's first visit. */
  ghost function After(log: seq<ExportEntry>, exportAt: map<nat, nat>, x: nat): seq<nat>
    requires x < |log|
  {
    if log[x].step != Visit then []
    else if log[x].end > x + 1 then TopLevel(log, x + 1, log[x].end)
    else if log[x].module_ != 0 && log[x].module_ in exportAt && exportAt[log[x].module_] != 0
      then [exportAt[log[x].module_] - 1]
    else []
  }

  /** Depth-first pre-order over an agenda, skipping what was met before. */
  ghost function Preorder(log: seq<ExportEntry>, exportAt: map<nat, nat>, agenda: seq<nat>, replayed: seq<bool>): seq<nat>
    decreases Pending(replayed), |agenda|
  {
    if agenda == [] then []
    else
      var x := agenda[0];
      if x >= |log| || x >= |replayed| || replayed[x] then Preorder(log, exportAt, agenda[1..], replayed)
      else
        PendingShrinks(replayed, replayed[x := true]);
        [x] + Preorder(log, exportAt, After(log, exportAt, x) + agenda[1..], replayed[x := true])
  }

  lemma {:induction false} PreorderOne(log: seq<ExportEntry>, exportAt: map<nat, nat>, x: nat, replayed: seq<bool>, order: seq<nat>)
    requires x < |log| == |replayed|
    ensures order + Preorder(log, exportAt, [x], replayed) ==
            if replayed[x] then order
            else order + [x] + Preorder(log, exportAt, After(log, exportAt, x), replayed[x := true])
  {
    assert After(log, exportAt, x) + [x][1..] == After(log, exportAt, x);
  }

  ghost function Marked(replayed: seq<bool>, xs: seq<nat>): (r: seq<bool>)
    ensures |r| == |replayed| && forall i :: 0 <= i < |r| ==> r[i] == (replayed[i] || i in xs)
    ensures Grows(replayed, r)
  {
    seq(|replayed|, i requires 0 <= i < |replayed| => replayed[i] || i in xs)
  }

  lemma {:induction false} MarkedCons(replayed: seq<bool>, x: nat, ys: seq<nat>)
    requires x < |replayed|
    ensures Marked(replayed[x := true], ys) == Marked(replayed, [x] + ys)
  {
  }

  lemma {:induction false} PutFirst(x: nat, ys: seq<nat>, zs: seq<nat>)
    ensures [x] + (ys + zs) == ([x] + ys) + zs
  {
  }

  /** Doing an agenda in two halves. */
  lemma {:induction false} PreorderConcat(log: seq<ExportEntry>, exportAt: map<nat, nat>, a: seq<nat>, b: seq<nat>, replayed: seq<bool>)
    ensures var xs := Preorder(log, exportAt, a, replayed);
            Preorder(log, exportAt, a + b, replayed) == xs + Preorder(log, exportAt, b, Marked(replayed, xs))
    decreases Pending(replayed), |a|
  {
    var xs := Preorder(log, exportAt, a, replayed);
    if a == [] {
      assert a + b == b;
      assert Marked(replayed, xs) == replayed;
    } else {
      var x := a[0];
      assert (a + b)[1..] == a[1..] + b;
      if x >= |log| || x >= |replayed| || replayed[x] {
        PreorderConcat(log, exportAt, a[1..], b, replayed);
      } else {
        var next := replayed[x := true];
        PendingShrinks(replayed, next);
        var inside := After(log, exportAt, x);
        assert inside + (a[1..] + b) == (inside + a[1..]) + b;
        PreorderConcat(log, exportAt, inside + a[1..], b, next);
        var ys := Preorder(log, exportAt, inside + a[1..], next);
        MarkedCons(replayed, x, ys);
        PutFirst(x, ys, Preorder(log, exportAt, b, Marked(next, ys)));
      }
    }
  }

  /** The whole agenda: each marked root's entries, then the log's own top level. */
  ghost function Agenda(log: seq<ExportEntry>, roots: seq<(nat, nat)>): seq<nat> {
    if roots == [] then TopLevel(log, 0, |log|)
    else TopLevel(log, roots[0].0, roots[0].1) + Agenda(log, roots[1..])
  }

  lemma {:induction false} AgendaStep(log: seq<ExportEntry>, roots: seq<(nat, nat)>, k: nat)
    requires k <= |roots|
    ensures Agenda(log, roots[k..]) ==
            if k == |roots| then TopLevel(log, 0, |log|)
            else TopLevel(log, roots[k].0, roots[k].1) + Agenda(log, roots[k + 1..])
  {
    if k < |roots| { assert roots[k..][1..] == roots[k + 1..]; }
  }

  /** `xs` lists entries not replayed yet, each once. */
  ghost predicate Fresh(log: seq<ExportEntry>, replayed: seq<bool>, xs: seq<nat>) {
    && Distinct(xs)
    && (forall i :: 0 <= i < |xs| ==> xs[i] < |log| && xs[i] < |replayed| && !replayed[xs[i]])
  }

  lemma {:induction false} FreshCons(log: seq<ExportEntry>, replayed: seq<bool>, x: nat, ys: seq<nat>)
    requires x < |log| && x < |replayed| && !replayed[x] && Fresh(log, replayed[x := true], ys)
    ensures Fresh(log, replayed, [x] + ys)
  {
    var xs := [x] + ys;
    forall i | 0 <= i < |xs|
      ensures xs[i] < |log| && xs[i] < |replayed| && !replayed[xs[i]] && (i > 0 ==> xs[i] != x)
    {
      if i > 0 { assert xs[i] == ys[i - 1]; }
    }
    forall i, j | 0 <= i < j < |xs|
      ensures xs[i] != xs[j]
    {
      assert xs[j] == ys[j - 1];
      if i > 0 { assert xs[i] == ys[i - 1]; }
    }
  }

  /** A pre-order meets each entry at most once, and none that was met before. */
  lemma {:induction false} PreorderIsFresh(log: seq<ExportEntry>, exportAt: map<nat, nat>, agenda: seq<nat>, replayed: seq<bool>)
    ensures Fresh(log, replayed, Preorder(log, exportAt, agenda, replayed))
    decreases Pending(replayed), |agenda|
  {
    if agenda != [] {
      var x := agenda[0];
      if x >= |log| || x >= |replayed| || replayed[x] {
        PreorderIsFresh(log, exportAt, agenda[1..], replayed);
      } else {
        var inside := After(log, exportAt, x) + agenda[1..];
        PendingShrinks(replayed, replayed[x := true]);
        PreorderIsFresh(log, exportAt, inside, replayed[x := true]);
        FreshCons(log, replayed, x, Preorder(log, exportAt, inside, replayed[x := true]));
      }
    }
  }

  /** One finished piece of the agenda, in terms of the replay order. */
  lemma {:induction false} PreorderStep(log: seq<ExportEntry>, exportAt: map<nat, nat>, a: seq<nat>, b: seq<nat>,
                                        replayed: seq<bool>, replayed': seq<bool>, order: seq<nat>, order': seq<nat>)
    requires |replayed| == |replayed'| && Flags(replayed, order) && Flags(replayed', order')
    requires order' == order + Preorder(log, exportAt, a, replayed)
    ensures order + Preorder(log, exportAt, a + b, replayed) == order' + Preorder(log, exportAt, b, replayed')
  {
    PreorderConcat(log, exportAt, a, b, replayed);
    assert Marked(replayed, Preorder(log, exportAt, a, replayed)) == replayed';
  }

  /** One entry of a range is done: what it swept, and what is left of the order. */
  lemma {:induction false} EntryDone(log: seq<ExportEntry>, exportAt: map<nat, nat>, edge: int, at: nat, stop: nat,
                                     replayed: seq<bool>, replayed': seq<bool>, order: seq<nat>, order': seq<nat>)
    requires Nested(log) && edge < at < |log| == |replayed| && at < stop && Grows(replayed, replayed') && replayed'[at]
    requires Swept(log, replayed, edge, at) && Flags(replayed, order) && Flags(replayed', order')
    requires order' == order + Preorder(log, exportAt, [at], replayed)
    ensures at < log[at].end && Swept(log, replayed', edge, log[at].end)
    ensures order + Preorder(log, exportAt, TopLevel(log, at, stop), replayed)
         == order' + Preorder(log, exportAt, TopLevel(log, log[at].end, stop), replayed')
  {
    assert NestedAt(log, at);
    SweptGrows(log, replayed, replayed', edge, at);
    SweptFurther(log, replayed', edge, at);
    PreorderStep(log, exportAt, [at], TopLevel(log, log[at].end, stop), replayed, replayed', order, order');
  }

  // ------------------------------------------------------------ what a replay does after each entry

  /** The entry a visit leads to: the first one inside it, or, if it is empty, its module's first visit. */
  ghost predicate LeadsTo(log: seq<ExportEntry>, exportAt: map<nat, nat>, x: nat, y: nat)
    requires x < |log|
  {
    && log[x].step == Visit
    && if log[x].end > x + 1 then y == x + 1 else log[x].module_ != 0 && log[x].module_ in exportAt && exportAt[log[x].module_] == y + 1
  }

  /** Whatever the `k`-th entry leads to was met before, or comes right after it. */
  ghost predicate GoesOn(log: seq<ExportEntry>, exportAt: map<nat, nat>, order: seq<nat>, k: nat)
    requires k < |order|
  {
    forall y: nat :: order[k] < |log| && y < |log| && LeadsTo(log, exportAt, order[k], y) ==>
      y in order[..k + 1] || (k + 1 < |order| && order[k + 1] == y)
  }

  lemma {:induction false} PreorderGoesOn(log: seq<ExportEntry>, exportAt: map<nat, nat>, agenda: seq<nat>, replayed: seq<bool>, k: nat, y: nat)
    requires Nested(log) && |replayed| == |log| && y < |log| && k < |Preorder(log, exportAt, agenda, replayed)|
    requires Preorder(log, exportAt, agenda, replayed)[k] < |log| && LeadsTo(log, exportAt, Preorder(log, exportAt, agenda, replayed)[k], y)
    ensures var xs := Preorder(log, exportAt, agenda, replayed);
            replayed[y] || y in xs[..k + 1] || (k + 1 < |xs| && xs[k + 1] == y)
    decreases Pending(replayed), |agenda|
  {
    var x := agenda[0];
    if x >= |log| || replayed[x] {
      PreorderGoesOn(log, exportAt, agenda[1..], replayed, k, y);
    } else {
      var next, more := replayed[x := true], After(log, exportAt, x) + agenda[1..];
      PendingShrinks(replayed, next);
      var xs, ys := Preorder(log, exportAt, agenda, replayed), Preorder(log, exportAt, more, next);
      assert xs[..k + 1] == [x] + ys[..k];
      if k == 0 {
        assert NestedAt(log, y) && more[0] == y;
      } else {
        PreorderGoesOn(log, exportAt, more, next, k - 1, y);
      }
    }
  }

  // ------------------------------------------------------------ what the roots reach

  /** `r` has the entries of every root and, with an entry, all inside it and the first visit it jumps back to. */
  ghost predicate Reaching(log: seq<ExportEntry>, exportAt: map<nat, nat>, roots: seq<(nat, nat)>, r: set<nat>) {
    && (forall k, x: nat :: 0 <= k < |roots| && roots[k].0 <= x < roots[k].1 && x < |log| ==> x in r)
    && (forall x: nat, y: nat :: x in r && x < y < |log| && y < log[x].end ==> y in r)
    && (forall x: nat, y: nat {:trigger LeadsTo(log, exportAt, x, y)} ::
          x in r && x < |log| && y < |log| && LeadsTo(log, exportAt, x, y) ==> y in r)
  }

  /** The entries reached from the roots: the least such set. */
  ghost predicate IsReach(log: seq<ExportEntry>, exportAt: map<nat, nat>, roots: seq<(nat, nat)>, r: set<nat>) {
    && Reaching(log, exportAt, roots, r)
    && forall other: set<nat> {:trigger Reaching(log, exportAt, roots, other)} :: Reaching(log, exportAt, roots, other) ==> r <= other
  }

  ghost function RootAgenda(log: seq<ExportEntry>, roots: seq<(nat, nat)>): seq<nat> {
    if roots == [] then [] else TopLevel(log, roots[0].0, roots[0].1) + RootAgenda(log, roots[1..])
  }

  lemma {:induction false} AgendaSplit(log: seq<ExportEntry>, roots: seq<(nat, nat)>, n: nat)
    requires n <= |roots|
    ensures Agenda(log, roots) == RootAgenda(log, roots[..n]) + Agenda(log, roots[n..])
  {
    if n == 0 {
      assert roots[n..] == roots && roots[..n] == [];
    } else {
      AgendaSplit(log, roots[1..], n - 1);
      assert roots[1..][..n - 1] == roots[..n][1..] && roots[1..][n - 1..] == roots[n..];
    }
  }

  lemma {:induction false} TopLevelWithin(log: seq<ExportEntry>, start: nat, stop: nat, x: nat)
    requires x in TopLevel(log, start, stop)
    ensures start <= x < stop && x < |log|
    decreases stop - start
  {
    if x != start { TopLevelWithin(log, log[start].end, stop, x); }
  }

  /** Every entry of a range lies in one of its top-level entries. */
  lemma {:induction false} TopLevelCovers(log: seq<ExportEntry>, start: nat, stop: nat, y: nat) returns (x: nat)
    requires Nested(log) && start <= y < stop && y < |log|
    ensures x in TopLevel(log, start, stop) && x <= y < log[x].end
    decreases stop - start
  {
    assert NestedAt(log, start);
    x := start;
    if y >= log[start].end { x := TopLevelCovers(log, log[start].end, stop, y); }
  }

  lemma {:induction false} RootAgendaWithin(log: seq<ExportEntry>, roots: seq<(nat, nat)>, x: nat) returns (k: nat)
    requires x in RootAgenda(log, roots)
    ensures k < |roots| && roots[k].0 <= x < roots[k].1 && x < |log|
  {
    if x in TopLevel(log, roots[0].0, roots[0].1) {
      TopLevelWithin(log, roots[0].0, roots[0].1, x);
      k := 0;
    } else {
      k := RootAgendaWithin(log, roots[1..], x);
      k := k + 1;
    }
  }

  lemma {:induction false} RootAgendaHas(log: seq<ExportEntry>, roots: seq<(nat, nat)>, k: nat, x: nat)
    requires k < |roots| && x in TopLevel(log, roots[k].0, roots[k].1)
    ensures x in RootAgenda(log, roots)
    decreases k
  {
    if k > 0 { RootAgendaHas(log, roots[1..], k - 1, x); }
  }

  /** A pre-order meets its whole agenda. */
  lemma {:induction false} AgendaIsMet(log: seq<ExportEntry>, exportAt: map<nat, nat>, agenda: seq<nat>, replayed: seq<bool>, a: nat)
    requires |replayed| == |log| && a in agenda && a < |log|
    ensures replayed[a] || a in Preorder(log, exportAt, agenda, replayed)
    decreases Pending(replayed), |agenda|
  {
    var x := agenda[0];
    if a != x {
      if x >= |log| || replayed[x] {
        AgendaIsMet(log, exportAt, agenda[1..], replayed, a);
      } else {
        PendingShrinks(replayed, replayed[x := true]);
        AgendaIsMet(log, exportAt, After(log, exportAt, x) + agenda[1..], replayed[x := true], a);
      }
    }
  }

  /** And all that comes after each entry it meets. */
  lemma {:induction false} AfterIsMet(log: seq<ExportEntry>, exportAt: map<nat, nat>, agenda: seq<nat>, replayed: seq<bool>, x: nat, a: nat)
    requires |replayed| == |log| && x in Preorder(log, exportAt, agenda, replayed) && x < |log|
    requires a in After(log, exportAt, x) && a < |log|
    ensures replayed[a] || a in Preorder(log, exportAt, agenda, replayed)
    decreases Pending(replayed), |agenda|
  {
    var first := agenda[0];
    if first >= |log| || replayed[first] {
      AfterIsMet(log, exportAt, agenda[1..], replayed, x, a);
    } else {
      var next, more := replayed[first := true], After(log, exportAt, first) + agenda[1..];
      PendingShrinks(replayed, next);
      if x == first { AgendaIsMet(log, exportAt, more, next, a); } else { AfterIsMet(log, exportAt, more, next, x, a); }
    }
  }

  /** And nothing outside a set that has the agenda and what comes after its members. */
  lemma {:induction false} PreorderStaysIn(log: seq<ExportEntry>, exportAt: map<nat, nat>, agenda: seq<nat>, replayed: seq<bool>, r: set<nat>)
    requires |replayed| == |log| && (forall a :: a in agenda ==> a in r)
    requires forall x, a :: x in r && x < |log| && a in After(log, exportAt, x) ==> a in r
    ensures forall x :: x in Preorder(log, exportAt, agenda, replayed) ==> x in r
    decreases Pending(replayed), |agenda|
  {
    if agenda != [] {
      var x := agenda[0];
      assert x in agenda;
      if x >= |log| || replayed[x] {
        PreorderStaysIn(log, exportAt, agenda[1..], replayed, r);
      } else {
        PendingShrinks(replayed, replayed[x := true]);
        PreorderStaysIn(log, exportAt, After(log, exportAt, x) + agenda[1..], replayed[x := true], r);
      }
    }
  }

  lemma {:induction false} AfterStaysIn(log: seq<ExportEntry>, exportAt: map<nat, nat>, roots: seq<(nat, nat)>, r: set<nat>, x: nat, a: nat)
    requires FirstVisits(log, exportAt) && Reaching(log, exportAt, roots, r) && x in r && x < |log| && a in After(log, exportAt, x)
    ensures a in r
  {
    if log[x].end > x + 1 {
      TopLevelWithin(log, x + 1, log[x].end, a);
    } else {
      assert LeadsTo(log, exportAt, x, a);
    }
  }

  ghost predicate AfterClosed(log: seq<ExportEntry>, exportAt: map<nat, nat>, r: set<nat>) {
    forall x, a :: x in r && x < |log| && a in After(log, exportAt, x) && a < |log| ==> a in r
  }

  /** A set that has what comes after its members has all inside them. */
  lemma {:induction false} InsideIsMet(log: seq<ExportEntry>, exportAt: map<nat, nat>, r: set<nat>, x: nat, y: nat)
    requires Nested(log) && AfterClosed(log, exportAt, r) && x in r && x < y < |log| && y < log[x].end
    ensures y in r
    decreases y - x
  {
    assert NestedAt(log, x);
    var e := TopLevelCovers(log, x + 1, log[x].end, y);
    TopLevelWithin(log, x + 1, log[x].end, e);
    assert e in After(log, exportAt, x);
    if e < y { InsideIsMet(log, exportAt, r, e, y); }
  }

  lemma {:induction false} LeadIsMet(log: seq<ExportEntry>, exportAt: map<nat, nat>, r: set<nat>, x: nat, y: nat)
    requires Nested(log) && AfterClosed(log, exportAt, r) && x in r && x < |log| && y < |log| && LeadsTo(log, exportAt, x, y)
    ensures y in r
  {
    if log[x].end > x + 1 { InsideIsMet(log, exportAt, r, x, y); } else { assert y in After(log, exportAt, x); }
  }

  lemma {:induction false} RootIsMet(log: seq<ExportEntry>, exportAt: map<nat, nat>, roots: seq<(nat, nat)>, r: set<nat>, k: nat, x: nat)
    requires Nested(log) && AfterClosed(log, exportAt, r) && forall a :: a in RootAgenda(log, roots) && a < |log| ==> a in r
    requires k < |roots| && roots[k].0 <= x < roots[k].1 && x < |log|
    ensures x in r
  {
    var e := TopLevelCovers(log, roots[k].0, roots[k].1, x);
    RootAgendaHas(log, roots, k, e);
    if e < x { InsideIsMet(log, exportAt, r, e, x); }
  }

  lemma {:induction false} ClosedIsReaching(log: seq<ExportEntry>, exportAt: map<nat, nat>, roots: seq<(nat, nat)>, r: set<nat>)
    requires Nested(log) && AfterClosed(log, exportAt, r) && forall a :: a in RootAgenda(log, roots) && a < |log| ==> a in r
    ensures Reaching(log, exportAt, roots, r)
  {
    forall k, x: nat | 0 <= k < |roots| && roots[k].0 <= x < roots[k].1 && x < |log| ensures x in r {
      RootIsMet(log, exportAt, roots, r, k, x);
    }
    forall x: nat, y: nat | x in r && x < y < |log| && y < log[x].end ensures y in r { InsideIsMet(log, exportAt, r, x, y); }
    forall x: nat, y: nat | x in r && x < |log| && y < |log| && LeadsTo(log, exportAt, x, y) ensures y in r {
      LeadIsMet(log, exportAt, r, x, y);
    }
  }

  /** The pre-order from the roots meets exactly what they reach. */
  lemma {:induction false} RootsReach(log: seq<ExportEntry>, exportAt: map<nat, nat>, roots: seq<(nat, nat)>, replayed: seq<bool>)
    requires Nested(log) && FirstVisits(log, exportAt) && |replayed| == |log| && forall i :: 0 <= i < |log| ==> !replayed[i]
    ensures IsReach(log, exportAt, roots, Elems(Preorder(log, exportAt, RootAgenda(log, roots), replayed)))
  {
    var agenda := RootAgenda(log, roots);
    var r := Elems(Preorder(log, exportAt, agenda, replayed));
    forall x, a | x in r && x < |log| && a in After(log, exportAt, x) && a < |log| ensures a in r {
      AfterIsMet(log, exportAt, agenda, replayed, x, a);
    }
    forall a | a in agenda && a < |log| ensures a in r { AgendaIsMet(log, exportAt, agenda, replayed, a); }
    ClosedIsReaching(log, exportAt, roots, r);
    forall other: set<nat> | Reaching(log, exportAt, roots, other) ensures r <= other {
      ReachIsLeast(log, exportAt, roots, replayed, other);
    }
  }

  lemma {:induction false} ReachIsLeast(log: seq<ExportEntry>, exportAt: map<nat, nat>, roots: seq<(nat, nat)>, replayed: seq<bool>, r: set<nat>)
    requires FirstVisits(log, exportAt) && |replayed| == |log| && Reaching(log, exportAt, roots, r)
    ensures Elems(Preorder(log, exportAt, RootAgenda(log, roots), replayed)) <= r
  {
    forall a | a in RootAgenda(log, roots) ensures a in r { var k := RootAgendaWithin(log, roots, a); }
    forall x, a | x in r && x < |log| && a in After(log, exportAt, x)
      ensures a in r
    {
      AfterStaysIn(log, exportAt, roots, r, x, a);
    }
    PreorderStaysIn(log, exportAt, RootAgenda(log, roots), replayed, r);
  }

  /**
   * The first `n` roots come first: the replay starts with exactly what they reach,
   * and goes on with the next root's first entry unless that was reached too.
   */
  ghost predicate RootsFirst(log: seq<ExportEntry>, exportAt: map<nat, nat>, roots: seq<(nat, nat)>, order: seq<nat>, n: nat)
    requires n <= |roots|
  {
    exists p: nat :: p <= |order| && IsReach(log, exportAt, roots[..n], Elems(order[..p]))
                     && (n < |roots| && roots[n].0 < roots[n].1 && roots[n].0 < |log| ==>
                           roots[n].0 in order[..p] || (p < |order| && order[p] == roots[n].0))
  }

  lemma {:induction false} RootsComeFirst(log: seq<ExportEntry>, exportAt: map<nat, nat>, roots: seq<(nat, nat)>, replayed: seq<bool>, n: nat)
    requires Nested(log) && FirstVisits(log, exportAt) && |replayed| == |log| && n <= |roots|
    requires forall i :: 0 <= i < |log| ==> !replayed[i]
    ensures RootsFirst(log, exportAt, roots, Preorder(log, exportAt, Agenda(log, roots), replayed), n)
  {
    var a, b := RootAgenda(log, roots[..n]), Agenda(log, roots[n..]);
    AgendaSplit(log, roots, n);
    PreorderConcat(log, exportAt, a, b, replayed);
    var order, xs := Preorder(log, exportAt, Agenda(log, roots), replayed), Preorder(log, exportAt, a, replayed);
    assert order[..|xs|] == xs;
    RootsReach(log, exportAt, roots[..n], replayed);
    if n < |roots| && roots[n].0 < roots[n].1 && roots[n].0 < |log| {
      assert NestedAt(log, roots[n].0);
      assert b[0] == roots[n].0;
    }
  }

  lemma {:induction false} ReplayFollows(log: seq<ExportEntry>, exportAt: map<nat, nat>, roots: seq<(nat, nat)>, order: seq<nat>)
    requires Nested(log) && FirstVisits(log, exportAt) && order == Preorder(log, exportAt, Agenda(log, roots), seq(|log|, _ => false))
    ensures forall k: nat :: k < |order| ==> GoesOn(log, exportAt, order, k)
    ensures forall n: nat :: n <= |roots| ==> RootsFirst(log, exportAt, roots, order, n)
  {
    var none := seq(|log|, _ => false);
    forall k: nat | k < |order|
      ensures GoesOn(log, exportAt, order, k)
    {
      forall y: nat | order[k] < |log| && y < |log| && LeadsTo(log, exportAt, order[k], y)
        ensures y in order[..k + 1] || (k + 1 < |order| && order[k + 1] == y)
      {
        PreorderGoesOn(log, exportAt, Agenda(log, roots), none, k, y);
      }
    }
    forall n: nat | n <= |roots| ensures RootsFirst(log, exportAt, roots, order, n) { RootsComeFirst(log, exportAt, roots, none, n); }
  }

  // ------------------------------------------------------------ recording and replaying

  class GenCtx {
    var log: seq<ExportEntry>
    var roots: seq<(nat, nat)>
    var exportAt: map<nat, nat>
    var replayed: seq<bool>
    var tick: nat
    var scopedTick: map<nat, nat>
    var scopeTick: map<nat, nat>
    var exportOrder: seq<nat>
    /** The visits entered and not left, and the entries replayed so far, in replay order. */
    ghost var open: seq<nat>
    ghost var order: seq<nat>

    ghost predicate Roots()
      reads this
    {
      && (forall k :: 0 <= k < |roots| ==> roots[k].0 <= roots[k].1 <= |log|)
      && (forall m :: m in exportAt ==> 1 <= exportAt[m] <= |log|)
    }

    ghost predicate Recorded()
      reads this
    {
      Recording(log, open) && Roots() && FirstVisits(log, exportAt) && |replayed| == 0 && order == []
    }

    constructor ()
      ensures Recorded() && log == [] && open == [] && roots == [] && Given() == Counters(0, map[], map[], [])
    {
      log, roots, exportAt, replayed := [], [], map[], [];
      tick, scopedTick, scopeTick, exportOrder := 0, map[], map[], [];
      open, order := [], [];
    }

    /** `enterExport`: the entry's end is filled in by the matching leave. */
    method Enter() returns (at: nat)
      requires Recorded()
      modifies this`log, this`open
      ensures Recorded() && at == old(|log|) && open == old(open) + [at]
      ensures |log| == old(|log|) + 1 && log[..at] == old(log)
    {
      at := |log|;
      EnterKeepsRecording(log, open, ExportEntry(Visit, 0, 0, 0));
      log := log + [ExportEntry(Visit, 0, 0, 0)];
      open := open + [at];
    }

    /** `leaveExport` of the innermost open visit. */
    method Leave(at: nat, result: nat)
      requires Recorded() && open != [] && open[|open| - 1] == at
      modifies this`log, this`open, this`exportAt
      ensures Recorded() && open == old(open)[..|old(open)| - 1]
      ensures log == old(log)[at := ExportEntry(Visit, result, 0, |log|)]
      ensures exportAt == if result != 0 && result !in old(exportAt) && |log| > at + 1
                          then old(exportAt)[result := at + 1] else old(exportAt)
    {
      var end := |log|;
      LeaveKeepsRecording(log, open, ExportEntry(Visit, result, 0, end));
      log := log[at := ExportEntry(Visit, result, 0, end)];
      open := open[..|open| - 1];
      if result != 0 && result !in exportAt && end > at + 1 {
        exportAt := exportAt[result := at + 1];
      }
    }

    /** `logExport` of a use or a publish. */
    method Log(step: ExportStep, result: nat, scoped: nat)
      requires Recorded() && step != Visit
      modifies this`log
      ensures Recorded() && log == old(log) + [ExportEntry(step, result, scoped, old(|log|) + 1)]
    {
      PushKeepsRecording(log, open, ExportEntry(step, result, scoped, |log| + 1));
      log := log + [ExportEntry(step, result, scoped, |log| + 1)];
    }

    /** `markExportRoot`. */
    method MarkRoot(start: nat)
      requires Recorded() && start <= |log|
      modifies this`roots
      ensures Recorded() && roots == old(roots) + [(start, |log|)]
    {
      roots := roots + [(start, |log|)];
    }

    /** The bookkeeping of a replay: each replayed entry is in `order` once, and the counters follow `order`. */
    ghost predicate Counting()
      reads this
    {
      Nested(log) && Roots() && Ordered(log, replayed, order, Given())
    }

    ghost function Given(): Counters
      reads this
    {
      Counters(tick, scopedTick, scopeTick, exportOrder)
    }

    /** Mark an entry as replayed and hand out its tick. */
    method Mark(at: nat)
      requires Counting() && at < |log| && !replayed[at]
      modifies this`replayed, this`tick, this`scopedTick, this`scopeTick, this`exportOrder, this`order
      ensures Counting() && replayed == old(replayed)[at := true] && order == old(order) + [at]
    {
      OrderedStep(log, replayed, order, Given(), at);
      replayed := replayed[at := true];
      order := order + [at];
      match log[at].step {
        case Use =>
          tick := tick + 1;
          scopedTick := scopedTick[log[at].scoped := tick];
        case Publish =>
          tick := tick + 1;
          scopeTick := scopeTick[log[at].module_ := tick];
          exportOrder := exportOrder + [log[at].module_];
        case Visit =>
      }
      assert Given() == Counted(old(Given()), log[at]);
    }

    /** The recursive `replay`; `active` are the visits whose own replay is in progress. */
    method Replay(at: nat, ghost active: set<nat>)
      requires Counting() && at < |log| && Settled(log, replayed, active)
      modifies this`replayed, this`tick, this`scopedTick, this`scopeTick, this`exportOrder, this`order
      ensures Counting() && Settled(log, replayed, active) && replayed[at]
      ensures Grows(old(replayed), replayed)
      ensures order == old(order) + Preorder(log, exportAt, [at], old(replayed))
      decreases Pending(replayed), |log|
    {
      PreorderOne(log, exportAt, at, replayed, order);
      if replayed[at] {
        return;
      }
      BeginSettled(log, replayed, active, at);
      Mark(at);
      PendingShrinks(old(replayed), replayed);
      ReplayAfter(at, active);
      EndSettled(log, replayed, active, at);
    }

    /** What follows the mark: the inside of a visit, or the jump back to the module's first visit. */
    method ReplayAfter(at: nat, ghost active: set<nat>)
      requires Counting() && at < |log| && replayed[at] && Settled(log, replayed, active + {at})
      modifies this`replayed, this`tick, this`scopedTick, this`scopeTick, this`exportOrder, this`order
      ensures Counting() && Settled(log, replayed, active + {at}) && Swept(log, replayed, at, log[at].end)
      ensures Grows(old(replayed), replayed)
      ensures order == old(order) + Preorder(log, exportAt, After(log, exportAt, at), old(replayed))
      decreases Pending(replayed), |log| + 2
    {
      assert NestedAt(log, at);
      var entry := log[at];
      SweptNothing(log, replayed, at);
      if entry.step == Visit {
        if entry.end > at + 1 {
          ReplayInside(at, active);
        } else if entry.module_ != 0 && entry.module_ in exportAt {
          Replay(exportAt[entry.module_] - 1, active + {at});
          SweptNothing(log, replayed, at);
        }
      }
    }

    /** The loop over the entries directly inside a visit. */
    method ReplayInside(at: nat, ghost active: set<nat>)
      requires Counting() && at < |log| && Settled(log, replayed, active + {at})
      modifies this`replayed, this`tick, this`scopedTick, this`scopeTick, this`exportOrder, this`order
      ensures Counting() && Settled(log, replayed, active + {at}) && Swept(log, replayed, at, log[at].end)
      ensures Grows(old(replayed), replayed)
      ensures NestedAt(log, at) && order == old(order) + Preorder(log, exportAt, TopLevel(log, at + 1, log[at].end), old(replayed))
      decreases Pending(replayed), |log| + 1
    {
      assert NestedAt(log, at);
      var next := at + 1;
      while next < log[at].end
        invariant at < next <= log[at].end
        invariant Counting() && Settled(log, replayed, active + {at}) && Swept(log, replayed, at, next)
        invariant Grows(old(replayed), replayed)
        invariant order + Preorder(log, exportAt, TopLevel(log, next, log[at].end), replayed)
               == old(order) + Preorder(log, exportAt, TopLevel(log, at + 1, log[at].end), old(replayed))
      {
        ghost var before, order0 := replayed, order;
        PendingShrinks(old(replayed), replayed);
        assert NestedAt(log, next);
        Replay(next, active + {at});
        EntryDone(log, exportAt, at, next, log[at].end, before, replayed, order0, order);
        next := log[next].end;
      }
    }

    /** Step over a range at its top level, replaying each entry met. */
    method ReplayRange(start: nat, stop: nat)
      requires Counting() && stop <= |log| && Settled(log, replayed, {})
      modifies this`replayed, this`tick, this`scopedTick, this`scopeTick, this`exportOrder, this`order
      ensures Counting() && Settled(log, replayed, {}) && Grows(old(replayed), replayed)
      ensures Swept(log, replayed, start - 1, stop)
      ensures order == old(order) + Preorder(log, exportAt, TopLevel(log, start, stop), old(replayed))
    {
      var at := start;
      while at < stop
        invariant start <= at
        invariant Counting() && Settled(log, replayed, {}) && Swept(log, replayed, start - 1, at)
        invariant Grows(old(replayed), replayed)
        invariant order + Preorder(log, exportAt, TopLevel(log, at, stop), replayed)
               == old(order) + Preorder(log, exportAt, TopLevel(log, start, stop), old(replayed))
      {
        ghost var before, order0 := replayed, order;
        Replay(at, {});
        EntryDone(log, exportAt, start - 1, at, stop, before, replayed, order0, order);
        at := log[at].end;
      }
    }

    /** The loop over the marked roots. */
    method ReplayRoots()
      requires Counting() && Settled(log, replayed, {}) && order == []
      modifies this`replayed, this`tick, this`scopedTick, this`scopeTick, this`exportOrder, this`order
      ensures Counting() && Settled(log, replayed, {})
      ensures order + Preorder(log, exportAt, TopLevel(log, 0, |log|), replayed)
           == Preorder(log, exportAt, Agenda(log, roots), old(replayed))
    {
      for k := 0 to |roots|
        invariant Counting() && Settled(log, replayed, {})
        invariant k == 0 ==> roots[k..] == roots
        invariant order + Preorder(log, exportAt, Agenda(log, roots[k..]), replayed)
               == Preorder(log, exportAt, Agenda(log, roots), old(replayed))
      {
        ghost var before, order0 := replayed, order;
        AgendaStep(log, roots, k);
        ReplayRange(roots[k].0, roots[k].1);
        PreorderStep(log, exportAt, TopLevel(log, roots[k].0, roots[k].1), Agenda(log, roots[k + 1..]),
                     before, replayed, order0, order);
      }
      AgendaStep(log, roots, |roots|);
    }

    method ReplayAll()
      requires Counting() && Settled(log, replayed, {}) && order == []
      modifies this`replayed, this`tick, this`scopedTick, this`scopeTick, this`exportOrder, this`order
      ensures Counting() && forall i: nat :: i < |log| ==> i in order
      ensures order == Preorder(log, exportAt, Agenda(log, roots), old(replayed))
      ensures InLog(log, order) && Distinct(order)
    {
      ghost var flags := replayed;
      ReplayRoots();
      ReplayRange(0, |log|);
      AllInOrder(log, replayed, order, Given());
      PreorderIsFresh(log, exportAt, Agenda(log, roots), flags);
    }

    /** `replayExport`: roots first, then whatever they did not reach; every entry exactly once. */
    method ReplayExport()
      requires Recorded() && open == [] && tick == 0 && scopedTick == map[] && scopeTick == map[] && exportOrder == []
      modifies this`replayed, this`tick, this`scopedTick, this`scopeTick, this`exportOrder, this`order
      ensures Nested(log) && Roots() && FirstVisits(log, exportAt) && InLog(log, order)
      ensures Distinct(order) && (forall i: nat :: i < |log| ==> i in order)
      ensures order == Preorder(log, exportAt, Agenda(log, roots), seq(|log|, _ => false))
      ensures Given() == Tally(log, order)
      ensures tick == |Numbered(log, order)| && Distinct(Numbered(log, order))
      ensures exportOrder == Published(log, Numbered(log, order))
      ensures forall k: nat :: k < |order| ==> GoesOn(log, exportAt, order, k)
      ensures forall n: nat :: n <= |roots| ==> RootsFirst(log, exportAt, roots, order, n)
      ensures OwnObjects(log) ==> forall k :: 0 <= k < tick ==>
                HasTick(Given(), log[Numbered(log, order)[k]], k + 1)
    {
      RecordedIsNested(log);
      replayed := seq(|log|, _ => false);
      NothingReplayed(log, replayed);
      ReplayAll();
      TallyCounts(log, order);
      NumberedDistinct(log, order);
      ReplayFollows(log, exportAt, roots, order);
      if OwnObjects(log) { AllTicked(log, order); }
    }
  }

  /** The publish order is the order of the ticks the published scopes hold. */
  lemma {:induction false} PublishOrderIsTickOrder(log: seq<ExportEntry>, order: seq<nat>, i: nat, j: nat)
    requires InLog(log, order) && Distinct(order) && OwnObjects(log)
    requires i < j < |Tally(log, order).exportOrder|
    ensures var c := Tally(log, order);
            && c.exportOrder[i] in c.scopeTick && c.exportOrder[j] in c.scopeTick
            && c.scopeTick[c.exportOrder[i]] < c.scopeTick[c.exportOrder[j]]
  {
    TallyCounts(log, order);
    var xs := Numbered(log, order);
    var a, b := PublishedAt(log, xs, i, j);
    TallyTicks(log, order, a);
    TallyTicks(log, order, b);
  }

  /** The `i`-th and `j`-th published modules come from numbered entries in that order. */
  lemma {:induction false} PublishedAt(log: seq<ExportEntry>, xs: seq<nat>, i: nat, j: nat) returns (a: nat, b: nat)
    requires InLog(log, xs) && i < j < |Published(log, xs)|
    ensures a < b < |xs|
    ensures log[xs[a]].step == Publish && log[xs[a]].module_ == Published(log, xs)[i]
    ensures log[xs[b]].step == Publish && log[xs[b]].module_ == Published(log, xs)[j]
  {
    var init := xs[..|xs| - 1];
    if j < |Published(log, init)| {
      a, b := PublishedAt(log, init, i, j);
    } else {
      b := |xs| - 1;
      a := PublishedOne(log, init, i);
    }
  }

  lemma {:induction false} PublishedOne(log: seq<ExportEntry>, xs: seq<nat>, i: nat) returns (a: nat)
    requires InLog(log, xs) && i < |Published(log, xs)|
    ensures a < |xs| && log[xs[a]].step == Publish && log[xs[a]].module_ == Published(log, xs)[i]
  {
    var init := xs[..|xs| - 1];
    if i < |Published(log, init)| {
      a := PublishedOne(log, init, i);
    } else {
      a := |xs| - 1;
    }
  }
}
