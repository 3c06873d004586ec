/** In which order a replay meets the entries of one visit (command_scope.go). */
module ReplayOrder {
  import opened Prelude
  import opened ExportReplay

  /** `x` lies directly in visit `v`, in no visit nested in `v`. */
  ghost predicate DirectlyIn(log: seq<ExportEntry>, v: nat, x: nat) {
    v < |log| && log[v].step == Visit && x in TopLevel(log, v + 1, log[v].end)
  }

  /** `x` lies strictly inside visit `v`. */
  ghost predicate Inside(log: seq<ExportEntry>, v: nat, x: nat)
    requires v < |log|
  {
    v < x < log[v].end
  }

  lemma {:induction false} TopLevelRange(log: seq<ExportEntry>, start: nat, stop: nat)
    ensures forall i :: 0 <= i < |TopLevel(log, start, stop)| ==> start <= TopLevel(log, start, stop)[i] < stop
    ensures forall i :: 0 <= i < |TopLevel(log, start, stop)| ==> TopLevel(log, start, stop)[i] < |log|
    ensures forall i, j :: 0 <= i < j < |TopLevel(log, start, stop)| ==> TopLevel(log, start, stop)[i] < TopLevel(log, start, stop)[j]
    decreases stop - start
  {
    if start < stop && start < |log| && log[start].end > start { TopLevelRange(log, log[start].end, stop); }
  }

  /** Stepping over whole intervals from outside a visit never lands inside it. */
  lemma {:induction false} SteppingStaysOut(log: seq<ExportEntry>, start: nat, stop: nat, v: nat, x: nat)
    requires Nested(log) && v < |log| && !Inside(log, v, start) && x in TopLevel(log, start, stop)
    ensures !Inside(log, v, x)
    decreases stop - start
  {
    if x != start {
      assert NestedAt(log, start);
      SteppingStaysOut(log, log[start].end, stop, v, x);
    }
  }

  /** No entry lies directly in two visits. */
  lemma {:induction false} OneVisit(log: seq<ExportEntry>, v: nat, w: nat, x: nat)
    requires Nested(log) && DirectlyIn(log, v, x) && DirectlyIn(log, w, x)
    ensures v == w
  {
    TopLevelRange(log, v + 1, log[v].end);
    TopLevelRange(log, w + 1, log[w].end);
    if v < w { SteppingStaysOut(log, v + 1, log[v].end, w, x); }
    if w < v { SteppingStaysOut(log, w + 1, log[w].end, v, x); }
  }

  /** Two entries directly in one visit, in log order; the second is a use or a publish. */
  ghost predicate Siblings(log: seq<ExportEntry>, v: nat, first: nat, then_: nat) {
    first < then_ < |log| && DirectlyIn(log, v, first) && DirectlyIn(log, v, then_) && log[then_].step != Visit
  }

  /** In the order met, `first` comes before `then_`. */
  ghost predicate Before(xs: seq<nat>, first: nat, then_: nat) {
    forall k :: 0 <= k < |xs| && xs[k] == then_ ==> first in xs[..k]
  }

  lemma {:induction false} BeforeConcat(a: seq<nat>, b: seq<nat>, first: nat, then_: nat)
    requires Before(a, first, then_) && Before(b, first, then_)
    ensures Before(a + b, first, then_)
  {
    var ab := a + b;
    forall k | 0 <= k < |ab| && ab[k] == then_
      ensures first in ab[..k]
    {
      if k < |a| {
        assert ab[..k] == a[..k];
      } else {
        assert ab[..k] == a + b[..k - |a|];
      }
    }
  }

  lemma {:induction false} BeforeTail(xs: seq<nat>, first: nat, then_: nat)
    requires xs != [] && Before(xs, first, then_) && xs[0] != first
    ensures xs[0] != then_ && Before(xs[1..], first, then_)
  {
    assert xs[..0] == [];
    var ys := xs[1..];
    forall k | 0 <= k < |ys| && ys[k] == then_
      ensures first in ys[..k]
    {
      assert xs[k + 1] == then_ && first in xs[..k + 1];
      assert xs[..k + 1] == [xs[0]] + ys[..k];
    }
  }

  lemma {:induction false} BeforeCons(x: nat, ys: seq<nat>, first: nat, then_: nat)
    requires x != then_ && (x == first || Before(ys, first, then_))
    ensures Before([x] + ys, first, then_)
  {
    var xs := [x] + ys;
    forall k | 0 <= k < |xs| && xs[k] == then_
      ensures first in xs[..k]
    {
      assert k > 0 && xs[0] == x && xs[..k] == [x] + ys[..k - 1];
    }
  }

  /** The inside of a visit, or a jump back, keeps the two entries in order. */
  lemma {:induction false} AfterIsOrdered(log: seq<ExportEntry>, exportAt: map<nat, nat>, x: nat, v: nat, first: nat, then_: nat)
    requires Nested(log) && FirstVisits(log, exportAt) && x < |log|
    requires Siblings(log, v, first, then_)
    ensures Before(After(log, exportAt, x), first, then_)
  {
    var xs := After(log, exportAt, x);
    if then_ in xs && log[x].end > x + 1 {
      OneVisit(log, v, x, then_);
      var top := TopLevel(log, v + 1, log[v].end);
      TopLevelRange(log, v + 1, log[v].end);
      forall k | 0 <= k < |xs| && xs[k] == then_
        ensures first in xs[..k]
      {
        var j :| 0 <= j < |top| && top[j] == first;
        assert j < k && xs[..k][j] == first;
      }
    }
  }

  lemma {:induction false} PreorderIsOrdered(log: seq<ExportEntry>, exportAt: map<nat, nat>, agenda: seq<nat>, replayed: seq<bool>,
                                             v: nat, first: nat, then_: nat)
    requires Nested(log) && FirstVisits(log, exportAt) && |replayed| == |log|
    requires Siblings(log, v, first, then_)
    requires replayed[first] || Before(agenda, first, then_)
    ensures replayed[first] || Before(Preorder(log, exportAt, agenda, replayed), first, then_)
    decreases Pending(replayed), |agenda|
  {
    if agenda != [] && !replayed[first] {
      var x := agenda[0];
      if x >= |log| || replayed[x] {
        BeforeTail(agenda, first, then_);
        PreorderIsOrdered(log, exportAt, agenda[1..], replayed, v, first, then_);
      } else {
        var next, more := replayed[x := true], After(log, exportAt, x) + agenda[1..];
        PendingShrinks(replayed, next);
        if x != first {
          BeforeTail(agenda, first, then_);
          AfterIsOrdered(log, exportAt, x, v, first, then_);
          BeforeConcat(After(log, exportAt, x), agenda[1..], first, then_);
          PreorderIsOrdered(log, exportAt, more, next, v, first, then_);
        }
        BeforeCons(x, Preorder(log, exportAt, more, next), first, then_);
      }
    }
  }

  /** No root starts inside visit `v`. */
  ghost predicate RootsOutside(log: seq<ExportEntry>, roots: seq<(nat, nat)>, v: nat)
    requires v < |log|
  {
    forall k :: 0 <= k < |roots| ==> !Inside(log, v, roots[k].0)
  }

  lemma {:induction false} AgendaStaysOut(log: seq<ExportEntry>, roots: seq<(nat, nat)>, v: nat, x: nat)
    requires Nested(log) && v < |log| && RootsOutside(log, roots, v) && x in Agenda(log, roots)
    ensures !Inside(log, v, x)
    decreases |roots|
  {
    if roots == [] {
      SteppingStaysOut(log, 0, |log|, v, x);
    } else if x in TopLevel(log, roots[0].0, roots[0].1) {
      SteppingStaysOut(log, roots[0].0, roots[0].1, v, x);
    } else {
      AgendaStaysOut(log, roots[1..], v, x);
    }
  }

  /** Jump-backs and roots notwithstanding, a replay meets the entries of one visit in log order. */
  lemma {:induction false} SiblingsInOrder(log: seq<ExportEntry>, exportAt: map<nat, nat>, roots: seq<(nat, nat)>,
                                           v: nat, first: nat, then_: nat)
    requires Nested(log) && FirstVisits(log, exportAt) && Siblings(log, v, first, then_) && RootsOutside(log, roots, v)
    ensures Before(Preorder(log, exportAt, Agenda(log, roots), seq(|log|, _ => false)), first, then_)
  {
    var agenda := Agenda(log, roots);
    TopLevelRange(log, v + 1, log[v].end);
    if then_ in agenda { AgendaStaysOut(log, roots, v, then_); }
    PreorderIsOrdered(log, exportAt, agenda, seq(|log|, _ => false), v, first, then_);
  }

  lemma {:induction false} BeforeInit(xs: seq<nat>, first: nat, then_: nat)
    requires xs != [] && Before(xs, first, then_)
    ensures Before(xs[..|xs| - 1], first, then_)
  {
    var init := xs[..|xs| - 1];
    forall k | 0 <= k < |init| && init[k] == then_ ensures first in init[..k] { assert init[..k] == xs[..k]; }
  }

  lemma {:induction false} NumberedInit(log: seq<ExportEntry>, order: seq<nat>)
    requires InLog(log, order) && order != []
    ensures InLog(log, order[..|order| - 1])
    ensures Numbered(log, order) == Numbered(log, order[..|order| - 1]) +
                                    if log[order[|order| - 1]].step == Visit then [] else [order[|order| - 1]]
  {
  }

  lemma {:induction false} NumberedBefore(log: seq<ExportEntry>, order: seq<nat>, first: nat, then_: nat) returns (a: nat, b: nat)
    requires InLog(log, order) && first < |log| && then_ < |log| && log[first].step != Visit && log[then_].step != Visit
    requires then_ in order && Before(order, first, then_)
    ensures a < b < |Numbered(log, order)| && Numbered(log, order)[a] == first && Numbered(log, order)[b] == then_
  {
    var init, last := order[..|order| - 1], order[|order| - 1];
    NumberedInit(log, order);
    if then_ in init {
      BeforeInit(order, first, then_);
      a, b := NumberedBefore(log, init, first, then_);
    } else {
      assert last == then_ && first in init;
      a := NumberedAt(log, init, first);
      b := |Numbered(log, init)|;
    }
  }

  lemma {:induction false} NumberedAt(log: seq<ExportEntry>, order: seq<nat>, x: nat) returns (a: nat)
    requires InLog(log, order) && x in order && x < |log| && log[x].step != Visit
    ensures a < |Numbered(log, order)| && Numbered(log, order)[a] == x
  {
    NumberedMembers(log, order, x);
    a :| 0 <= a < |Numbered(log, order)| && Numbered(log, order)[a] == x;
  }

  /** So of two uses or publishes of one visit, the earlier one gets the smaller tick. */
  lemma {:induction false} SiblingTicks(log: seq<ExportEntry>, exportAt: map<nat, nat>, roots: seq<(nat, nat)>, order: seq<nat>,
                                        v: nat, first: nat, then_: nat) returns (t: nat, u: nat)
    requires Nested(log) && FirstVisits(log, exportAt) && Siblings(log, v, first, then_) && RootsOutside(log, roots, v)
    requires order == Preorder(log, exportAt, Agenda(log, roots), seq(|log|, _ => false))
    requires InLog(log, order) && Distinct(order) && then_ in order && OwnObjects(log) && log[first].step != Visit
    ensures t < u && HasTick(Tally(log, order), log[first], t) && HasTick(Tally(log, order), log[then_], u)
  {
    SiblingsInOrder(log, exportAt, roots, v, first, then_);
    var a, b := NumberedBefore(log, order, first, then_);
    TallyTicks(log, order, a);
    TallyTicks(log, order, b);
    t, u := a + 1, b + 1;
  }
}
