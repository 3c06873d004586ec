/**
 * Deferred emission (codegen_registry.go, emit_context.go, emit_pch.go, gen.go):
 * a protocol of nested calls, modelled as steps over an explicit call stack
 * because emission bodies are arbitrary callbacks.
 */
module PendingEmits {
  import opened Prelude

  /** `PendingEmit`: disarmed means `fn` and `emitter` are both nil. */
  datatype Pending = Pending(armed: bool, frame: Option<nat>, publication: bool)

  /**
   * What a running call will undo when it ends: a fired emission, or a section that
   * raised `deferPublication`. A guarded section lowers it again in a deferred call;
   * a bare one (emit_fetch.go, emit_foreign_tools.go) only when it is not left by a throw.
   */
  datatype Call = Emission(id: nat, frame: Option<nat>, publication: bool) | Section(guarded: bool)

  /**
   * `pins`, `runs` and `leaks` only record history: explicit `frame.pending++`, the
   * emissions whose body has started, and the bare sections left by a throw.
   */
  datatype State = State(
    pendings: seq<Pending>,
    onUse: map<nat, nat>,
    framePending: map<nat, int>,
    deferPublication: nat,
    stack: seq<Call>,
    pins: map<nat, nat>,
    runs: seq<nat>,
    leaks: nat)

  const INITIAL := State([], map[], map[], 0, [], map[], [], 0)

  datatype Step =
    | Create(frame: Option<nat>)        // pendingEmit, pendingEmitter
    | Attach(file: nat, id: nat)        // a registration's OnUse; many files may share one emission
    | Pin(pinned: nat)                  // emit_pch's frame.pending++
    | Use(used: nat)                    // use, fireGenerated
    | Fire(fired: nat)                  // a direct fire, as the include fixer does
    | Defer(guarded: bool)              // a section that raises deferPublication
    | Return                            // the innermost call ends
    | Throw                             // the innermost call is left by a throw

  function Get(m: map<nat, int>, k: nat): int { if k in m then m[k] else 0 }
  function Add(m: map<nat, int>, f: Option<nat>, d: int): map<nat, int> {
    if f.None? then m else m[f.value := Get(m, f.value) + d]
  }

  /** `fire`: a disarmed record is left alone; an armed one is cleared before its body starts. */
  function Fired(s: State, id: nat): State
    requires id < |s.pendings|
  {
    var p := s.pendings[id];
    if !p.armed then s
    else
      s.(pendings := s.pendings[id := Pending(false, None, false)],
         stack := s.stack + [Emission(id, p.frame, p.publication)],
         deferPublication := s.deferPublication + (if p.publication then 1 else 0),
         runs := s.runs + [id])
  }

  /** The call holds `deferPublication` up. */
  predicate Raises(call: Call) {
    call.Section? || call.publication
  }

  /** A throw that leaves a bare section. */
  predicate Leaks(s: State, step: Step) {
    step.Throw? && s.stack != [] && s.stack[|s.stack| - 1] == Section(false)
  }

  /** The innermost call is over, and what it deferred is done. */
  function Popped(s: State): State
    requires s.stack != [] && (Raises(s.stack[|s.stack| - 1]) ==> s.deferPublication > 0)
  {
    var top := s.stack[|s.stack| - 1];
    s.(stack := s.stack[..|s.stack| - 1],
       framePending := if top.Emission? then Add(s.framePending, top.frame, -1) else s.framePending,
       deferPublication := s.deferPublication - (if Raises(top) then 1 else 0))
  }

  ghost predicate Enabled(s: State, step: Step) {
    match step
    case Attach(_, id) => id < |s.pendings|
    case Use(file) => file in s.onUse ==> s.onUse[file] < |s.pendings|
    case Fire(id) => id < |s.pendings|
    case Return => s.stack != [] && (Raises(s.stack[|s.stack| - 1]) ==> s.deferPublication > 0)
    case Throw => s.stack != [] && (Raises(s.stack[|s.stack| - 1]) ==> s.deferPublication > 0)
    case _ => true
  }

  function Next(s: State, step: Step): State
    requires Enabled(s, step)
  {
    match step
    case Create(frame) =>
      s.(pendings := s.pendings + [Pending(true, frame, s.deferPublication > 0)],
         framePending := Add(s.framePending, frame, 1))
    case Attach(file, id) => s.(onUse := s.onUse[file := id])
    case Pin(f) =>
      s.(framePending := Add(s.framePending, Some(f), 1),
         pins := s.pins[f := (if f in s.pins then s.pins[f] else 0) + 1])
    case Use(file) =>
      if file in s.onUse then Fired(s.(onUse := s.onUse - {file}), s.onUse[file]) else s
    case Fire(id) => Fired(s, id)
    case Defer(guarded) => s.(stack := s.stack + [Section(guarded)], deferPublication := s.deferPublication + 1)
    case Return => Popped(s)
    case Throw =>
      if Leaks(s, Throw) then s.(stack := s.stack[..|s.stack| - 1], leaks := s.leaks + 1) else Popped(s)
  }

  // ------------------------------------------------------------ counting

  ghost function Unfired(ps: seq<Pending>, f: nat): nat {
    if ps == [] then 0
    else Unfired(ps[..|ps| - 1], f) + (if ps[|ps| - 1].armed && ps[|ps| - 1].frame == Some(f) then 1 else 0)
  }

  ghost function Running(stack: seq<Call>, f: nat): nat {
    if stack == [] then 0
    else Running(stack[..|stack| - 1], f) + (if stack[|stack| - 1].Emission? && stack[|stack| - 1].frame == Some(f) then 1 else 0)
  }

  /** How many running calls hold `deferPublication` up. */
  ghost function Deferring(stack: seq<Call>): nat {
    if stack == [] then 0
    else Deferring(stack[..|stack| - 1]) + (if Raises(stack[|stack| - 1]) then 1 else 0)
  }

  lemma {:induction false} UnfiredDisarm(ps: seq<Pending>, i: nat, f: nat)
    requires i < |ps| && ps[i].armed
    ensures Unfired(ps[i := Pending(false, None, false)], f) == Unfired(ps, f) - (if ps[i].frame == Some(f) then 1 else 0)
  {
    var qs := ps[i := Pending(false, None, false)];
    if i == |ps| - 1 {
      assert qs[..i] == ps[..i];
    } else {
      assert qs[..|ps| - 1] == ps[..|ps| - 1][i := Pending(false, None, false)];
      UnfiredDisarm(ps[..|ps| - 1], i, f);
    }
  }

  ghost predicate FrameAt(s: State, f: nat) {
    Get(s.framePending, f) == Unfired(s.pendings, f) + Running(s.stack, f) + (if f in s.pins then s.pins[f] else 0)
  }

  /** The invariant of the protocol. */
  ghost predicate Inv(s: State) {
    && (forall f {:trigger FrameAt(s, f)} :: FrameAt(s, f))
    && s.deferPublication == Deferring(s.stack) + s.leaks
    && (forall file :: file in s.onUse ==> s.onUse[file] < |s.pendings|)
    && (forall i :: 0 <= i < |s.runs| ==> s.runs[i] < |s.pendings| && !s.pendings[s.runs[i]].armed)
    && (forall i, j :: 0 <= i < j < |s.runs| ==> s.runs[i] != s.runs[j])
    && (forall id :: 0 <= id < |s.pendings| && !s.pendings[id].armed ==> id in s.runs)
  }

  lemma {:induction false} FiredKeepsInv(s: State, id: nat)
    requires Inv(s) && id < |s.pendings|
    ensures Inv(Fired(s, id))
  {
    var p, t := s.pendings[id], Fired(s, id);
    if p.armed {
      assert t.stack[..|t.stack| - 1] == s.stack;
      forall f
        ensures FrameAt(t, f)
      {
        assert FrameAt(s, f);
        UnfiredDisarm(s.pendings, id, f);
      }
    }
  }

  lemma {:induction false} CreateKeepsInv(s: State, frame: Option<nat>)
    requires Inv(s)
    ensures Inv(Next(s, Create(frame)))
  {
    var t := Next(s, Create(frame));
    assert t.pendings[..|t.pendings| - 1] == s.pendings;
    forall f ensures FrameAt(t, f) { assert FrameAt(s, f); }
  }

  lemma {:induction false} EndKeepsInv(s: State, step: Step)
    requires Inv(s) && Enabled(s, step) && (step.Return? || step.Throw?)
    ensures Inv(Next(s, step))
  {
    var t := Next(s, step);
    forall f ensures FrameAt(t, f) { assert FrameAt(s, f); }
  }

  lemma {:induction false} UseKeepsInv(s: State, file: nat)
    requires Inv(s)
    ensures Inv(Next(s, Use(file)))
  {
    if file in s.onUse {
      var u := s.(onUse := s.onUse - {file});
      forall f ensures FrameAt(u, f) { assert FrameAt(s, f); }
      FiredKeepsInv(u, s.onUse[file]);
    }
  }

  /** Steps that neither fire nor return. */
  lemma {:induction false} OtherKeepsInv(s: State, step: Step)
    requires Inv(s) && Enabled(s, step) && (step.Attach? || step.Pin? || step.Defer?)
    ensures Inv(Next(s, step))
  {
    var t := Next(s, step);
    assert step.Defer? ==> t.stack[..|t.stack| - 1] == s.stack;
    forall f ensures FrameAt(t, f) { assert FrameAt(s, f); }
  }

  lemma {:induction false} StepKeepsInv(s: State, step: Step)
    requires Inv(s) && Enabled(s, step)
    ensures Inv(Next(s, step))
  {
    match step
    case Use(file) => UseKeepsInv(s, file);
    case Fire(id) => FiredKeepsInv(s, id);
    case Create(frame) => CreateKeepsInv(s, frame);
    case Return => EndKeepsInv(s, step);
    case Throw => EndKeepsInv(s, step);
    case _ => OtherKeepsInv(s, step);
  }

  // ------------------------------------------------------------ whole runs

  ghost predicate IsRun(states: seq<State>, steps: seq<Step>) {
    && |states| == |steps| + 1
    && (forall i :: 0 <= i < |steps| ==> Enabled(states[i], steps[i]) && states[i + 1] == Next(states[i], steps[i]))
  }

  lemma {:induction false} RunKeepsInv(states: seq<State>, steps: seq<Step>, k: nat)
    requires IsRun(states, steps) && states[0] == INITIAL && k < |states|
    ensures Inv(states[k])
  {
    if k > 0 {
      RunKeepsInv(states, steps, k - 1);
      StepKeepsInv(states[k - 1], steps[k - 1]);
    }
  }

  /** However uses nest and repeat, no emission body starts twice. */
  lemma {:induction false} EachEmissionRunsOnce(states: seq<State>, steps: seq<Step>, k: nat, i: nat, j: nat)
    requires IsRun(states, steps) && states[0] == INITIAL && k < |states|
    requires i < j < |states[k].runs|
    ensures states[k].runs[i] != states[k].runs[j]
  {
    RunKeepsInv(states, steps, k);
  }

  /** The emission a step asks for: that of a used file, or one fired directly. */
  ghost function Demanded(s: State, step: Step): Option<nat> {
    match step
    case Use(file) => if file in s.onUse then Some(s.onUse[file]) else None
    case Fire(id) => Some(id)
    case _ => None
  }

  /** The first demand for an emission starts its body, on top of all running calls; nothing else starts one. */
  lemma {:induction false} FirstUseEmits(states: seq<State>, steps: seq<Step>, k: nat)
    requires IsRun(states, steps) && states[0] == INITIAL && k < |steps|
    ensures var s, t, x := states[k], states[k + 1], Demanded(states[k], steps[k]);
            if x.Some? && x.value !in s.runs then
              && t.runs == s.runs + [x.value]
              && |t.stack| == |s.stack| + 1 && s.stack <= t.stack && t.stack[|s.stack|].Emission? && t.stack[|s.stack|].id == x.value
            else t.runs == s.runs
    ensures steps[k].Use? ==> steps[k].used !in states[k + 1].onUse
  {
    RunKeepsInv(states, steps, k);
    assert states[k + 1] == Next(states[k], steps[k]);
  }

  /** A file that was attached to an emission and neither attached nor used since runs it when it is used. */
  lemma {:induction false} AttachedRuns(states: seq<State>, steps: seq<Step>, a: nat, k: nat)
    requires IsRun(states, steps) && states[0] == INITIAL && a < k < |steps| && steps[a].Attach? && steps[k] == Use(steps[a].file)
    requires forall i :: a < i < k ==> steps[i] != Use(steps[a].file) && !(steps[i].Attach? && steps[i].file == steps[a].file)
    ensures steps[a].id in states[k + 1].runs
  {
    AttachedStays(states, steps, a, k);
    FirstUseEmits(states, steps, k);
  }

  lemma {:induction false} AttachedStays(states: seq<State>, steps: seq<Step>, a: nat, k: nat)
    requires IsRun(states, steps) && a < k <= |steps| && steps[a].Attach?
    requires forall i :: a < i < k ==> steps[i] != Use(steps[a].file) && !(steps[i].Attach? && steps[i].file == steps[a].file)
    ensures steps[a].file in states[k].onUse && states[k].onUse[steps[a].file] == steps[a].id
    decreases k
  {
    assert states[k - 1 + 1] == Next(states[k - 1], steps[k - 1]);
    if a + 1 < k { AttachedStays(states, steps, a, k - 1); }
  }

  lemma {:induction false} RunningIsKnown(states: seq<State>, steps: seq<Step>, k: nat)
    requires IsRun(states, steps) && states[0] == INITIAL && k < |states|
    ensures forall i :: 0 <= i < |states[k].stack| && states[k].stack[i].Emission? ==> states[k].stack[i].id < |states[k].pendings|
  {
    if k > 0 {
      RunningIsKnown(states, steps, k - 1);
      assert states[k - 1 + 1] == Next(states[k - 1], steps[k - 1]);
    }
  }

  /** Until it fires, and while it runs, emission `id` holds this frame and this deferral. */
  ghost predicate Holds(s: State, id: nat, frame: Option<nat>, deferred: bool) {
    && id < |s.pendings|
    && (s.pendings[id].armed ==> s.pendings[id] == Pending(true, frame, deferred))
    && (forall i :: 0 <= i < |s.stack| && s.stack[i].Emission? && s.stack[i].id == id ==> s.stack[i] == Emission(id, frame, deferred))
  }

  lemma {:induction false} StepKeepsHolds(s: State, step: Step, id: nat, frame: Option<nat>, deferred: bool)
    requires Enabled(s, step) && Holds(s, id, frame, deferred)
    ensures Holds(Next(s, step), id, frame, deferred)
  {
  }

  /** An emission runs under the frame, and the deferral, that it was created under. */
  lemma {:induction false} RunsAsCreated(states: seq<State>, steps: seq<Step>, c: nat, k: nat)
    requires IsRun(states, steps) && states[0] == INITIAL && c < k < |states| && steps[c].Create?
    ensures Holds(states[k], |states[c].pendings|, steps[c].frame, states[c].deferPublication > 0)
    decreases k
  {
    if c + 1 < k {
      RunsAsCreated(states, steps, c, k - 1);
      StepKeepsHolds(states[k - 1], steps[k - 1], |states[c].pendings|, steps[c].frame, states[c].deferPublication > 0);
    } else {
      RunningIsKnown(states, steps, c);
    }
  }

  lemma {:induction false} DeferringCounts(stack: seq<Call>, i: nat)
    requires i < |stack| && Raises(stack[i])
    ensures Deferring(stack) > 0
  {
    if i < |stack| - 1 { DeferringCounts(stack[..|stack| - 1], i); }
  }

  /** So publication is deferred all the time an emission runs that was created while it was. */
  lemma {:induction false} DeferredRunsDeferred(states: seq<State>, steps: seq<Step>, c: nat, k: nat, i: nat)
    requires IsRun(states, steps) && states[0] == INITIAL && c < k < |states| && steps[c].Create?
    requires states[c].deferPublication > 0
    requires i < |states[k].stack| && states[k].stack[i].Emission? && states[k].stack[i].id == |states[c].pendings|
    ensures states[k].deferPublication > 0
  {
    RunsAsCreated(states, steps, c, k);
    RunKeepsInv(states, steps, k);
    DeferringCounts(states[k].stack, i);
  }

  /** `frame.pending` counts the frame's unfired and running emissions plus its pins. */
  lemma {:induction false} FramePendingCounts(states: seq<State>, steps: seq<Step>, k: nat, f: nat)
    requires IsRun(states, steps) && states[0] == INITIAL && k < |states|
    ensures Get(states[k].framePending, f) ==
            Unfired(states[k].pendings, f) + Running(states[k].stack, f)
            + (if f in states[k].pins then states[k].pins[f] else 0)
  {
    RunKeepsInv(states, steps, k);
    assert FrameAt(states[k], f);
  }

  /** How often the first `k` steps pin frame `f`. */
  ghost function PinSteps(steps: seq<Step>, k: nat, f: nat): nat
    requires k <= |steps|
  {
    if k == 0 then 0 else PinSteps(steps, k - 1, f) + if steps[k - 1] == Pin(f) then 1 else 0
  }

  /** The pins on a frame are the pin steps taken. */
  lemma {:induction false} PinsCount(states: seq<State>, steps: seq<Step>, k: nat, f: nat)
    requires IsRun(states, steps) && states[0] == INITIAL && k < |states|
    ensures (if f in states[k].pins then states[k].pins[f] else 0) == PinSteps(steps, k, f)
  {
    if k > 0 {
      PinsCount(states, steps, k - 1, f);
      assert states[k - 1 + 1] == Next(states[k - 1], steps[k - 1]);
    }
  }

  lemma {:induction false} UnfiredCounts(ps: seq<Pending>, f: nat, i: nat)
    requires i < |ps| && ps[i].armed && ps[i].frame == Some(f)
    ensures Unfired(ps, f) > 0
  {
    if i < |ps| - 1 { UnfiredCounts(ps[..|ps| - 1], f, i); }
  }

  lemma {:induction false} RunningCounts(stack: seq<Call>, f: nat, i: nat)
    requires i < |stack| && stack[i].Emission? && stack[i].frame == Some(f)
    ensures Running(stack, f) > 0
  {
    if i < |stack| - 1 { RunningCounts(stack[..|stack| - 1], f, i); }
  }

  /** `pushFrame` reuses a frame only when its count is zero: then nothing unfired or running still refers to it. */
  lemma {:induction false} ReusedFrameIsFree(states: seq<State>, steps: seq<Step>, k: nat, f: nat)
    requires IsRun(states, steps) && states[0] == INITIAL && k < |states|
    requires Get(states[k].framePending, f) == 0
    ensures forall i :: 0 <= i < |states[k].pendings| && states[k].pendings[i].armed ==> states[k].pendings[i].frame != Some(f)
    ensures forall i :: 0 <= i < |states[k].stack| && states[k].stack[i].Emission? ==> states[k].stack[i].frame != Some(f)
  {
    var s := states[k];
    FramePendingCounts(states, steps, k, f);
    forall i | 0 <= i < |s.pendings| && s.pendings[i].armed
      ensures s.pendings[i].frame != Some(f)
    {
      if s.pendings[i].frame == Some(f) { UnfiredCounts(s.pendings, f, i); }
    }
    forall i | 0 <= i < |s.stack| && s.stack[i].Emission?
      ensures s.stack[i].frame != Some(f)
    {
      if s.stack[i].frame == Some(f) { RunningCounts(s.stack, f, i); }
    }
  }

  lemma {:induction false} StepLeaks(s: State, step: Step)
    requires Enabled(s, step)
    ensures Next(s, step).leaks == s.leaks + if Leaks(s, step) then 1 else 0
  {
  }

  lemma {:induction false} LeaksCount(states: seq<State>, steps: seq<Step>, before: nat, after: nat)
    requires IsRun(states, steps) && before <= after < |states|
    ensures states[before].leaks <= states[after].leaks
    ensures states[before].leaks == states[after].leaks <==> forall i :: before <= i < after ==> !Leaks(states[i], steps[i])
    decreases after
  {
    if before < after {
      LeaksCount(states, steps, before, after - 1);
      StepLeaks(states[after - 1], steps[after - 1]);
      assert states[after - 1 + 1] == Next(states[after - 1], steps[after - 1]);
    }
  }

  /** When the call stack is back where it was, so is `deferPublication`, exactly if no throw left a bare section in between. */
  lemma {:induction false} DeferPublicationBalances(states: seq<State>, steps: seq<Step>, before: nat, after: nat)
    requires IsRun(states, steps) && states[0] == INITIAL && before <= after < |states|
    requires states[before].stack == states[after].stack
    ensures states[before].deferPublication == states[after].deferPublication <==>
            forall i :: before <= i < after ==> !Leaks(states[i], steps[i])
  {
    RunKeepsInv(states, steps, before);
    RunKeepsInv(states, steps, after);
    LeaksCount(states, steps, before, after);
  }

  /** A bare section left by a throw: the stack is empty again, and the counter stays up. */
  lemma {:induction false} ThrowLeaks() returns (states: seq<State>, steps: seq<Step>)
    ensures steps == [Defer(false), Throw] && IsRun(states, steps) && states[0] == INITIAL
    ensures states[2].stack == [] && states[2].deferPublication == 1
  {
    var raised := Next(INITIAL, Defer(false));
    assert raised.stack == [Section(false)];
    states, steps := [INITIAL, raised, Next(raised, Throw)], [Defer(false), Throw];
  }

  /** No call underflows the counter: the innermost call can always end, either way. */
  lemma {:induction false} EndIsAlwaysEnabled(states: seq<State>, steps: seq<Step>, k: nat)
    requires IsRun(states, steps) && states[0] == INITIAL && k < |states| && states[k].stack != []
    ensures Enabled(states[k], Return) && Enabled(states[k], Throw)
  {
    RunKeepsInv(states, steps, k);
  }

  /** Re-entering an emission from its own body, or through another file that shares it, does nothing. */
  lemma {:induction false} ReentryIsIgnored(states: seq<State>, steps: seq<Step>, k: nat, id: nat)
    requires IsRun(states, steps) && states[0] == INITIAL && k < |states| && id in states[k].runs
    ensures id < |states[k].pendings| && Next(states[k], Fire(id)) == states[k]
    ensures forall file :: file in states[k].onUse && states[k].onUse[file] == id ==>
              Next(states[k], Use(file)) == states[k].(onUse := states[k].onUse - {file})
  {
    RunKeepsInv(states, steps, k);
  }

  /** A quiet frame: with nothing running and every emission fired, only the pins are left on the count. */
  lemma {:induction false} QuietFrame(states: seq<State>, steps: seq<Step>, k: nat, f: nat)
    requires IsRun(states, steps) && states[0] == INITIAL && k < |states|
    requires states[k].stack == [] && forall i :: 0 <= i < |states[k].pendings| ==> !states[k].pendings[i].armed
    ensures Get(states[k].framePending, f) == if f in states[k].pins then states[k].pins[f] else 0
    ensures states[k].deferPublication == states[k].leaks
  {
    RunKeepsInv(states, steps, k);
    FramePendingCounts(states, steps, k, f);
    NoneUnfired(states[k].pendings, f);
  }

  lemma {:induction false} NoneUnfired(ps: seq<Pending>, f: nat)
    requires forall i :: 0 <= i < |ps| ==> !ps[i].armed
    ensures Unfired(ps, f) == 0
  {
    if ps != [] { NoneUnfired(ps[..|ps| - 1], f); }
  }

  /** A run goes on with any enabled step. */
  lemma {:induction false} RunsExtend(states: seq<State>, steps: seq<Step>, step: Step)
    requires IsRun(states, steps) && Enabled(states[|steps|], step)
    ensures IsRun(states + [Next(states[|steps|], step)], steps + [step])
  {
  }

  /** From wherever a run stands, letting the open calls return empties the stack and leaves nothing deferred but past leaks. */
  lemma {:induction false} EveryRunCanFinish(states: seq<State>, steps: seq<Step>) returns (more: seq<State>, after: seq<Step>)
    requires IsRun(states, steps) && states[0] == INITIAL
    ensures IsRun(more, after) && states <= more && steps <= after
    ensures more[|after|].stack == [] && more[|after|].deferPublication == more[|after|].leaks == states[|steps|].leaks
    ensures more[|after|].runs == states[|steps|].runs && |after| == |steps| + |states[|steps|].stack|
    decreases |states[|steps|].stack|
  {
    var last := states[|steps|];
    if last.stack == [] {
      more, after := states, steps;
      RunKeepsInv(states, steps, |steps|);
    } else {
      EndIsAlwaysEnabled(states, steps, |steps|);
      RunsExtend(states, steps, Return);
      more, after := EveryRunCanFinish(states + [Next(last, Return)], steps + [Return]);
    }
  }
}
