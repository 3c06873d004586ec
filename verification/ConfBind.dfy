/** Binding the arguments of a macro call to its signature (conf.go, `ConfMacroSignature.bind`). */
module ConfBind {
  import opened Prelude

  datatype Kind = Flag | Scalar | Array
  datatype Keyword = Keyword(name: nat, kind: Kind, present: seq<nat>, missing: seq<nat>)

  /** Keywords, the number of positional parameters, and whether the rest is collected. */
  datatype Signature = Signature(keywords: seq<Keyword>, positional: nat, vararg: bool)

  /** `keyword`: the first keyword with that name. */
  function KeywordFrom(keywords: seq<Keyword>, arg: nat, i: nat): (r: Option<nat>)
    requires i <= |keywords|
    ensures r.Some? ==> i <= r.value < |keywords| && keywords[r.value].name == arg
                        && forall j :: i <= j < r.value ==> keywords[j].name != arg
    ensures r.None? ==> forall j :: i <= j < |keywords| ==> keywords[j].name != arg
    decreases |keywords| - i
  {
    if i == |keywords| then None else if keywords[i].name == arg then Some(i) else KeywordFrom(keywords, arg, i + 1)
  }

  function KeywordOf(sig: Signature, arg: nat): (r: Option<nat>)
    ensures r.Some? ==> r.value < |sig.keywords|
  {
    KeywordFrom(sig.keywords, arg, 0)
  }

  function KindOf(sig: Signature, k: nat): Kind {
    if k < |sig.keywords| then sig.keywords[k].kind else Flag
  }

  // ------------------------------------------------------------ what each argument is

  /** The last keyword before position `n`: where, and which. */
  function LastKey(sig: Signature, args: seq<nat>, n: nat): (r: Option<(nat, nat)>)
    requires n <= |args|
    ensures r.Some? ==> r.value.0 < n && KeywordOf(sig, args[r.value.0]) == Some(r.value.1)
  {
    if n == 0 then None
    else if KeywordOf(sig, args[n - 1]).Some? then Some((n - 1, KeywordOf(sig, args[n - 1]).value))
    else LastKey(sig, args, n - 1)
  }

  /** The keyword that would take a plain argument at `n`: the last one, if it is an array, or a scalar just before. */
  function Taker(sig: Signature, args: seq<nat>, n: nat): Option<nat>
    requires n <= |args|
  {
    match LastKey(sig, args, n)
    case None => None
    case Some((j, k)) =>
      if KindOf(sig, k) == Array || (KindOf(sig, k) == Scalar && n == j + 1) then Some(k) else None
  }

  /** A plain argument that no keyword takes. */
  predicate Free(sig: Signature, args: seq<nat>, i: nat)
    requires i < |args|
  {
    KeywordOf(sig, args[i]).None? && Taker(sig, args, i).None?
  }

  function FreeCount(sig: Signature, args: seq<nat>, n: nat): nat
    requires n <= |args|
  {
    if n == 0 then 0 else FreeCount(sig, args, n - 1) + if Free(sig, args, n - 1) then 1 else 0
  }

  datatype Role = Token(k: nat) | Value(k: nat) | Positional(r: nat) | Extra

  /** Each argument plays exactly one part. */
  function RoleOf(sig: Signature, args: seq<nat>, i: nat): Role
    requires i < |args|
  {
    if KeywordOf(sig, args[i]).Some? then Token(KeywordOf(sig, args[i]).value)
    else if Taker(sig, args, i).Some? then Value(Taker(sig, args, i).value)
    else if FreeCount(sig, args, i) < sig.positional then Positional(FreeCount(sig, args, i))
    else Extra
  }

  /** The arguments before `n` that play a part, in order. */
  function Picked(sig: Signature, args: seq<nat>, n: nat, role: Role): seq<nat>
    requires n <= |args|
  {
    if n == 0 then []
    else Picked(sig, args, n - 1, role) + if RoleOf(sig, args, n - 1) == role then [args[n - 1]] else []
  }

  predicate Given(sig: Signature, args: seq<nat>, n: nat, k: nat)
    requires n <= |args|
  {
    n > 0 && (KeywordOf(sig, args[n - 1]) == Some(k) || Given(sig, args, n - 1, k))
  }

  predicate ArrayGiven(sig: Signature, args: seq<nat>, n: nat)
    requires n <= |args|
  {
    n > 0 && (LastIsArray(sig, args, n - 1) || ArrayGiven(sig, args, n - 1))
  }

  predicate LastIsArray(sig: Signature, args: seq<nat>, i: nat)
    requires i < |args|
  {
    KeywordOf(sig, args[i]).Some? && KindOf(sig, KeywordOf(sig, args[i]).value) == Array
  }

  /** What may stand at position `i`. */
  predicate ArgOk(sig: Signature, args: seq<nat>, i: nat)
    requires i < |args|
  {
    match KeywordOf(sig, args[i])
    case Some(k) =>
      && (KindOf(sig, k) != Array ==> !Given(sig, args, i, k))
      && (KindOf(sig, k) == Scalar ==> i + 1 < |args| && KeywordOf(sig, args[i + 1]).None?)
    case None =>
      Free(sig, args, i) ==> !ArrayGiven(sig, args, i) && (FreeCount(sig, args, i) < sig.positional || sig.vararg)
  }

  ghost predicate ArgsOk(sig: Signature, args: seq<nat>, n: nat) {
    n <= |args| && forall i: nat {:trigger ArgOk(sig, args, i)} :: i < n ==> ArgOk(sig, args, i)
  }

  /** A call that can be bound. */
  ghost predicate Accepts(sig: Signature, args: seq<nat>) {
    ArgsOk(sig, args, |args|) && FreeCount(sig, args, |args|) >= sig.positional
  }

  // ------------------------------------------------------------ facts about the parts

  /** A positional parameter that is reached holds exactly one value. */
  lemma {:induction false} PositionalHoldsOne(sig: Signature, args: seq<nat>, n: nat, r: nat)
    requires n <= |args| && r < sig.positional
    ensures |Picked(sig, args, n, Positional(r))| == if FreeCount(sig, args, n) > r then 1 else 0
  {
    if n > 0 { PositionalHoldsOne(sig, args, n - 1, r); }
  }

  lemma {:induction false} NotGivenHoldsNothing(sig: Signature, args: seq<nat>, n: nat, k: nat)
    requires n <= |args| && !Given(sig, args, n, k)
    ensures Picked(sig, args, n, Value(k)) == [] && (LastKey(sig, args, n).Some? ==> LastKey(sig, args, n).value.1 != k)
  {
    if n > 0 { NotGivenHoldsNothing(sig, args, n - 1, k); }
  }

  /** A scalar keyword of a call that can be bound holds exactly one value if given, none otherwise. */
  lemma {:induction false} ScalarHoldsOne(sig: Signature, args: seq<nat>, n: nat, k: nat)
    requires n <= |args| && ArgsOk(sig, args, |args|) && k < |sig.keywords| && KindOf(sig, k) == Scalar
    ensures |Picked(sig, args, n, Value(k))| == if Given(sig, args, n, k) && Taker(sig, args, n) != Some(k) then 1 else 0
  {
    if n > 0 {
      ScalarHoldsOne(sig, args, n - 1, k);
      assert ArgOk(sig, args, n - 1);
      if !Given(sig, args, n - 1, k) { NotGivenHoldsNothing(sig, args, n - 1, k); }
      if n > 1 && KeywordOf(sig, args[n - 2]).Some? { assert ArgOk(sig, args, n - 2); }
    }
  }

  /** A flag takes no argument. */
  lemma {:induction false} FlagHoldsNothing(sig: Signature, args: seq<nat>, n: nat, k: nat)
    requires n <= |args| && KindOf(sig, k) == Flag
    ensures Picked(sig, args, n, Value(k)) == []
  {
    if n > 0 { FlagHoldsNothing(sig, args, n - 1, k); }
  }

  /** Every argument is held at a place of its own by whatever its part is bound to. */
  lemma {:induction false} PickedAt(sig: Signature, args: seq<nat>, n: nat, i: nat)
    requires i < n <= |args|
    ensures var role := RoleOf(sig, args, i);
            var at := |Picked(sig, args, i, role)|;
            at < |Picked(sig, args, n, role)| && Picked(sig, args, n, role)[at] == args[i]
    decreases n
  {
    if i < n - 1 { PickedAt(sig, args, n - 1, i); }
  }

  /** And every value held is an argument that plays that part. */
  lemma {:induction false} PickedFrom(sig: Signature, args: seq<nat>, n: nat, role: Role, at: nat) returns (i: nat)
    requires n <= |args| && at < |Picked(sig, args, n, role)|
    ensures i < n && RoleOf(sig, args, i) == role && |Picked(sig, args, i, role)| == at && Picked(sig, args, n, role)[at] == args[i]
    decreases n
  {
    if at < |Picked(sig, args, n - 1, role)| {
      i := PickedFrom(sig, args, n - 1, role, at);
    } else {
      i := n - 1;
    }
  }

  // ------------------------------------------------------------ the slots

  datatype Slot = Slot(values: seq<nat>, bound: bool)

  function SlotRole(sig: Signature, s: nat): Role {
    if s < |sig.keywords| then Value(s)
    else if s < |sig.keywords| + sig.positional then Positional(s - |sig.keywords|)
    else Extra
  }

  function SlotCount(sig: Signature): nat {
    |sig.keywords| + sig.positional + if sig.vararg then 1 else 0
  }

  /** Slot `s` once the first `n` arguments have been bound. */
  function SlotAfter(sig: Signature, args: seq<nat>, n: nat, s: nat): Slot
    requires n <= |args|
  {
    if s < |sig.keywords| then
      Slot(if KindOf(sig, s) == Flag && Given(sig, args, n, s) then sig.keywords[s].present else Picked(sig, args, n, Value(s)),
           Given(sig, args, n, s))
    else Slot(Picked(sig, args, n, SlotRole(sig, s)), FreeCount(sig, args, n) > s - |sig.keywords|)
  }

  ghost predicate SlotIs(sig: Signature, args: seq<nat>, n: nat, locals: seq<Slot>, s: nat)
    requires n <= |args| && s < |locals|
  {
    locals[s] == SlotAfter(sig, args, n, s)
  }

  /** What `bind` returns for a call it accepts: a keyword that was not given has its default. */
  function Result(sig: Signature, args: seq<nat>, s: nat): Slot {
    if s < |sig.keywords| && !Given(sig, args, |args|, s) then Slot(sig.keywords[s].missing, true)
    else Slot(SlotAfter(sig, args, |args|, s).values, true)
  }

  /** In a call that can be bound, every plain argument belongs to a slot, and never to a flag. */
  lemma {:induction false} PlainHasSlot(sig: Signature, args: seq<nat>, i: nat) returns (s: nat)
    requires Accepts(sig, args) && i < |args| && KeywordOf(sig, args[i]).None?
    ensures s < SlotCount(sig) && RoleOf(sig, args, i) == SlotRole(sig, s)
    ensures s < |sig.keywords| ==> KindOf(sig, s) != Flag && Given(sig, args, |args|, s)
    ensures args[i] in Result(sig, args, s).values
  {
    assert ArgOk(sig, args, i);
    PickedAt(sig, args, |args|, i);
    if Taker(sig, args, i).Some? {
      s := Taker(sig, args, i).value;
      LastIsGiven(sig, args, i, |args|);
    } else {
      s := |sig.keywords| + if FreeCount(sig, args, i) < sig.positional then FreeCount(sig, args, i) else sig.positional;
    }
  }

  lemma {:induction false} LastIsGiven(sig: Signature, args: seq<nat>, i: nat, n: nat)
    requires i <= n <= |args| && LastKey(sig, args, i).Some?
    ensures Given(sig, args, n, LastKey(sig, args, i).value.1)
    decreases n
  {
    if i < n {
      LastIsGiven(sig, args, i, n - 1);
    } else if KeywordOf(sig, args[n - 1]).None? {
      LastIsGiven(sig, args, n - 1, n - 1);
    }
  }

  /** Where the loop stands. */
  ghost predicate Binding(sig: Signature, args: seq<nat>, i: nat, locals: seq<Slot>, next: nat, inArray: bool) {
    && ArgsOk(sig, args, i) && |locals| == SlotCount(sig)
    && (forall s: nat {:trigger SlotIs(sig, args, i, locals, s)} :: s < |locals| ==> SlotIs(sig, args, i, locals, s))
    && next == (if FreeCount(sig, args, i) < sig.positional then FreeCount(sig, args, i) else sig.positional)
    && inArray == ArrayGiven(sig, args, i)
  }

  /** The loop is back at its head: whatever the last keyword was to take has been taken. */
  ghost predicate AtHead(sig: Signature, args: seq<nat>, i: nat)
    requires i <= |args|
  {
    i < |args| && KeywordOf(sig, args[i]).None? ==> Taker(sig, args, i).None?
  }

  function Appended(slot: Slot, values: seq<nat>): Slot {
    Slot(slot.values + values, true)
  }

  /** A keyword changes its own slot only. */
  lemma {:induction false} TokenSlot(sig: Signature, args: seq<nat>, i: nat, k: nat, s: nat)
    requires i < |args| && KeywordOf(sig, args[i]) == Some(k) && ArgOk(sig, args, i)
    ensures SlotAfter(sig, args, i + 1, s) ==
            if s != k then SlotAfter(sig, args, i, s)
            else Appended(SlotAfter(sig, args, i, s), if KindOf(sig, k) == Flag then sig.keywords[k].present else [])
  {
    assert RoleOf(sig, args, i) == Token(k) && !Free(sig, args, i);
    assert Picked(sig, args, i + 1, SlotRole(sig, s)) == Picked(sig, args, i, SlotRole(sig, s)) + [];
    if KindOf(sig, k) == Flag && s == k { NotGivenHoldsNothing(sig, args, i, k); }
  }

  lemma {:induction false} StepToken(sig: Signature, args: seq<nat>, i: nat, locals: seq<Slot>, next: nat, inArray: bool, k: nat)
    requires i < |args| && Binding(sig, args, i, locals, next, inArray) && KeywordOf(sig, args[i]) == Some(k) && ArgOk(sig, args, i)
    ensures var present := if KindOf(sig, k) == Flag then sig.keywords[k].present else [];
            Binding(sig, args, i + 1, locals[k := Appended(locals[k], present)], next, inArray || KindOf(sig, k) == Array)
  {
    var present := if KindOf(sig, k) == Flag then sig.keywords[k].present else [];
    var i', locals' := i + 1, locals[k := Appended(locals[k], present)];
    assert !Free(sig, args, i);
    forall j: nat | j < i'
      ensures ArgOk(sig, args, j)
    {
      assert j < i ==> ArgOk(sig, args, j);
    }
    forall s: nat | s < |locals'|
      ensures SlotIs(sig, args, i', locals', s)
    {
      assert SlotIs(sig, args, i, locals, s);
      TokenSlot(sig, args, i, k, s);
    }
  }

  /** One plain argument goes to the slot of its role. */
  lemma {:induction false} StepPlain(sig: Signature, args: seq<nat>, i: nat, locals: seq<Slot>, next: nat, inArray: bool, s0: nat)
    requires i < |args| && Binding(sig, args, i, locals, next, inArray) && KeywordOf(sig, args[i]).None? && ArgOk(sig, args, i)
    requires s0 < |locals| && RoleOf(sig, args, i) == SlotRole(sig, s0)
    requires s0 < |sig.keywords| ==> Given(sig, args, i, s0)
    ensures Binding(sig, args, i + 1, locals[s0 := Appended(locals[s0], [args[i]])],
                    if Free(sig, args, i) && next < sig.positional then next + 1 else next, inArray)
  {
    var i', locals' := i + 1, locals[s0 := Appended(locals[s0], [args[i]])];
    forall j: nat | j < i'
      ensures ArgOk(sig, args, j)
    {
      assert j < i ==> ArgOk(sig, args, j);
    }
    if s0 < |sig.keywords| && KindOf(sig, s0) == Flag { FlagHoldsNothing(sig, args, i', s0); }
    forall s: nat | s < |locals'|
      ensures SlotIs(sig, args, i', locals', s)
    {
      assert SlotIs(sig, args, i, locals, s);
      assert SlotRole(sig, s) == SlotRole(sig, s0) <==> s == s0;
    }
  }

  /** A run of plain arguments for one slot: an array's, or the vararg's. */
  ghost predicate RunOk(sig: Signature, args: seq<nat>, s0: nat, j: nat)
    requires j < |args|
  {
    && KeywordOf(sig, args[j]).None? && ArgOk(sig, args, j) && RoleOf(sig, args, j) == SlotRole(sig, s0)
    && (s0 < |sig.keywords| ==> Given(sig, args, j, s0))
    && (Free(sig, args, j) ==> FreeCount(sig, args, j) >= sig.positional)
  }

  lemma {:induction false} StepRun(sig: Signature, args: seq<nat>, i: nat, end: nat, locals: seq<Slot>, next: nat, inArray: bool, s0: nat)
    requires i <= end <= |args| && Binding(sig, args, i, locals, next, inArray) && s0 < |locals|
    requires i == end ==> locals[s0].bound
    requires forall j: nat {:trigger RunOk(sig, args, s0, j)} :: i <= j < end ==> RunOk(sig, args, s0, j)
    ensures Binding(sig, args, end, locals[s0 := Appended(locals[s0], args[i..end])], next, inArray)
    decreases end - i
  {
    if i == end {
      assert args[i..end] == [] && Appended(locals[s0], args[i..end]) == locals[s0];
      assert locals[s0 := Appended(locals[s0], args[i..end])] == locals;
    } else {
      assert RunOk(sig, args, s0, i);
      StepPlain(sig, args, i, locals, next, inArray, s0);
      var locals' := locals[s0 := Appended(locals[s0], [args[i]])];
      StepRun(sig, args, i + 1, end, locals', next, inArray, s0);
      assert args[i..end] == [args[i]] + args[i + 1..end];
      assert locals[s0].values + [args[i]] + args[i + 1..end] == locals[s0].values + args[i..end];
      assert locals'[s0 := Appended(locals'[s0], args[i + 1..end])] == locals[s0 := Appended(locals[s0], args[i..end])];
    }
  }

  ghost predicate Plain(sig: Signature, args: seq<nat>, from: nat, to: nat) {
    to <= |args| && forall j :: from <= j < to ==> KeywordOf(sig, args[j]).None?
  }

  lemma {:induction false} PlainKeepsLastKey(sig: Signature, args: seq<nat>, i: nat, j: nat)
    requires i <= j && Plain(sig, args, i, j)
    ensures LastKey(sig, args, j) == LastKey(sig, args, i) && ArrayGiven(sig, args, j) == ArrayGiven(sig, args, i)
    ensures forall k :: Given(sig, args, i, k) ==> Given(sig, args, j, k)
    decreases j
  {
    if i < j { PlainKeepsLastKey(sig, args, i, j - 1); }
  }

  /** After an array keyword, everything up to the next keyword is a run for it. */
  lemma {:induction false} ArrayRun(sig: Signature, args: seq<nat>, i: nat, k: nat, j: nat)
    requires i < j < |args| && KeywordOf(sig, args[i]) == Some(k) && KindOf(sig, k) == Array && Plain(sig, args, i + 1, j + 1)
    ensures RunOk(sig, args, k, j)
  {
    PlainKeepsLastKey(sig, args, i + 1, j);
    assert Given(sig, args, i + 1, k);
  }

  lemma {:induction false} ScalarRun(sig: Signature, args: seq<nat>, i: nat, k: nat)
    requires i + 1 < |args| && KeywordOf(sig, args[i]) == Some(k) && KindOf(sig, k) == Scalar && KeywordOf(sig, args[i + 1]).None?
    ensures var j := i + 1; RunOk(sig, args, k, j)
  {
  }

  lemma {:induction false} ScalarBinds(sig: Signature, args: seq<nat>, i: nat, k: nat, locals: seq<Slot>, next: nat, inArray: bool)
    requires i + 1 < |args| && KeywordOf(sig, args[i]) == Some(k) && KindOf(sig, k) == Scalar && KeywordOf(sig, args[i + 1]).None?
    requires Binding(sig, args, i + 1, locals, next, inArray)
    ensures Binding(sig, args, i + 2, locals[k := Appended(locals[k], [args[i + 1]])], next, inArray) && AtHead(sig, args, i + 2)
  {
    ScalarRun(sig, args, i, k);
    StepRun(sig, args, i + 1, i + 2, locals, next, inArray, k);
    assert args[i + 1..i + 2] == [args[i + 1]];
  }

  lemma {:induction false} ArrayBinds(sig: Signature, args: seq<nat>, i: nat, end: nat, k: nat, locals: seq<Slot>, next: nat)
    requires i < end <= |args| && KeywordOf(sig, args[i]) == Some(k) && KindOf(sig, k) == Array && Plain(sig, args, i + 1, end)
    requires Binding(sig, args, i + 1, locals, next, true) && locals[k].bound
    ensures Binding(sig, args, end, locals[k := Appended(locals[k], args[i + 1..end])], next, true)
  {
    forall j: nat | i + 1 <= j < end
      ensures RunOk(sig, args, k, j)
    {
      ArrayRun(sig, args, i, k, j);
    }
    StepRun(sig, args, i + 1, end, locals, next, true, k);
  }

  lemma {:induction false} PlainFreeCount(sig: Signature, args: seq<nat>, i: nat, j: nat)
    requires i <= j && j <= |args|
    ensures FreeCount(sig, args, i) <= FreeCount(sig, args, j)
    decreases j
  {
    if i < j { PlainFreeCount(sig, args, i, j - 1); }
  }

  /** Once no keyword takes plain arguments and the positional ones are used up, a run goes to the vararg. */
  lemma {:induction false} VarargRun(sig: Signature, args: seq<nat>, i: nat, j: nat)
    requires i <= j < |args| && Plain(sig, args, i, j + 1) && Taker(sig, args, i).None? && sig.vararg
    requires FreeCount(sig, args, i) >= sig.positional && !ArrayGiven(sig, args, i)
    ensures RunOk(sig, args, |sig.keywords| + sig.positional, j)
  {
    PlainKeepsLastKey(sig, args, i, j);
    PlainFreeCount(sig, args, i, j);
  }

  // ------------------------------------------------------------ what a bound call means

  /** Keyword `k` stands in the call: its name does, and no earlier keyword has that name. */
  ghost predicate Stands(sig: Signature, args: seq<nat>, k: nat)
    requires k < |sig.keywords|
  {
    sig.keywords[k].name in args && forall j :: 0 <= j < k ==> sig.keywords[j].name != sig.keywords[k].name
  }

  lemma {:induction false} GivenMeans(sig: Signature, args: seq<nat>, n: nat, k: nat)
    requires n <= |args|
    ensures Given(sig, args, n, k) <==> exists i :: 0 <= i < n && KeywordOf(sig, args[i]) == Some(k)
  {
    if n > 0 { GivenMeans(sig, args, n - 1, k); }
  }

  lemma {:induction false} GivenStands(sig: Signature, args: seq<nat>, k: nat)
    requires k < |sig.keywords|
    ensures Given(sig, args, |args|, k) <==> Stands(sig, args, k)
  {
    GivenMeans(sig, args, |args|, k);
    if Stands(sig, args, k) {
      var i :| 0 <= i < |args| && args[i] == sig.keywords[k].name;
      assert KeywordOf(sig, args[i]) == Some(k);
    }
  }

  /** Argument `i` comes after keyword `k`: its name stands before, with only plain arguments since. */
  ghost predicate Follows(sig: Signature, args: seq<nat>, k: nat, j: nat, i: nat)
    requires i < |args|
  {
    j < i && KeywordOf(sig, args[j]) == Some(k) && Plain(sig, args, j + 1, i + 1)
  }

  lemma {:induction false} LastKeyMeans(sig: Signature, args: seq<nat>, n: nat, j: nat, k: nat)
    requires n <= |args|
    ensures LastKey(sig, args, n) == Some((j, k)) <==> j < n && KeywordOf(sig, args[j]) == Some(k) && Plain(sig, args, j + 1, n)
  {
    if n > 0 { LastKeyMeans(sig, args, n - 1, j, k); }
  }

  /** Who takes a plain argument: an array keyword that it follows, or a scalar one right before it. */
  lemma {:induction false} ValueMeans(sig: Signature, args: seq<nat>, i: nat, k: nat)
    requires i < |args| && k < |sig.keywords|
    ensures RoleOf(sig, args, i) == Value(k) <==>
            || (sig.keywords[k].kind == Array && exists j :: Follows(sig, args, k, j, i))
            || (sig.keywords[k].kind == Scalar && i > 0 && Follows(sig, args, k, i - 1, i))
  {
    forall j: nat
      ensures LastKey(sig, args, i) == Some((j, k)) <==> j < i && KeywordOf(sig, args[j]) == Some(k) && Plain(sig, args, j + 1, i)
    {
      LastKeyMeans(sig, args, i, j, k);
    }
    if RoleOf(sig, args, i) == Value(k) {
      assert Follows(sig, args, k, LastKey(sig, args, i).value.0, i);
    }
  }

  /**
   * What a keyword holds after a call: its default when it does not stand in it;
   * otherwise a flag its text, a scalar the argument right after its name, an array
   * only arguments that follow its name.
   */
  ghost predicate KeywordHolds(sig: Signature, args: seq<nat>, k: nat, values: seq<nat>)
    requires k < |sig.keywords|
  {
    if !Stands(sig, args, k) then values == sig.keywords[k].missing
    else
      match sig.keywords[k].kind
      case Flag => values == sig.keywords[k].present
      case Scalar => exists i :: 1 <= i < |args| && args[i - 1] == sig.keywords[k].name && values == [args[i]]
      case Array =>
        && (forall i: nat, j: nat {:trigger Follows(sig, args, k, j, i)} :: i < |args| && Follows(sig, args, k, j, i) ==> args[i] in values)
        && (forall v :: v in values ==> exists i: nat, j: nat :: i < |args| && args[i] == v && Follows(sig, args, k, j, i))
  }

  lemma {:induction false} ScalarIsServed(sig: Signature, args: seq<nat>, k: nat)
    requires ArgsOk(sig, args, |args|) && KindOf(sig, k) == Scalar
    ensures Taker(sig, args, |args|) != Some(k)
  {
    if args != [] && KeywordOf(sig, args[|args| - 1]).Some? { assert ArgOk(sig, args, |args| - 1); }
  }

  lemma {:induction false} ScalarHolds(sig: Signature, args: seq<nat>, k: nat)
    requires Accepts(sig, args) && k < |sig.keywords| && sig.keywords[k].kind == Scalar && Stands(sig, args, k)
    ensures KeywordHolds(sig, args, k, Picked(sig, args, |args|, Value(k)))
  {
    GivenStands(sig, args, k);
    ScalarHoldsOne(sig, args, |args|, k);
    ScalarIsServed(sig, args, k);
    var i := PickedFrom(sig, args, |args|, Value(k), 0);
    ValueMeans(sig, args, i, k);
  }

  lemma {:induction false} ArrayHolds(sig: Signature, args: seq<nat>, k: nat)
    requires k < |sig.keywords| && sig.keywords[k].kind == Array && Stands(sig, args, k)
    ensures KeywordHolds(sig, args, k, Picked(sig, args, |args|, Value(k)))
  {
    var values := Picked(sig, args, |args|, Value(k));
    forall i: nat, j: nat | i < |args| && Follows(sig, args, k, j, i)
      ensures args[i] in values
    {
      ValueMeans(sig, args, i, k);
      PickedAt(sig, args, |args|, i);
    }
    forall v | v in values
      ensures exists i: nat, j: nat :: i < |args| && args[i] == v && Follows(sig, args, k, j, i)
    {
      var at :| 0 <= at < |values| && values[at] == v;
      var i := PickedFrom(sig, args, |args|, Value(k), at);
      ValueMeans(sig, args, i, k);
    }
  }

  /** Every keyword of an accepted call holds what it should, in terms of the call alone. */
  lemma {:induction false} ResultHolds(sig: Signature, args: seq<nat>, k: nat)
    requires Accepts(sig, args) && k < |sig.keywords|
    ensures KeywordHolds(sig, args, k, Result(sig, args, k).values)
  {
    GivenStands(sig, args, k);
    if Stands(sig, args, k) {
      match sig.keywords[k].kind
      case Flag =>
      case Scalar => ScalarHolds(sig, args, k);
      case Array => ArrayHolds(sig, args, k);
    }
  }

  /** What a positional parameter holds: the plain argument with as many before it that no keyword takes. */
  ghost predicate PositionalHolds(sig: Signature, args: seq<nat>, p: nat, values: seq<nat>) {
    exists i: nat :: i < |args| && Free(sig, args, i) && FreeCount(sig, args, i) == p && values == [args[i]]
  }

  /** What the vararg holds: the plain arguments beyond the positional ones. */
  ghost predicate VarargHolds(sig: Signature, args: seq<nat>, values: seq<nat>) {
    forall v :: v in values <==> exists i: nat :: i < |args| && Free(sig, args, i) && FreeCount(sig, args, i) >= sig.positional && args[i] == v
  }

  lemma {:induction false} PickedPositional(sig: Signature, args: seq<nat>, p: nat)
    requires FreeCount(sig, args, |args|) > p && p < sig.positional
    ensures PositionalHolds(sig, args, p, Picked(sig, args, |args|, Positional(p)))
  {
    PositionalHoldsOne(sig, args, |args|, p);
    var values := Picked(sig, args, |args|, Positional(p));
    var i := PickedFrom(sig, args, |args|, Positional(p), 0);
    assert values == [args[i]];
  }

  lemma {:induction false} ResultPositional(sig: Signature, args: seq<nat>, s: nat)
    requires FreeCount(sig, args, |args|) >= sig.positional && |sig.keywords| <= s < |sig.keywords| + sig.positional
    ensures PositionalHolds(sig, args, s - |sig.keywords|, Result(sig, args, s).values)
  {
    PickedPositional(sig, args, s - |sig.keywords|);
    assert Result(sig, args, s).values == Picked(sig, args, |args|, Positional(s - |sig.keywords|));
  }

  lemma {:induction false} ResultVararg(sig: Signature, args: seq<nat>)
    ensures VarargHolds(sig, args, Result(sig, args, |sig.keywords| + sig.positional).values)
  {
    var values := Result(sig, args, |sig.keywords| + sig.positional).values;
    forall v | v in values
      ensures exists i: nat :: i < |args| && Free(sig, args, i) && FreeCount(sig, args, i) >= sig.positional && args[i] == v
    {
      var at :| 0 <= at < |values| && values[at] == v;
      var i := PickedFrom(sig, args, |args|, Extra, at);
    }
    forall i: nat | i < |args| && Free(sig, args, i) && FreeCount(sig, args, i) >= sig.positional
      ensures args[i] in values
    {
      PickedAt(sig, args, |args|, i);
    }
  }

  /** What an accepted call binds, in terms of the call alone. */
  ghost predicate Meant(sig: Signature, args: seq<nat>, locals: seq<Slot>) {
    && |locals| == SlotCount(sig)
    && (forall k :: 0 <= k < |sig.keywords| ==> KeywordHolds(sig, args, k, locals[k].values))
    && (forall s {:trigger locals[s]} :: |sig.keywords| <= s < |sig.keywords| + sig.positional ==>
          PositionalHolds(sig, args, s - |sig.keywords|, locals[s].values))
    && (sig.vararg ==> VarargHolds(sig, args, locals[|sig.keywords| + sig.positional].values))
  }

  lemma {:induction false} ResultIsMeant(sig: Signature, args: seq<nat>, locals: seq<Slot>)
    requires Accepts(sig, args) && |locals| == SlotCount(sig) && forall s :: 0 <= s < |locals| ==> locals[s] == Result(sig, args, s)
    ensures Meant(sig, args, locals)
  {
    forall k | 0 <= k < |sig.keywords| ensures KeywordHolds(sig, args, k, locals[k].values) { ResultHolds(sig, args, k); }
    forall s | |sig.keywords| <= s < |sig.keywords| + sig.positional
      ensures PositionalHolds(sig, args, s - |sig.keywords|, locals[s].values)
    {
      ResultPositional(sig, args, s);
    }
    if sig.vararg { ResultVararg(sig, args); }
  }

  // ------------------------------------------------------------ the loop

  /** The messages of `bind`. */
  datatype Error = MissingPositional | Repeated | MissingScalar | Mixed | TooMany

  datatype Outcome = Bound(locals: seq<Slot>) | Failed(error: Error)

  /** What each message says of the call. */
  ghost predicate Faulty(sig: Signature, args: seq<nat>, e: Error, i: nat)
    requires i <= |args|
  {
    match e
    case MissingPositional => i == |args| && FreeCount(sig, args, i) < sig.positional
    case Repeated =>
      i < |args| && KeywordOf(sig, args[i]).Some?
      && var k := KeywordOf(sig, args[i]).value; KindOf(sig, k) != Array && Given(sig, args, i, k)
    case MissingScalar =>
      i < |args| && KeywordOf(sig, args[i]).Some? && KindOf(sig, KeywordOf(sig, args[i]).value) == Scalar
      && (i + 1 == |args| || KeywordOf(sig, args[i + 1]).Some?)
    case Mixed => i < |args| && Free(sig, args, i) && ArrayGiven(sig, args, i)
    case TooMany => i < |args| && Free(sig, args, i) && FreeCount(sig, args, i) >= sig.positional && !sig.vararg
  }

  /** A failure is the first fault of the call. */
  ghost predicate FirstFault(sig: Signature, args: seq<nat>, e: Error, i: nat) {
    ArgsOk(sig, args, i) && Faulty(sig, args, e, i)
  }

  lemma {:induction false} FaultRefuses(sig: Signature, args: seq<nat>, e: Error, i: nat)
    requires FirstFault(sig, args, e, i)
    ensures !Accepts(sig, args)
  {
    if i < |args| { assert !ArgOk(sig, args, i); }
  }

  /** `arrayEnd`. */
  method ArrayEnd(sig: Signature, args: seq<nat>, i: nat) returns (end: nat)
    requires i <= |args|
    ensures i <= end <= |args| && Plain(sig, args, i, end) && (end == |args| || KeywordOf(sig, args[end]).Some?)
  {
    end := i;
    while end < |args| && KeywordOf(sig, args[end]).None?
      invariant i <= end <= |args| && Plain(sig, args, i, end)
    {
      end := end + 1;
    }
  }

  /** A keyword and what it takes; `None` in `error` means it was bound. */
  method BindKeyword(sig: Signature, args: seq<nat>, i: nat, k: nat, locals0: seq<Slot>, ghost next: nat, inArray: bool)
      returns (end: nat, locals: seq<Slot>, error: Option<Error>)
    requires i < |args| && KeywordOf(sig, args[i]) == Some(k) && Binding(sig, args, i, locals0, next, inArray)
    ensures error.Some? ==> FirstFault(sig, args, error.value, i)
    ensures error.None? ==>
              i < end <= |args| && AtHead(sig, args, end)
              && Binding(sig, args, end, locals, next, inArray || KindOf(sig, k) == Array)
  {
    assert SlotIs(sig, args, i, locals0, k);
    end, locals, error := i + 1, locals0, None;
    var keyword := sig.keywords[k];
    if locals0[k].bound && keyword.kind != Array {
      error := Some(Repeated);
      return;
    }
    if keyword.kind == Scalar && (end == |args| || KeywordOf(sig, args[end]).Some?) {
      error := Some(MissingScalar);
      return;
    }
    StepToken(sig, args, i, locals0, next, inArray, k);
    locals := locals[k := Appended(locals[k], if keyword.kind == Flag then keyword.present else [])];
    match keyword.kind
    case Flag =>
    case Scalar =>
      ScalarBinds(sig, args, i, k, locals, next, inArray);
      locals := locals[k := Appended(locals[k], [args[end]])];
      end := end + 1;
    case Array =>
      end := ArrayEnd(sig, args, i + 1);
      ArrayBinds(sig, args, i, end, k, locals, next);
      locals := locals[k := Appended(locals[k], args[i + 1..end])];
  }

  /** A plain argument at the head of the loop. */
  method BindPlain(sig: Signature, args: seq<nat>, i: nat, locals0: seq<Slot>, next0: nat, inArray: bool)
      returns (end: nat, locals: seq<Slot>, next: nat, error: Option<Error>)
    requires i < |args| && KeywordOf(sig, args[i]).None? && AtHead(sig, args, i) && Binding(sig, args, i, locals0, next0, inArray)
    ensures error.Some? ==> FirstFault(sig, args, error.value, i)
    ensures error.None? ==> i < end <= |args| && AtHead(sig, args, end) && Binding(sig, args, end, locals, next, inArray)
  {
    end, locals, next, error := i, locals0, next0, None;
    if inArray {
      error := Some(Mixed);
      return;
    }
    if next < sig.positional {
      var s := |sig.keywords| + next;
      StepPlain(sig, args, i, locals, next, inArray, s);
      locals := locals[s := Appended(locals[s], [args[i]])];
      next, end := next + 1, i + 1;
      PlainKeepsLastKey(sig, args, i, end);
      return;
    }
    if !sig.vararg {
      error := Some(TooMany);
      return;
    }
    end := ArrayEnd(sig, args, i);
    var s := |locals| - 1;
    forall j: nat | i <= j < end
      ensures RunOk(sig, args, s, j)
    {
      VarargRun(sig, args, i, j);
    }
    StepRun(sig, args, i, end, locals, next, inArray, s);
    locals := locals[s := Appended(locals[s], args[i..end])];
  }

  /** Fill in the defaults of the keywords that were not given. */
  method Defaults(sig: Signature, args: seq<nat>, locals0: seq<Slot>, ghost next: nat, ghost inArray: bool) returns (locals: seq<Slot>)
    requires Binding(sig, args, |args|, locals0, next, inArray) && FreeCount(sig, args, |args|) >= sig.positional
    ensures |locals| == SlotCount(sig) && forall s :: 0 <= s < |locals| ==> locals[s] == Result(sig, args, s)
  {
    locals := locals0;
    for k := 0 to |sig.keywords|
      invariant |locals| == |locals0|
      invariant forall s :: 0 <= s < k ==> locals[s] == Result(sig, args, s)
      invariant forall s :: k <= s < |locals| ==> locals[s] == locals0[s]
    {
      assert SlotIs(sig, args, |args|, locals0, k);
      if !locals[k].bound {
        NotGivenHoldsNothing(sig, args, |args|, k);
        locals := locals[k := Appended(locals[k], sig.keywords[k].missing)];
      }
    }
    if sig.vararg {
      locals := locals[|locals| - 1 := locals[|locals| - 1].(bound := true)];
    }
    forall s | |sig.keywords| <= s < |locals|
      ensures locals[s] == Result(sig, args, s)
    {
      assert SlotIs(sig, args, |args|, locals0, s);
    }
  }

  /** `bind`: it succeeds exactly on the calls that can be bound, and each slot then holds the arguments that play its part. */
  method Bind(sig: Signature, args: seq<nat>) returns (r: Outcome)
    ensures r.Bound? <==> Accepts(sig, args)
    ensures r.Bound? ==> |r.locals| == SlotCount(sig) && forall s :: 0 <= s < |r.locals| ==> r.locals[s] == Result(sig, args, s)
    ensures r.Bound? ==> Meant(sig, args, r.locals)
    ensures r.Failed? ==> exists i: nat :: FirstFault(sig, args, r.error, i)
  {
    var locals := seq(SlotCount(sig), _ => Slot([], false));
    var next: nat, inArray, i: nat := 0, false, 0;
    assert forall s: nat :: s < |locals| ==> SlotIs(sig, args, 0, locals, s);
    while i < |args| || next < sig.positional
      invariant i <= |args| && Binding(sig, args, i, locals, next, inArray) && AtHead(sig, args, i)
      decreases |args| - i
    {
      if i == |args| {
        assert FirstFault(sig, args, MissingPositional, i);
        FaultRefuses(sig, args, MissingPositional, i);
        return Failed(MissingPositional);
      }
      var k := KeywordOf(sig, args[i]);
      var end: nat, error;
      if k.Some? {
        end, locals, error := BindKeyword(sig, args, i, k.value, locals, next, inArray);
        inArray := inArray || sig.keywords[k.value].kind == Array;
      } else {
        end, locals, next, error := BindPlain(sig, args, i, locals, next, inArray);
      }
      if error.Some? {
        FaultRefuses(sig, args, error.value, i);
        return Failed(error.value);
      }
      i := end;
    }
    locals := Defaults(sig, args, locals, next, inArray);
    ResultIsMeant(sig, args, locals);
    r := Bound(locals);
  }
}
