/** Object paths for sources outside the module directory (emit_cc.go, `composeSrcDirOutputRel`). */
module ObjectPath {
  // ------------------------------------------------------------ on path components

  /** Non-empty components without slashes. */
  ghost predicate Clean(path: seq<string>) {
    forall i :: 0 <= i < |path| ==> path[i] != "" && '/' !in path[i]
  }

  /** How many leading directories of the target the module shares; the file name itself never counts. */
  function Shared(inst: seq<string>, target: seq<string>): (n: nat)
    ensures n <= |inst| && n <= |target| && (target != [] ==> n < |target|)
  {
    if inst != [] && |target| > 1 && inst[0] == target[0] then 1 + Shared(inst[1..], target[1..]) else 0
  }

  function Ups(n: nat): seq<string> {
    if n == 0 then [] else ["__"] + Ups(n - 1)
  }

  /** One `__` for every directory to leave; `_` in front of a path that stays below the module. */
  function Mangled(inst: seq<string>, target: seq<string>): seq<string> {
    var n := Shared(inst, target);
    var rest := target[n..];
    if n == |inst| then (if |rest| > 1 then ["_"] + rest else rest) else Ups(|inst| - n) + rest
  }

  /** The number of leading `__`, at most `most`. */
  function LeadingUps(path: seq<string>, most: nat): (n: nat)
    ensures n <= most && n <= |path|
    ensures forall i :: 0 <= i < n ==> path[i] == "__"
    ensures n < most && n < |path| ==> path[n] != "__"
  {
    if most == 0 || path == [] || path[0] != "__" then 0 else 1 + LeadingUps(path[1..], most - 1)
  }

  function Least(a: nat, b: nat): nat {
    if a < b then a else b
  }

  /** The target that an object path stands for. */
  function Decoded(inst: seq<string>, path: seq<string>): seq<string> {
    if |path| <= 1 then inst + path
    else if path[0] == "_" then inst + path[1..]
    else
      var ups := LeadingUps(path, Least(|inst|, |path| - 1));
      inst[..|inst| - ups] + path[ups..]
  }

  /** The decoder takes a directory of the target for a step up: some, but not all, of the module path is left, and the next directory is `__`. */
  predicate Ambiguous(inst: seq<string>, target: seq<string>) {
    var n := Shared(inst, target);
    0 < n < |inst| && |target| > n + 1 && target[n] == "__"
  }

  lemma {:induction false} SharedIsCommon(inst: seq<string>, target: seq<string>)
    ensures inst[..Shared(inst, target)] == target[..Shared(inst, target)]
  {
    if inst != [] && |target| > 1 && inst[0] == target[0] {
      var n := Shared(inst[1..], target[1..]);
      SharedIsCommon(inst[1..], target[1..]);
      assert inst[..n + 1] == [inst[0]] + inst[1..][..n];
      assert target[..n + 1] == [target[0]] + target[1..][..n];
    }
  }

  lemma {:induction false} UpsAre(n: nat)
    ensures |Ups(n)| == n && forall i :: 0 <= i < n ==> Ups(n)[i] == "__"
  {
    if n > 0 { UpsAre(n - 1); }
  }

  lemma {:induction false} DecodedBelow(inst: seq<string>, rest: seq<string>)
    requires rest != []
    ensures Decoded(inst, if |rest| > 1 then ["_"] + rest else rest) == inst + rest
  {
    if |rest| > 1 { assert (["_"] + rest)[1..] == rest; }
  }

  lemma {:induction false} RoundTripBelow(inst: seq<string>, target: seq<string>)
    requires target != [] && Shared(inst, target) == |inst|
    ensures Decoded(inst, Mangled(inst, target)) == target
  {
    var n := |inst|;
    SharedIsCommon(inst, target);
    DecodedBelow(inst, target[n..]);
    assert inst[..n] == inst && target == target[..n] + target[n..];
  }

  /** The decoder recovers the target exactly when the target is not ambiguous. */
  lemma {:induction false} RoundTrip(inst: seq<string>, target: seq<string>)
    requires target != []
    ensures Decoded(inst, Mangled(inst, target)) == target <==> !Ambiguous(inst, target)
  {
    var n := Shared(inst, target);
    if n == |inst| {
      RoundTripBelow(inst, target);
    } else {
      RoundTripOver(inst, target, n);
    }
  }

  lemma {:induction false} MangledOver(inst: seq<string>, target: seq<string>, n: nat)
    requires n == Shared(inst, target) < |inst|
    ensures Mangled(inst, target) == Ups(|inst| - n) + target[n..]
  {
  }

  lemma {:induction false} RoundTripOver(inst: seq<string>, target: seq<string>, n: nat)
    requires target != [] && n == Shared(inst, target) < |inst|
    ensures Decoded(inst, Mangled(inst, target)) == target <==> !Ambiguous(inst, target)
  {
    var steps := Ups(|inst| - n);
    assert |steps| == |inst| - n && forall i :: 0 <= i < |steps| ==> steps[i] == "__" by { UpsAre(|inst| - n); }
    assert inst[..n] == target[..n] by { SharedIsCommon(inst, target); }
    assert Mangled(inst, target) == steps + target[n..] by { MangledOver(inst, target, n); }
    RoundTripAbove(inst, target, n, |inst| - n, steps, Mangled(inst, target));
  }

  lemma {:induction false} RoundTripAbove(inst: seq<string>, target: seq<string>, n: nat, up: nat, steps: seq<string>, path: seq<string>)
    requires n < |inst| && n < |target| && n == Shared(inst, target) && inst[..n] == target[..n] && up == |inst| - n
    requires |steps| == up && forall i :: 0 <= i < up ==> steps[i] == "__"
    requires path == steps + target[n..]
    ensures Decoded(inst, path) == target <==> !Ambiguous(inst, target)
  {
    assert path[0] == "__" && |path| == up + |target| - n;
    var ups := LeadingUps(path, Least(|inst|, |path| - 1));
    assert ups >= up;
    assert |path[ups..]| == |path| - ups;
    if ups == up {
      assert path[ups..] == target[n..];
      assert target == target[..n] + target[n..];
      assert Ambiguous(inst, target) ==> path[up] == target[n];
    } else {
      assert path[up] == target[n] == "__";
      assert |Decoded(inst, path)| == |inst| - ups + (|path| - ups);
      assert |Decoded(inst, path)| < |target|;
    }
  }

  /** Two targets that are not ambiguous never get the same object path, and a target without `__` is never ambiguous. */
  lemma {:induction false} MangledIsInjective(inst: seq<string>, a: seq<string>, b: seq<string>)
    requires a != [] && b != [] && Mangled(inst, a) == Mangled(inst, b)
    requires (!Ambiguous(inst, a) && !Ambiguous(inst, b)) || ("__" !in a && "__" !in b)
    ensures a == b
  {
    RoundTrip(inst, a);
    RoundTrip(inst, b);
  }

  /** Two targets with `__` directories that share one object path. */
  lemma {:induction false} AmbiguousTargetsCollide()
    ensures Mangled(["x", "y"], ["x", "__", "z"]) == Mangled(["x", "y"], ["z"]) == ["__", "__", "z"]
  {
    assert Shared(["x", "y"], ["x", "__", "z"]) == 1 by {
      assert ["x", "y"][1..] == ["y"] && ["x", "__", "z"][1..] == ["__", "z"];
      assert "y" != "__" by { assert |"y"| != |"__"|; }
      assert Shared(["y"], ["__", "z"]) == 0;
    }
    assert Ups(1) == ["__"] && Ups(2) == ["__", "__"];
    assert ["x", "__", "z"][1..] == ["__", "z"];
    assert Shared(["x", "y"], ["z"]) == 0;
  }

  /** The target that `u` steps up would stand for in the object path of `target`. */
  function Reread(inst: seq<string>, path: seq<string>, u: nat): seq<string>
    requires u <= |inst| && u <= |path|
  {
    inst[..|inst| - u] + path[u..]
  }

  /** Reading the object path with `u` steps up instead gives a target with the same object path. */
  predicate Rival(inst: seq<string>, target: seq<string>, u: nat) {
    var path := Mangled(inst, target);
    && 0 < u <= |inst| && u < |path| && u != |inst| - Shared(inst, target)
    && (forall i :: 0 <= i < u ==> path[i] == "__")
    && (|path| == u + 1 || inst[|inst| - u] != path[u])
  }

  /** Where the shared directories stop. */
  lemma {:induction false} SharedStops(inst: seq<string>, target: seq<string>)
    ensures var n := Shared(inst, target);
            n < |inst| && n + 1 < |target| ==> inst[n] != target[n]
  {
    if inst != [] && |target| > 1 && inst[0] == target[0] { SharedStops(inst[1..], target[1..]); }
  }

  lemma {:induction false} SharedExact(inst: seq<string>, m: nat, rest: seq<string>)
    requires m <= |inst| && rest != [] && (m == |inst| || |rest| == 1 || inst[m] != rest[0])
    ensures Shared(inst, inst[..m] + rest) == m
  {
    var target := inst[..m] + rest;
    if m > 0 {
      assert target[1..] == inst[1..][..m - 1] + rest;
      SharedExact(inst[1..], m - 1, rest);
    } else {
      assert target == rest;
    }
  }

  /** A target above the module: its object path is its steps up and what is left of it. */
  lemma {:induction false} MangledAbove(inst: seq<string>, target: seq<string>)
    requires target != [] && Shared(inst, target) < |inst|
    ensures var path, u := Mangled(inst, target), |inst| - Shared(inst, target);
            && u < |path| && (forall i :: 0 <= i < u ==> path[i] == "__")
            && Reread(inst, path, u) == target && (|path| == u + 1 || inst[|inst| - u] != path[u])
            && |path| == u + |target| - Shared(inst, target)
  {
    var n := Shared(inst, target);
    UpsAre(|inst| - n);
    SharedIsCommon(inst, target);
    SharedStops(inst, target);
    assert target == target[..n] + target[n..];
    assert Mangled(inst, target)[|inst| - n..] == target[n..];
  }

  lemma {:induction false} MangledBelow(inst: seq<string>, target: seq<string>)
    requires target != [] && Shared(inst, target) == |inst|
    ensures var path := Mangled(inst, target); |path| == 1 || path[0] == "_"
  {
  }

  /** Another target with the same object path makes a rival reading. */
  lemma {:induction false} CollisionHasRival(inst: seq<string>, target: seq<string>, other: seq<string>)
    requires target != [] && other != [] && target != other && Mangled(inst, target) == Mangled(inst, other)
    ensures Rival(inst, target, |inst| - Shared(inst, other))
  {
    if Shared(inst, other) == |inst| || Shared(inst, target) == |inst| {
      if Shared(inst, other) < |inst| { MangledAbove(inst, other); } else { MangledBelow(inst, other); }
      if Shared(inst, target) < |inst| { MangledAbove(inst, target); } else { MangledBelow(inst, target); }
      RoundTrip(inst, target);
      RoundTrip(inst, other);
    } else {
      MangledAbove(inst, other);
      MangledAbove(inst, target);
    }
  }

  /** Mangling what a path reads as with `u` steps up gives the path back. */
  lemma {:induction false} MangledReread(inst: seq<string>, path: seq<string>, u: nat)
    requires 0 < u <= |inst| && u < |path| && (forall i :: 0 <= i < u ==> path[i] == "__")
    requires |path| == u + 1 || inst[|inst| - u] != path[u]
    ensures Mangled(inst, Reread(inst, path, u)) == path && Shared(inst, Reread(inst, path, u)) == |inst| - u
  {
    var rest := path[u..];
    SharedExact(inst, |inst| - u, rest);
    UpsAre(u);
    assert Reread(inst, path, u)[|inst| - u..] == rest;
    assert path[..u] == Ups(u) && path == path[..u] + rest;
  }

  /** And a rival reading is another target with the same object path. */
  lemma {:induction false} RivalCollides(inst: seq<string>, target: seq<string>, u: nat)
    requires target != [] && Rival(inst, target, u)
    ensures var other := Reread(inst, Mangled(inst, target), u);
            other != [] && other != target && Mangled(inst, other) == Mangled(inst, target)
  {
    MangledReread(inst, Mangled(inst, target), u);
  }

  /**
   * Exactly when a target shares its object path with another one: some other
   * number of the leading `__` can be read as steps up.
   */
  lemma {:induction false} CollidesIff(inst: seq<string>, target: seq<string>)
    requires target != []
    ensures (exists other :: other != [] && other != target && Mangled(inst, other) == Mangled(inst, target))
            <==> exists u: nat :: Rival(inst, target, u)
  {
    if other :| other != [] && other != target && Mangled(inst, other) == Mangled(inst, target) {
      CollisionHasRival(inst, target, other);
    }
    if u: nat :| Rival(inst, target, u) {
      RivalCollides(inst, target, u);
    }
  }

  /** The rival of a clean target is clean, so such a collision is one between real paths. */
  lemma {:induction false} RivalIsClean(inst: seq<string>, target: seq<string>, u: nat)
    requires Clean(inst) && Clean(target) && target != [] && Rival(inst, target, u)
    ensures Clean(Reread(inst, Mangled(inst, target), u))
  {
    UpsAre(|inst| - Shared(inst, target));
  }

  // ------------------------------------------------------------ on strings

  function Join(path: seq<string>): string {
    if path == [] then "" else if |path| == 1 then path[0] else path[0] + "/" + Join(path[1..])
  }

  /** The first slash, or the length. */
  function SlashAt(s: string): (n: nat)
    ensures n <= |s|
  {
    if s == "" || s[0] == '/' then 0 else 1 + SlashAt(s[1..])
  }

  lemma {:induction false} SlashAtMeans(s: string)
    ensures '/' !in s[..SlashAt(s)] && (SlashAt(s) < |s| ==> s[SlashAt(s)] == '/')
  {
    if s != "" && s[0] != '/' {
      SlashAtMeans(s[1..]);
      assert s[..SlashAt(s)] == [s[0]] + s[1..][..SlashAt(s) - 1];
    }
  }

  lemma {:induction false} PrefixHas(s: string, n: nat)
    requires n <= |s|
    ensures forall i :: 0 <= i < n ==> s[i] in s[..n]
  {
    forall i | 0 <= i < n ensures s[i] in s[..n] { assert s[..n][i] == s[i]; }
  }

  lemma {:induction false} SlashAtIs(s: string, n: nat)
    requires n <= |s| && '/' !in s[..n] && (n < |s| ==> s[n] == '/')
    ensures SlashAt(s) == n
  {
    SlashAtMeans(s);
    PrefixHas(s, n);
    PrefixHas(s, SlashAt(s));
  }

  function SplitPath(s: string): seq<string>
    decreases |s|
  {
    if s == "" then []
    else if SlashAt(s) == |s| then [s]
    else [s[..SlashAt(s)]] + SplitPath(s[SlashAt(s) + 1..])
  }

  /** The first component of a joined path and the path behind it. */
  lemma {:induction false} JoinHead(path: seq<string>)
    requires Clean(path) && path != []
    ensures Join(path) != "" && SlashAt(Join(path)) == |path[0]| <= |Join(path)| && Join(path)[..|path[0]|] == path[0]
    ensures SlashAt(Join(path)) == |Join(path)| <==> |path| == 1
    ensures |path| > 1 ==> Join(path)[|path[0]| + 1..] == Join(path[1..])
  {
    var s := Join(path);
    if |path| > 1 {
      var tail := "/" + Join(path[1..]);
      assert s == path[0] + tail && s[..|path[0]|] == path[0] && s[|path[0]|..] == tail;
      assert s[|path[0]|] == tail[0];
    } else {
      assert s == path[0] && s[..|s|] == s;
    }
    SlashAtIs(s, |path[0]|);
  }

  lemma {:induction false} SplitHead(s: string, head: string, tail: string)
    requires SlashAt(s) == |head| < |s| && s[..|head|] == head && s[|head| + 1..] == tail
    ensures SplitPath(s) == [head] + SplitPath(tail)
  {
  }

  /** Splitting undoes joining, so clean paths and their strings say the same. */
  lemma {:induction false} SplitOfJoin(path: seq<string>)
    requires Clean(path)
    ensures SplitPath(Join(path)) == path
  {
    if path != [] {
      JoinHead(path);
      if |path| > 1 {
        SplitHead(Join(path), path[0], Join(path[1..]));
        SplitOfJoin(path[1..]);
        assert path == [path[0]] + path[1..];
      } else {
        assert path == [path[0]];
      }
    }
  }

  datatype Pair = Pair(a: string, b: string)

  /** What the first loop leaves of both strings. */
  function Stripped(a: string, b: string): Pair
    decreases |b|
  {
    if a == "" || b == "" || SlashAt(b) == |b| || a[..SlashAt(a)] != b[..SlashAt(b)] then Pair(a, b)
    else Stripped(if SlashAt(a) == |a| then "" else a[SlashAt(a) + 1..], b[SlashAt(b) + 1..])
  }

  function SlashCount(s: string): nat {
    if s == "" then 0 else SlashCount(s[1..]) + if s[0] == '/' then 1 else 0
  }

  function UpString(n: nat): string {
    if n == 0 then "" else if n == 1 then "__" else UpString(n - 1) + "/" + "__"
  }

  /** `composeSrcDirOutputRel`, as a function of its two strings. */
  function Composed(inst: string, target: string): string {
    var p := Stripped(inst, target);
    Spelled(p.a, p.b)
  }

  lemma {:induction false} StrippedIsShared(inst: seq<string>, target: seq<string>)
    requires Clean(inst) && Clean(target)
    ensures var n := Shared(inst, target);
            Stripped(Join(inst), Join(target)) == Pair(Join(inst[n..]), Join(target[n..]))
    decreases |target|
  {
    if inst != [] && target != [] {
      JoinHead(inst);
      JoinHead(target);
      if |target| > 1 && inst[0] == target[0] {
        StrippedIsShared(inst[1..], target[1..]);
        var m := Shared(inst[1..], target[1..]);
        assert inst[m + 1..] == inst[1..][m..] && target[m + 1..] == target[1..][m..];
      } else {
        assert inst[0..] == inst && target[0..] == target;
      }
    } else {
      assert inst[0..] == inst && target[0..] == target;
    }
  }

  lemma {:induction false} SlashCountPlain(s: string)
    requires '/' !in s
    ensures SlashCount(s) == 0
  {
    if s != "" {
      assert s[0] in s && forall c :: c in s[1..] ==> c in s;
      SlashCountPlain(s[1..]);
    }
  }

  lemma {:induction false} SlashCountConcat(s: string, t: string)
    ensures SlashCount(s + t) == SlashCount(s) + SlashCount(t)
    decreases |s|
  {
    if s == "" {
      assert s + t == t;
    } else {
      assert (s + t)[1..] == s[1..] + t;
      SlashCountConcat(s[1..], t);
    }
  }

  lemma {:induction false} SlashCountJoin(path: seq<string>)
    requires Clean(path) && path != []
    ensures SlashCount(Join(path)) + 1 == |path|
  {
    SlashCountPlain(path[0]);
    if |path| > 1 {
      SlashCountJoin(path[1..]);
      SlashCountConcat(path[0] + "/", Join(path[1..]));
      SlashCountConcat(path[0], "/");
    }
  }

  lemma {:induction false} JoinConcat(a: seq<string>, b: seq<string>)
    requires a != [] && b != []
    ensures Join(a + b) == Join(a) + "/" + Join(b)
    decreases |a|
  {
    assert (a + b)[1..] == a[1..] + b;
    if |a| > 1 { JoinConcat(a[1..], b); }
  }

  lemma {:induction false} UpStringJoins(n: nat)
    ensures UpString(n) == Join(Ups(n))
  {
    if n > 1 {
      UpStringJoins(n - 1);
      UpsAre(n - 1);
      UpsAre(n);
      assert Ups(n) == Ups(n - 1) + ["__"];
      JoinConcat(Ups(n - 1), ["__"]);
    } else if n == 1 {
      assert Ups(1) == ["__"];
    }
  }

  /** What `composeSrcDirOutputRel` makes of the stripped strings. */
  function Spelled(a: string, b: string): string {
    if a == "" then (if SlashAt(b) < |b| then "_/" + b else b)
    else UpString(SlashCount(a) + 1) + if b == "" then "" else "/" + b
  }

  lemma {:induction false} SpelledBelow(rest: seq<string>)
    requires Clean(rest)
    ensures Spelled("", Join(rest)) == Join(if |rest| > 1 then ["_"] + rest else rest)
  {
    if rest != [] { JoinHead(rest); }
    if |rest| > 1 { JoinConcat(["_"], rest); }
  }

  lemma {:induction false} SpelledAbove(left: seq<string>, rest: seq<string>)
    requires Clean(left) && Clean(rest) && left != []
    ensures Spelled(Join(left), Join(rest)) == Join(Ups(|left|) + rest)
  {
    JoinHead(left);
    SlashCountJoin(left);
    UpStringJoins(|left|);
    UpsAre(|left|);
    if rest != [] {
      JoinHead(rest);
      JoinConcat(Ups(|left|), rest);
    } else {
      assert Ups(|left|) + rest == Ups(|left|);
    }
  }

  /** On clean paths the string function mangles the components. */
  lemma {:induction false} ComposedIsMangled(inst: seq<string>, target: seq<string>)
    requires Clean(inst) && Clean(target)
    ensures Composed(Join(inst), Join(target)) == Join(Mangled(inst, target))
  {
    var n := Shared(inst, target);
    StrippedIsShared(inst, target);
    if n == |inst| {
      SpelledBelow(target[n..]);
    } else {
      SpelledAbove(inst[n..], target[n..]);
    }
  }

  lemma {:induction false} MangledIsClean(inst: seq<string>, target: seq<string>)
    requires Clean(target)
    ensures Clean(Mangled(inst, target))
  {
    UpsAre(|inst| - Shared(inst, target));
  }

  /** For one module, two clean targets without a `__` directory get the same object path only if they are the same. */
  lemma {:induction false} ComposedIsInjective(inst: seq<string>, a: seq<string>, b: seq<string>)
    requires Clean(inst) && Clean(a) && Clean(b) && a != [] && b != []
    requires "__" !in a && "__" !in b
    requires Composed(Join(inst), Join(a)) == Composed(Join(inst), Join(b))
    ensures Join(a) == Join(b)
  {
    ComposedIsMangled(inst, a);
    ComposedIsMangled(inst, b);
    MangledIsClean(inst, a);
    MangledIsClean(inst, b);
    SplitOfJoin(Mangled(inst, a));
    SplitOfJoin(Mangled(inst, b));
    MangledIsInjective(inst, a, b);
  }

  /** The loop over shrinking strings. */
  method Strip(inst: string, target: string) returns (a: string, b: string)
    ensures Stripped(inst, target) == Pair(a, b)
  {
    a, b := inst, target;
    while a != "" && b != ""
      invariant Stripped(inst, target) == Stripped(a, b)
      decreases |b|
    {
      var ia, ib := SlashAt(a), SlashAt(b);
      if ib == |b| || a[..ia] != b[..ib] {
        return;
      }
      a := if ia == |a| then "" else a[ia + 1..];
      b := b[ib + 1..];
    }
  }

  method WriteUps(ups: nat) returns (buf: string)
    ensures buf == UpString(ups)
  {
    buf := "";
    for i := 0 to ups
      invariant buf == UpString(i)
    {
      if i > 0 {
        buf := buf + "/";
      }
      buf := buf + "__";
    }
  }

  method ComposeSrcDirOutputRel(inst: string, target: string) returns (r: string)
    ensures r == Composed(inst, target)
  {
    var a, b := Strip(inst, target);
    if a == "" {
      if SlashAt(b) < |b| {
        return "_/" + b;
      }
      return b;
    }
    r := WriteUps(SlashCount(a) + 1);
    if b != "" {
      r := r + ("/" + b);
    }
  }
}
