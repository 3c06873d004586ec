/** Path splitting and the tail key of the codegen registry (codegen_registry.go). */
module SplitKeys {
  ghost predicate IsLastSlash(s: string, r: int) {
    && -1 <= r < |s|
    && (r >= 0 ==> s[r] == '/')
    && (forall i :: r < i < |s| ==> s[i] != '/')
  }

  /** `strings.LastIndexByte(s, '/')`. */
  function LastSlash(s: string): (r: int)
    ensures -1 <= r < |s|
  {
    if s == [] then -1
    else if s[|s| - 1] == '/' then |s| - 1
    else LastSlash(s[..|s| - 1])
  }

  lemma {:induction false} LastSlashSpec(s: string)
    ensures IsLastSlash(s, LastSlash(s))
  {
    if s != [] && s[|s| - 1] != '/' {
      LastSlashSpec(s[..|s| - 1]);
    }
  }

  /** `strings.Count(s, "/")`. */
  function Slashes(s: string): nat {
    if s == [] then 0 else Slashes(s[..|s| - 1]) + (if s[|s| - 1] == '/' then 1 else 0)
  }

  /**
   * The functions the registry treats as given: a text hash, a 64-bit mixer, the
   * filter-bit selector, the clean-path test and the path cleaner. Nothing is
   * assumed about any of them.
   */
  datatype Hashes = Hashes(text: string -> nat, mix: nat -> nat, bit: (nat, nat) -> nat, slot: string -> nat,
                           clean: string -> bool, cleanRel: string -> string)

  datatype SplitKey = SplitKey(tail: nat, base: string, depth: nat, hasTail: bool)

  function SplitKeyOf(h: Hashes, suffix: string): SplitKey {
    var slash := LastSlash(suffix);
    if slash < 0 then SplitKey(0, suffix, 1, false)
    else SplitKey(h.text(suffix[LastSlash(suffix[..slash]) + 1..]), "", Slashes(suffix) + 1, true)
  }

  function PathDepth(rel: string): nat {
    if rel == "" then 0 else Slashes(rel) + 1
  }

  function TailOf(h: Hashes, k: SplitKey, prefix: string): nat {
    if k.hasTail then k.tail
    else h.text(prefix[LastSlash(prefix) + 1..] + "/" + k.base)
  }

  /** The path a prefix and a suffix denote together. */
  function Join(prefix: string, suffix: string): string {
    if prefix == "" then suffix else prefix + "/" + suffix
  }

  lemma {:induction false} SlashesConcat(a: string, b: string)
    ensures Slashes(a + b) == Slashes(a) + Slashes(b)
    decreases |b|
  {
    if b == [] {
      assert a + b == a;
    } else {
      assert (a + b)[..|a + b| - 1] == a + b[..|b| - 1];
      SlashesConcat(a, b[..|b| - 1]);
    }
  }

  lemma {:induction false} LastSlashIs(s: string, r: int)
    requires IsLastSlash(s, r)
    ensures LastSlash(s) == r
  {
    LastSlashSpec(s);
  }

  /** Where the last slash of `a/b` is. */
  lemma {:induction false} LastSlashJoined(a: string, b: string)
    ensures LastSlash(a + "/" + b) == |a| + 1 + LastSlash(b)
  {
    var p := a + "/" + b;
    assert p[|a|] == '/';
    LastSlashSpec(b);
    assert forall i :: 0 <= i < |b| ==> p[|a| + 1 + i] == b[i];
    LastSlashIs(p, |a| + 1 + LastSlash(b));
  }

  /** The text the tail hash covers: the last two components of the joined path. */
  ghost function TailText(prefix: string, suffix: string): string {
    var slash := LastSlash(suffix);
    if slash < 0 then prefix[LastSlash(prefix) + 1..] + "/" + suffix
    else suffix[LastSlash(suffix[..slash]) + 1..]
  }

  lemma {:induction false} JoinedHalves(a: string, b: string, k: nat)
    requires k <= |b|
    ensures (a + "/" + b)[..|a| + 1 + k] == a + "/" + b[..k]
    ensures (a + "/" + b)[|a| + 1 + k..] == b[k..]
  {
  }

  lemma {:induction false} JoinedLeft(a: string, b: string, k: nat)
    requires k <= |a|
    ensures (a + "/" + b)[..|a|] == a
    ensures (a + "/" + b)[k..] == a[k..] + "/" + b
  {
  }

  /** A whole path's tail text, read from its last slash. */
  lemma {:induction false} TailTextFrom(p: string, slash: int, at: int)
    requires slash == LastSlash(p) >= 0 && at == LastSlash(p[..slash])
    ensures TailText("", p) == p[at + 1..]
  {
  }

  lemma {:induction false} TailTextOne(a: string, b: string, at: int, p: string)
    requires a != "" && LastSlash(b) < 0 && at == LastSlash(a) && p == a + "/" + b
    ensures TailText("", p) == a[at + 1..] + "/" + b
  {
    assert LastSlash(p) == |a| by { LastSlashJoined(a, b); }
    JoinedLeft(a, b, at + 1);
    TailTextFrom(p, |a|, at);
  }

  lemma {:induction false} TailTextMore(a: string, b: string, slash: int, at: int)
    requires a != "" && slash == LastSlash(b) >= 0 && at == LastSlash(b[..slash])
    ensures TailText("", a + "/" + b) == TailText(a, b)
  {
    var p := a + "/" + b;
    assert LastSlash(p[..|a| + 1 + slash]) == |a| + 1 + at by {
      JoinedHalves(a, b, slash);
      LastSlashJoined(a, b[..slash]);
    }
    assert LastSlash(p) == |a| + 1 + slash by { LastSlashJoined(a, b); }
    TailTextFrom(p, |a| + 1 + slash, |a| + 1 + at);
    JoinedHalves(a, b, at + 1);
  }

  lemma {:induction false} TailIsText(h: Hashes, prefix: string, suffix: string)
    ensures TailOf(h, SplitKeyOf(h, suffix), prefix) == h.text(TailText(prefix, suffix))
  {
  }

  lemma {:induction false} DepthJoined(h: Hashes, a: string, b: string)
    requires a != ""
    ensures SplitKeyOf(h, a + "/" + b).depth == PathDepth(a) + SplitKeyOf(h, b).depth
  {
    LastSlashJoined(a, b);
    SlashesConcat(a + "/", b);
    SlashesConcat(a, "/");
    assert Slashes("/") == 1;
    if LastSlash(b) < 0 { NoSlashes(b); }
  }

  /**
   * The key computed from a lookup's two halves is the key computed from the
   * registered path, so neither the filter bit nor the generation bucket can
   * tell them apart.
   */
  lemma {:induction false} SplitKeyOfJoin(h: Hashes, prefix: string, suffix: string)
    ensures var whole, part := SplitKeyOf(h, Join(prefix, suffix)), SplitKeyOf(h, suffix);
            && TailOf(h, whole, "") == TailOf(h, part, prefix)
            && whole.depth == PathDepth(prefix) + part.depth
  {
    TailIsText(h, prefix, suffix);
    TailIsText(h, "", Join(prefix, suffix));
    if prefix != "" {
      if LastSlash(suffix) < 0 {
        TailTextOne(prefix, suffix, LastSlash(prefix), prefix + "/" + suffix);
      } else {
        TailTextMore(prefix, suffix, LastSlash(suffix), LastSlash(suffix[..LastSlash(suffix)]));
      }
      DepthJoined(h, prefix, suffix);
    }
  }

  lemma {:induction false} NoSlashes(s: string)
    requires LastSlash(s) < 0
    ensures Slashes(s) == 0
  {
    if s != [] {
      LastSlashSpec(s);
      assert s[|s| - 1] != '/';
      NoSlashes(s[..|s| - 1]);
    }
  }
}
