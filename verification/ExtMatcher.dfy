/** Suffix matching through reversed keys (ext_matcher.go). */
module ExtMatchers {
  import opened Prelude
  import opened DartsTrie
  import opened Darts

  datatype ExtEntry<T> = ExtEntry(ext: seq<Byte>, val: T)

  function ReversedKeys<T>(entries: seq<ExtEntry<T>>): (keys: seq<seq<Byte>>)
    ensures |keys| == |entries|
    ensures forall i :: 0 <= i < |entries| ==> keys[i] == Reverse(entries[i].ext)
  {
    seq(|entries|, i requires 0 <= i < |entries| => Reverse(entries[i].ext))
  }

  function Values<T>(entries: seq<ExtEntry<T>>): (vals: seq<T>)
    ensures |vals| == |entries|
    ensures forall i :: 0 <= i < |entries| ==> vals[i] == entries[i].val
  {
    seq(|entries|, i requires 0 <= i < |entries| => entries[i].val)
  }

  /** The declarative answer: the entry with the longest non-empty extension ending `path`, the last one on ties. */
  ghost predicate BestEntry<T>(entries: seq<ExtEntry<T>>, path: seq<Byte>, i: int) {
    && 0 <= i < |entries| && entries[i].ext != [] && IsSuffix(entries[i].ext, path)
    && (forall j :: 0 <= j < |entries| && IsSuffix(entries[j].ext, path) ==> |entries[j].ext| <= |entries[i].ext|)
    && (forall j :: i < j < |entries| ==> entries[j].ext != entries[i].ext)
  }

  ghost predicate NoEntry<T>(entries: seq<ExtEntry<T>>, path: seq<Byte>) {
    forall j :: 0 <= j < |entries| && IsSuffix(entries[j].ext, path) ==> entries[j].ext == []
  }

  /** A longest reversed-key prefix is a best entry, and only then. */
  lemma {:induction false} LongestIsBestEntry<T>(entries: seq<ExtEntry<T>>, path: seq<Byte>, best: nat, found: bool)
    requires IsLongest(ReversedKeys(entries), Reverse(path), best, found)
    ensures if found then BestEntry(entries, path, best) else NoEntry(entries, path)
  {
    var keys := ReversedKeys(entries);
    forall j | 0 <= j < |entries|
      ensures keys[j] <= Reverse(path) <==> IsSuffix(entries[j].ext, path)
      ensures |keys[j]| == |entries[j].ext|
    {
      ReversePrefixIsSuffix(entries[j].ext, path);
    }
    if found {
      forall j | best < j < |entries|
        ensures entries[j].ext != entries[best].ext
      {
        assert keys[j] != keys[best];
      }
    }
  }

  class ExtMatcher<T> {
    var darts: DoubleArray
    var values: seq<T>
    ghost var entries: seq<ExtEntry<T>>

    ghost predicate Valid()
      reads this, darts
    {
      Represents(darts.View(), ReversedKeys(entries)) && values == Values(entries)
    }

    constructor (entries: seq<ExtEntry<T>>)
      ensures Valid() && this.entries == entries
    {
      var keys: seq<seq<Byte>> := [];
      var vals: seq<T> := [];
      for i := 0 to |entries|
        invariant |keys| == |vals| == i
        invariant forall j :: 0 <= j < i ==> keys[j] == Reverse(entries[j].ext) && vals[j] == entries[j].val
      {
        keys := keys + [Reverse(entries[i].ext)];
        vals := vals + [entries[i].val];
      }
      assert keys == ReversedKeys(entries) && vals == Values(entries);
      darts := new DoubleArray(keys);
      values := vals;
      this.entries := entries;
    }

    /** `match`: `None` exactly when no non-empty extension ends `path`. */
    method Match(path: seq<Byte>) returns (r: Option<T>)
      requires Valid()
      ensures r.None? <==> NoEntry(entries, path)
      ensures r.Some? ==> exists i :: BestEntry(entries, path, i) && r.value == entries[i].val
    {
      var i, ok := darts.LongestSuffixMatch(path, ReversedKeys(entries));
      LongestIsBestEntry(entries, path, i, ok);
      if !ok {
        return None;
      }
      r := Some(values[i]);
    }
  }
}
