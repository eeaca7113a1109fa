/** Filtering-and-mapping over sequences.  Both the JSON-lines reader and the
    record cleaner of `dateclean.py` walk a list, drop some elements and turn
    each survivor into exactly one output element; this module states that
    shape once. */
module Seqs {
  import opened Wrappers

  /** Keeps `f(x).value` for every `x` of `s` for which `f(x)` is Some, in order. */
  function FilterMap<T, U>(s: seq<T>, f: T -> Option<U>): (r: seq<U>)
    ensures |r| <= |s|
    decreases |s|
  {
    if |s| == 0 then []
    else
      var rest := FilterMap(s[..|s| - 1], f);
      match f(s[|s| - 1])
      case Some(u) => rest + [u]
      case None => rest
  }

  /** The number of elements of `s` that `f` keeps. */
  function CountKept<T, U>(s: seq<T>, f: T -> Option<U>): nat
    decreases |s|
  {
    if |s| == 0 then 0
    else CountKept(s[..|s| - 1], f) + (if f(s[|s| - 1]).Some? then 1 else 0)
  }

  /** `ix` lists positions of `s`, strictly ascending. */
  ghost predicate Ascending(ix: seq<nat>, n: nat) {
    && (forall k :: 0 <= k < |ix| ==> ix[k] < n)
    && (forall k, l :: 0 <= k < l < |ix| ==> ix[k] < ix[l])
  }

  /** Filtering distributes over concatenation: the output for `a + b` is the
      output for `a` followed by the output for `b`. */
  lemma {:induction false} FilterMapAppend<T, U>(a: seq<T>, b: seq<T>, f: T -> Option<U>)
    ensures FilterMap(a + b, f) == FilterMap(a, f) + FilterMap(b, f)
    decreases |b|
  {
    if |b| == 0 {
      assert a + b == a;
    } else {
      var b' := b[..|b| - 1];
      assert (a + b)[..|a + b| - 1] == a + b';
      assert (a + b)[|a + b| - 1] == b[|b| - 1];
      FilterMapAppend(a, b', f);
    }
  }

  /** The output has exactly one element per kept input element. */
  lemma {:induction false} FilterMapCount<T, U>(s: seq<T>, f: T -> Option<U>)
    ensures |FilterMap(s, f)| == CountKept(s, f)
    decreases |s|
  {
    if |s| > 0 {
      FilterMapCount(s[..|s| - 1], f);
    }
  }

  /** The output is a subsequence of the mapped input: there are ascending
      positions `ix`, exactly the kept positions, such that output element `k`
      is the image of input element `ix[k]`. */
  lemma {:induction false} FilterMapOrigins<T, U>(s: seq<T>, f: T -> Option<U>)
    returns (ix: seq<nat>)
    ensures |ix| == |FilterMap(s, f)|
    ensures Ascending(ix, |s|)
    ensures forall k :: 0 <= k < |ix| ==> f(s[ix[k]]) == Some(FilterMap(s, f)[k])
    ensures forall i :: 0 <= i < |s| && f(s[i]).Some? ==> i in ix
    decreases |s|
  {
    if |s| == 0 {
      ix := [];
    } else {
      var n := |s| - 1;
      var pre := s[..n];
      var ix0 := FilterMapOrigins(pre, f);
      var out0 := FilterMap(pre, f);
      assert forall i :: 0 <= i < n ==> pre[i] == s[i];
      if f(s[n]).Some? {
        ix := ix0 + [n];
        assert FilterMap(s, f) == out0 + [f(s[n]).value];
        forall k | 0 <= k < |ix|
          ensures f(s[ix[k]]) == Some(FilterMap(s, f)[k])
        {
          if k < |ix0| {
            assert ix[k] == ix0[k] && FilterMap(s, f)[k] == out0[k];
          }
        }
      } else {
        ix := ix0;
        assert FilterMap(s, f) == out0;
      }
    }
  }
}
