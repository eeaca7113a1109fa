/** The `processedData.sort((a, b) => a.timestamp - b.timestamp)` step of
    `renderTimelineChart`.  Array.prototype.sort is stable (ECMA-262
    requires it), so with a consistent comparator the result is the input
    ordered by time value, ties kept in input order.  The model is a stable
    insertion sort; SortUnique shows that every stable sort gives the same
    result. */
module TimelineSort {
  import opened Timeline

  /** Every point has a time value that is not NaN.  With a NaN time value the
      comparator returns NaN, and the order the standard leaves to the engine. */
  predicate Timed(s: seq<Point>) {
    forall i :: 0 <= i < |s| ==> s[i].time.Day?
  }

  /** `a` belongs strictly before `b`: earlier, or at the same time and
      earlier in the input. */
  predicate Precedes(a: Point, b: Point) {
    match (a.time, b.time)
    case (Day(x), Day(y)) => x < y || (x == y && a.index < b.index)
    case _ => false
  }

  /** Sorted ascending by time value, and stable: equal time values keep
      their input order. */
  predicate Ordered(s: seq<Point>) {
    Timed(s) && forall i, j :: 0 <= i < j < |s| ==> Precedes(s[i], s[j])
  }

  /** Sorted ascending by time value, ignoring input positions. */
  predicate ByTime(s: seq<Point>)
    requires Timed(s)
  {
    forall i, j :: 0 <= i < j < |s| ==> s[i].time.n <= s[j].time.n
  }

  /** Input positions ascend along `s`, as they do in `data.map((d, i) => ...)`. */
  predicate InInputOrder(s: seq<Point>) {
    forall i, j :: 0 <= i < j < |s| ==> s[i].index < s[j].index
  }

  /** Places `x` after every element of the sorted `s` whose time value is not
      later than its own, so `x` follows the points it ties with. */
  function Insert(x: Point, s: seq<Point>): (r: seq<Point>)
    requires x.time.Day? && Timed(s)
    ensures |r| == |s| + 1 && Timed(r)
    ensures multiset(r) == multiset(s) + multiset{x}
    decreases |s|
  {
    if |s| == 0 then [x]
    else if x.time.n < s[0].time.n then [x] + s
    else
      var r := [s[0]] + Insert(x, s[1..]);
      assert s == [s[0]] + s[1..];
      r
  }

  /** Stable insertion sort by time value: each point is inserted, in input
      order, behind the points already placed. */
  function SortByTime(s: seq<Point>): (r: seq<Point>)
    requires Timed(s)
    ensures |r| == |s| && Timed(r)
    ensures multiset(r) == multiset(s)
    decreases |s|
  {
    if |s| == 0 then []
    else
      var r := Insert(s[|s| - 1], SortByTime(s[..|s| - 1]));
      assert s == s[..|s| - 1] + [s[|s| - 1]];
      r
  }

  /** Every element of `Insert(x, s)` is `x` or an element of `s`. */
  lemma InsertFrom(x: Point, s: seq<Point>, e: Point)
    requires x.time.Day? && Timed(s)
    requires e in Insert(x, s)
    ensures e == x || e in s
  {
    assert e in multiset(Insert(x, s));
  }

  /** Inserting a point that comes later in the input than everything in an
      ordered sequence keeps it ordered. */
  lemma {:induction false} InsertOrdered(x: Point, s: seq<Point>)
    requires x.time.Day? && Ordered(s)
    requires forall k :: 0 <= k < |s| ==> s[k].index < x.index
    ensures Ordered(Insert(x, s))
    decreases |s|
  {
    if |s| > 0 && x.time.n >= s[0].time.n {
      var t := s[1..];
      InsertOrdered(x, t);
      var rest := Insert(x, t);
      forall e | e in rest
        ensures Precedes(s[0], e)
      {
        InsertFrom(x, t, e);
      }
      HeadOrdered(s[0], rest);
    }
  }

  /** Putting a point in front of an ordered sequence whose every element it
      precedes gives an ordered sequence. */
  lemma HeadOrdered(h: Point, rest: seq<Point>)
    requires h.time.Day? && Ordered(rest)
    requires forall e :: e in rest ==> Precedes(h, e)
    ensures Ordered([h] + rest)
  {
    var r := [h] + rest;
    forall i, j | 0 <= i < j < |r|
      ensures Precedes(r[i], r[j])
    {
      assert r[j] == rest[j - 1];
      if i > 0 {
        assert r[i] == rest[i - 1];
      }
    }
  }

  /** Points with ascending input positions sort into an ordered sequence. */
  lemma {:induction false} SortOrdered(s: seq<Point>)
    requires Timed(s) && InInputOrder(s)
    ensures Ordered(SortByTime(s))
    decreases |s|
  {
    if |s| > 0 {
      var n := |s| - 1;
      var pre := s[..n];
      assert forall i :: 0 <= i < n ==> pre[i] == s[i];
      SortOrdered(pre);
      var sorted := SortByTime(pre);
      forall k | 0 <= k < |sorted|
        ensures sorted[k].index < s[n].index
      {
        assert sorted[k] in multiset(pre);
        var i :| 0 <= i < n && pre[i] == sorted[k];
      }
      InsertOrdered(s[n], sorted);
    }
  }

  /** Inserting a point no earlier than everything in `s` appends it. */
  lemma {:induction false} InsertLast(x: Point, s: seq<Point>)
    requires x.time.Day? && Timed(s)
    requires forall k :: 0 <= k < |s| ==> s[k].time.n <= x.time.n
    ensures Insert(x, s) == s + [x]
    decreases |s|
  {
    if |s| > 0 {
      InsertLast(x, s[1..]);
      assert [s[0]] + (s[1..] + [x]) == s + [x];
    }
  }

  /** A sequence already sorted by time value is left exactly as it is. */
  lemma {:induction false} SortSorted(s: seq<Point>)
    requires Timed(s) && ByTime(s)
    ensures SortByTime(s) == s
    decreases |s|
  {
    if |s| > 0 {
      var n := |s| - 1;
      var pre := s[..n];
      SortSorted(pre);
      InsertLast(s[n], pre);
      assert pre + [s[n]] == s;
    }
  }

  /** Sorting twice is sorting once. */
  lemma SortIdempotent(s: seq<Point>)
    requires Timed(s) && InInputOrder(s)
    ensures SortByTime(SortByTime(s)) == SortByTime(s)
  {
    SortOrdered(s);
    SortSorted(SortByTime(s));
  }

  /** In an ordered sequence a point with an earlier time value sits earlier. */
  lemma EarlierFirst(s: seq<Point>, p: nat, q: nat)
    requires Ordered(s) && p < |s| && q < |s|
    requires s[p].time.n < s[q].time.n
    ensures p < q
  {
  }

  /** The first element of an ordered sequence precedes every other element. */
  lemma HeadFirst(s: seq<Point>, e: Point)
    requires Ordered(s) && |s| > 0 && e in s && e != s[0]
    ensures Precedes(s[0], e)
  {
    var k :| 0 <= k < |s| && s[k] == e;
  }

  /** Dropping the first element keeps a sequence ordered. */
  lemma TailOrdered(s: seq<Point>)
    requires Ordered(s) && |s| > 0
    ensures Ordered(s[1..])
  {
    var t := s[1..];
    assert forall a, b :: 0 <= a < b < |t| ==> t[a] == s[a + 1] && t[b] == s[b + 1];
  }

  /** Removing the same first element from two equal multisets of sequences
      leaves equal multisets. */
  lemma TailsAgree(s: seq<Point>, t: seq<Point>)
    requires |s| > 0 && |t| > 0 && s[0] == t[0] && multiset(s) == multiset(t)
    ensures multiset(s[1..]) == multiset(t[1..])
  {
    assert s == [s[0]] + s[1..] && t == [t[0]] + t[1..];
    assert multiset(s[1..]) == multiset(s) - multiset{s[0]};
    assert multiset(t[1..]) == multiset(t) - multiset{t[0]};
  }

  /** Two ordered arrangements of the same points are the same sequence, so
      any stable sort agrees with SortByTime. */
  lemma {:induction false} SortUnique(s: seq<Point>, t: seq<Point>)
    requires Ordered(s) && Ordered(t) && multiset(s) == multiset(t)
    ensures s == t
    decreases |s|
  {
    assert |s| == |multiset(s)| == |t|;
    if |s| > 0 {
      assert s[0] in multiset(t) && t[0] in multiset(s);
      if s[0] != t[0] {
        HeadFirst(t, s[0]);
        HeadFirst(s, t[0]);
        assert false;
      }
      TailsAgree(s, t);
      TailOrdered(s);
      TailOrdered(t);
      SortUnique(s[1..], t[1..]);
      assert s == [s[0]] + s[1..] && t == [t[0]] + t[1..];
    }
  }
}
