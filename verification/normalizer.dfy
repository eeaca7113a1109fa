/** The whole data-preparation step of `renderTimelineChart`: map every raw
    point with its input position, then sort the result by time value. */
module Normalizer {
  import opened Wrappers
  import opened Calendar
  import opened Timeline
  import opened TimelineSort

  /** `data.map((d, i) => ...)`: one prepared point per raw point, in input order. */
  function Mapped(raw: seq<RawPoint>, now: int, fallback: string -> Time): (m: seq<Point>)
  {
    seq(|raw|, i requires 0 <= i < |raw| => PreparePoint(raw[i], i, now, fallback))
  }

  /** Every date of `raw` yields a time value (no NaN timestamps reach the sort). */
  predicate AllDated(raw: seq<RawPoint>, now: int, fallback: string -> Time) {
    forall i :: 0 <= i < |raw| ==> ParseDate(raw[i].date, now, fallback).Day?
  }

  /** The prepared points carry their positions, so they are in input order. */
  lemma MappedInOrder(raw: seq<RawPoint>, now: int, fallback: string -> Time)
    ensures InInputOrder(Mapped(raw, now, fallback))
    ensures forall k :: 0 <= k < |raw| ==> Mapped(raw, now, fallback)[k].index == k
  {
  }

  /** The points, normalised and sorted chronologically, equal time values
      keeping their input order. */
  function Normalize(raw: seq<RawPoint>, now: int, fallback: string -> Time): (r: seq<Point>)
    requires AllDated(raw, now, fallback)
    ensures |r| == |raw|
    ensures multiset(r) == multiset(Mapped(raw, now, fallback))
    ensures Ordered(r)
    ensures forall k :: 0 <= k < |r| ==>
      r[k].index < |raw| && r[k] == PreparePoint(raw[r[k].index], r[k].index, now, fallback)
  {
    var m := Mapped(raw, now, fallback);
    MappedInOrder(raw, now, fallback);
    SortOrdered(m);
    var r := SortByTime(m);
    assert forall k :: 0 <= k < |r| ==> r[k] in multiset(m);
    r
  }

  /** Any other chronological, input-order-preserving arrangement of the
      prepared points is the normaliser's result. */
  lemma NormalizeUnique(raw: seq<RawPoint>, now: int, fallback: string -> Time, t: seq<Point>)
    requires AllDated(raw, now, fallback)
    requires Ordered(t) && multiset(t) == multiset(Mapped(raw, now, fallback))
    ensures t == Normalize(raw, now, fallback)
  {
    SortUnique(t, Normalize(raw, now, fallback));
  }

  /** Every input position appears in the output exactly where the raw
      point's prepared form sits. */
  lemma NormalizeCovers(raw: seq<RawPoint>, now: int, fallback: string -> Time, i: nat)
    requires AllDated(raw, now, fallback) && i < |raw|
    ensures exists k :: 0 <= k < |raw| && Normalize(raw, now, fallback)[k] == PreparePoint(raw[i], i, now, fallback)
  {
    var m := Mapped(raw, now, fallback);
    var r := Normalize(raw, now, fallback);
    assert m[i] in multiset(r);
    var k :| 0 <= k < |r| && r[k] == m[i];
  }

  /** Two points whose dates are written `"MM DD, YYYY"` for calendar dates
      come out in calendar order. */
  lemma {:induction false} NormalizeChronological(raw: seq<RawPoint>, now: int, fallback: string -> Time,
                                                   i: nat, j: nat, a: Date, b: Date, p: nat, q: nat)
    requires AllDated(raw, now, fallback) && i < |raw| && j < |raw|
    requires 0 <= a.year <= 9999 && Valid(Date(FullYear(a.year), a.month, a.day))
    requires 0 <= b.year <= 9999 && Valid(Date(FullYear(b.year), b.month, b.day))
    requires raw[i].date == Some(DateText(a)) && raw[j].date == Some(DateText(b))
    requires Before(Date(FullYear(a.year), a.month, a.day), Date(FullYear(b.year), b.month, b.day))
    requires p < |raw| && q < |raw|
    requires Normalize(raw, now, fallback)[p].index == i && Normalize(raw, now, fallback)[q].index == j
    ensures p < q
  {
    var r := Normalize(raw, now, fallback);
    var da := Date(FullYear(a.year), a.month, a.day);
    var db := Date(FullYear(b.year), b.month, b.day);
    ParseDateText(a, now, fallback);
    ParseDateText(b, now, fallback);
    DayOrder(da, db);
    assert r[p].time == Day(DayNumber(da));
    assert r[q].time == Day(DayNumber(db));
    EarlierFirst(r, p, q);
  }
}
