/** The colours of the two charts: the fixed ordinal scale of the sentiment
    bar chart and the polarity thresholds of the timeline markers. */
module Palette {
  import opened Wrappers

  const Green: string := "#4CAF50"
  const Red: string := "#F44336"
  const Amber: string := "#FFC107"

  /** `d3.scaleOrdinal` with an implicit unknown value: looking up a value not
      yet in the domain appends it, so later lookups of it agree. */
  datatype OrdinalScale = OrdinalScale(domain: seq<string>, range: seq<string>)

  /** The position of the first occurrence of `v` in `s`. */
  function Find(s: seq<string>, v: string): (r: Option<nat>)
    ensures r.Some? <==> v in s
    ensures r.Some? ==> r.value < |s| && s[r.value] == v
    ensures r.Some? ==> forall i :: 0 <= i < r.value ==> s[i] != v
  {
    if |s| == 0 then None
    else if s[0] == v then Some(0)
    else match Find(s[1..], v)
      case None => None
      case Some(k) => Some(k + 1)
  }

  /** Appending to a sequence does not move values already in it. */
  lemma {:induction false} FindAppend(s: seq<string>, e: seq<string>, v: string)
    requires v in s
    ensures Find(s + e, v) == Find(s, v)
  {
    var k := Find(s, v).value;
    assert (s + e)[k] == v;
  }

  /** Values without repetition. */
  predicate Distinct(s: seq<string>) {
    forall i, j :: 0 <= i < j < |s| ==> s[i] != s[j]
  }

  /** The first occurrence of every value, in order, as the scale's domain
      setter keeps it. */
  function Dedup(s: seq<string>): (d: seq<string>)
    ensures Distinct(d) && forall x :: x in d <==> x in s
    ensures |d| <= |s|
  {
    if |s| == 0 then []
    else
      var p := Dedup(s[..|s| - 1]);
      var x := s[|s| - 1];
      assert s == s[..|s| - 1] + [x];
      if x in p then p else p + [x]
  }

  /** Distinct values pass through unchanged. */
  lemma {:induction false} DedupDistinct(s: seq<string>)
    requires Distinct(s)
    ensures Dedup(s) == s
  {
    if |s| > 0 {
      var pre := s[..|s| - 1];
      DedupDistinct(pre);
      assert s[|s| - 1] !in pre;
      assert pre + [s[|s| - 1]] == s;
    }
  }

  /** `d3.scaleOrdinal().domain(domain).range(range)`. */
  function MakeScale(domain: seq<string>, range: seq<string>): (sc: OrdinalScale)
    ensures Distinct(sc.domain) && sc.range == range
    ensures forall v :: v in sc.domain <==> v in domain
  {
    OrdinalScale(Dedup(domain), range)
  }

  /** The sentiments the bar chart names, in the order of its domain. */
  const Named: seq<string> := ["positive", "negative", "neutral"]

  /** The bar chart's colour scale. */
  function SentimentScale(): (sc: OrdinalScale) {
    OrdinalScale(Named, [Green, Red, Amber])
  }

  /** Building the bar chart's scale through the domain setter keeps the three
      names in order and pairs them with green, red and amber. */
  lemma {:induction false} SentimentScaleBuilt()
    ensures MakeScale(Named, [Green, Red, Amber]) == SentimentScale()
  {
    DedupDistinct(Named);
  }

  /** Looks up `v`, cycling through the range by domain position, and returns
      the scale as the lookup leaves it. */
  function Apply(sc: OrdinalScale, v: string): (res: (OrdinalScale, string))
    requires |sc.range| > 0
    ensures res.0.range == sc.range
    ensures v in sc.domain ==> res.0 == sc
    ensures v !in sc.domain ==> res.0.domain == sc.domain + [v]
    ensures Find(res.0.domain, v).Some?
    ensures res.1 == sc.range[Find(res.0.domain, v).value % |sc.range|]
  {
    match Find(sc.domain, v)
    case Some(i) => (sc, sc.range[i % |sc.range|])
    case None =>
      var d := sc.domain + [v];
      assert d[|sc.domain|] == v && d[..|sc.domain|] == sc.domain;
      (sc.(domain := d), sc.range[|sc.domain| % |sc.range|])
  }

  /** The scale after looking up every value of `vs` in order. */
  function Grow(sc: OrdinalScale, vs: seq<string>): (r: OrdinalScale)
    requires |sc.range| > 0
    ensures r.range == sc.range
    ensures |sc.domain| <= |r.domain| && r.domain[..|sc.domain|] == sc.domain
    ensures forall k :: 0 <= k < |vs| ==> vs[k] in r.domain
    decreases |vs|
  {
    if |vs| == 0 then sc
    else
      var r := Grow(Apply(sc, vs[0]).0, vs[1..]);
      assert forall k :: 1 <= k < |vs| ==> vs[k] == vs[1..][k - 1];
      r
  }

  /** The fill of every bar, `colorScale(d.sentiment)` for each bar in order. */
  function BarColors(sc: OrdinalScale, vs: seq<string>): (cs: seq<string>)
    requires |sc.range| > 0
    ensures |cs| == |vs|
    decreases |vs|
  {
    if |vs| == 0 then []
    else [Apply(sc, vs[0]).1] + BarColors(Apply(sc, vs[0]).0, vs[1..])
  }

  /** Each bar's colour is fixed by where its sentiment sits in the final
      domain: the range entry at that position, cycling. */
  lemma {:induction false} ColorsByDomain(sc: OrdinalScale, vs: seq<string>, k: nat)
    requires |sc.range| > 0 && k < |vs|
    ensures Find(Grow(sc, vs).domain, vs[k]).Some?
    ensures BarColors(sc, vs)[k] == sc.range[Find(Grow(sc, vs).domain, vs[k]).value % |sc.range|]
    decreases |vs|
  {
    var sc1 := Apply(sc, vs[0]).0;
    var d := Grow(sc, vs).domain;
    if k == 0 {
      var d1 := sc1.domain;
      assert d == d1 + d[|d1|..];
      FindAppend(d1, d[|d1|..], vs[0]);
    } else {
      ColorsByDomain(sc1, vs[1..], k - 1);
    }
  }

  /** In the bar chart, a sentiment receives the same colour wherever it occurs. */
  lemma {:induction false} SameSentimentSameColor(vs: seq<string>, i: nat, j: nat)
    requires i < |vs| && j < |vs| && vs[i] == vs[j]
    ensures BarColors(SentimentScale(), vs)[i] == BarColors(SentimentScale(), vs)[j]
  {
    ColorsByDomain(SentimentScale(), vs, i);
    ColorsByDomain(SentimentScale(), vs, j);
  }

  /** A value already in the initial domain keeps its initial position, so
      its colour does not depend on the other bars. */
  lemma {:induction false} KnownColor(sc: OrdinalScale, vs: seq<string>, k: nat)
    requires |sc.range| > 0 && k < |vs| && vs[k] in sc.domain
    ensures BarColors(sc, vs)[k] == sc.range[Find(sc.domain, vs[k]).value % |sc.range|]
  {
    var d := Grow(sc, vs).domain;
    ColorsByDomain(sc, vs, k);
    assert d == sc.domain + d[|sc.domain|..];
    FindAppend(sc.domain, d[|sc.domain|..], vs[k]);
  }

  /** In a domain without repetitions a value's position is its index. */
  lemma FindDistinct(s: seq<string>, i: nat)
    requires Distinct(s) && i < |s|
    ensures Find(s, s[i]) == Some(i)
  {
  }

  /** A bar whose sentiment sits at index `i` of a repetition-free initial
      domain is coloured by range entry `i`, cycling. */
  lemma KnownColorAt(sc: OrdinalScale, vs: seq<string>, k: nat, i: nat)
    requires |sc.range| > 0 && k < |vs| && Distinct(sc.domain)
    requires i < |sc.domain| && vs[k] == sc.domain[i]
    ensures BarColors(sc, vs)[k] == sc.range[i % |sc.range|]
  {
    FindDistinct(sc.domain, i);
    KnownColor(sc, vs, k);
  }

  /** The three names differ from one another. */
  lemma NamedDistinct()
    ensures Distinct(Named)
  {
    assert Named[0][1] != Named[1][1] && Named[0][1] != Named[2][1];
    assert Named[1][2] != Named[2][2];
  }

  /** A "positive" bar is green, whatever other values the bars show. */
  lemma PositiveIsGreen(vs: seq<string>, k: nat)
    requires k < |vs| && vs[k] == "positive"
    ensures BarColors(SentimentScale(), vs)[k] == Green
  {
    NamedDistinct();
    KnownColorAt(SentimentScale(), vs, k, 0);
  }

  /** A "negative" bar is red, whatever other values the bars show. */
  lemma NegativeIsRed(vs: seq<string>, k: nat)
    requires k < |vs| && vs[k] == "negative"
    ensures BarColors(SentimentScale(), vs)[k] == Red
  {
    NamedDistinct();
    KnownColorAt(SentimentScale(), vs, k, 1);
  }

  /** A "neutral" bar is amber, whatever other values the bars show. */
  lemma NeutralIsAmber(vs: seq<string>, k: nat)
    requires k < |vs| && vs[k] == "neutral"
    ensures BarColors(SentimentScale(), vs)[k] == Amber
  {
    NamedDistinct();
    KnownColorAt(SentimentScale(), vs, k, 2);
  }

  /** Looking up values already in the domain leaves the scale unchanged and
      colours them by their domain position. */
  lemma {:induction false} KnownKeepsScale(sc: OrdinalScale, vs: seq<string>)
    requires |sc.range| > 0
    requires forall i :: 0 <= i < |vs| ==> vs[i] in sc.domain
    ensures Grow(sc, vs) == sc
    decreases |vs|
  {
    if |vs| > 0 {
      KnownKeepsScale(sc, vs[1..]);
    }
  }

  /** Colouring `a + b` colours `a` first and continues with the scale it leaves. */
  lemma {:induction false} BarColorsSplit(sc: OrdinalScale, a: seq<string>, b: seq<string>)
    requires |sc.range| > 0
    ensures Grow(sc, a + b) == Grow(Grow(sc, a), b)
    ensures BarColors(sc, a + b) == BarColors(sc, a) + BarColors(Grow(sc, a), b)
    decreases |a|
  {
    if |a| == 0 {
      assert a + b == b;
    } else {
      assert (a + b)[0] == a[0] && (a + b)[1..] == a[1..] + b;
      BarColorsSplit(Apply(sc, a[0]).0, a[1..], b);
    }
  }

  /** The first value missing from the domain, after values all in it, is
      appended and coloured by the range entry at the domain's old length. */
  lemma FirstNewColor(sc: OrdinalScale, vs: seq<string>, k: nat)
    requires |sc.range| > 0 && k < |vs|
    requires forall i :: 0 <= i < k ==> vs[i] in sc.domain
    requires vs[k] !in sc.domain
    ensures BarColors(sc, vs)[k] == sc.range[|sc.domain| % |sc.range|]
  {
    var pre := vs[..k];
    KnownKeepsScale(sc, pre);
    BarColorsSplit(sc, pre, vs[k..]);
    assert pre + vs[k..] == vs;
    assert BarColors(sc, vs)[k] == BarColors(sc, vs[k..])[0];
  }

  /** A sentiment outside the three named ones reuses a palette colour: the
      first such value, when all earlier bars are named, shows green. */
  lemma FirstUnknownIsGreen(vs: seq<string>, k: nat)
    requires k < |vs|
    requires forall i :: 0 <= i < k ==> vs[i] in Named
    requires vs[k] !in Named
    ensures BarColors(SentimentScale(), vs)[k] == Green
  {
    FirstNewColor(SentimentScale(), vs, k);
  }

  /** The fill of a timeline marker for a polarity in [-1, 1]. */
  function MarkerColor(polarity: real): (c: string)
    ensures c in [Green, Red, Amber]
  {
    if polarity > 0.1 then Green
    else if polarity < -0.1 then Red
    else Amber
  }

  /** Green exactly above 0.1, red exactly below -0.1, amber in between; the
      three colours are distinct, so the cases never overlap. */
  lemma {:induction false} MarkerBands(polarity: real)
    ensures MarkerColor(polarity) == Green <==> polarity > 0.1
    ensures MarkerColor(polarity) == Red <==> polarity < -0.1
    ensures MarkerColor(polarity) == Amber <==> -0.1 <= polarity <= 0.1
  {
    assert Green != Red && Green != Amber && Red != Amber by {
      assert Green[1] != Red[1] && Green[2] != Amber[2] && Red[2] != Amber[2];
    }
  }

  /** Red, amber, green rank the markers from negative to positive. */
  function Rank(c: string): int {
    if c == Red then 0 else if c == Amber then 1 else 2
  }

  /** A higher polarity never gets a more negative marker colour. */
  lemma {:induction false} MarkerMonotone(a: real, b: real)
    requires a <= b
    ensures Rank(MarkerColor(a)) <= Rank(MarkerColor(b))
  {
    MarkerBands(a);
    MarkerBands(b);
  }

  /** The markers use the bar chart's palette: a marker in the positive,
      negative or neutral polarity band has the colour the bar chart gives
      a bar of that sentiment, whatever other bars are drawn. */
  lemma {:induction false} MarkerMatchesBars(polarity: real, vs: seq<string>, k: nat)
    requires k < |vs|
    ensures vs[k] == "positive" && polarity > 0.1 ==>
      MarkerColor(polarity) == BarColors(SentimentScale(), vs)[k]
    ensures vs[k] == "negative" && polarity < -0.1 ==>
      MarkerColor(polarity) == BarColors(SentimentScale(), vs)[k]
    ensures vs[k] == "neutral" && -0.1 <= polarity <= 0.1 ==>
      MarkerColor(polarity) == BarColors(SentimentScale(), vs)[k]
  {
    if vs[k] == "positive" {
      PositiveIsGreen(vs, k);
    } else if vs[k] == "negative" {
      NegativeIsRed(vs, k);
    } else if vs[k] == "neutral" {
      NeutralIsAmber(vs, k);
    }
  }
}
