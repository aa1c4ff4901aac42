/** The interpolated percentiles of the test-duration summary, over exact numbers. */
module DurationSummary {
  import opened Sequences

  function AtMost(): (real, real) -> bool { (x, y) => x <= y }

  function Blend(a: real, b: real, f: real): real { a * (1.0 - f) + b * f }

  /** Where the percentile falls, in positions of a sequence of length n. */
  function Place(n: nat, p: real): (x: real)
    requires n >= 1 && 0.0 <= p <= 1.0
    ensures 0.0 <= x <= (n - 1) as real
  {
    Scaled((n - 1) as real, p);
    (n - 1) as real * p
  }

  lemma Scaled(m: real, p: real)
    requires 0.0 <= m && 0.0 <= p <= 1.0
    ensures 0.0 <= m * p <= m
  {
  }

  /** The value at a position between the elements. */
  function At(s: seq<real>, x: real): real
    requires s != [] && 0.0 <= x <= (|s| - 1) as real
  {
    var lower := x.Floor;
    var upper := Min(lower + 1, |s| - 1);
    Blend(s[lower], s[upper], x - lower as real)
  }

  /** `_percentile` */
  function Percentile(s: seq<real>, p: real): real
    requires 0.0 <= p <= 1.0
  {
    if s == [] then 0.0
    else if |s| == 1 then s[0]
    else At(s, Place(|s|, p))
  }

  datatype Summary = Summary(count: nat, p80: real, p90: real, p95: real, p99: real, max: real)

  /** `summarize_durations` */
  function Summarize(durations: seq<real>): Summary {
    var values := SortBy(AtMost(), durations);
    if values == [] then Summary(0, 0.0, 0.0, 0.0, 0.0, 0.0)
    else
      Summary(|values|, Percentile(values, 0.8), Percentile(values, 0.9), Percentile(values, 0.95), Percentile(values, 0.99),
              values[|values| - 1])
  }

  // ---- Interpolation --------------------------------------------------------------------

  lemma BlendBetween(a: real, b: real, f: real)
    requires a <= b && 0.0 <= f <= 1.0
    ensures a <= Blend(a, b, f) <= b
  {
    assert Blend(a, b, f) == a + (b - a) * f;
    Scaled(b - a, f);
  }

  lemma BlendGrows(a: real, b: real, f: real, g: real)
    requires a <= b && f <= g
    ensures Blend(a, b, f) <= Blend(a, b, g)
  {
    assert Blend(a, b, g) - Blend(a, b, f) == (b - a) * (g - f);
  }

  lemma AtBetween(s: seq<real>, x: real)
    requires s != [] && 0.0 <= x <= (|s| - 1) as real && Sorted(AtMost(), s)
    ensures s[x.Floor] <= At(s, x) <= s[Min(x.Floor + 1, |s| - 1)]
  {
    var lower := x.Floor;
    var upper := Min(lower + 1, |s| - 1);
    assert lower < upper ==> AtMost()(s[lower], s[upper]);
    BlendBetween(s[lower], s[upper], x - lower as real);
  }

  lemma AtGrows(s: seq<real>, x: real, y: real)
    requires s != [] && 0.0 <= x <= y <= (|s| - 1) as real && Sorted(AtMost(), s)
    ensures At(s, x) <= At(s, y)
  {
    var lower, upper := x.Floor, Min(x.Floor + 1, |s| - 1);
    if x.Floor == y.Floor {
      assert lower < upper ==> AtMost()(s[lower], s[upper]);
      BlendGrows(s[lower], s[upper], x - lower as real, y - lower as real);
    } else {
      AtBetween(s, x);
      AtBetween(s, y);
      assert upper < y.Floor ==> AtMost()(s[upper], s[y.Floor]);
      hide At;
    }
  }

  // ---- Main results -----------------------------------------------------------------------

  /** A percentile of a sorted sequence lies between its ends, and grows with the percentage. */
  lemma PercentileGrows(s: seq<real>, p: real, q: real)
    requires s != [] && Sorted(AtMost(), s) && 0.0 <= p <= q <= 1.0
    ensures s[0] <= Percentile(s, p) <= Percentile(s, q) <= s[|s| - 1]
  {
    if |s| > 1 {
      PlaceGrows(|s|, p, q);
      var x, y := Place(|s|, p), Place(|s|, q);
      AtGrows(s, x, y);
      AtBetween(s, x);
      AtBetween(s, y);
      assert x.Floor > 0 ==> AtMost()(s[0], s[x.Floor]);
      var upper := Min(y.Floor + 1, |s| - 1);
      assert upper < |s| - 1 ==> AtMost()(s[upper], s[|s| - 1]);
      hide At, Place;
    }
  }

  lemma PlaceGrows(n: nat, p: real, q: real)
    requires n >= 1 && 0.0 <= p <= q <= 1.0
    ensures Place(n, p) <= Place(n, q)
  {
    Scaled((n - 1) as real, q - p);
    assert Place(n, q) - Place(n, p) == (n - 1) as real * (q - p);
  }

  /** Where the percentage hits a position exactly, the percentile is the element there; so 0 gives the
      smallest and 1 the largest. */
  lemma PercentileExact(s: seq<real>, p: real, k: nat)
    requires |s| > 1 && k < |s| && 0.0 <= p <= 1.0 && (|s| - 1) as real * p == k as real
    ensures Percentile(s, p) == s[k]
  {
    assert Place(|s|, p) == k as real && (k as real).Floor == k;
  }

  /** The summary's percentiles are ordered, end at the largest duration, and do not depend on the order
      in which the durations come. */
  lemma SummaryOrdered(durations: seq<real>)
    requires durations != []
    ensures var m := Summarize(durations);
      && m.count == |durations| && m.p80 <= m.p90 <= m.p95 <= m.p99 <= m.max
      && m.max in durations && forall d :: d in durations ==> d <= m.max
  {
    var s := SortBy(AtMost(), durations);
    SortPermutes(AtMost(), durations);
    SortSorts(AtMost(), durations);
    PercentileGrows(s, 0.8, 0.9);
    PercentileGrows(s, 0.9, 0.95);
    PercentileGrows(s, 0.95, 0.99);
    hide Percentile, SortBy;
    forall d | d in durations ensures d <= s[|s| - 1] {
      var i := Position(s, d);
      assert i < |s| - 1 ==> AtMost()(s[i], s[|s| - 1]);
    }
    assert s[|s| - 1] in s;
  }

  lemma SummaryOrderIrrelevant(a: seq<real>, b: seq<real>)
    requires multiset(a) == multiset(b)
    ensures Summarize(a) == Summarize(b)
  {
    SortPermutes(AtMost(), a);
    SortPermutes(AtMost(), b);
    SortSorts(AtMost(), a);
    SortSorts(AtMost(), b);
    SortedUnique(AtMost(), SortBy(AtMost(), a), SortBy(AtMost(), b));
  }

  // ---- Between the elements -----------------------------------------------------------------

  /** Between two elements the percentile goes up evenly from one to the other. */
  lemma PercentileBetween(s: seq<real>, p: real, k: nat, f: real)
    requires k + 1 < |s| && 0.0 <= p <= 1.0 && 0.0 <= f < 1.0 && (|s| - 1) as real * p == k as real + f
    ensures Percentile(s, p) == s[k] + f * (s[k + 1] - s[k])
  {
    var x := Place(|s|, p);
    assert x == k as real + f && x.Floor == k;
    var a, b := s[k], s[k + 1];
    assert Percentile(s, p) == Blend(a, b, f);
    assert a * (1.0 - f) + b * f == a + f * (b - a);
  }

  lemma FewDurations(d: real, p: real)
    requires 0.0 <= p <= 1.0
    ensures Percentile([], p) == 0.0 && Percentile([d], p) == d && Summarize([]) == Summary(0, 0.0, 0.0, 0.0, 0.0, 0.0)
  {
  }

  /** Of the durations from 0 to 100 each percentile is its own number. */
  lemma SummaryOfHundred(s: seq<real>)
    requires |s| == 101 && forall i :: 0 <= i < 101 ==> s[i] == i as real
    ensures Summarize(s) == Summary(101, 80.0, 90.0, 95.0, 99.0, 100.0)
  {
    assert Sorted(AtMost(), s);
    SortOfSorted(AtMost(), s);
    PercentileExact(s, 0.8, 80);
    PercentileExact(s, 0.9, 90);
    PercentileExact(s, 0.95, 95);
    PercentileExact(s, 0.99, 99);
    hide Percentile, SortBy;
  }
}
