/** One-pass latency statistics (src/latency.c) over the reals, against the two-pass definition. */
module Latency {

  function Sum(s: seq<real>): real { if s == [] then 0.0 else Sum(s[..|s| - 1]) + s[|s| - 1] }

  /** The mean; 0 for no samples, as the zeroed structure says. */
  function Mean(s: seq<real>): real { if s == [] then 0.0 else Sum(s) / |s| as real }

  /** The sum of squared deviations from c. */
  function Deviations(s: seq<real>, c: real): real {
    if s == [] then 0.0 else Deviations(s[..|s| - 1], c) + (s[|s| - 1] - c) * (s[|s| - 1] - c)
  }

  /** struct stats, without the extrema and the square root. */
  datatype Stats = Stats(count: nat, mean: real, m2: real)

  const NoStats := Stats(0, 0.0, 0.0)

  function Summary(s: seq<real>): Stats { Stats(|s|, Mean(s), Deviations(s, Mean(s))) }

  /** The three assignments of latency_on_sample. */
  function AddSample(st: Stats, x: real): Stats {
    var delta := x - st.mean;
    var mean := st.mean + delta / (st.count + 1) as real;
    Stats(st.count + 1, mean, st.m2 + delta * (x - mean))
  }

  /** What moving the centre from c to c + e adds to the squared deviations of n samples. */
  function Shift(n: real, sum: real, c: real, e: real): real { n * (e * e) - 2.0 * e * (sum - n * c) }

  lemma ShiftNone(c: real, e: real)
    ensures Shift(0.0, 0.0, c, e) == 0.0
  {
  }

  lemma ShiftOne(n: real, sum: real, c: real, e: real, x: real)
    ensures Shift(n + 1.0, sum + x, c, e) == Shift(n, sum, c, e) + (x - (c + e)) * (x - (c + e)) - (x - c) * (x - c)
  {
    var y := x - c;
    assert (x - (c + e)) * (x - (c + e)) == (y - e) * (y - e) == y * y - 2.0 * e * y + e * e;
    assert sum + x - (n + 1.0) * c == (sum - n * c) + y;
    assert 2.0 * e * ((sum - n * c) + y) == 2.0 * e * (sum - n * c) + 2.0 * e * y;
  }

  lemma {:induction false} ShiftCentre(s: seq<real>, c: real, e: real)
    ensures Deviations(s, c + e) == Deviations(s, c) + Shift(|s| as real, Sum(s), c, e)
  {
    hide Shift;
    if s == [] {
      ShiftNone(c, e);
    } else {
      var t, x := s[..|s| - 1], s[|s| - 1];
      ShiftCentre(t, c, e);
      ShiftOne(|t| as real, Sum(t), c, e, x);
      assert |s| as real == |t| as real + 1.0;
    }
  }

  lemma SumIsMean(s: seq<real>)
    ensures Sum(s) == |s| as real * Mean(s)
  {
  }

  /** The arithmetic of one update: n samples with mean m and squared deviations d2, one more sample x. */
  lemma Welford(n: real, n1: real, m: real, x: real, m1: real)
    requires n >= 0.0 && n1 == n + 1.0 && m1 == m + (x - m) / n1
    ensures (n * m + x) / n1 == m1
    ensures n * ((m1 - m) * (m1 - m)) + (x - m1) * (x - m1) == (x - m) * (x - m1)
  {
    var d, e := x - m, m1 - m;
    assert n1 * e == d;
    Quotient(n, m, x, e);
    var r := x - m1;
    assert n * e == n1 * e - e == r;
    assert n * (e * e) == (n * e) * e;
    assert (r + e) * r == r * r + e * r;
  }

  lemma Quotient(n: real, m: real, x: real, e: real)
    requires n >= 0.0 && (n + 1.0) * e == x - m
    ensures (n * m + x) / (n + 1.0) == m + e
  {
    assert (n + 1.0) * (m + e) == n * m + m + (n + 1.0) * e;
    Divides(n + 1.0, m + e, n * m + x);
  }

  lemma Divides(a: real, q: real, p: real)
    requires a > 0.0 && a * q == p
    ensures p / a == q
  {
  }

  /** One more sample: the update yields the mean and the squared deviations of the longer sequence. */
  lemma AddSampleIsExact(s: seq<real>, x: real)
    ensures AddSample(Summary(s), x) == Summary(s + [x])
  {
    hide Mean, Sum, Deviations;
    var n, m := |s| as real, Mean(s);
    var m1 := m + (x - m) / (|s| + 1) as real;
    Welford(n, (|s| + 1) as real, m, x, m1);
    MeanOfLonger(s, x);
    ShiftFromMean(s, m1);
    DeviationsOfLonger(s, x, m1);
    var grown, own, product := n * ((m1 - m) * (m1 - m)), (x - m1) * (x - m1), (x - m) * (x - m1);
    assert grown + own == product;
    assert Deviations(s + [x], m1) == Deviations(s, m) + product;
  }

  lemma DeviationsOfLonger(s: seq<real>, x: real, c: real)
    ensures Deviations(s + [x], c) == Deviations(s, c) + (x - c) * (x - c)
  {
    assert (s + [x])[..|s|] == s;
  }

  lemma MeanOfLonger(s: seq<real>, x: real)
    ensures Mean(s + [x]) == (|s| as real * Mean(s) + x) / (|s| + 1) as real
  {
    assert (s + [x])[..|s|] == s;
    SumIsMean(s);
  }

  /** Moving the centre from the mean to c adds n times the square of the distance. */
  lemma ShiftFromMean(s: seq<real>, c: real)
    ensures Deviations(s, c) == Deviations(s, Mean(s)) + |s| as real * ((c - Mean(s)) * (c - Mean(s)))
  {
    hide Mean, Sum, Deviations, Shift;
    var e := c - Mean(s);
    ShiftCentre(s, Mean(s), e);
    SumIsMean(s);
    assert Mean(s) + e == c;
    ShiftBalanced(|s| as real, Sum(s), Mean(s), e);
  }

  lemma ShiftBalanced(n: real, sum: real, c: real, e: real)
    requires sum == n * c
    ensures Shift(n, sum, c, e) == n * (e * e)
  {
  }

  class Tracker {
    var curr: Stats
    var next: Stats
    ghost var pending: seq<real>   // samples since the last roll
    ghost var rolled: seq<real>    // samples between the last two rolls

    ghost predicate Valid()
      reads this
    {
      next == Summary(pending) && curr == Summary(rolled)
    }

    constructor ()
      ensures Valid() && pending == [] && rolled == []
    {
      curr, next, pending, rolled := NoStats, NoStats, [], [];
    }

    /** latency_on_sample. */
    method OnSample(x: real)
      requires Valid()
      modifies this
      ensures Valid() && pending == old(pending) + [x] && rolled == old(rolled) && curr == old(curr)
    {
      hide Summary;
      AddSampleIsExact(pending, x);
      var delta := x - next.mean;
      next := next.(count := next.count + 1);
      next := next.(mean := next.mean + delta / next.count as real);
      next := next.(m2 := next.m2 + delta * (x - next.mean));
      pending := pending + [x];
    }

    /** latency_roll: the structures are exchanged and the new `next` is zeroed. The sample variance,
        whose root the code stores, is M2 / (count - 1). */
    method Roll() returns (variance: real)
      requires Valid()
      modifies this
      ensures Valid() && rolled == old(pending) && pending == []
      ensures curr == Summary(old(pending))
      ensures variance == if |rolled| > 1 then Deviations(rolled, Mean(rolled)) / (|rolled| - 1) as real else 0.0
    {
      curr, next := next, curr;
      next := NoStats;
      rolled, pending := pending, [];
      variance := if curr.count > 1 then curr.m2 / (curr.count - 1) as real else 0.0;
    }
  }
}
