/**
 The one-pass statistics of the receiver against their textbook definitions, in exact arithmetic.
 The square root of the standard deviation is not taken: everything is said about the variance.
 */
module Statistics {
  import opened Receiver

  // ---------- Textbook definitions ----------

  function Sum(xs: seq<real>): real {
    if xs == [] then 0.0 else Sum(xs[..|xs| - 1]) + xs[|xs| - 1]
  }

  function SumOfSquares(xs: seq<real>): real {
    if xs == [] then 0.0 else SumOfSquares(xs[..|xs| - 1]) + Sq(xs[|xs| - 1])
  }

  /** The sum of the squared distances from m: the second pass, once m is the mean. */
  function Deviation(xs: seq<real>, m: real): real {
    if xs == [] then 0.0 else Deviation(xs[..|xs| - 1], m) + Sq(xs[|xs| - 1] - m)
  }

  function Mean(xs: seq<real>): real {
    if xs == [] then 0.0 else Sum(xs) / |xs| as real
  }

  // ---------- The getters ----------

  function GetFTT(s: State): real {
    if s.fttsamples > 0 then s.sumftt / s.fttsamples as real else 0.0
  }

  /** The variance of n samples from their sum and the sum of their squares. */
  function OnePassVariance(sum: real, sum2: real, n: nat): real
    requires n > 1
  {
    (sum2 - sum * sum / n as real) / (n - 1) as real
  }

  /** The variance as computed, before it is clamped. */
  function RawVariance(s: State): real
    requires s.fttsamples > 1
  {
    OnePassVariance(s.sumftt, s.sumftt2, s.fttsamples)
  }

  /** The square of GetFTTstd(). */
  function FTTVariance(s: State): real {
    if s.fttsamples > 1 then
      var v := RawVariance(s);
      if v > 0.0 then v else 0.0
    else 0.0
  }

  function GetRTT(s: State): real {
    if s.rttsamples > 0 then s.sumrtt / s.rttsamples as real else 0.0
  }

  function GetTHR(s: State): real {
    if s.sumdt != 0.0 then s.sumbytes * 8.0 / s.sumdt else 0.0
  }

  // ---------- The samples of a run ----------

  /** The forward trip times of the delivered packets, as stored: whole seconds. */
  function Samples(useDrop: bool, xs: seq<Arrival>): seq<real> {
    if xs == [] then []
    else
      var fs, a := Samples(useDrop, xs[..|xs| - 1]), xs[|xs| - 1];
      if LastVerdict(useDrop, xs).Accepted? then fs + [Ftt(a) as real] else fs
  }

  /** The forward trip times as measured. */
  function TrueTimes(useDrop: bool, xs: seq<Arrival>): seq<real> {
    if xs == [] then []
    else
      var ts, a := TrueTimes(useDrop, xs[..|xs| - 1]), xs[|xs| - 1];
      if LastVerdict(useDrop, xs).Accepted? then ts + [a.now - a.p.timestamp] else ts
  }

  function PayloadBytes(ds: seq<Arrival>): nat {
    if ds == [] then 0 else PayloadBytes(ds[..|ds| - 1]) + |ds[|ds| - 1].p.payload|
  }

  /**
   After every run, in every mode: the sums are those of the samples, one per received packet; the time
   intervals between receptions add up to the time of the last one; no round trip was ever sampled.
   */
  lemma {:induction false} RunningSums(useDrop: bool, xs: seq<Arrival>)
    ensures var s, fs, ds := Run(useDrop, xs), Samples(useDrop, xs), Delivered(useDrop, xs);
            && s.sumftt == Sum(fs) && s.sumftt2 == SumOfSquares(fs)
            && s.fttsamples == |fs| && s.fttsamples == s.recv && s.recv == |ds|
            && s.sumbytes == PayloadBytes(ds) as real
            && s.sumdt == s.lrtime && (ds != [] ==> s.lrtime == ds[|ds| - 1].now) && (ds == [] ==> s.lrtime == 0.0)
            && s.rttsamples == 0
  {
    if xs != [] {
      hide Ftt, Sum, SumOfSquares, PayloadBytes, Branch, Judge;
      var ys, a := xs[..|xs| - 1], xs[|xs| - 1];
      RunningSums(useDrop, ys);
      BranchSums(useDrop, Run(useDrop, ys), a, LastVerdict(useDrop, xs));
      if LastVerdict(useDrop, xs).Accepted? {
        SumSnoc(Samples(useDrop, ys), Ftt(a) as real);
        BytesSnoc(Delivered(useDrop, ys), a);
      }
    }
  }

  /** The fields the statistics are made of change in the accepting branch alone. */
  lemma BranchSums(useDrop: bool, s: State, a: Arrival, v: Verdict)
    ensures var t, f := Branch(useDrop, s, a, v), Ftt(a) as real;
            && t.rttsamples == s.rttsamples && t.sumrtt == s.sumrtt
            && (v == Accepted ==> && t.sumftt == s.sumftt + f && t.sumftt2 == s.sumftt2 + Sq(f)
                                  && t.fttsamples == s.fttsamples + 1 && t.recv == s.recv + 1
                                  && t.sumbytes == s.sumbytes + |a.p.payload| as real
                                  && t.sumdt == s.sumdt + (a.now - s.lrtime) && t.lrtime == a.now)
            && (v != Accepted ==> && t.sumftt == s.sumftt && t.sumftt2 == s.sumftt2
                                  && t.fttsamples == s.fttsamples && t.recv == s.recv
                                  && t.sumbytes == s.sumbytes && t.sumdt == s.sumdt && t.lrtime == s.lrtime)
  {
  }

  lemma SumSnoc(xs: seq<real>, x: real)
    ensures Sum(xs + [x]) == Sum(xs) + x
    ensures SumOfSquares(xs + [x]) == SumOfSquares(xs) + Sq(x)
  {
    assert (xs + [x])[..|xs|] == xs;
  }

  lemma BytesSnoc(ds: seq<Arrival>, a: Arrival)
    ensures PayloadBytes(ds + [a]) == PayloadBytes(ds) + |a.p.payload|
  {
    assert (ds + [a])[..|ds|] == ds;
  }

  // ---------- Mean and variance ----------

  function Expanded(sum: real, sum2: real, n: nat, m: real): real {
    sum2 - 2.0 * m * sum + n as real * (m * m)
  }

  /** The binomial expansion of the second pass. */
  lemma {:induction false} DeviationExpands(xs: seq<real>, m: real)
    ensures Deviation(xs, m) == Expanded(Sum(xs), SumOfSquares(xs), |xs|, m)
  {
    if xs == [] {
    } else {
      hide Sq, Expanded;
      var ys, x := xs[..|xs| - 1], xs[|xs| - 1];
      DeviationExpands(ys, m);
      ExpandStep(Sum(ys), SumOfSquares(ys), |ys|, x, m);
    }
  }

  lemma ExpandStep(sum: real, sum2: real, n: nat, x: real, m: real)
    ensures Expanded(sum, sum2, n, m) + Sq(x - m) == Expanded(sum + x, sum2 + Sq(x), n + 1, m)
  {
    assert Sq(x - m) == Sq(x) - 2.0 * m * x + m * m;
    assert 2.0 * m * (sum + x) == 2.0 * m * sum + 2.0 * m * x;
    assert (n + 1) as real * (m * m) == n as real * (m * m) + m * m;
  }

  lemma {:induction false} DeviationSign(xs: seq<real>, m: real)
    ensures Deviation(xs, m) >= 0.0
    ensures Deviation(xs, m) == 0.0 <==> forall i :: 0 <= i < |xs| ==> xs[i] == m
  {
    if xs != [] {
      hide Sq;
      var ys, x := xs[..|xs| - 1], xs[|xs| - 1];
      DeviationSign(ys, m);
      Square(x - m);
      assert forall i :: 0 <= i < |ys| ==> ys[i] == xs[i];
    }
  }

  lemma PositiveProduct(a: real, b: real, q: real)
    requires a > 0.0 && b > 0.0 && q == a * b
    ensures q > 0.0
  {
  }

  lemma Square(d: real)
    ensures d != 0.0 ==> Sq(d) > 0.0
    ensures d == 0.0 ==> Sq(d) == 0.0
  {
    if d > 0.0 {
      PositiveProduct(d, d, Sq(d));
    } else if d < 0.0 {
      PositiveProduct(-d, -d, Sq(d));
    }
  }

  lemma DivideOut(x: real, y: real, n: real)
    requires n != 0.0 && x == y * n
    ensures x / n == y
  {
  }

  lemma FoldMean(sum: real, sum2: real, n: nat, m: real, dev: real)
    requires n > 1 && sum == m * n as real
    requires dev == Expanded(sum, sum2, n, m)
    ensures OnePassVariance(sum, sum2, n) == dev / (n - 1) as real
  {
    var k := n as real;
    assert sum * sum == (m * sum) * k;
    DivideOut(sum * sum, m * sum, k);
    assert k * (m * m) == m * sum;
    assert sum2 - sum * sum / k == dev;
  }

  /** One pass or two: with the mean for m, the cross term folds into the sums. */
  lemma OnePassIsTwoPass(xs: seq<real>)
    requires |xs| > 1
    ensures OnePassVariance(Sum(xs), SumOfSquares(xs), |xs|) == Deviation(xs, Mean(xs)) / (|xs| - 1) as real
  {
    hide Sum, SumOfSquares, Deviation, OnePassVariance, Expanded;
    DeviationExpands(xs, Mean(xs));
    FoldMean(Sum(xs), SumOfSquares(xs), |xs|, Mean(xs), Deviation(xs, Mean(xs)));
  }

  /**
   The variance reported after any run is the two-pass sample variance of the stored samples. It is
   never negative, so clamping it changes nothing, and it is 0 exactly when all samples are equal.
   */
  lemma {:induction false} VarianceExact(useDrop: bool, xs: seq<Arrival>)
    requires |Samples(useDrop, xs)| > 1
    ensures var s, fs := Run(useDrop, xs), Samples(useDrop, xs);
            && s.fttsamples == |fs|
            && RawVariance(s) == Deviation(fs, Mean(fs)) / (|fs| - 1) as real
            && RawVariance(s) >= 0.0 && FTTVariance(s) == RawVariance(s)
            && (RawVariance(s) == 0.0 <==> forall i, j :: 0 <= i < j < |fs| ==> fs[i] == fs[j])
  {
    hide Run, Samples, Deviation, Mean, RawVariance;
    var fs := Samples(useDrop, xs);
    RawVarianceIsTwoPass(useDrop, xs);
    DeviationFromMean(fs);
    QuotientSign(Deviation(fs, Mean(fs)), (|fs| - 1) as real);
  }

  lemma RawVarianceIsTwoPass(useDrop: bool, xs: seq<Arrival>)
    requires |Samples(useDrop, xs)| > 1
    ensures var s, fs := Run(useDrop, xs), Samples(useDrop, xs);
            s.fttsamples == |fs| && RawVariance(s) == Deviation(fs, Mean(fs)) / (|fs| - 1) as real
  {
    hide Run, Samples, Sum, SumOfSquares, Deviation, Mean;
    RunningSums(useDrop, xs);
    hide OnePassVariance;
    OnePassIsTwoPass(Samples(useDrop, xs));
  }

  lemma DeviationFromMean(fs: seq<real>)
    requires fs != []
    ensures Deviation(fs, Mean(fs)) >= 0.0
    ensures Deviation(fs, Mean(fs)) == 0.0 <==> forall i, j :: 0 <= i < j < |fs| ==> fs[i] == fs[j]
  {
    hide Deviation, Mean;
    DeviationSign(fs, Mean(fs));
    if forall i, j :: 0 <= i < j < |fs| ==> fs[i] == fs[j] {
      MeanOfEqual(fs, fs[0]);
    }
  }

  lemma QuotientSign(a: real, b: real)
    requires a >= 0.0 && b > 0.0
    ensures a / b >= 0.0
    ensures a / b == 0.0 <==> a == 0.0
  {
    assert a / b * b == a;
  }

  lemma {:induction false} SumOfEqual(xs: seq<real>, c: real)
    requires forall i :: 0 <= i < |xs| ==> xs[i] == c
    ensures Sum(xs) == |xs| as real * c
  {
    if xs != [] {
      SumOfEqual(xs[..|xs| - 1], c);
      assert |xs| as real * c == (|xs| - 1) as real * c + c;
    }
  }

  lemma MeanOfEqual(xs: seq<real>, c: real)
    requires xs != [] && forall i :: 0 <= i < |xs| ==> xs[i] == c
    ensures Mean(xs) == c
  {
    SumOfEqual(xs, c);
    assert |xs| as real * c / |xs| as real == c;
  }

  /** Without a sample there is no mean, with fewer than two no variance: both read 0. */
  lemma {:induction false} FewSamples(useDrop: bool, xs: seq<Arrival>)
    ensures Delivered(useDrop, xs) == [] ==> GetFTT(Run(useDrop, xs)) == 0.0
    ensures Delivered(useDrop, xs) != [] ==>
              GetFTT(Run(useDrop, xs)) * |Delivered(useDrop, xs)| as real == Sum(Samples(useDrop, xs))
    ensures |Delivered(useDrop, xs)| <= 1 ==> FTTVariance(Run(useDrop, xs)) == 0.0
  {
    hide Run, Delivered, Samples, Sum, SumOfSquares, PayloadBytes;
    RunningSums(useDrop, xs);
  }

  // ---------- What storing the trip time in an int costs ----------

  lemma TruncationStep(fs: seq<real>, ts: seq<real>, f: real, t: real)
    requires |fs| == |ts| && f <= t < f + 1.0
    requires Sum(fs) <= Sum(ts) && (fs == [] || Sum(ts) < Sum(fs) + |fs| as real)
    ensures Sum(fs + [f]) <= Sum(ts + [t]) < Sum(fs + [f]) + |fs + [f]| as real
  {
    SumSnoc(fs, f);
    SumSnoc(ts, t);
  }

  lemma {:induction false} TruncationSum(useDrop: bool, xs: seq<Arrival>)
    requires forall i :: 0 <= i < |xs| ==> xs[i].p.timestamp <= xs[i].now
    ensures var fs, ts := Samples(useDrop, xs), TrueTimes(useDrop, xs);
            && |fs| == |ts|
            && Sum(fs) <= Sum(ts)
            && (fs == [] || Sum(ts) < Sum(fs) + |fs| as real)
  {
    if xs != [] {
      hide Sum, SumOfSquares, Run, Judge;
      var ys, a := xs[..|xs| - 1], xs[|xs| - 1];
      forall i | 0 <= i < |ys| ensures ys[i].p.timestamp <= ys[i].now {
        assert ys[i] == xs[i];
      }
      TruncationSum(useDrop, ys);
      assert a.p.timestamp <= a.now;
      TruncationStep(Samples(useDrop, ys), TrueTimes(useDrop, ys), Ftt(a) as real, a.now - a.p.timestamp);
    }
  }

  /** GetFTT() never exceeds the mean of the measured times, and falls short of it by less than a second. */
  lemma MeanTripTime(useDrop: bool, xs: seq<Arrival>)
    requires forall i :: 0 <= i < |xs| ==> xs[i].p.timestamp <= xs[i].now
    requires Delivered(useDrop, xs) != []
    ensures var g, m := GetFTT(Run(useDrop, xs)), Mean(TrueTimes(useDrop, xs));
            g <= m < g + 1.0
  {
    hide Run, Samples, TrueTimes, Sum;
    RunningSums(useDrop, xs);
    TruncationSum(useDrop, xs);
    MeansApart(Sum(Samples(useDrop, xs)), Sum(TrueTimes(useDrop, xs)), |Samples(useDrop, xs)| as real);
  }

  lemma RealQuotientOrder(x: real, y: real, n: real)
    requires n > 0.0
    ensures x < y <==> x / n < y / n
  {
    var p, q := x / n, y / n;
    assert p * n == x && q * n == y;
    assert (q - p) * n == y - x;
    if p < q {
      assert (q - p) * n > 0.0;
    } else {
      assert (p - q) * n >= 0.0;
    }
  }

  lemma MeansApart(a: real, b: real, n: real)
    requires n > 0.0 && a <= b < a + n
    ensures a / n <= b / n < a / n + 1.0
  {
    RealQuotientOrder(b, a, n);
    RealQuotientOrder(b, a + n, n);
    DivideOut(a + n, a / n + 1.0, n);
  }

  predicate Whole(x: real) {
    x == x.Floor as real
  }

  /** Every trip took a whole number of seconds. */
  predicate AllWhole(ds: seq<Arrival>) {
    forall j :: 0 <= j < |ds| ==> Whole(ds[j].now - ds[j].p.timestamp)
  }

  /** Cutting loses something as soon as it cuts one of the times. */
  lemma {:induction false} TruncationExact(useDrop: bool, xs: seq<Arrival>)
    requires forall i :: 0 <= i < |xs| ==> xs[i].p.timestamp <= xs[i].now
    ensures Sum(Samples(useDrop, xs)) == Sum(TrueTimes(useDrop, xs)) <==> AllWhole(Delivered(useDrop, xs))
  {
    if xs != [] {
      hide Sum, Run, Judge, Whole, AllWhole;
      var ys, a := xs[..|xs| - 1], xs[|xs| - 1];
      forall i | 0 <= i < |ys| ensures ys[i].p.timestamp <= ys[i].now {
        assert ys[i] == xs[i];
      }
      assert a.p.timestamp <= a.now;
      TruncationExact(useDrop, ys);
      TruncationSum(useDrop, ys);
      if LastVerdict(useDrop, xs).Accepted? {
        ExactStep(Samples(useDrop, ys), TrueTimes(useDrop, ys), a);
        AllWholeSnoc(Delivered(useDrop, ys), a);
      }
    }
  }

  lemma ExactStep(fs: seq<real>, ts: seq<real>, a: Arrival)
    requires a.p.timestamp <= a.now && Sum(fs) <= Sum(ts)
    ensures Sum(fs + [Ftt(a) as real]) == Sum(ts + [a.now - a.p.timestamp])
            <==> Sum(fs) == Sum(ts) && Whole(a.now - a.p.timestamp)
  {
    hide Sum, Ftt, Whole;
    WholeCut(a);
    CutStep(fs, ts, Ftt(a) as real, a.now - a.p.timestamp);
  }

  lemma CutStep(fs: seq<real>, ts: seq<real>, f: real, t: real)
    requires f <= t && Sum(fs) <= Sum(ts)
    ensures Sum(fs + [f]) == Sum(ts + [t]) <==> Sum(fs) == Sum(ts) && f == t
  {
    hide Sum, SumOfSquares, Sq;
    SumSnoc(fs, f);
    SumSnoc(ts, t);
    SumsMeet(Sum(fs), Sum(ts), f, t);
  }

  lemma SumsMeet(a: real, b: real, f: real, t: real)
    requires a <= b && f <= t
    ensures a + f == b + t <==> a == b && f == t
  {
  }

  lemma AllWholeSnoc(ds: seq<Arrival>, a: Arrival)
    ensures AllWhole(ds + [a]) <==> AllWhole(ds) && Whole(a.now - a.p.timestamp)
  {
    assert (ds + [a])[|ds|] == a;
    assert forall j :: 0 <= j < |ds| ==> (ds + [a])[j] == ds[j];
  }

  lemma WholeCut(a: Arrival)
    requires a.p.timestamp <= a.now
    ensures Ftt(a) as real <= a.now - a.p.timestamp
    ensures Ftt(a) as real == a.now - a.p.timestamp <==> Whole(a.now - a.p.timestamp)
  {
  }

  /** GetFTT() is the mean of the measured times exactly if every delivered packet took whole seconds. */
  lemma {:induction false} MeanTripTimeExact(useDrop: bool, xs: seq<Arrival>)
    requires forall i :: 0 <= i < |xs| ==> xs[i].p.timestamp <= xs[i].now
    ensures GetFTT(Run(useDrop, xs)) == Mean(TrueTimes(useDrop, xs)) <==> AllWhole(Delivered(useDrop, xs))
  {
    hide Run, Samples, TrueTimes, Sum, Whole;
    RunningSums(useDrop, xs);
    TruncationSum(useDrop, xs);
    TruncationExact(useDrop, xs);
    var fs, ts := Samples(useDrop, xs), TrueTimes(useDrop, xs);
    if fs != [] {
      RealQuotientOrder(Sum(fs), Sum(ts), |fs| as real);
    }
  }

  /** A single packet that took half a second counts as one that took none. */
  lemma HalfSecondLost(useDrop: bool, p: Packet)
    requires p.data && p.sn > 0 && p.timestamp == 0.0
    ensures var xs := [Arrival(p, 0.5)];
            GetFTT(Run(useDrop, xs)) == 0.0 && Mean(TrueTimes(useDrop, xs)) == 0.5
  {
    hide Run, Samples, TrueTimes, Sum, SumOfSquares, PayloadBytes;
    var xs := [Arrival(p, 0.5)];
    RunningSums(useDrop, xs);
    OneArrival(useDrop, Arrival(p, 0.5));
    SumOfOne(0.0);
    SumOfOne(0.5);
  }

  lemma OneArrival(useDrop: bool, a: Arrival)
    requires a.p.data && a.p.sn > 0
    ensures Samples(useDrop, [a]) == [Ftt(a) as real] && TrueTimes(useDrop, [a]) == [a.now - a.p.timestamp]
  {
    hide Branch, Ftt;
    assert [a][..0] == [];
    assert LastVerdict(useDrop, [a]) == Accepted;
    assert Samples(useDrop, []) == [] && TrueTimes(useDrop, []) == [];
  }

  lemma SumOfOne(x: real)
    ensures Sum([x]) == x
  {
    assert [x][..0] == [];
  }

  // ---------- What it costs the standard deviation ----------

  function Product(a: real, b: real): real {
    a * b
  }

  function Weighted(x: real, a: real, y: real, b: real): real {
    x * a + y * b
  }

  /** The sum of the products of the distances from m and from k. */
  function Cross(fs: seq<real>, m: real, ts: seq<real>, k: real): real
    requires |fs| == |ts|
  {
    if fs == [] then 0.0
    else
      var n := |fs| - 1;
      Cross(fs[..n], m, ts[..n], k) + Product(fs[n] - m, ts[n] - k)
  }

  /** The sum of the squares of x * (f - m) + y * (t - k). */
  function Combined(fs: seq<real>, m: real, ts: seq<real>, k: real, x: real, y: real): (q: real)
    requires |fs| == |ts|
  {
    if fs == [] then 0.0
    else
      var n := |fs| - 1;
      Combined(fs[..n], m, ts[..n], k, x, y) + Sq(Weighted(x, fs[n] - m, y, ts[n] - k))
  }

  /** It is a quadratic form in x and y, and of course not negative. */
  lemma {:induction false} CombinedExpands(fs: seq<real>, m: real, ts: seq<real>, k: real, x: real, y: real)
    requires |fs| == |ts|
    ensures Combined(fs, m, ts, k, x, y)
            == Form(Deviation(fs, m), Cross(fs, m, ts, k), Deviation(ts, k), x, y)
    ensures Combined(fs, m, ts, k, x, y) >= 0.0
  {
    hide Sq, Form, Product, Weighted;
    if fs == [] {
      assert ts == [];
      FormOfNothing(x, y);
    } else {
      var n := |fs| - 1;
      var a, b := fs[n] - m, ts[n] - k;
      CombinedExpands(fs[..n], m, ts[..n], k, x, y);
      FormStep(Deviation(fs[..n], m), Cross(fs[..n], m, ts[..n], k), Deviation(ts[..n], k), a, b, x, y);
      Square(Weighted(x, a, y, b));
    }
  }

  function Form(p: real, c: real, q: real, x: real, y: real): real {
    x * x * p + 2.0 * (x * y) * c + y * y * q
  }

  lemma FormOfNothing(x: real, y: real)
    ensures Form(0.0, 0.0, 0.0, x, y) == 0.0
  {
  }

  lemma FormStep(p: real, c: real, q: real, a: real, b: real, x: real, y: real)
    ensures Form(p, c, q, x, y) + Sq(Weighted(x, a, y, b)) == Form(p + Sq(a), c + Product(a, b), q + Sq(b), x, y)
  {
    assert Sq(x * a + y * b) == x * x * (a * a) + 2.0 * (x * y) * (a * b) + y * y * (b * b);
    assert x * x * (p + a * a) == x * x * p + x * x * (a * a);
    assert 2.0 * (x * y) * (c + a * b) == 2.0 * (x * y) * c + 2.0 * (x * y) * (a * b);
    assert y * y * (q + b * b) == y * y * q + y * y * (b * b);
  }

  lemma FormOnEdge(c: real, q: real, x: real, y: real)
    requires x == -(q + 1.0) && y == 2.0 * c
    ensures Form(0.0, c, q, x, y) == -4.0 * Sq(c)
    ensures Form(q, c, 0.0, y, x) == -4.0 * Sq(c)
  {
    hide Form;
    FormWithoutOne(c, q, x, y);
    Edge(c, q, x, y, Sq(c));
  }

  lemma FormWithoutOne(c: real, q: real, x: real, y: real)
    ensures Form(0.0, c, q, x, y) == 2.0 * (x * y * c) + y * y * q
    ensures Form(q, c, 0.0, y, x) == 2.0 * (x * y * c) + y * y * q
  {
    assert x * y == y * x;
  }

  lemma Edge(c: real, q: real, x: real, y: real, w: real)
    requires x == -(q + 1.0) && y == 2.0 * c && w == c * c
    ensures 2.0 * (x * y * c) + y * y * q == -4.0 * w
  {
    assert x * y * c == x * (2.0 * w);
    assert x * (2.0 * w) == -2.0 * (w * q) - 2.0 * w;
    assert y * y * q == 4.0 * (w * q);
  }

  lemma FormInside(c: real, r: real, u: real, v: real)
    ensures Form(r * (u * u), c, r * (v * v), v, -u) == 2.0 * (u * v) * (r * (u * v) - c)
  {
    var w := u * v;
    assert v * v * (r * (u * u)) == r * (w * w);
    assert u * u * (r * (v * v)) == r * (w * w);
    assert w * (r * w) == r * (w * w);
    assert v * (-u) == -w && (-u) * (-u) == u * u;
  }

  /** Cauchy and Schwarz: the products add up to no more than the two deviations allow. */
  lemma CrossBound(fs: seq<real>, m: real, ts: seq<real>, k: real, r: real, u: real, v: real)
    requires |fs| == |ts| && r > 0.0 && u >= 0.0 && v >= 0.0
    requires Deviation(fs, m) == r * (u * u) && Deviation(ts, k) == r * (v * v)
    ensures Cross(fs, m, ts, k) <= r * (u * v)
  {
    hide Cross, Combined, Deviation, Form, Sq;
    var c := Cross(fs, m, ts, k);
    if u == 0.0 {
      var q := Deviation(ts, k);
      var x, y := -(q + 1.0), 2.0 * c;
      FormOnEdge(c, q, x, y);
      CombinedExpands(fs, m, ts, k, x, y);
      Square(c);
    } else if v == 0.0 {
      var p := Deviation(fs, m);
      var x, y := -(p + 1.0), 2.0 * c;
      FormOnEdge(c, p, x, y);
      CombinedExpands(fs, m, ts, k, y, x);
      Square(c);
    } else {
      FormInside(c, r, u, v);
      CombinedExpands(fs, m, ts, k, v, -u);
      SignOfFactor(u * v, r * (u * v) - c);
    }
  }

  lemma SignOfFactor(a: real, b: real)
    requires a > 0.0 && 2.0 * a * b >= 0.0
    ensures b >= 0.0
  {
    if b < 0.0 {
      PositiveProduct(a, -b, a * (-b));
    }
  }

  /** What the cut loses of each trip time: nothing, or less than a second. */
  lemma {:induction false} LossPerTrip(useDrop: bool, xs: seq<Arrival>)
    requires forall i :: 0 <= i < |xs| ==> xs[i].p.timestamp <= xs[i].now
    ensures var fs, ts := Samples(useDrop, xs), TrueTimes(useDrop, xs);
            |fs| == |ts| && forall i :: 0 <= i < |fs| ==> fs[i] <= ts[i] < fs[i] + 1.0
  {
    if xs != [] {
      hide Run, Judge, Ftt;
      var n := |xs| - 1;
      forall i | 0 <= i < n ensures xs[..n][i].p.timestamp <= xs[..n][i].now {
        assert xs[..n][i] == xs[i];
      }
      LossPerTrip(useDrop, xs[..n]);
      assert xs[n].p.timestamp <= xs[n].now;
      LossOfOne(xs[n]);
    }
  }

  lemma LossOfOne(a: Arrival)
    requires a.p.timestamp <= a.now
    ensures Ftt(a) as real <= a.now - a.p.timestamp < Ftt(a) as real + 1.0
  {
  }

  function Spread(sum: real, d: real, n: real): real {
    sum - 2.0 * Product(d, sum) + Product(n, Sq(d))
  }

  /** Losses between 0 and 1 have a second moment no larger than their sum. */
  lemma {:induction false} LossSpread(fs: seq<real>, m: real, ts: seq<real>, k: real)
    requires |fs| == |ts| && forall i :: 0 <= i < |fs| ==> fs[i] <= ts[i] <= fs[i] + 1.0
    ensures Combined(fs, m, ts, k, -1.0, 1.0)
            <= Spread(Sum(ts) - Sum(fs), k - m, |fs| as real)
  {
    if fs != [] {
      var n := |fs| - 1;
      var d, e, sum := k - m, ts[n] - fs[n], Sum(ts[..n]) - Sum(fs[..n]);
      LossSpread(fs[..n], m, ts[..n], k);
      LossTerm(e, d);
      assert Weighted(-1.0, fs[n] - m, 1.0, ts[n] - k) == e - d;
      hide Sq;
      assert Combined(fs, m, ts, k, -1.0, 1.0) == Combined(fs[..n], m, ts[..n], k, -1.0, 1.0) + Sq(e - d);
      assert Sum(ts) - Sum(fs) == sum + e;
      hide Combined, Sum;
      Distribute(d, sum, e);
      Distribute(Sq(d), n as real, 1.0);
    }
  }

  lemma Distribute(a: real, b: real, c: real)
    ensures a * (b + c) == a * b + a * c
  {
  }

  lemma LossTerm(e: real, d: real)
    requires 0.0 <= e <= 1.0
    ensures Sq(e - d) <= e - 2.0 * (d * e) + Sq(d)
  {
    assert e * e <= e;
    assert Sq(e - d) == e * e - 2.0 * (d * e) + Sq(d);
  }

  /**
   The standard deviation that is reported and that of the measured times -- the roots u and v of the two
   variances -- are less than a second apart, whatever the times: (u - v)^2 is at most n / (4 (n - 1)).
   */
  lemma {:induction false} DeviationOff(useDrop: bool, xs: seq<Arrival>, u: real, v: real)
    requires forall i :: 0 <= i < |xs| ==> xs[i].p.timestamp <= xs[i].now
    requires |Samples(useDrop, xs)| > 1 && u >= 0.0 && v >= 0.0
    requires u * u == FTTVariance(Run(useDrop, xs))
    requires var ts := TrueTimes(useDrop, xs); v * v * (|ts| - 1) as real == Deviation(ts, Mean(ts))
    ensures var n := |Samples(useDrop, xs)|; (u - v) * (u - v) <= n as real / (4 * (n - 1)) as real
  {
    hide Run, Samples, TrueTimes, Sum, Deviation, Mean, Sq, FTTVariance, RawVariance;
    var fs, ts := Samples(useDrop, xs), TrueTimes(useDrop, xs);
    var n, r := |fs| as real, (|fs| - 1) as real;
    LossPerTrip(useDrop, xs);
    VarianceExact(useDrop, xs);
    assert Deviation(fs, Mean(fs)) == r * (u * u);
    SpreadOff(fs, ts, r, u, v);
    QuarterBound(u, v, n, r);
    assert (4 * (|fs| - 1)) as real == 4.0 * r;
  }

  lemma QuarterBound(u: real, v: real, n: real, r: real)
    requires r > 0.0 && r * Sq(u - v) <= n / 4.0
    ensures (u - v) * (u - v) <= n / (4.0 * r)
  {
    var w := Sq(u - v);
    DivideOut(w * (4.0 * r), w, 4.0 * r);
    RealQuotientOrder(n, w * (4.0 * r), 4.0 * r);
  }

  lemma SpreadOff(fs: seq<real>, ts: seq<real>, r: real, u: real, v: real)
    requires |fs| == |ts| && fs != [] && forall i :: 0 <= i < |fs| ==> fs[i] <= ts[i] <= fs[i] + 1.0
    requires r > 0.0 && u >= 0.0 && v >= 0.0
    requires Deviation(fs, Mean(fs)) == r * (u * u) && Deviation(ts, Mean(ts)) == r * (v * v)
    ensures r * Sq(u - v) <= |fs| as real / 4.0
  {
    hide Sum, Deviation, Combined, Sq, Mean;
    SpreadFromBelow(fs, Mean(fs), ts, Mean(ts), r, u, v);
    SpreadFromAbove(fs, ts);
  }

  lemma SpreadFromBelow(fs: seq<real>, m: real, ts: seq<real>, k: real, r: real, u: real, v: real)
    requires |fs| == |ts| && r > 0.0 && u >= 0.0 && v >= 0.0
    requires Deviation(fs, m) == r * (u * u) && Deviation(ts, k) == r * (v * v)
    ensures r * Sq(u - v) <= Combined(fs, m, ts, k, -1.0, 1.0)
  {
    hide Deviation, Combined, Cross, Sq, Form;
    CrossBound(fs, m, ts, k, r, u, v);
    CombinedExpands(fs, m, ts, k, -1.0, 1.0);
    FormOfDifference(Deviation(fs, m), Cross(fs, m, ts, k), Deviation(ts, k));
    SquareOfDifference(r, u, v);
  }

  lemma SpreadFromAbove(fs: seq<real>, ts: seq<real>)
    requires |fs| == |ts| && fs != [] && forall i :: 0 <= i < |fs| ==> fs[i] <= ts[i] <= fs[i] + 1.0
    ensures Combined(fs, Mean(fs), ts, Mean(ts), -1.0, 1.0) <= |fs| as real / 4.0
  {
    hide Sum, Combined, Mean, Spread;
    var n, d, sum := |fs| as real, Mean(ts) - Mean(fs), Sum(ts) - Sum(fs);
    LossSpread(fs, Mean(fs), ts, Mean(ts));
    assert sum == n * d by {
      MeanTimes(fs);
      MeanTimes(ts);
      Distribute(n, Mean(ts), -Mean(fs));
    }
    QuarterOfN(n, d, sum);
  }

  lemma MeanTimes(xs: seq<real>)
    ensures Sum(xs) == |xs| as real * Mean(xs)
  {
  }

  lemma FormOfDifference(p: real, c: real, q: real)
    ensures Form(p, c, q, -1.0, 1.0) == p - 2.0 * c + q
  {
  }

  lemma SquareOfDifference(r: real, u: real, v: real)
    ensures r * Sq(u - v) == r * (u * u) - 2.0 * (r * (u * v)) + r * (v * v)
  {
    assert Sq(u - v) == u * u - 2.0 * (u * v) + v * v;
  }

  lemma QuarterOfN(n: real, d: real, sum: real)
    requires n >= 0.0 && sum == n * d
    ensures Spread(sum, d, n) <= n / 4.0
  {
    hide Sq, Product;
    Commute(n, d, sum);
    QuarterTimes(n, d, sum, Sq(d));
  }

  lemma Commute(n: real, d: real, sum: real)
    requires sum == n * d
    ensures Product(d, sum) == Product(n, Sq(d))
  {
    assert d * (n * d) == n * (d * d);
  }

  lemma ShiftedSquare(d: real, s: real)
    requires s == Sq(d)
    ensures s - d + 0.25 >= 0.0
  {
    Square(d - 0.5);
    assert Sq(d - 0.5) == s - d + 0.25;
  }

  lemma QuarterTimes(n: real, d: real, sum: real, s: real)
    requires n >= 0.0 && sum == n * d && s == Sq(d)
    ensures sum - Product(n, s) <= n / 4.0
  {
    ShiftedSquare(d, s);
    hide Sq;
    NonNegative(n, s - d + 0.25);
    assert n * (s - d + 0.25) == n * s - n * d + n * 0.25;
  }

  lemma NonNegative(a: real, b: real)
    requires a >= 0.0 && b >= 0.0
    ensures a * b >= 0.0
  {
  }

  // ---------- Throughput ----------

  /** The sum of the intervals telescopes: the rate is all delivered bits over the time of the last delivery. */
  lemma {:induction false} Throughput(useDrop: bool, xs: seq<Arrival>)
    ensures var ds := Delivered(useDrop, xs);
            GetTHR(Run(useDrop, xs))
            == (if ds == [] || ds[|ds| - 1].now == 0.0 then 0.0
                else PayloadBytes(ds) as real * 8.0 / ds[|ds| - 1].now)
  {
    hide Run, Delivered;
    RunningSums(useDrop, xs);
  }

  /** The guard of the round trip time is never true, so GetRTT() is 0 whatever arrives. */
  lemma NoRoundTrip(useDrop: bool, xs: seq<Arrival>)
    ensures GetRTT(Run(useDrop, xs)) == 0.0 && Run(useDrop, xs).sumrtt == 0.0
  {
    if xs != [] {
      NoRoundTrip(useDrop, xs[..|xs| - 1]);
    }
    RunningSums(useDrop, xs);
  }
}
