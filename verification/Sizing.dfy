/** The knobs the machine reads and the size of one entry
    (src/strategy/config.py and src/risk/position_sizing.py). */
module Sizing {
  import opened Prelude

  /** Any mode other than the volatility one is read as fixed risk. */
  datatype SizingMode = FixedRisk | VolatilityTarget

  const MIN_VOLATILITY_PERCENT: real := 0.25

  /** An empty setting is `None`: that behaviour is not applied. */
  datatype StrategyConfig = StrategyConfig(
    allowShort: bool,
    riskLimitPercent: Option<real>,
    stopLossPercent: Option<real>,
    takeProfitPercent: Option<real>,
    maxExposurePercent: Option<real>,
    sizingMode: SizingMode,
    volatilityPeriod: nat,
    slippage: real,
    commission: real)
  {
    function Cost(): real {
      slippage + commission
    }

    predicate UsesStop() {
      stopLossPercent.Some? && stopLossPercent.value > 0.0
    }

    predicate UsesTake() {
      takeProfitPercent.Some? && takeProfitPercent.value > 0.0
    }

    /** No setting changes the machine beyond costs and the short switch. */
    predicate Raw() {
      !UsesStop() && !UsesTake() && ExposurePercent() == 100.0
      && !(Truthy(stopLossPercent) && Truthy(riskLimitPercent))
    }

    /** The exposure cap: all of the account unless a setting says less, and never outside it. */
    function ExposurePercent(): (percent: real)
      ensures 0.0 <= percent <= 100.0
      ensures maxExposurePercent.None? ==> percent == 100.0
      ensures maxExposurePercent.Some? && 0.0 <= maxExposurePercent.value <= 100.0 ==> percent == maxExposurePercent.value
      ensures maxExposurePercent.Some? && maxExposurePercent.value < 0.0 ==> percent == 0.0
      ensures maxExposurePercent.Some? && maxExposurePercent.value > 100.0 ==> percent == 100.0
    {
      MinReal(MaxReal(if maxExposurePercent.None? then 100.0 else maxExposurePercent.value, 0.0), 100.0)
    }

    /** A stop and a risk limit to size by: both present, neither zero. */
    predicate SizesByRisk(stopPct: Option<real>) {
      stopPct.Some? && stopPct.value != 0.0 && riskLimitPercent.Some? && riskLimitPercent.value != 0.0
    }

    /** The fraction of equity one position deploys: never more than the exposure cap, and
        being stopped out `stopPct` away never costs more than the configured risk. Within
        those two it is as large as it can be. */
    function DeployWeightFor(stopPct: Option<real>): (weight: real)
      ensures 0.0 <= weight <= 1.0 && weight * 100.0 <= ExposurePercent()
      ensures !SizesByRisk(stopPct) ==> weight * 100.0 == ExposurePercent()
      ensures SizesByRisk(stopPct) && stopPct.value > 0.0 && riskLimitPercent.value > 0.0 ==>
                && weight * stopPct.value <= riskLimitPercent.value
                && (weight * stopPct.value == riskLimitPercent.value || weight * 100.0 == ExposurePercent())
      ensures SizesByRisk(stopPct) && (stopPct.value < 0.0 || riskLimitPercent.value < 0.0) ==> weight == 0.0
    {
      if Truthy(stopPct) && Truthy(riskLimitPercent)
      then TargetWeight(riskLimitPercent.value, stopPct.value, ExposurePercent())
      else ExposurePercent() / 100.0
    }

    /** How many finished closes the machine keeps. */
    function Keep(): nat {
      volatilityPeriod + 2
    }
  }

  /** A number that is present and not zero. */
  predicate Truthy(x: Option<real>) {
    x.Some? && x.value != 0.0
  }

  function StopDistance(price: real, percent: real): real {
    AbsReal(price) * MaxReal(0.0, percent) / 100.0
  }

  function TargetWeight(riskLimitPercent: real, stopPercent: real, maxExposurePercent: real): (weight: real)
    ensures 0.0 <= weight
    ensures maxExposurePercent >= 0.0 ==> weight * 100.0 <= maxExposurePercent
    ensures stopPercent <= 0.0 ==> weight == 0.0
    ensures stopPercent > 0.0 ==> weight * stopPercent <= MaxReal(0.0, riskLimitPercent)
    ensures stopPercent > 0.0 && maxExposurePercent >= 0.0 ==>
              weight * stopPercent == MaxReal(0.0, riskLimitPercent) || weight * 100.0 == maxExposurePercent
    ensures riskLimitPercent <= 0.0 ==> weight == 0.0
  {
    if stopPercent <= 0.0 then
      0.0
    else
      var wanted := MaxReal(0.0, riskLimitPercent) / stopPercent;
      assert wanted * stopPercent == MaxReal(0.0, riskLimitPercent);
      var capped := MinReal(wanted, MaxReal(0.0, maxExposurePercent) / 100.0);
      assert capped * stopPercent <= wanted * stopPercent;
      capped
  }

  // -- realised volatility ------------------------------------------------

  function Positive(closes: seq<real>): (kept: seq<real>)
    ensures |kept| <= |closes|
    ensures forall x :: x in kept ==> x > 0.0
  {
    if |closes| == 0 then []
    else if closes[|closes| - 1] > 0.0 then Positive(closes[..|closes| - 1]) + [closes[|closes| - 1]]
    else Positive(closes[..|closes| - 1])
  }

  /** The closes whose returns are measured, or `None` when there is not enough history. */
  function VolatilityWindow(closes: seq<real>, period: nat): (window: Option<seq<real>>)
    ensures window.Some? ==> |window.value| >= 3
  {
    var series := Positive(closes);
    if |series| < 3 then None
    else
      var window := Tail(series, period + 1);
      if |window| - 1 < 2 then None else Some(window)
  }

  function SimpleReturns(window: seq<real>): (rets: seq<real>)
    ensures |rets| == if |window| == 0 then 0 else |window| - 1
  {
    if |window| == 0 then []
    else seq(|window| - 1, i requires 0 <= i < |window| - 1 => Ratio(window[i + 1], window[i]) - 1.0)
  }

  function Sum(s: seq<real>): real {
    if |s| == 0 then 0.0 else Sum(s[..|s| - 1]) + s[|s| - 1]
  }

  lemma SumGrows(s: seq<real>, x: real)
    ensures Sum(s + [x]) == Sum(s) + x
  {
  }

  function Squared(x: real): real {
    x * x
  }

  function SquaredDeviations(s: seq<real>, mean: real): seq<real> {
    seq(|s|, i requires 0 <= i < |s| => Squared(s[i] - mean))
  }

  function SampleVariance(rets: seq<real>): real
    requires |rets| >= 2
  {
    var mean := Sum(rets) / |rets| as real;
    Sum(SquaredDeviations(rets, mean)) / (|rets| - 1) as real
  }

  /** Standard deviation of these returns in percent, floored. The square root is a
      parameter. */
  function InPercent(root: real -> real, rets: seq<real>): (vol: real)
    requires |rets| >= 2
    ensures vol >= MIN_VOLATILITY_PERCENT
    ensures vol == root(SampleVariance(rets)) * 100.0 || (vol == 0.25 && root(SampleVariance(rets)) * 100.0 < vol)
  {
    MaxReal(root(SampleVariance(rets)) * 100.0, MIN_VOLATILITY_PERCENT)
  }

  /** The volatility of the window, where there is enough history. */
  function RealizedVolatility(root: real -> real, closes: seq<real>, period: nat): (vol: Option<real>)
    ensures vol.Some? ==> vol.value >= MIN_VOLATILITY_PERCENT
    ensures vol.Some? <==> VolatilityWindow(closes, period).Some?
  {
    match VolatilityWindow(closes, period)
    case None => None
    case Some(window) =>
      Some(InPercent(root, SimpleReturns(window)))
  }

  function SumOfSquares(s: seq<real>): real {
    if |s| == 0 then 0.0 else SumOfSquares(s[..|s| - 1]) + Squared(s[|s| - 1])
  }

  /** n (n - 1) var = n sum(r^2) - sum(r)^2. */
  predicate ByMoments(variance: real, squares: real, sum: real, n: real) {
    n * ((n - 1.0) * variance) == n * squares - sum * sum
  }

  /** The sample variance from the two sums, without the mean. */
  lemma VarianceByMoments(rets: seq<real>)
    requires |rets| >= 2
    ensures ByMoments(SampleVariance(rets), SumOfSquares(rets), Sum(rets), |rets| as real)
  {
    hide SampleVariance, SquaredDeviations, Sum, SumOfSquares, Expands, ByMoments;
    var mean := MeanOf(rets);
    DeviationsExpand(rets, mean);
    MeanCancels(Sum(SquaredDeviations(rets, mean)), SumOfSquares(rets), Sum(rets), mean, |rets| as real, SampleVariance(rets));
  }

  lemma MeanOf(rets: seq<real>) returns (mean: real)
    requires |rets| >= 2
    ensures mean * |rets| as real == Sum(rets)
    ensures (|rets| as real - 1.0) * SampleVariance(rets) == Sum(SquaredDeviations(rets, mean))
  {
    hide SampleVariance, SquaredDeviations, Sum;
    mean := Sum(rets) / |rets| as real;
    SampleIsScaled(Sum(rets), |rets| as real);
    VarianceIsScaled(rets, mean);
  }

  lemma VarianceIsScaled(rets: seq<real>, mean: real)
    requires |rets| >= 2 && mean == Sum(rets) / |rets| as real
    ensures (|rets| as real - 1.0) * SampleVariance(rets) == Sum(SquaredDeviations(rets, mean))
  {
    hide Sum, SquaredDeviations;
    assert (|rets| - 1) as real == |rets| as real - 1.0;
    SampleIsScaled(Sum(SquaredDeviations(rets, mean)), |rets| as real - 1.0);
  }

  lemma SampleIsScaled(total: real, n: real)
    requires n > 0.0
    ensures n * (total / n) == total && (total / n) * n == total
  {
  }

  predicate Expands(total: real, squares: real, sum: real, mean: real, n: real) {
    total == squares - 2.0 * (mean * sum) + n * (mean * mean)
  }

  lemma ExpandsOneMore(total: real, squares: real, sum: real, mean: real, n: real, x: real)
    requires Expands(total, squares, sum, mean, n)
    ensures Expands(total + Squared(x - mean), squares + Squared(x), sum + x, mean, n + 1.0)
  {
    assert Squared(x - mean) == Squared(x) - 2.0 * (mean * x) + mean * mean;
    assert mean * (sum + x) == mean * sum + mean * x;
    assert (n + 1.0) * (mean * mean) == n * (mean * mean) + mean * mean;
  }

  lemma {:induction false} DeviationsExpand(s: seq<real>, mean: real)
    ensures Expands(Sum(SquaredDeviations(s, mean)), SumOfSquares(s), Sum(s), mean, |s| as real)
  {
    if |s| > 0 {
      var front, x := s[..|s| - 1], s[|s| - 1];
      DeviationsExpand(front, mean);
      ExpandsOneMore(Sum(SquaredDeviations(front, mean)), SumOfSquares(front), Sum(front), mean, |front| as real, x);
      hide Squared, Expands;
      assert SquaredDeviations(s, mean) == SquaredDeviations(front, mean) + [Squared(x - mean)];
      SumGrows(SquaredDeviations(front, mean), Squared(x - mean));
    }
  }

  lemma MeanCancels(total: real, squares: real, sum: real, mean: real, n: real, variance: real)
    requires mean * n == sum && Expands(total, squares, sum, mean, n) && (n - 1.0) * variance == total
    ensures ByMoments(variance, squares, sum, n)
  {
    assert n * (mean * sum) == (mean * n) * sum;
    assert n * (n * (mean * mean)) == (mean * n) * (mean * n);
    assert n * total == n * squares - 2.0 * (n * (mean * sum)) + n * (n * (mean * mean));
  }

  /** The newest `n` relative changes from one close to the next. */
  function Changes(closes: seq<real>, n: nat): (rets: seq<real>)
    requires n < |closes|
    ensures |rets| == n
  {
    var from := |closes| - n;
    seq(n, i requires 0 <= i < n => Ratio(closes[from + i] - closes[from + i - 1], closes[from + i - 1]))
  }

  /** On positive closes: measured whenever two returns can be taken, from the newest
      `period` of them, each the relative change from one close to the next. */
  lemma VolatilityIsMeasured(root: real -> real, closes: seq<real>, period: nat)
    requires forall i :: 0 <= i < |closes| ==> closes[i] > 0.0
    ensures RealizedVolatility(root, closes, period).Some? <==> |closes| >= 3 && period >= 2
    ensures |closes| >= 3 && period >= 2 ==>
              RealizedVolatility(root, closes, period)
              == Some(InPercent(root, Changes(closes, if period < |closes| then period else |closes| - 1)))
  {
    WindowIsNewest(closes, period);
    hide VolatilityWindow, InPercent, SimpleReturns, Changes;
    if |closes| >= 3 && period >= 2 {
      var n := if period < |closes| then period else |closes| - 1;
      ReturnsAreChanges(closes, n);
      var window := VolatilityWindow(closes, period).value;
      assert window == closes[|closes| - n - 1..];
      assert SimpleReturns(window) == Changes(closes, n);
    }
  }

  lemma WindowIsNewest(closes: seq<real>, period: nat)
    requires forall i :: 0 <= i < |closes| ==> closes[i] > 0.0
    ensures VolatilityWindow(closes, period) ==
              if |closes| < 3 || period < 2 then None
              else if period < |closes| then Some(closes[|closes| - period - 1..])
              else Some(closes[0..])
  {
    PositiveOfPositives(closes);
  }

  lemma ReturnsAreChanges(closes: seq<real>, n: nat)
    requires n < |closes| && forall i :: 0 <= i < |closes| ==> closes[i] > 0.0
    ensures SimpleReturns(closes[|closes| - n - 1..]) == Changes(closes, n)
  {
    hide Ratio;
    var window, from := closes[|closes| - n - 1..], |closes| - n;
    forall i | 0 <= i < n
      ensures SimpleReturns(window)[i] == Changes(closes, n)[i]
    {
      assert window[i] == closes[from + i - 1] && window[i + 1] == closes[from + i];
      RelativeChange(window[i + 1], window[i]);
    }
  }

  lemma RelativeChange(x: real, y: real)
    requires y > 0.0
    ensures Ratio(x, y) - 1.0 == Ratio(x - y, y)
  {
    var q := x / y;
    assert q * y == x;
    DividesOut(x - y, y, q - 1.0);
  }

  // -- the trimmed history refines the whole one ---------------------------

  lemma {:induction false} PositiveOfConcat(a: seq<real>, b: seq<real>)
    ensures Positive(a + b) == Positive(a) + Positive(b)
  {
    if |b| == 0 {
      assert a + b == a;
    } else {
      var front := b[..|b| - 1];
      assert (a + b)[..|a + b| - 1] == a + front;
      PositiveOfConcat(a, front);
    }
  }

  lemma {:induction false} PositiveOfPositives(closes: seq<real>)
    requires forall i :: 0 <= i < |closes| ==> closes[i] > 0.0
    ensures Positive(closes) == closes
  {
    if |closes| > 0 {
      PositiveOfPositives(closes[..|closes| - 1]);
      assert closes == closes[..|closes| - 1] + [closes[|closes| - 1]];
    }
  }

  /** Exactly when the trimmed buffer selects the same volatility window as all the
      closes ever seen: when the period is too short to measure anything, when there are
      too few positive closes altogether, or when the buffer still holds enough of them. */
  lemma TrimmedWindowExactly(closes: seq<real>, period: nat)
    ensures
      var kept := |Positive(Tail(closes, period + 2))|;
      var all := |Positive(closes)|;
      VolatilityWindow(Tail(closes, period + 2), period) == VolatilityWindow(closes, period)
      <==> period < 2 || all < 3 || kept >= all || kept >= period + 1
  {
    var buffer := Tail(closes, period + 2);
    var dropped := closes[..|closes| - |buffer|];
    assert closes == dropped + buffer;
    PositiveOfConcat(dropped, buffer);
    var all, kept := Positive(closes), Positive(buffer);
    assert all == Positive(dropped) + kept;
    if |kept| >= |all| {
      assert kept == all;
    } else if |kept| >= period + 1 {
      assert Tail(all, period + 1) == Tail(kept, period + 1);
    } else if |all| >= 3 && period >= 2 {
      assert |Tail(kept, period + 1)| == |kept|;
      assert |Tail(all, period + 1)| > |kept|;
    }
  }

  lemma SameWindowSameVolatility(root: real -> real, a: seq<real>, b: seq<real>, period: nat)
    requires VolatilityWindow(a, period) == VolatilityWindow(b, period)
    ensures RealizedVolatility(root, a, period) == RealizedVolatility(root, b, period)
  {
  }

  /** With positive closes the trimmed buffer always sizes like the full history. */
  lemma TrimmedHistorySuffices(root: real -> real, closes: seq<real>, period: nat)
    requires forall i :: 0 <= i < |closes| ==> closes[i] > 0.0
    ensures VolatilityWindow(Tail(closes, period + 2), period) == VolatilityWindow(closes, period)
    ensures RealizedVolatility(root, Tail(closes, period + 2), period) == RealizedVolatility(root, closes, period)
  {
    PositiveOfPositives(closes);
    PositiveOfPositives(Tail(closes, period + 2));
    TrimmedWindowExactly(closes, period);
    SameWindowSameVolatility(root, Tail(closes, period + 2), closes, period);
  }
}
