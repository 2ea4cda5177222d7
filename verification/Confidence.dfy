/** Reranker scores: their calibration, and the rank-weighted confidence over them. */
module Confidence {
  import opened Text

  // ----- calibration -----

  /** The exponential function, None where it overflows. */
  type Exp = real -> Option<real>

  /** Positive, rising, and overflowing only above every value it has. */
  ghost predicate Exponential(exp: Exp) {
    && (forall x :: exp(x).Some? ==> exp(x).value > 0.0)
    && (forall x, y :: x <= y && exp(y).Some? ==> exp(x).Some? && exp(x).value <= exp(y).value)
    && exp(0.0).Some?
  }

  /** The score on the scale shown; None stands for a score that is not a number. */
  function Calibrate(score: Option<real>, sigmoid: bool, temperature: real, exp: Exp): real
    requires forall x :: exp(x).Some? ==> exp(x).value > 0.0
  {
    match score
    case None => 0.0
    case Some(s) =>
      if !sigmoid then s
      else
        var t := if temperature == 0.0 then 1.0 else temperature;
        match exp(-s / t)
        case Some(e) => 1.0 / (1.0 + e)
        case None => if s < 0.0 then 0.0 else 1.0
  }

  lemma Reciprocal(a: real, b: real)
    requires 0.0 < a <= b
    ensures 0.0 < 1.0 / b <= 1.0 / a
  {
    assert 1.0 / a - 1.0 / b == (b - a) / (a * b);
  }

  /** Calibrated scores lie between 0 and 1. */
  lemma CalibratedRange(score: Option<real>, temperature: real, exp: Exp)
    requires Exponential(exp)
    ensures 0.0 <= Calibrate(score, true, temperature, exp) <= 1.0
  {
    if score.Some? {
      var t := if temperature == 0.0 then 1.0 else temperature;
      var e := exp(-score.value / t);
      if e.Some? { Reciprocal(1.0, 1.0 + e.value); }
    }
  }

  lemma Quotients(a: real, b: real, t: real)
    requires a <= b && t > 0.0
    ensures a / t <= b / t
  {
    assert b / t - a / t == (b - a) / t;
  }

  /** Only negative scores can overflow, at a positive temperature. */
  lemma OverflowIsNegative(a: real, t: real, exp: Exp)
    requires Exponential(exp) && t > 0.0 && a >= 0.0
    ensures exp(-a / t).Some?
  {
    Quotients(-a, 0.0, t);
    assert -a / t <= 0.0;
  }

  /** Calibration keeps the order of numeric scores, at any positive temperature. */
  lemma CalibrateMonotone(a: real, b: real, sigmoid: bool, temperature: real, exp: Exp)
    requires Exponential(exp) && a <= b && temperature >= 0.0
    ensures Calibrate(Some(a), sigmoid, temperature, exp) <= Calibrate(Some(b), sigmoid, temperature, exp)
  {
    if sigmoid {
      var t := if temperature == 0.0 then 1.0 else temperature;
      Quotients(-b, -a, t);
      CalibratedRange(Some(a), temperature, exp);
      CalibratedRange(Some(b), temperature, exp);
      if exp(-a / t).Some? { Reciprocal(1.0 + exp(-b / t).value, 1.0 + exp(-a / t).value); }
      if a >= 0.0 { OverflowIsNegative(a, t, exp); }
    }
  }

  // ----- products -----

  /** A product, under a name so that proofs can use its laws alone. */
  function Mul(a: real, b: real): real {
    a * b
  }

  lemma MulSum(a: real, b: real, x: real)
    ensures Mul(a + b, x) == Mul(a, x) + Mul(b, x)
    ensures Mul(x, a + b) == Mul(x, a) + Mul(x, b)
  {}

  lemma MulUnits(x: real)
    ensures Mul(0.0, x) == 0.0 == Mul(x, 0.0) && Mul(1.0, x) == x
  {}

  lemma MulMono(w: real, a: real, b: real)
    requires w >= 0.0 && a <= b
    ensures Mul(w, a) <= Mul(w, b)
  {}

  lemma MulShrinks(q: real, w: real)
    requires 0.0 < q <= 1.0 && w > 0.0
    ensures 0.0 < Mul(q, w) <= w
  {}

  lemma MulDifferences(a: real, w: real, b: real, s: real)
    ensures Mul(a - w, b - s) == Mul(a, b) + Mul(w, s) - Mul(a, s) - Mul(w, b)
  {}

  lemma MulPositive(a: real, b: real)
    requires a >= 0.0 && b >= 0.0
    ensures Mul(a, b) >= 0.0
  {}

  lemma MulDivides(p: real, w: real, x: real)
    requires w > 0.0
    ensures Mul(w, x) <= p ==> x <= p / w
    ensures p <= Mul(w, x) ==> p / w <= x
  {
    assert p / w - x == (p - w * x) / w;
  }

  lemma MulCrosswise(a: real, n: real, p: real, w: real)
    requires n > 0.0 && w > 0.0 && Mul(w, a) <= Mul(n, p)
    ensures a / n <= p / w
  {
    assert p / w - a / n == (n * p - w * a) / (n * w);
  }

  lemma Restored(p: real, w: real)
    requires w > 0.0
    ensures Mul(p / w, w) == p
  {}

  /** What a score becomes: itself without the sigmoid, 0 when it is no number, else the value `x` with
      `x * (1 + exp(-score / temperature)) == 1`, a temperature of 0 read as 1, and the limit of
      that where the exponential overflows. */
  lemma CalibrateMeans(score: real, temperature: real, exp: Exp)
    requires Exponential(exp)
    ensures Calibrate(None, true, temperature, exp) == 0.0 == Calibrate(None, false, temperature, exp)
    ensures Calibrate(Some(score), false, temperature, exp) == score
    ensures Calibrate(Some(score), true, 0.0, exp) == Calibrate(Some(score), true, 1.0, exp)
    ensures temperature != 0.0 ==>
      match exp(-score / temperature)
      case Some(e) => Mul(Calibrate(Some(score), true, temperature, exp), 1.0 + e) == 1.0
      case None => Calibrate(Some(score), true, temperature, exp) == if score < 0.0 then 0.0 else 1.0
  {
    hide Mul;
    if temperature != 0.0 && exp(-score / temperature).Some? {
      Restored(1.0, 1.0 + exp(-score / temperature).value);
    }
  }

  // ----- rank weights -----

  /** The weight of rank `n`: `q` is the decay factor of one rank. */
  function Weight(q: real, n: nat): real {
    if n == 0 then 1.0 else Mul(q, Weight(q, n - 1))
  }

  function WeightSum(q: real, n: nat): real {
    if n == 0 then 0.0 else WeightSum(q, n - 1) + Weight(q, n - 1)
  }

  function WeightedSum(q: real, scores: seq<real>): real {
    if scores == [] then 0.0
    else
      var n := |scores| - 1;
      WeightedSum(q, scores[..n]) + Mul(Weight(q, n), scores[n])
  }

  function Sum(scores: seq<real>): real {
    if scores == [] then 0.0 else Sum(scores[..|scores| - 1]) + scores[|scores| - 1]
  }

  lemma {:induction false} WeightFalls(q: real, n: nat)
    requires 0.0 < q <= 1.0
    ensures 0.0 < Weight(q, n + 1) <= Weight(q, n) <= 1.0
  {
    hide Mul;
    if n > 0 { WeightFalls(q, n - 1); }
    MulShrinks(q, Weight(q, n));
  }

  lemma {:induction false} WeightSumPositive(q: real, n: nat)
    requires 0.0 < q <= 1.0
    ensures WeightSum(q, n) >= 0.0 && (n > 0 ==> WeightSum(q, n) >= 1.0)
  {
    hide Mul;
    if n > 0 {
      WeightSumPositive(q, n - 1);
      WeightFalls(q, n - 1);
    }
  }

  /** The weighted average, 0 when there are no scores. */
  function RankWeighted(q: real, scores: seq<real>): real
    requires 0.0 < q <= 1.0
  {
    if scores == [] then 0.0
    else
      WeightSumPositive(q, |scores|);
      WeightedSum(q, scores) / WeightSum(q, |scores|)
  }

  lemma MulAssoc(a: real, b: real, x: real)
    ensures Mul(Mul(a, b), x) == Mul(a, Mul(b, x)) && Mul(a, b) == Mul(b, a)
  {}

  /** The weights are the powers of the decay factor. */
  lemma {:induction false} WeightPowers(q: real, m: nat, n: nat)
    ensures Weight(q, 0) == 1.0 && Weight(q, 1) == q
    ensures Weight(q, m + n) == Mul(Weight(q, m), Weight(q, n))
    decreases m
  {
    MulAssoc(q, 1.0, 1.0);
    hide Mul;
    MulUnits(q);
    if m == 0 {
      MulUnits(Weight(q, n));
    } else {
      WeightPowers(q, m - 1, n);
      MulAssoc(q, Weight(q, m - 1), Weight(q, n));
    }
  }

  /** With the factor `exp(-decay)` the weight of rank `n` is `exp(-decay * n)`, as the service has it. */
  lemma {:induction false} WeightDecays(exp: real -> real, decay: real, n: nat)
    requires exp(0.0) == 1.0 && forall a, b :: exp(a + b) == exp(a) * exp(b)
    ensures Weight(exp(-decay), n) == exp(-decay * n as real)
  {
    if n > 0 {
      WeightDecays(exp, decay, n - 1);
      assert -decay * n as real == -decay + -decay * (n - 1) as real;
    }
  }

  /** The sums after one more rank at the front: what was there counts `q` times as much. */
  lemma {:induction false} SumsFromFront(q: real, score: real, scores: seq<real>)
    ensures WeightSum(q, |scores| + 1) == 1.0 + Mul(q, WeightSum(q, |scores|))
    ensures WeightedSum(q, [score] + scores) == score + Mul(q, WeightedSum(q, scores))
    decreases |scores|
  {
    var n, all := |scores|, [score] + scores;
    MulAssoc(q, 0.0, 0.0);
    hide Mul;
    MulUnits(q);
    MulUnits(score);
    if n == 0 {
      assert all[..0] == [];
    } else {
      var front, last := scores[..n - 1], scores[n - 1];
      SumsFromFront(q, score, front);
      MulSum(WeightSum(q, n - 1), Weight(q, n - 1), q);
      assert all[..n] == [score] + front && all[n] == last;
      MulSum(WeightedSum(q, front), Mul(Weight(q, n - 1), last), q);
      MulAssoc(q, Weight(q, n - 1), last);
    }
  }

  /** The confidence with a best document put at the front: the old confidence, weighing `q` times
      what it weighed, averaged with the score of that document; and the total of the weights is the
      geometric series. */
  lemma RankedFromFront(q: real, score: real, scores: seq<real>)
    requires 0.0 < q <= 1.0
    ensures var before := Mul(q, WeightSum(q, |scores|));
      Mul(RankWeighted(q, [score] + scores), 1.0 + before) == score + Mul(before, RankWeighted(q, scores))
    ensures RankWeighted(q, []) == 0.0 && RankWeighted(q, [score]) == score
    ensures (1.0 - q) * WeightSum(q, |scores|) == 1.0 - Weight(q, |scores|)
  {
    Geometric(q, |scores|);
    RankedOne(q, score);
    SumsFromFront(q, score, scores);
    RankedTimes(q, scores);
    RankedTimes(q, [score] + scores);
    hide *;
    assert |[score] + scores| == |scores| + 1;
    MulAssoc(q, WeightSum(q, |scores|), RankWeighted(q, scores));
    MulAssoc(WeightSum(q, |scores|), RankWeighted(q, scores), 0.0);
  }

  lemma RankedOne(q: real, score: real)
    requires 0.0 < q <= 1.0
    ensures RankWeighted(q, []) == 0.0 && RankWeighted(q, [score]) == score
  {
    MulUnits(score);
    hide Mul;
    assert [score][..0] == [] && Weight(q, 0) == 1.0;
    assert WeightedSum(q, [score]) == score && WeightSum(q, 1) == 1.0;
  }

  lemma RankedTimes(q: real, scores: seq<real>)
    requires 0.0 < q <= 1.0
    ensures Mul(RankWeighted(q, scores), WeightSum(q, |scores|)) == WeightedSum(q, scores)
  {
    WeightSumPositive(q, |scores|);
    if scores == [] {
      MulUnits(0.0);
    } else {
      hide Weight, WeightSum, WeightedSum;
      Restored(WeightedSum(q, scores), WeightSum(q, |scores|));
    }
  }

  lemma {:induction false} Geometric(q: real, n: nat)
    ensures (1.0 - q) * WeightSum(q, n) == 1.0 - Weight(q, n)
  {
    if n > 0 {
      Geometric(q, n - 1);
      GeometricStep(q, WeightSum(q, n - 1), Weight(q, n - 1));
    }
  }

  lemma GeometricStep(q: real, total: real, last: real)
    requires (1.0 - q) * total == 1.0 - last
    ensures (1.0 - q) * (total + last) == 1.0 - Mul(q, last)
  {}

  lemma {:induction false} WeightedBounds(q: real, scores: seq<real>, low: real, high: real)
    requires 0.0 < q <= 1.0 && forall s | s in scores :: low <= s <= high
    ensures Mul(WeightSum(q, |scores|), low) <= WeightedSum(q, scores) <= Mul(WeightSum(q, |scores|), high)
  {
    hide Mul;
    if scores == [] {
      MulUnits(low);
      MulUnits(high);
    } else {
      var n := |scores| - 1;
      assert scores[n] in scores && forall s | s in scores[..n] :: s in scores;
      WeightedBounds(q, scores[..n], low, high);
      WeightFalls(q, n);
      MulMono(Weight(q, n), low, scores[n]);
      MulMono(Weight(q, n), scores[n], high);
      MulSum(WeightSum(q, n), Weight(q, n), low);
      MulSum(WeightSum(q, n), Weight(q, n), high);
    }
  }

  /** The confidence lies between the least and the greatest score. */
  lemma ConfidenceBetween(q: real, scores: seq<real>, low: real, high: real)
    requires 0.0 < q <= 1.0 && scores != [] && forall s | s in scores :: low <= s <= high
    ensures low <= RankWeighted(q, scores) <= high
  {
    hide Mul, WeightSum, WeightedSum;
    WeightedBounds(q, scores, low, high);
    WeightSumPositive(q, |scores|);
    MulDivides(WeightedSum(q, scores), WeightSum(q, |scores|), low);
    MulDivides(WeightedSum(q, scores), WeightSum(q, |scores|), high);
  }

  // ----- against the flat mean -----

  predicate Descending(scores: seq<real>) {
    forall i, j | 0 <= i < j < |scores| :: scores[i] >= scores[j]
  }

  /** The products of both differences to a last weight and score, summed over the ranks before. */
  function Cross(q: real, scores: seq<real>, w: real, s: real): real {
    if scores == [] then 0.0
    else
      var n := |scores| - 1;
      Cross(q, scores[..n], w, s) + Mul(Weight(q, n) - w, scores[n] - s)
  }

  lemma {:induction false} CrossExpands(q: real, scores: seq<real>, w: real, s: real)
    ensures Cross(q, scores, w, s) ==
      WeightedSum(q, scores) + Mul(|scores| as real, Mul(w, s)) - Mul(WeightSum(q, |scores|), s) - Mul(w, Sum(scores))
  {
    hide Mul;
    if scores == [] {
      MulUnits(Mul(w, s));
      MulUnits(s);
      MulUnits(w);
    } else {
      var n := |scores| - 1;
      CrossExpands(q, scores[..n], w, s);
      MulSum(WeightSum(q, n), Weight(q, n), s);
      MulSum(n as real, 1.0, Mul(w, s));
      MulUnits(Mul(w, s));
      MulDifferences(Weight(q, n), w, scores[n], s);
      MulSum(Sum(scores[..n]), scores[n], w);
    }
  }

  lemma {:induction false} WeightsFall(q: real, i: nat, n: nat)
    requires 0.0 < q <= 1.0 && i <= n
    ensures Weight(q, i) >= Weight(q, n)
  {
    hide Mul;
    if i < n {
      WeightsFall(q, i, n - 1);
      WeightFalls(q, n - 1);
    }
  }

  lemma {:induction false} CrossPositive(q: real, scores: seq<real>, n: nat, s: real)
    requires 0.0 < q <= 1.0 && |scores| <= n && forall x | x in scores :: x >= s
    ensures Cross(q, scores, Weight(q, n), s) >= 0.0
  {
    hide Mul;
    if scores != [] {
      var m := |scores| - 1;
      assert scores[m] in scores && forall x | x in scores[..m] :: x in scores;
      CrossPositive(q, scores[..m], n, s);
      WeightsFall(q, m, n);
      MulPositive(Weight(q, m) - Weight(q, n), scores[m] - s);
    }
  }

  /** Chebyshev's sum inequality for falling weights and falling scores. */
  lemma {:induction false} Chebyshev(q: real, scores: seq<real>)
    requires 0.0 < q <= 1.0 && Descending(scores)
    ensures Mul(WeightSum(q, |scores|), Sum(scores)) <= Mul(|scores| as real, WeightedSum(q, scores))
  {
    hide Mul;
    if scores == [] {
      MulUnits(0.0);
    } else {
      var n := |scores| - 1;
      var front, last := scores[..n], scores[n];
      Chebyshev(q, front);
      CrossPositive(q, front, n, last);
      CrossExpands(q, front, Weight(q, n), last);
      hide Cross;
      ChebyshevStep(WeightSum(q, n), Weight(q, n), Sum(front), last, n as real, WeightedSum(q, front));
    }
  }

  lemma ChebyshevStep(W: real, w: real, S: real, s: real, n: real, P: real)
    requires Mul(W, S) <= Mul(n, P) && P + Mul(n, Mul(w, s)) - Mul(W, s) - Mul(w, S) >= 0.0
    ensures Mul(W + w, S + s) <= Mul(n + 1.0, P + Mul(w, s))
  {
    hide Mul;
    MulSum(W, w, S + s);
    MulSum(S, s, W);
    MulSum(S, s, w);
    MulSum(n, 1.0, P + Mul(w, s));
    MulSum(P, Mul(w, s), n);
    MulUnits(P + Mul(w, s));
  }

  function Mean(scores: seq<real>): real {
    if scores == [] then 0.0 else Sum(scores) / |scores| as real
  }

  /** For scores in descending order the confidence is never below their flat mean. */
  lemma NeverBelowMean(q: real, scores: seq<real>)
    requires 0.0 < q <= 1.0 && scores != [] && Descending(scores)
    ensures Mean(scores) <= RankWeighted(q, scores)
  {
    hide Mul, Descending, Sum, WeightSum, WeightedSum;
    Chebyshev(q, scores);
    WeightSumPositive(q, |scores|);
    MulCrosswise(Sum(scores), |scores| as real, WeightedSum(q, scores), WeightSum(q, |scores|));
  }

  lemma {:induction false} FlatWeight(n: nat)
    ensures Weight(1.0, n) == 1.0
  {
    if n > 0 { FlatWeight(n - 1); }
  }

  lemma {:induction false} FlatWeights(scores: seq<real>)
    ensures WeightSum(1.0, |scores|) == |scores| as real && WeightedSum(1.0, scores) == Sum(scores)
  {
    hide Mul;
    if scores != [] {
      FlatWeights(scores[..|scores| - 1]);
      FlatWeight(|scores| - 1);
      MulUnits(scores[|scores| - 1]);
    }
  }

  /** Without decay the confidence is the flat mean. */
  lemma NoDecayIsMean(scores: seq<real>)
    ensures RankWeighted(1.0, scores) == Mean(scores)
  {
    FlatWeights(scores);
    hide Mul, Sum, WeightSum, WeightedSum;
  }
}
