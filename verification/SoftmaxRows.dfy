/**
 The softmax engine's two ways of normalizing a row of floats, masked entries, infinities and NaN included: what each
 gives, when they agree, and when they are softmax.
 */
module SoftmaxRows {
  import opened Words
  import opened SoftmaxLaws
  import opened FloatRules
  import opened Streaming

  // ----- The two computations -----

  /** A row after the optional scaling. */
  function ScaledRow(row: seq<Score>, scale: real): (xs: seq<Score>)
    ensures |xs| == |row| && forall i :: 0 <= i < |row| ==> xs[i] == Applied(row[i], scale)
  {
    seq(|row|, i requires 0 <= i < |row| => Applied(row[i], scale))
  }

  /**
   Scaling multiplies finite scores, and a scale of zero leaves the row alone. Masked entries stay masked under a
   positive scale and become positive infinity under a negative one.
   */
  lemma ScaledEntry(row: seq<Score>, scale: real, i: nat)
    requires i < |row|
    ensures scale == 0.0 ==> ScaledRow(row, scale) == row
    ensures scale != 0.0 && row[i].Fin? ==> ScaledRow(row, scale)[i] == Fin(row[i].v * scale)
    ensures scale > 0.0 && !row[i].Fin? ==> ScaledRow(row, scale)[i] == row[i]
    ensures scale < 0.0 ==>
              && (row[i].NegInf? ==> ScaledRow(row, scale)[i] == PosInf)
              && (row[i].PosInf? ==> ScaledRow(row, scale)[i] == NegInf)
              && (row[i].NaN? ==> ScaledRow(row, scale)[i] == NaN)
  {
  }

  /** The maximum the scan finds; a comparison with NaN is false. */
  function Peak(xs: seq<Score>): Score
  {
    if xs == [] then NegInf
    else
      var peak := Peak(xs[..|xs| - 1]);
      if Greater(xs[|xs| - 1], peak) then xs[|xs| - 1] else peak
  }

  /** The clamped exponential of one score. */
  function Weight(exp: real -> real, x: Score, peak: Score): Score
  {
    var shifted := Minus(x, peak);
    if Below(shifted, -87.0) then Fin(0.0) else ExpOf(exp, shifted)
  }

  function Weights(exp: real -> real, xs: seq<Score>, peak: Score): (r: seq<Score>)
    ensures |r| == |xs| && forall i :: 0 <= i < |xs| ==> r[i] == Weight(exp, xs[i], peak)
  {
    seq(|xs|, i requires 0 <= i < |xs| => Weight(exp, xs[i], peak))
  }

  function RowSum(r: seq<Score>): Score
  {
    if r == [] then Fin(0.0) else Plus(RowSum(r[..|r| - 1]), r[|r| - 1])
  }

  function WeightSum(exp: real -> real, xs: seq<Score>, peak: Score): Score { RowSum(Weights(exp, xs, peak)) }

  /** The two-pass row: clamped exponentials times the inverse of their sum. */
  function TwoPassRow(exp: real -> real, xs: seq<Score>): (r: seq<Score>)
    ensures |r| == |xs|
  {
    var peak := Peak(xs);
    var inverse := Reciprocal(WeightSum(exp, xs, peak));
    seq(|xs|, i requires 0 <= i < |xs| => Product(Weight(exp, xs[i], peak), inverse))
  }

  /** The running sum after one more score: rescaled when the score is a new maximum. */
  function OnlineAdd(exp: real -> real, peak: Score, sum: Score, x: Score): Score
  {
    if Greater(x, peak) then
      var ratio := if peak.NegInf? then Fin(1.0) else ExpOf(exp, Minus(peak, x));
      Plus(Product(sum, ratio), Fin(1.0))
    else Plus(sum, ExpOf(exp, Minus(x, peak)))
  }

  function OnlineSum(exp: real -> real, xs: seq<Score>): Score
  {
    if xs == [] then Fin(0.0)
    else
      var n := |xs| - 1;
      OnlineAdd(exp, Peak(xs[..n]), OnlineSum(exp, xs[..n]), xs[n])
  }

  /** What the second pass divides by: the sum, or the row length if the sum is not positive. */
  function OnlineTotal(exp: real -> real, xs: seq<Score>): Score
  {
    var sum := OnlineSum(exp, xs);
    if Greater(sum, Fin(0.0)) then sum else Fin(|xs| as real)
  }

  /** One entry of the second pass. */
  function OnlineShare(exp: real -> real, x: Score, peak: Score, inverse: Score): Score
  {
    var shifted := Minus(x, peak);
    if Below(shifted, -87.0) then Fin(0.0) else Product(ExpOf(exp, shifted), inverse)
  }

  /** The online row: one pass for maximum and sum, one to normalize. */
  function OnlineRow(exp: real -> real, xs: seq<Score>): (r: seq<Score>)
    ensures |r| == |xs|
  {
    var inverse := Reciprocal(OnlineTotal(exp, xs));
    seq(|xs|, i requires 0 <= i < |xs| => OnlineShare(exp, xs[i], Peak(xs), inverse))
  }

  // ----- What they mean -----

  /** Some entry is finite and none is NaN or positive infinity. */
  ghost predicate Proper(xs: seq<Score>)
  {
    Clean(xs) && exists i :: 0 <= i < |xs| && xs[i].Fin?
  }

  /** No finite score lies more than 87 below the maximum. */
  ghost predicate AllNear(xs: seq<Score>)
  {
    forall i :: 0 <= i < |xs| && xs[i].Fin? ==> Near(xs[i], Top(NegInf, xs))
  }

  /** The clamped exponentials measured from the maximum, and their sum. */
  function Probs(exp: real -> real, xs: seq<Score>): (ps: seq<real>)
    ensures |ps| == |xs| && forall i :: 0 <= i < |xs| ==> ps[i] == Prob(exp, xs[i], Top(NegInf, xs))
  {
    seq(|xs|, i requires 0 <= i < |xs| => Prob(exp, xs[i], Top(NegInf, xs)))
  }

  function Sum(vs: seq<real>): real
  {
    if vs == [] then 0.0 else Sum(vs[..|vs| - 1]) + vs[|vs| - 1]
  }

  function NearSum(exp: real -> real, xs: seq<Score>): real { Sum(Probs(exp, xs)) }

  /** The exponential of a finite score below the maximum, however far below. */
  function FullProb(exp: real -> real, x: Score, top: Score): real
  {
    if x.Fin? && top.Fin? then exp(x.v - top.v) else 0.0
  }

  function FullProbs(exp: real -> real, xs: seq<Score>, top: Score): (ps: seq<real>)
    ensures |ps| == |xs| && forall i :: 0 <= i < |xs| ==> ps[i] == FullProb(exp, xs[i], top)
  {
    seq(|xs|, i requires 0 <= i < |xs| => FullProb(exp, xs[i], top))
  }

  function EverySum(exp: real -> real, xs: seq<Score>): real { Sum(FullProbs(exp, xs, Top(NegInf, xs))) }

  /** The scan finds positive infinity if there is one, and the highest finite score otherwise. */
  lemma {:induction false} PeakIs(xs: seq<Score>)
    ensures Peak(xs) == if PosInf in xs then PosInf else Top(NegInf, xs)
    ensures !Top(NegInf, xs).Bad()
  {
    if xs != [] {
      var n := |xs| - 1;
      PeakIs(xs[..n]);
      assert xs == xs[..n] + [xs[n]];
    }
  }

  lemma ProperPeak(xs: seq<Score>) returns (i: nat)
    requires Proper(xs)
    ensures Peak(xs) == Top(NegInf, xs) && Peak(xs).Fin? && i < |xs| && xs[i] == Peak(xs)
  {
    PeakIs(xs);
    TopIsHighest(NegInf, xs);
    i :| 0 <= i < |xs| && xs[i] == Top(NegInf, xs);
  }

  /** Against a finite maximum the weight of a clean score is its clamped exponential. */
  lemma WeightIsProb(exp: real -> real, x: Score, peak: Score)
    requires peak.Fin? && !x.Bad()
    ensures Weight(exp, x, peak) == Fin(Prob(exp, x, peak))
  {
  }

  lemma {:induction false} SumOfFinite(r: seq<Score>, vs: seq<real>)
    requires |r| == |vs| && forall i :: 0 <= i < |vs| ==> r[i] == Fin(vs[i])
    ensures RowSum(r) == Fin(Sum(vs))
  {
    if vs != [] {
      var n := |vs| - 1;
      SumOfFinite(r[..n], vs[..n]);
    }
  }

  lemma WeightSumIsNear(exp: real -> real, xs: seq<Score>)
    requires Clean(xs) && Top(NegInf, xs).Fin?
    ensures WeightSum(exp, xs, Top(NegInf, xs)) == Fin(NearSum(exp, xs))
  {
    var top := Top(NegInf, xs);
    forall i | 0 <= i < |xs|
      ensures Weights(exp, xs, top)[i] == Fin(Probs(exp, xs)[i])
    {
      WeightIsProb(exp, xs[i], top);
    }
    SumOfFinite(Weights(exp, xs, top), Probs(exp, xs));
  }

  /** One NaN makes the sum NaN. */
  lemma {:induction false} NaNSticks(r: seq<Score>, i: nat)
    requires i < |r| && r[i].NaN?
    ensures RowSum(r).NaN?
  {
    var n := |r| - 1;
    if i < n {
      NaNSticks(r[..n], i);
    }
  }

  /** A row that is not proper has an entry whose weight is NaN. */
  lemma ImproperWeight(exp: real -> real, xs: seq<Score>) returns (i: nat)
    requires xs != [] && !Proper(xs)
    ensures i < |xs| && Weight(exp, xs[i], Peak(xs)).NaN?
  {
    PeakIs(xs);
    if j :| 0 <= j < |xs| && xs[j].NaN? {
      i := j;
    } else if j :| 0 <= j < |xs| && xs[j].PosInf? {
      i := j;
    } else {
      TopIsHighest(NegInf, xs);
      i := 0;
    }
  }

  /** The sum the uniform branch tests is positive for a proper row and NaN for any other, never zero. */
  lemma UniformNeverTaken(exp: real -> real, xs: seq<Score>)
    requires IsExponential(exp) && xs != []
    ensures WeightSum(exp, xs, Peak(xs)) == if Proper(xs) then Fin(NearSum(exp, xs)) else NaN
    ensures WeightSum(exp, xs, Peak(xs)) != Fin(0.0)
  {
    if Proper(xs) {
      var i := ProperPeak(xs);
      WeightSumIsNear(exp, xs);
      SumsCompared(exp, xs);
    } else {
      var i := ImproperWeight(exp, xs);
      NaNSticks(Weights(exp, xs, Peak(xs)), i);
    }
  }

  /** The two-pass row: shares of the clamped sum for a proper row, NaN throughout for any other. */
  lemma TwoPassIs(exp: real -> real, xs: seq<Score>, i: nat)
    requires IsExponential(exp) && i < |xs|
    ensures TwoPassRow(exp, xs)[i]
         == if Proper(xs) then Fin(Times(Prob(exp, xs[i], Top(NegInf, xs)), Inverse(NearSum(exp, xs)))) else NaN
  {
    UniformNeverTaken(exp, xs);
    if Proper(xs) {
      var j := ProperPeak(xs);
      WeightIsProb(exp, xs[i], Peak(xs));
    }
  }

  /** An entry of the two-pass row is NaN exactly if no score is finite, or some score is NaN or positive infinity. */
  lemma TwoPassNaN(exp: real -> real, xs: seq<Score>, i: nat)
    requires IsExponential(exp) && i < |xs|
    ensures TwoPassRow(exp, xs)[i].NaN? <==> (forall k :: 0 <= k < |xs| ==> !xs[k].Fin?) || !Clean(xs)
  {
    TwoPassIs(exp, xs, i);
  }

  /** Sums of non-negative numbers, one list nowhere above the other: equal exactly if the lists are. */
  lemma {:induction false} SumsOrdered(vs: seq<real>, ws: seq<real>)
    requires |vs| == |ws| && forall i :: 0 <= i < |vs| ==> 0.0 <= vs[i] <= ws[i]
    ensures 0.0 <= Sum(vs) <= Sum(ws) && (Sum(vs) == Sum(ws) <==> vs == ws)
  {
    if vs != [] {
      var n := |vs| - 1;
      SumsOrdered(vs[..n], ws[..n]);
      assert vs == vs[..n] + [vs[n]] && ws == ws[..n] + [ws[n]];
    }
  }

  lemma {:induction false} SumAtLeast(vs: seq<real>, j: nat)
    requires j < |vs| && forall i :: 0 <= i < |vs| ==> vs[i] >= 0.0
    ensures Sum(vs) >= vs[j]
  {
    var n := |vs| - 1;
    SumsOrdered(vs[..n], vs[..n]);
    if j < n {
      SumAtLeast(vs[..n], j);
    }
  }

  lemma {:induction false} SumScaled(vs: seq<real>, ws: seq<real>, factor: real)
    requires |vs| == |ws| && forall i :: 0 <= i < |vs| ==> ws[i] == Times(vs[i], factor)
    ensures Sum(ws) == Times(Sum(vs), factor)
  {
    if vs != [] {
      var n := |vs| - 1;
      SumScaled(vs[..n], ws[..n], factor);
      AddThenTimes(Sum(vs[..n]), vs[n], factor);
    } else {
      ZeroTimes(factor);
    }
  }

  lemma AddThenTimes(a: real, b: real, factor: real)
    ensures Times(a, factor) + Times(b, factor) == Times(a + b, factor)
  {
  }

  /** Clamping lowers a share, unless the score is near the maximum or masked. */
  lemma ProbCompared(exp: real -> real, x: Score, top: Score)
    requires IsExponential(exp) && top.Fin?
    ensures 0.0 <= Prob(exp, x, top) <= FullProb(exp, x, top)
    ensures Prob(exp, x, top) == FullProb(exp, x, top) <==> (x.Fin? ==> Near(x, top))
  {
  }

  /** Both sums are positive, and equal exactly if every finite score is near the maximum. */
  lemma SumsCompared(exp: real -> real, xs: seq<Score>)
    requires IsExponential(exp) && Proper(xs)
    ensures NearSum(exp, xs) > 0.0 && EverySum(exp, xs) >= NearSum(exp, xs)
    ensures EverySum(exp, xs) == NearSum(exp, xs) <==> AllNear(xs)
  {
    var probs, full := Probs(exp, xs), FullProbs(exp, xs, Top(NegInf, xs));
    var i := ProperPeak(xs);
    TopProb(exp, xs[i]);
    forall j | 0 <= j < |xs|
      ensures 0.0 <= probs[j] <= full[j] && (probs[j] == full[j] <==> (xs[j].Fin? ==> Near(xs[j], Top(NegInf, xs))))
    {
      ProbCompared(exp, xs[j], Top(NegInf, xs));
    }
    SumAtLeast(probs, i);
    SumsOrdered(probs, full);
  }

  lemma TopProb(exp: real -> real, top: Score)
    requires IsExponential(exp) && top.Fin?
    ensures Prob(exp, top, top) == 1.0 == FullProb(exp, top, top)
  {
    assert top.v - top.v == 0.0;
  }

  // ----- The online sum -----

  /** A row whose first entry is masked or NaN poisons the running sum for good. */
  lemma {:induction false} LeadingMaskPoisons(exp: real -> real, xs: seq<Score>)
    requires xs != [] && (xs[0].NegInf? || xs[0].NaN?)
    ensures OnlineSum(exp, xs).NaN?
  {
    var n := |xs| - 1;
    if n > 0 {
      LeadingMaskPoisons(exp, xs[..n]);
    } else {
      assert xs[..0] == [];
    }
  }

  /** A clean row that starts finite keeps the exact sum of all exponentials measured from the maximum. */
  lemma {:induction false} OnlineSumIsEvery(exp: real -> real, xs: seq<Score>)
    requires IsExponential(exp) && Clean(xs) && xs != [] && xs[0].Fin?
    ensures OnlineSum(exp, xs) == Fin(EverySum(exp, xs))
  {
    var n := |xs| - 1;
    if n == 0 {
      assert xs == [xs[0]];
      FirstScore(exp, xs[0]);
    } else {
      PeakIs(xs[..n]);
      OnlineSumIsEvery(exp, xs[..n]);
      TopIsHighest(NegInf, xs[..n]);
      EveryStep(exp, xs[..n], xs[n]);
      assert xs == xs[..n] + [xs[n]];
    }
  }

  lemma FirstScore(exp: real -> real, x: Score)
    requires IsExponential(exp) && x.Fin?
    ensures OnlineSum(exp, [x]) == Fin(EverySum(exp, [x])) == Fin(1.0)
  {
    assert [x][..0] == [] && Top(NegInf, []) == NegInf && Top(NegInf, [x]) == x;
    TopProb(exp, x);
    ZeroTimes(1.0);
    assert OnlineSum(exp, []) == Fin(0.0) && Peak([]) == NegInf;
    assert OnlineAdd(exp, NegInf, Fin(0.0), x) == Fin(1.0);
    assert FullProbs(exp, [x], x) == [1.0] && [1.0][..0] == [];
    assert Sum([1.0]) == 1.0;
  }

  lemma EveryAppend(exp: real -> real, s: seq<Score>, x: Score)
    ensures Top(NegInf, s + [x]) == Higher(Top(NegInf, s), x)
    ensures var top := Top(NegInf, s + [x]);
            EverySum(exp, s + [x]) == Sum(FullProbs(exp, s, top)) + FullProb(exp, x, top)
  {
    assert (s + [x])[..|s|] == s;
    var top := Top(NegInf, s + [x]);
    assert FullProbs(exp, s + [x], top)[..|s|] == FullProbs(exp, s, top);
  }

  /** Measured from another level, every share changes by the same factor. */
  lemma FullRebase(exp: real -> real, s: seq<Score>, from: Score, to: Score)
    requires IsExponential(exp) && from.Fin? && to.Fin?
    ensures Sum(FullProbs(exp, s, to)) == Times(Sum(FullProbs(exp, s, from)), exp(from.v - to.v))
  {
    var factor := exp(from.v - to.v);
    forall i | 0 <= i < |s|
      ensures FullProbs(exp, s, to)[i] == Times(FullProbs(exp, s, from)[i], factor)
    {
      RebaseOne(exp, s[i], from, to);
    }
    SumScaled(FullProbs(exp, s, from), FullProbs(exp, s, to), factor);
  }

  lemma RebaseOne(exp: real -> real, x: Score, from: Score, to: Score)
    requires IsExponential(exp) && from.Fin? && to.Fin?
    ensures FullProb(exp, x, to) == Times(FullProb(exp, x, from), exp(from.v - to.v))
  {
    if x.Fin? {
      Rebase(exp, x.v, from.v, to.v);
      TimesCommutes(exp(from.v - to.v), exp(x.v - from.v));
    } else {
      ZeroTimes(exp(from.v - to.v));
    }
  }

  /** Over a finite maximum the update works on numbers. */
  lemma OnlineAddIs(exp: real -> real, top: Score, sum: real, x: Score)
    requires top.Fin? && !x.Bad()
    ensures OnlineAdd(exp, top, Fin(sum), x)
         == Fin(if Higher(top, x) == top then sum + FullProb(exp, x, top) else Times(sum, exp(top.v - x.v)) + 1.0)
  {
  }

  lemma NewMaximum(exp: real -> real, s: seq<Score>, x: Score) returns (carried: real)
    requires IsExponential(exp) && Top(NegInf, s).Fin? && x.Fin? && x.v > Top(NegInf, s).v
    ensures EverySum(exp, s + [x]) == carried + 1.0
    ensures OnlineAdd(exp, Top(NegInf, s), Fin(EverySum(exp, s)), x) == Fin(carried + 1.0)
  {
    var top := Top(NegInf, s);
    carried := Sum(FullProbs(exp, s, x));
    EveryAppend(exp, s, x);
    TopProb(exp, x);
    FullRebase(exp, s, top, x);
    OnlineAddIs(exp, top, EverySum(exp, s), x);
  }

  /** One more clean score, after a row with a finite maximum. */
  lemma EveryStep(exp: real -> real, s: seq<Score>, x: Score)
    requires IsExponential(exp) && Top(NegInf, s).Fin? && !x.Bad()
    ensures Fin(EverySum(exp, s + [x])) == OnlineAdd(exp, Top(NegInf, s), Fin(EverySum(exp, s)), x)
  {
    if x.Fin? && x.v > Top(NegInf, s).v {
      var carried := NewMaximum(exp, s, x);
    } else {
      EveryAppend(exp, s, x);
      OnlineAddIs(exp, Top(NegInf, s), EverySum(exp, s), x);
    }
  }

  lemma TimesCommutes(a: real, b: real)
    ensures Times(a, b) == Times(b, a)
  {
  }

  /** The divisor of the second pass is a positive number or infinite, so its inverse is a number. */
  lemma TotalPositive(exp: real -> real, xs: seq<Score>)
    requires xs != []
    ensures Reciprocal(OnlineTotal(exp, xs)).Fin?
  {
  }

  /**
   What the online row of a proper row is divided by: the full sum, or the row length if the first entry is masked.
   */
  function Divisor(exp: real -> real, xs: seq<Score>): real
    requires xs != []
  {
    if xs[0].Fin? then EverySum(exp, xs) else |xs| as real
  }

  lemma OnlineTotalIs(exp: real -> real, xs: seq<Score>)
    requires IsExponential(exp) && Proper(xs)
    ensures OnlineTotal(exp, xs) == Fin(Divisor(exp, xs)) && Divisor(exp, xs) > 0.0
  {
    if xs[0].Fin? {
      SumsCompared(exp, xs);
      OnlineSumIsEvery(exp, xs);
    } else {
      LeadingMaskPoisons(exp, xs);
    }
  }

  lemma ShareIs(exp: real -> real, x: Score, peak: Score, inverse: real)
    requires peak.Fin? && !x.Bad()
    ensures OnlineShare(exp, x, peak, Fin(inverse)) == Fin(Times(Prob(exp, x, peak), inverse))
  {
    ZeroTimes(inverse);
  }

  /** The online row of a proper row: clamped exponentials over the divisor. */
  lemma OnlineIs(exp: real -> real, xs: seq<Score>, i: nat)
    requires IsExponential(exp) && Proper(xs) && i < |xs|
    ensures OnlineRow(exp, xs)[i] == Fin(Times(Prob(exp, xs[i], Top(NegInf, xs)), Inverse(Divisor(exp, xs))))
  {
    var j := ProperPeak(xs);
    OnlineTotalIs(exp, xs);
    ShareIs(exp, xs[i], Peak(xs), Inverse(Divisor(exp, xs)));
  }

  lemma ZeroTimes(x: real)
    ensures Times(0.0, x) == 0.0
  {
  }

  // ----- Agreement -----

  lemma InverseInjective(a: real, b: real)
    requires a > 0.0 && b > 0.0
    ensures Inverse(a) > 0.0 && (Inverse(a) == Inverse(b) <==> a == b)
  {
    if Inverse(a) == Inverse(b) {
      assert a * Inverse(a) == 1.0 && b * Inverse(b) == 1.0;
      assert (a - b) * Inverse(a) == 0.0;
    }
  }

  lemma TimesOne(x: real)
    ensures Times(1.0, x) == x
  {
  }

  /** If the first share is zero and none exceeds one, their sum is less than their number. */
  lemma {:induction false} SumBelowLength(ps: seq<real>)
    requires ps != [] && ps[0] == 0.0 && forall i :: 0 <= i < |ps| ==> ps[i] <= 1.0
    ensures Sum(ps) <= (|ps| - 1) as real
  {
    var n := |ps| - 1;
    if n > 0 {
      SumBelowLength(ps[..n]);
    } else {
      assert ps[..0] == [];
    }
  }

  /** Proper rows: the divisors agree exactly if the first entry is finite and every finite score is near. */
  lemma TotalsCompared(exp: real -> real, xs: seq<Score>)
    requires IsExponential(exp) && Proper(xs)
    ensures Divisor(exp, xs) > 0.0 && (Divisor(exp, xs) == NearSum(exp, xs) <==> xs[0].Fin? && AllNear(xs))
  {
    SumsCompared(exp, xs);
    if !xs[0].Fin? {
      TopIsHighest(NegInf, xs);
      SumBelowLength(Probs(exp, xs));
    }
  }

  lemma ProperRowsAgree(exp: real -> real, xs: seq<Score>)
    requires IsExponential(exp) && Proper(xs)
    ensures TwoPassRow(exp, xs) == OnlineRow(exp, xs) <==> xs[0].Fin? && AllNear(xs)
  {
    var total := Divisor(exp, xs);
    TotalsCompared(exp, xs);
    SumsCompared(exp, xs);
    InverseInjective(NearSum(exp, xs), total);
    var j := ProperPeak(xs);
    TopProb(exp, Top(NegInf, xs));
    TwoPassIs(exp, xs, j);
    OnlineIs(exp, xs, j);
    TimesOne(Inverse(NearSum(exp, xs)));
    TimesOne(Inverse(total));
    forall i | 0 <= i < |xs| && total == NearSum(exp, xs)
      ensures TwoPassRow(exp, xs)[i] == OnlineRow(exp, xs)[i]
    {
      TwoPassIs(exp, xs, i);
      OnlineIs(exp, xs, i);
    }
  }

  /** No entry is finite, and the infinities are of one sign. */
  ghost predicate OneSided(xs: seq<Score>)
  {
    && (forall i :: 0 <= i < |xs| ==> !xs[i].Fin?)
    && !(NegInf in xs && PosInf in xs)
  }

  /** When the online row is NaN throughout. */
  lemma OnlineAllNaN(exp: real -> real, xs: seq<Score>)
    requires xs != []
    ensures (forall i :: 0 <= i < |xs| ==> OnlineRow(exp, xs)[i].NaN?) <==> OneSided(xs)
  {
    PeakIs(xs);
    TopIsHighest(NegInf, xs);
    TotalPositive(exp, xs);
    if i :| 0 <= i < |xs| && xs[i].Fin? {
      if PosInf in xs {
        assert !OnlineRow(exp, xs)[i].NaN?;
      } else {
        var j :| 0 <= j < |xs| && xs[j] == Top(NegInf, xs);
        assert !OnlineRow(exp, xs)[j].NaN?;
      }
    } else if NegInf in xs && PosInf in xs {
      var j :| 0 <= j < |xs| && xs[j].NegInf?;
      assert !OnlineRow(exp, xs)[j].NaN?;
    }
  }

  /**
   The two algorithms give the same row exactly if: for a proper row, its first entry is not masked and no finite score
   lies more than 87 below the maximum; for any other row, nothing is finite and the infinities are of one sign.
   */
  lemma RowsAgree(exp: real -> real, xs: seq<Score>)
    requires IsExponential(exp) && xs != []
    ensures TwoPassRow(exp, xs) == OnlineRow(exp, xs)
            <==> if Proper(xs) then xs[0].Fin? && AllNear(xs) else OneSided(xs)
  {
    if Proper(xs) {
      ProperRowsAgree(exp, xs);
    } else {
      OnlineAllNaN(exp, xs);
      forall i | 0 <= i < |xs|
        ensures TwoPassRow(exp, xs)[i].NaN?
      {
        TwoPassIs(exp, xs, i);
      }
    }
  }

  // ----- Textbook softmax -----

  /** Textbook softmax of every entry. */
  function TextbookRow(exp: real -> real, xs: seq<Score>): (r: seq<Score>)
    ensures |r| == |xs| && forall i :: 0 <= i < |xs| ==> r[i] == Fin(SoftmaxOf(exp, xs, Unit(|xs|, i)))
  {
    seq(|xs|, i requires 0 <= i < |xs| => Fin(SoftmaxOf(exp, xs, Unit(|xs|, i))))
  }

  lemma FullProbIsTerm(exp: real -> real, x: Score, top: Score)
    ensures Term(exp, x, x.Fin?, 1.0, top) == FullProb(exp, x, top)
  {
  }

  lemma {:induction false} SumIsMass(exp: real -> real, ps: seq<real>, xs: seq<Score>, keep: seq<bool>, ones: seq<real>,
                                     top: Score)
    requires |ps| == |xs| == |keep| == |ones|
    requires forall j :: 0 <= j < |xs| ==> keep[j] == xs[j].Fin? && ones[j] == 1.0 && ps[j] == FullProb(exp, xs[j], top)
    ensures Sum(ps) == Mass(exp, xs, keep, ones, top)
  {
    if xs != [] {
      var n := |xs| - 1;
      SumIsMass(exp, ps[..n], xs[..n], keep[..n], ones[..n], top);
      FullProbIsTerm(exp, xs[n], top);
    }
  }

  /** The textbook share of a score, measured from the maximum. */
  lemma TextbookShare(exp: real -> real, xs: seq<Score>, i: nat)
    requires IsExponential(exp) && Proper(xs) && i < |xs|
    ensures SoftmaxOf(exp, xs, Unit(|xs|, i))
         == Times(FullProb(exp, xs[i], Top(NegInf, xs)), Inverse(EverySum(exp, xs)))
  {
    var top := Top(NegInf, xs);
    SumsCompared(exp, xs);
    MeanIsSoftmax(exp, xs, Unit(|xs|, i));
    MassOfUnit(exp, xs, Finite(xs), top, i);
    SumIsMass(exp, FullProbs(exp, xs, top), xs, Finite(xs), Ones(|xs|), top);
    FullProbIsTerm(exp, xs[i], top);
    MeanIsShare(exp, xs, Finite(xs), Unit(|xs|, i), FullProb(exp, xs[i], top), EverySum(exp, xs));
  }

  lemma MeanIsShare(exp: real -> real, s: seq<Score>, keep: seq<bool>, ws: seq<real>, mass: real, sum: real)
    requires |s| == |keep| == |ws| && sum > 0.0
    requires mass == Mass(exp, s, keep, ws, Top(NegInf, s)) && sum == Mass(exp, s, keep, Ones(|s|), Top(NegInf, s))
    ensures Mean(exp, s, keep, ws) == Times(mass, Inverse(sum))
  {
    DivideIsInverse(mass, sum);
  }

  lemma DivideIsInverse(a: real, b: real)
    requires b > 0.0
    ensures a / b == Times(a, Inverse(b))
  {
  }

  /** Only one score weighs. */
  lemma MassOfUnit(exp: real -> real, xs: seq<Score>, keep: seq<bool>, top: Score, i: nat)
    requires |xs| == |keep| && i < |xs|
    ensures Mass(exp, xs, keep, Unit(|xs|, i), top) == Term(exp, xs[i], keep[i], 1.0, top)
  {
    MassOfPicked(exp, xs, keep, Unit(|xs|, i), top, i);
  }

  lemma {:induction false} MassOfPicked(exp: real -> real, xs: seq<Score>, keep: seq<bool>, ws: seq<real>, top: Score,
                                        i: nat)
    requires |xs| == |keep| == |ws| && i < |xs|
    requires forall j :: 0 <= j < |xs| ==> ws[j] == if j == i then 1.0 else 0.0
    ensures Mass(exp, xs, keep, ws, top) == Term(exp, xs[i], keep[i], 1.0, top)
  {
    var n := |xs| - 1;
    if i < n {
      MassOfPicked(exp, xs[..n], keep[..n], ws[..n], top, i);
    } else {
      MassOfNothing(exp, xs[..n], keep[..n], ws[..n], top);
    }
  }

  lemma PositiveProduct(a: real, b: real)
    requires a > 0.0 && b > 0.0
    ensures Times(a, b) > 0.0
  {
  }

  /** Clamping leaves a share alone exactly if the score is near the maximum or not finite. */
  lemma ShareKept(exp: real -> real, x: Score, top: Score, factor: real)
    requires IsExponential(exp) && top.Fin? && factor > 0.0
    ensures Times(Prob(exp, x, top), factor) == Times(FullProb(exp, x, top), factor) <==> (x.Fin? ==> Near(x, top))
  {
    ZeroTimes(factor);
    if x.Fin? {
      PositiveProduct(FullProb(exp, x, top), factor);
    }
  }

  /** A row of clamped shares is textbook softmax exactly if it divides by the full sum and nothing is clamped. */
  lemma SharesAreSoftmax(exp: real -> real, xs: seq<Score>, r: seq<Score>, total: real)
    requires IsExponential(exp) && Proper(xs) && |r| == |xs| && total > 0.0
    requires forall i :: 0 <= i < |xs| ==> r[i] == Fin(Times(Prob(exp, xs[i], Top(NegInf, xs)), Inverse(total)))
    ensures r == TextbookRow(exp, xs) <==> total == EverySum(exp, xs) && AllNear(xs)
  {
    SumsCompared(exp, xs);
    var j := ProperPeak(xs);
    ShareOfTop(exp, xs, j, total);
    InverseInjective(total, EverySum(exp, xs));
    forall i | 0 <= i < |xs| && total == EverySum(exp, xs)
      ensures r[i] == TextbookRow(exp, xs)[i] <==> (xs[i].Fin? ==> Near(xs[i], Top(NegInf, xs)))
    {
      TextbookShare(exp, xs, i);
      ShareKept(exp, xs[i], Top(NegInf, xs), Inverse(total));
    }
  }

  /** The entry at the maximum shows what a row was divided by. */
  lemma ShareOfTop(exp: real -> real, xs: seq<Score>, j: nat, total: real)
    requires IsExponential(exp) && Proper(xs) && j < |xs| && xs[j] == Top(NegInf, xs) && xs[j].Fin?
    ensures Times(Prob(exp, xs[j], Top(NegInf, xs)), Inverse(total)) == Inverse(total)
    ensures SoftmaxOf(exp, xs, Unit(|xs|, j)) == Inverse(EverySum(exp, xs))
  {
    TopProb(exp, xs[j]);
    TextbookShare(exp, xs, j);
    TimesOne(Inverse(total));
    TimesOne(Inverse(EverySum(exp, xs)));
  }

  /** The two-pass row is textbook softmax exactly if no finite score lies more than 87 below the maximum. */
  lemma TwoPassIsSoftmax(exp: real -> real, xs: seq<Score>)
    requires IsExponential(exp) && Proper(xs)
    ensures TwoPassRow(exp, xs) == TextbookRow(exp, xs) <==> AllNear(xs)
  {
    SumsCompared(exp, xs);
    forall i | 0 <= i < |xs| {
      TwoPassIs(exp, xs, i);
    }
    SharesAreSoftmax(exp, xs, TwoPassRow(exp, xs), NearSum(exp, xs));
  }

  /** The online row is textbook softmax exactly if moreover the first entry is not masked. */
  lemma OnlineIsSoftmax(exp: real -> real, xs: seq<Score>)
    requires IsExponential(exp) && Proper(xs)
    ensures OnlineRow(exp, xs) == TextbookRow(exp, xs) <==> xs[0].Fin? && AllNear(xs)
  {
    var total := Divisor(exp, xs);
    TotalsCompared(exp, xs);
    SumsCompared(exp, xs);
    forall i | 0 <= i < |xs| {
      OnlineIs(exp, xs, i);
    }
    SharesAreSoftmax(exp, xs, OnlineRow(exp, xs), total);
  }

  /** The two-pass row adds up to one for a proper row, and to NaN for any other. */
  lemma TwoPassSum(exp: real -> real, xs: seq<Score>)
    requires IsExponential(exp) && xs != []
    ensures RowSum(TwoPassRow(exp, xs)) == if Proper(xs) then Fin(1.0) else NaN
  {
    if Proper(xs) {
      TwoPassSumsToOne(exp, xs);
    } else {
      TwoPassIs(exp, xs, 0);
      NaNSticks(TwoPassRow(exp, xs), 0);
    }
  }

  lemma TwoPassSumsToOne(exp: real -> real, xs: seq<Score>)
    requires IsExponential(exp) && Proper(xs)
    ensures RowSum(TwoPassRow(exp, xs)) == Fin(1.0)
  {
    var sum := NearSum(exp, xs);
    SumsCompared(exp, xs);
    var shares := seq(|xs|, i requires 0 <= i < |xs| => Times(Probs(exp, xs)[i], Inverse(sum)));
    forall i | 0 <= i < |xs|
      ensures TwoPassRow(exp, xs)[i] == Fin(shares[i])
    {
      TwoPassIs(exp, xs, i);
    }
    SumOfFinite(TwoPassRow(exp, xs), shares);
    SumScaled(Probs(exp, xs), shares, Inverse(sum));
    TimesItsInverse(sum);
  }

  lemma TimesItsInverse(a: real)
    requires a > 0.0
    ensures Times(a, Inverse(a)) == 1.0
  {
  }

  // ----- Inputs on which the promises fail -----

  /** Two scores 88 apart: the two algorithms differ. */
  lemma WideRowDiffers(exp: real -> real)
    requires IsExponential(exp)
    ensures TwoPassRow(exp, [Fin(0.0), Fin(88.0)]) != OnlineRow(exp, [Fin(0.0), Fin(88.0)])
  {
    var xs := [Fin(0.0), Fin(88.0)];
    TopIsHighest(NegInf, xs);
    assert xs[0].Fin? && xs[1].Fin?;
    RowsAgree(exp, xs);
  }

  /** A masked first entry halves the online row of a single remaining score. */
  lemma MaskedFirstEntry(exp: real -> real, xs: seq<Score>)
    requires IsExponential(exp) && xs == [NegInf, Fin(0.0)]
    ensures TwoPassRow(exp, xs) == [Fin(0.0), Fin(1.0)]
    ensures OnlineRow(exp, xs) == [Fin(0.0), Fin(0.5)]
  {
    MaskedPair(exp, xs);
    PairIs(TwoPassRow(exp, xs), Fin(0.0), Fin(1.0));
    PairIs(OnlineRow(exp, xs), Fin(0.0), Fin(0.5));
  }

  lemma PairIs(r: seq<Score>, a: Score, b: Score)
    requires |r| == 2 && r[0] == a && r[1] == b
    ensures r == [a, b]
  {
  }

  lemma MaskedPair(exp: real -> real, xs: seq<Score>)
    requires IsExponential(exp) && |xs| == 2 && xs[0] == NegInf && xs[1] == Fin(0.0)
    ensures TwoPassRow(exp, xs)[0] == Fin(0.0) == OnlineRow(exp, xs)[0]
    ensures TwoPassRow(exp, xs)[1] == Fin(1.0) && OnlineRow(exp, xs)[1] == Fin(0.5)
  {
    MaskedPairSums(exp, xs);
    MaskedPairAt(exp, xs, 0);
    MaskedPairAt(exp, xs, 1);
  }

  lemma MaskedPairSums(exp: real -> real, xs: seq<Score>)
    requires IsExponential(exp) && |xs| == 2 && xs[0] == NegInf && xs[1] == Fin(0.0)
    ensures Proper(xs) && Top(NegInf, xs) == Fin(0.0) && Prob(exp, xs[1], Fin(0.0)) == 1.0
    ensures NearSum(exp, xs) == 1.0 && Divisor(exp, xs) == 2.0
  {
    assert xs[..1][..0] == [] && Top(NegInf, xs[..1]) == NegInf;
    TopProb(exp, Fin(0.0));
    var ps := Probs(exp, xs);
    assert ps[..1][..0] == [] && Sum(ps[..1]) == 0.0;
  }

  lemma MaskedPairAt(exp: real -> real, xs: seq<Score>, i: nat)
    requires IsExponential(exp) && Proper(xs) && i < |xs| && NearSum(exp, xs) == 1.0 && Divisor(exp, xs) == 2.0
    ensures TwoPassRow(exp, xs)[i] == Fin(Prob(exp, xs[i], Top(NegInf, xs)))
    ensures OnlineRow(exp, xs)[i] == Fin(Times(Prob(exp, xs[i], Top(NegInf, xs)), 0.5))
  {
    TwoPassIs(exp, xs, i);
    OnlineIs(exp, xs, i);
    SmallInverses();
    TimesOne(Prob(exp, xs[i], Top(NegInf, xs)));
    TimesCommutes(Prob(exp, xs[i], Top(NegInf, xs)), 1.0);
  }

  lemma SmallInverses()
    ensures Inverse(1.0) == 1.0 && Inverse(2.0) == 0.5
  {
  }

  /** A fully masked row is NaN, not the documented uniform row. */
  lemma FullyMaskedIsNaN(exp: real -> real, n: nat)
    requires IsExponential(exp) && n > 0
    ensures TwoPassRow(exp, seq(n, _ => NegInf)) == seq(n, _ => NaN)
  {
    var xs := seq(n, _ => NegInf);
    forall i | 0 <= i < n {
      TwoPassIs(exp, xs, i);
    }
  }

  // ----- The loops -----

  /** Scales a row in place and finds its maximum. */
  method ScaleAndMax(row: array<Score>, scale: real) returns (max: Score)
    modifies row
    ensures row[..] == ScaledRow(old(row[..]), scale) && max == Peak(row[..])
  {
    ghost var xs := ScaledRow(row[..], scale);
    max := NegInf;
    for i := 0 to row.Length
      invariant max == Peak(xs[..i]) && row[..i] == xs[..i]
      invariant forall k :: i <= k < row.Length ==> row[k] == old(row[k])
    {
      assert xs[..i + 1][..i] == xs[..i];
      row[i] := Applied(row[i], scale);
      if Greater(row[i], max) {
        max := row[i];
      }
    }
    assert xs[..|xs|] == xs && row[..row.Length] == row[..];
  }

  /** Replaces a row by its clamped exponentials and adds them up. */
  method FillRow(exp: real -> real, row: array<Score>, max: Score) returns (sum: Score)
    modifies row
    ensures row[..] == Weights(exp, old(row[..]), max) && sum == RowSum(row[..])
  {
    sum := Fin(0.0);
    for i := 0 to row.Length
      invariant sum == RowSum(row[..i])
      invariant forall k :: 0 <= k < i ==> row[k] == Weight(exp, old(row[k]), max)
      invariant forall k :: i <= k < row.Length ==> row[k] == old(row[k])
    {
      var shifted := Minus(row[i], max);
      ghost var before := row[..i];
      row[i] := if Below(shifted, -87.0) then Fin(0.0) else ExpOf(exp, shifted);
      assert row[..i + 1][..i] == before;
      sum := Plus(sum, row[i]);
    }
    assert row[..row.Length] == row[..];
  }

  method ScaleRow(row: array<Score>, factor: Score)
    modifies row
    ensures forall k :: 0 <= k < row.Length ==> row[k] == Product(old(row[k]), factor)
  {
    for i := 0 to row.Length
      invariant forall k :: 0 <= k < i ==> row[k] == Product(old(row[k]), factor)
      invariant forall k :: i <= k < row.Length ==> row[k] == old(row[k])
    {
      row[i] := Product(row[i], factor);
    }
  }

  /** The two-pass row in place, reporting maximum and sum. The branch for a sum of zero is dead: UniformNeverTaken. */
  method SoftmaxTwoPass(exp: real -> real, row: array<Score>, scale: real) returns (max: Score, sum: Score)
    requires IsExponential(exp)
    modifies row
    ensures var xs := ScaledRow(old(row[..]), scale);
            && row[..] == TwoPassRow(exp, xs)
            && (xs == [] ==> max == sum == Fin(0.0))
            && (xs != [] ==> max == Peak(xs) && sum == WeightSum(exp, xs, max))
  {
    if row.Length == 0 {
      return Fin(0.0), Fin(0.0);
    }
    max := ScaleAndMax(row, scale);
    UniformNeverTaken(exp, row[..]);
    sum := FillRow(exp, row, max);
    assert sum != Fin(0.0);
    ScaleRow(row, Reciprocal(sum));
  }

  /** One pass over a row keeps the maximum and the rescaled sum. */
  method OnlinePass(exp: real -> real, row: array<Score>, scale: real) returns (max: Score, sum: Score)
    modifies row
    ensures row[..] == ScaledRow(old(row[..]), scale)
    ensures max == Peak(row[..]) && sum == OnlineSum(exp, row[..])
  {
    ghost var xs := ScaledRow(row[..], scale);
    max, sum := NegInf, Fin(0.0);
    for i := 0 to row.Length
      invariant max == Peak(xs[..i]) && sum == OnlineSum(exp, xs[..i]) && row[..i] == xs[..i]
      invariant forall k :: i <= k < row.Length ==> row[k] == old(row[k])
    {
      assert xs[..i + 1][..i] == xs[..i];
      row[i] := Applied(row[i], scale);
      var x := row[i];
      if Greater(x, max) {
        var ratio := if max.NegInf? then Fin(1.0) else ExpOf(exp, Minus(max, x));
        sum, max := Plus(Product(sum, ratio), Fin(1.0)), x;
      } else {
        sum := Plus(sum, ExpOf(exp, Minus(x, max)));
      }
    }
    assert xs[..|xs|] == xs && row[..row.Length] == row[..];
  }

  /** The second pass of the online row. */
  method NormalizeOnline(exp: real -> real, row: array<Score>, max: Score, inverse: Score)
    modifies row
    ensures forall k :: 0 <= k < row.Length ==> row[k] == OnlineShare(exp, old(row[k]), max, inverse)
  {
    for i := 0 to row.Length
      invariant forall k :: 0 <= k < i ==> row[k] == OnlineShare(exp, old(row[k]), max, inverse)
      invariant forall k :: i <= k < row.Length ==> row[k] == old(row[k])
    {
      var shifted := Minus(row[i], max);
      row[i] := if Below(shifted, -87.0) then Fin(0.0) else Product(ExpOf(exp, shifted), inverse);
    }
  }

  /** The online row in place, reporting maximum and divisor. */
  method SoftmaxOnline(exp: real -> real, row: array<Score>, scale: real) returns (max: Score, total: Score)
    modifies row
    ensures var xs := ScaledRow(old(row[..]), scale);
            && row[..] == OnlineRow(exp, xs)
            && (xs == [] ==> max == total == Fin(0.0))
            && (xs != [] ==> max == Peak(xs) && total == OnlineTotal(exp, xs))
  {
    if row.Length == 0 {
      return Fin(0.0), Fin(0.0);
    }
    var sum;
    max, sum := OnlinePass(exp, row, scale);
    total := if Greater(sum, Fin(0.0)) then sum else Fin(row.Length as real);
    NormalizeOnline(exp, row, max, Reciprocal(total));
  }
}
