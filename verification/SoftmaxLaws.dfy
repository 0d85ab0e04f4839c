/**
 Exact-arithmetic softmax: what an exponential is, maxima of scores with masked entries, and sums of weighted
 exponentials taken against a reference level.
 */
module SoftmaxLaws {
  import opened Words

  /**
   A float with exact finite values. Masked scores are negative infinity; the attention engine refuses the bad ones.
   */
  datatype Score = NegInf | Fin(v: real) | PosInf | NaN {
    predicate Bad() { PosInf? || NaN? }
  }

  ghost predicate AddsAt(exp: real -> real, x: real, y: real) { exp(x + y) == exp(x) * exp(y) }

  /** The laws of the exponential that the engines rely on. */
  ghost predicate IsExponential(exp: real -> real)
  {
    && exp(0.0) == 1.0 && (forall x :: exp(x) > 0.0) && (forall x :: x <= 0.0 ==> exp(x) <= 1.0)
    && (forall x, y :: AddsAt(exp, x, y))
  }

  lemma Rebase(exp: real -> real, x: real, from: real, to: real)
    requires IsExponential(exp)
    ensures exp(x - to) == exp(from - to) * exp(x - from)
  {
    assert AddsAt(exp, from - to, x - from);
    assert (from - to) + (x - from) == x - to;
  }

  predicate Clean(xs: seq<Score>) { forall j :: 0 <= j < |xs| ==> !xs[j].Bad() }

  /** The larger of two scores, masked ones counting least. */
  function Higher(a: Score, b: Score): Score
  {
    if b.Fin? && (!a.Fin? || b.v > a.v) then b else a
  }

  /** The highest score of a list, starting from a known level. */
  function Top(start: Score, xs: seq<Score>): (t: Score)
    ensures start.Fin? ==> t.Fin?
    ensures !start.Bad() ==> !t.Bad()
  {
    if xs == [] then start else Higher(Top(start, xs[..|xs| - 1]), xs[|xs| - 1])
  }

  lemma {:induction false} TopConcat(start: Score, xs: seq<Score>, ys: seq<Score>)
    ensures Top(start, xs + ys) == Top(Top(start, xs), ys)
  {
    if ys == [] {
      assert xs + ys == xs;
    } else {
      var n := |ys| - 1;
      assert (xs + ys)[..|xs| + n] == xs + ys[..n];
      TopConcat(start, xs, ys[..n]);
    }
  }

  /** The top is reached by an entry or the start, and nothing exceeds it. */
  lemma {:induction false} TopIsHighest(start: Score, xs: seq<Score>)
    ensures var t := Top(start, xs);
            && (t == start || t in xs)
            && (start.Fin? ==> t.v >= start.v)
            && (forall j :: 0 <= j < |xs| && xs[j].Fin? ==> t.Fin? && xs[j].v <= t.v)
  {
    if xs != [] {
      TopIsHighest(start, xs[..|xs| - 1]);
    }
  }

  /** A finite score no more than 87 below the level; the engines treat anything lower as contributing nothing. */
  predicate Near(x: Score, top: Score) { x.Fin? && top.Fin? && x.v - top.v >= -87.0 }

  /** The unnormalized probability the engines store for a score. */
  function Prob(exp: real -> real, x: Score, top: Score): real
  {
    if Near(x, top) then exp(x.v - top.v) else 0.0
  }

  /** The contribution of one kept score, measured from a reference level. */
  function Term(exp: real -> real, x: Score, keep: bool, w: real, top: Score): real
  {
    if keep && x.Fin? && top.Fin? then exp(x.v - top.v) * w else 0.0
  }

  /** Weighted exponentials of the kept scores. */
  function Mass(exp: real -> real, xs: seq<Score>, keep: seq<bool>, ws: seq<real>, top: Score): real
    requires |xs| == |keep| == |ws|
  {
    if xs == [] then 0.0
    else
      var n := |xs| - 1;
      Mass(exp, xs[..n], keep[..n], ws[..n], top) + Term(exp, xs[n], keep[n], ws[n], top)
  }

  function Ones(n: nat): (r: seq<real>)
    ensures |r| == n && forall k :: 0 <= k < n ==> r[k] == 1.0
  {
    seq(n, _ => 1.0)
  }

  /** Moving the reference level multiplies every mass by the same factor. */
  lemma {:induction false} MassRebase(exp: real -> real, xs: seq<Score>, keep: seq<bool>, ws: seq<real>, from: Score,
                                      to: Score)
    requires IsExponential(exp) && |xs| == |keep| == |ws| && from.Fin? && to.Fin?
    ensures Mass(exp, xs, keep, ws, to) == Times(exp(from.v - to.v), Mass(exp, xs, keep, ws, from))
  {
    if xs != [] {
      var n := |xs| - 1;
      MassRebase(exp, xs[..n], keep[..n], ws[..n], from, to);
      if xs[n].Fin? {
        Rebase(exp, xs[n].v, from.v, to.v);
        Regroup(exp(from.v - to.v), exp(xs[n].v - from.v), ws[n]);
      }
      Factor(exp(from.v - to.v), Mass(exp, xs[..n], keep[..n], ws[..n], from), Term(exp, xs[n], keep[n], ws[n], from));
    }
  }

  lemma Regroup(a: real, b: real, c: real)
    ensures (a * b) * c == a * (b * c)
  {
  }

  lemma Factor(a: real, b: real, c: real)
    ensures a * b + a * c == a * (b + c)
  {
  }

  lemma {:induction false} MassConcat(exp: real -> real, xs: seq<Score>, keep: seq<bool>, ws: seq<real>,
                                      ys: seq<Score>, keep': seq<bool>, ws': seq<real>, top: Score)
    requires |xs| == |keep| == |ws| && |ys| == |keep'| == |ws'|
    ensures Mass(exp, xs + ys, keep + keep', ws + ws', top)
         == Mass(exp, xs, keep, ws, top) + Mass(exp, ys, keep', ws', top)
  {
    if ys == [] {
      assert xs + ys == xs && keep + keep' == keep && ws + ws' == ws;
    } else {
      var n := |ys| - 1;
      assert (xs + ys)[..|xs| + n] == xs + ys[..n];
      assert (keep + keep')[..|xs| + n] == keep + keep'[..n];
      assert (ws + ws')[..|xs| + n] == ws + ws'[..n];
      MassConcat(exp, xs, keep, ws, ys[..n], keep'[..n], ws'[..n], top);
    }
  }

  /** Nothing kept, nothing weighed. */
  lemma {:induction false} MassOfNothing(exp: real -> real, xs: seq<Score>, keep: seq<bool>, ws: seq<real>, top: Score)
    requires |xs| == |keep| == |ws|
    requires forall j :: 0 <= j < |xs| ==> Term(exp, xs[j], keep[j], ws[j], top) == 0.0
    ensures Mass(exp, xs, keep, ws, top) == 0.0
  {
    if xs != [] {
      var n := |xs| - 1;
      MassOfNothing(exp, xs[..n], keep[..n], ws[..n], top);
    }
  }

  /** With non-negative weights the mass is at least any single term. */
  lemma {:induction false} MassAtLeast(exp: real -> real, xs: seq<Score>, keep: seq<bool>, ws: seq<real>, top: Score,
                                       j: nat)
    requires IsExponential(exp) && |xs| == |keep| == |ws| && j < |xs|
    requires forall k :: 0 <= k < |ws| ==> ws[k] >= 0.0
    ensures Mass(exp, xs, keep, ws, top) >= Term(exp, xs[j], keep[j], ws[j], top) >= 0.0
  {
    var n := |xs| - 1;
    MassNonNegative(exp, xs[..n], keep[..n], ws[..n], top);
    TermNonNegative(exp, xs[n], keep[n], ws[n], top);
    TermNonNegative(exp, xs[j], keep[j], ws[j], top);
    if j < n {
      MassAtLeast(exp, xs[..n], keep[..n], ws[..n], top, j);
    }
  }

  lemma TermNonNegative(exp: real -> real, x: Score, keep: bool, w: real, top: Score)
    requires IsExponential(exp) && w >= 0.0
    ensures Term(exp, x, keep, w, top) >= 0.0
  {
  }

  lemma {:induction false} MassNonNegative(exp: real -> real, xs: seq<Score>, keep: seq<bool>, ws: seq<real>,
                                           top: Score)
    requires IsExponential(exp) && |xs| == |keep| == |ws|
    requires forall k :: 0 <= k < |ws| ==> ws[k] >= 0.0
    ensures Mass(exp, xs, keep, ws, top) >= 0.0
  {
    if xs != [] {
      var n := |xs| - 1;
      MassNonNegative(exp, xs[..n], keep[..n], ws[..n], top);
      TermNonNegative(exp, xs[n], keep[n], ws[n], top);
    }
  }

  /** Mass depends on the kept scores only. */
  lemma {:induction false} MassSame(exp: real -> real, xs: seq<Score>, keep: seq<bool>, keep': seq<bool>, ws: seq<real>,
                                    top: Score)
    requires |xs| == |keep| == |keep'| == |ws|
    requires forall j :: 0 <= j < |xs| ==> keep[j] == keep'[j] || ws[j] == 0.0 || !xs[j].Fin?
    ensures Mass(exp, xs, keep, ws, top) == Mass(exp, xs, keep', ws, top)
  {
    if xs != [] {
      var n := |xs| - 1;
      MassSame(exp, xs[..n], keep[..n], keep'[..n], ws[..n], top);
    }
  }
}
