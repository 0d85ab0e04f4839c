/** The textbook softmax of the attention results, written as sums over the columns of a row. */
module SoftmaxSums {
  import opened SoftmaxLaws
  import opened Streaming
  import opened Tensors

  /** The exponential of a score; a masked score has none. */
  function Raised(exp: real -> real, x: Score): real
  {
    if x.Fin? then exp(x.v) else 0.0
  }

  function At(ws: seq<real>, j: nat): real { if j < |ws| then ws[j] else 0.0 }

  function Power(exp: real -> real, xs: seq<Score>, j: nat): real
  {
    if j < |xs| then Raised(exp, xs[j]) else 0.0
  }

  lemma {:induction false} MassIsSum(exp: real -> real, xs: seq<Score>, ws: seq<real>, n: nat, f: nat -> real)
    requires n <= |xs| == |ws|
    requires forall j: nat :: f(j) == Power(exp, xs, j) * At(ws, j)
    ensures Mass(exp, xs[..n], Finite(xs)[..n], ws[..n], Fin(0.0)) == SumTo(n, f)
  {
    if n > 0 {
      MassIsSum(exp, xs, ws, n - 1, f);
      assert xs[..n][..n - 1] == xs[..n - 1] && ws[..n][..n - 1] == ws[..n - 1];
      assert Finite(xs)[..n][..n - 1] == Finite(xs)[..n - 1];
      ZeroShift(xs[n - 1]);
    }
  }

  lemma ZeroShift(x: Score)
    ensures x.Fin? ==> x.v - 0.0 == x.v
  {
  }

  /** The sum of all exponentials. */
  lemma AllOnes(exp: real -> real, xs: seq<Score>, f: nat -> real)
    requires forall j: nat :: f(j) == Power(exp, xs, j)
    ensures Mass(exp, xs, Finite(xs), Ones(|xs|), Fin(0.0)) == SumTo(|xs|, f)
  {
    var n, ones := |xs|, Ones(|xs|);
    var g := (j: nat) => Power(exp, xs, j) * At(ones, j);
    MassIsSum(exp, xs, ones, n, g);
    SumsAgree(n, g, f);
    assert xs[..n] == xs && ones[..n] == ones && Finite(xs)[..n] == Finite(xs);
  }

  lemma AllWeighted(exp: real -> real, xs: seq<Score>, ws: seq<real>, f: nat -> real)
    requires |xs| == |ws| && forall j: nat :: f(j) == Power(exp, xs, j) * At(ws, j)
    ensures Mass(exp, xs, Finite(xs), ws, Fin(0.0)) == SumTo(|xs|, f)
  {
    var n := |xs|;
    MassIsSum(exp, xs, ws, n, f);
    assert xs[..n] == xs && ws[..n] == ws && Finite(xs)[..n] == Finite(xs);
  }

  /** Softmax applied to a column: the sum of exponentials times values over the sum of exponentials. */
  lemma SoftmaxIsQuotient(exp: real -> real, xs: seq<Score>, ws: seq<real>)
    requires |xs| == |ws|
    ensures var above := SumTo(|xs|, (j: nat) => Power(exp, xs, j) * At(ws, j));
            var below := SumTo(|xs|, (j: nat) => Power(exp, xs, j));
            SoftmaxOf(exp, xs, ws) == if below == 0.0 then 0.0 else above / below
  {
    AllWeighted(exp, xs, ws, (j: nat) => Power(exp, xs, j) * At(ws, j));
    AllOnes(exp, xs, (j: nat) => Power(exp, xs, j));
  }
}
