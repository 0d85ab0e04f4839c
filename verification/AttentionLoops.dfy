/**
 The attention engine's loops over one tile of query rows: scores are turned into probabilities in place, row maxima,
 sums and the accumulator are updated tile by tile, and the accumulator is divided at the end.
 */
module AttentionLoops {
  import opened Words
  import opened SoftmaxLaws
  import opened Streaming

  ghost function RowOf(score: array2<Score>, r: nat, cols: nat): (xs: seq<Score>)
    requires r < score.Length0 && cols <= score.Length1
    reads score
    ensures |xs| == cols && forall j :: 0 <= j < cols ==> xs[j] == score[r, j]
  {
    seq(cols, j requires 0 <= j < cols && cols <= score.Length1 && r < score.Length0 reads score => score[r, j])
  }

  /** The highest score of a row, from a known level; fails on a score the engine refuses. */
  method ScanRow(score: array2<Score>, r: nat, cols: nat, start: Score) returns (ok: bool, hi: Score)
    requires r < score.Length0 && cols <= score.Length1
    ensures ok == Clean(RowOf(score, r, cols))
    ensures ok ==> hi == Top(start, RowOf(score, r, cols))
  {
    ghost var xs := RowOf(score, r, cols);
    hi := start;
    for j := 0 to cols
      invariant Clean(xs[..j]) && hi == Top(start, xs[..j])
    {
      if score[r, j].Bad() {
        assert xs[j].Bad();
        return false, hi;
      }
      assert xs[..j + 1][..j] == xs[..j];
      hi := Higher(hi, score[r, j]);
    }
    assert xs[..cols] == xs;
    ok := true;
  }

  /** Replaces the scores of a row by unnormalized probabilities and adds them up. */
  method FillProbs(exp: real -> real, score: array2<Score>, r: nat, cols: nat, hi: Score) returns (sum: real)
    requires r < score.Length0 && cols <= score.Length1
    modifies score
    ensures sum == TileDot(exp, old(RowOf(score, r, cols)), Ones(cols), hi)
    ensures forall j :: 0 <= j < cols ==> score[r, j] == Fin(Prob(exp, old(score[r, j]), hi))
    ensures forall i, j :: 0 <= i < score.Length0 && 0 <= j < score.Length1 && (i != r || j >= cols) ==>
              score[i, j] == old(score[i, j])
  {
    ghost var xs := RowOf(score, r, cols);
    sum := 0.0;
    for j := 0 to cols
      invariant sum == TileDot(exp, xs[..j], Ones(cols)[..j], hi)
      invariant forall k :: 0 <= k < j ==> score[r, k] == Fin(Prob(exp, xs[k], hi))
      invariant forall i, k :: 0 <= i < score.Length0 && 0 <= k < score.Length1 && (i != r || k >= j) ==>
                  score[i, k] == old(score[i, k])
    {
      assert xs[..j + 1][..j] == xs[..j] && Ones(cols)[..j + 1][..j] == Ones(cols)[..j];
      var p := Prob(exp, score[r, j], hi);
      sum := sum + p;
      score[r, j] := Fin(p);
    }
    assert xs[..cols] == xs && Ones(cols)[..cols] == Ones(cols);
  }

  /** Multiplies the accumulator of a row. */
  method RescaleRow(out: array2<real>, r: nat, alpha: real)
    requires r < out.Length0
    modifies out
    ensures forall a :: 0 <= a < out.Length1 ==> out[r, a] == Times(alpha, old(out[r, a]))
    ensures forall i, a :: 0 <= i < out.Length0 && 0 <= a < out.Length1 && i != r ==> out[i, a] == old(out[i, a])
  {
    for a := 0 to out.Length1
      invariant forall k :: 0 <= k < a ==> out[r, k] == Times(alpha, old(out[r, k]))
      invariant forall i, k :: 0 <= i < out.Length0 && 0 <= k < out.Length1 && (i != r || k >= a) ==>
                  out[i, k] == old(out[i, k])
    {
      out[r, a] := Times(alpha, out[r, a]);
    }
  }

  /** Divides the probabilities of a row by their sum; a sum of zero gives zeros. */
  method DivideScores(score: array2<Score>, r: nat, cols: nat, sum: real)
    requires r < score.Length0 && cols <= score.Length1
    requires forall j :: 0 <= j < cols ==> score[r, j].Fin?
    modifies score
    ensures forall j :: 0 <= j < cols ==> score[r, j] == Fin(Quotient(old(score[r, j]).v, sum))
    ensures forall i, j :: 0 <= i < score.Length0 && 0 <= j < score.Length1 && (i != r || j >= cols) ==>
              score[i, j] == old(score[i, j])
  {
    for j := 0 to cols
      invariant forall k :: 0 <= k < j ==> score[r, k] == Fin(Quotient(old(score[r, k]).v, sum))
      invariant forall i, k :: 0 <= i < score.Length0 && 0 <= k < score.Length1 && (i != r || k >= j) ==>
                  score[i, k] == old(score[i, k])
    {
      score[r, j] := Fin(Quotient(score[r, j].v, sum));
    }
  }

  function Quotient(x: real, sum: real): real { if sum == 0.0 then 0.0 else x / sum }

  // ----- One row as a value -----

  /** The streaming state of a row: highest score, sum and unnormalized accumulator. */
  datatype RowState = RowState(top: Score, sum: real, out: seq<real>)

  /** Probabilities stored over the scores of a row. */
  ghost function Probs(exp: real -> real, xs: seq<Score>, top: Score): (ps: seq<Score>)
    ensures |ps| == |xs| && forall j :: 0 <= j < |xs| ==> ps[j] == Fin(Prob(exp, xs[j], top))
  {
    seq(|xs|, j requires 0 <= j < |xs| => Fin(Prob(exp, xs[j], top)))
  }

  /** The state after normalizing a tile's scores: maximum moved, sum and accumulator rescaled, tile sum added. */
  ghost function Normalized(exp: real -> real, st: RowState, xs: seq<Score>): (r: RowState)
    ensures |r.out| == |st.out|
  {
    var top := Top(st.top, xs);
    RowState(top, Carried(exp, st.sum, st.top, st.sum, top) + TileDot(exp, xs, Ones(|xs|), top),
             seq(|st.out|, a requires 0 <= a < |st.out| => Carried(exp, st.out[a], st.top, st.sum, top)))
  }

  ghost function Column(values: seq<seq<real>>, a: nat): (ws: seq<real>)
    requires forall j :: 0 <= j < |values| ==> a < |values[j]|
    ensures |ws| == |values| && forall j :: 0 <= j < |values| ==> ws[j] == values[j][a]
  {
    seq(|values|, j requires 0 <= j < |values| => values[j][a])
  }

  ghost predicate Wide(values: seq<seq<real>>, dim: nat)
  {
    forall j :: 0 <= j < |values| ==> |values[j]| == dim
  }

  /** Stored probabilities times a column. */
  ghost function Dot(ps: seq<Score>, ws: seq<real>): real
    requires |ps| == |ws|
  {
    if ps == [] then 0.0
    else
      var n := |ps| - 1;
      Dot(ps[..n], ws[..n]) + (if ps[n].Fin? then ps[n].v else 0.0) * ws[n]
  }

  lemma {:induction false} DotOfProbs(exp: real -> real, xs: seq<Score>, ws: seq<real>, top: Score)
    requires |xs| == |ws|
    ensures Dot(Probs(exp, xs, top), ws) == TileDot(exp, xs, ws, top)
  {
    if xs != [] {
      var n := |xs| - 1;
      assert Probs(exp, xs, top)[..n] == Probs(exp, xs[..n], top);
      DotOfProbs(exp, xs[..n], ws[..n], top);
    }
  }

  /** The accumulator after adding stored probabilities times values. */
  ghost function Added(out: seq<real>, ps: seq<Score>, values: seq<seq<real>>): (r: seq<real>)
    requires |ps| == |values| && Wide(values, |out|)
    ensures |r| == |out| && forall a :: 0 <= a < |out| ==> r[a] == out[a] + Dot(ps, Column(values, a))
  {
    seq(|out|, a requires 0 <= a < |out| => out[a] + Dot(ps, Column(values, a)))
  }

  /** The state after a whole tile. */
  ghost function Absorbed(exp: real -> real, st: RowState, xs: seq<Score>, values: seq<seq<real>>): (r: RowState)
    requires |xs| == |values| && Wide(values, |st.out|)
    ensures |r.out| == |st.out|
  {
    var n := Normalized(exp, st, xs);
    n.(out := Added(n.out, Probs(exp, xs, n.top), values))
  }

  /** The state that describes the first k columns of a row. */
  ghost function StateAt(exp: real -> real, xs: seq<Score>, values: seq<seq<real>>, dim: nat, tile: nat,
                         k: nat): (r: RowState)
    requires |xs| == |values| && Wide(values, dim) && tile > 0 && k <= |xs|
    ensures |r.out| == dim
  {
    RowState(Top(NegInf, xs[..k]), Streamed(exp, xs, Ones(|xs|), tile, k),
             seq(dim, a requires 0 <= a < dim => Streamed(exp, xs, Column(values, a), tile, k)))
  }

  /** Absorbing a tile moves the description to the tile's end. */
  lemma AbsorbedIsNext(exp: real -> real, xs: seq<Score>, values: seq<seq<real>>, dim: nat, tile: nat, k: nat, e: nat)
    requires IsExponential(exp) && |xs| == |values| && Wide(values, dim) && tile > 0
    requires k < |xs| && Boundary(|xs|, tile, k) && e == Min(k + tile, |xs|)
    ensures Absorbed(exp, StateAt(exp, xs, values, dim, tile, k), xs[k..e], values[k..e])
         == StateAt(exp, xs, values, dim, tile, e)
  {
    var st, st' := StateAt(exp, xs, values, dim, tile, k), StateAt(exp, xs, values, dim, tile, e);
    var r := Absorbed(exp, st, xs[k..e], values[k..e]);
    AbsorbedSum(exp, xs, values, dim, tile, k, e);
    forall a | 0 <= a < dim
      ensures r.out[a] == st'.out[a]
    {
      AbsorbedColumn(exp, xs, values, dim, tile, k, e, a);
    }
    assert r.out == st'.out;
  }

  lemma AbsorbedSum(exp: real -> real, xs: seq<Score>, values: seq<seq<real>>, dim: nat, tile: nat, k: nat, e: nat)
    requires IsExponential(exp) && |xs| == |values| && Wide(values, dim) && tile > 0
    requires k < |xs| && Boundary(|xs|, tile, k) && e == Min(k + tile, |xs|)
    ensures var r := Absorbed(exp, StateAt(exp, xs, values, dim, tile, k), xs[k..e], values[k..e]);
            && r.top == Top(NegInf, xs[..e])
            && r.sum == Streamed(exp, xs, Ones(|xs|), tile, e)
  {
    AbsorbTile(exp, xs, Ones(|xs|), tile, k);
    OnesSlice(|xs|, k, e, |xs[k..e]|);
  }

  lemma OnesSlice(n: nat, k: nat, e: nat, length: nat)
    requires k <= e <= n && length == e - k
    ensures Ones(n)[k..e] == Ones(length)
  {
  }

  lemma AbsorbedColumn(exp: real -> real, xs: seq<Score>, values: seq<seq<real>>, dim: nat, tile: nat, k: nat, e: nat,
                       a: nat)
    requires IsExponential(exp) && |xs| == |values| && Wide(values, dim) && tile > 0
    requires k < |xs| && Boundary(|xs|, tile, k) && e == Min(k + tile, |xs|) && a < dim
    ensures Absorbed(exp, StateAt(exp, xs, values, dim, tile, k), xs[k..e], values[k..e]).out[a]
         == StateAt(exp, xs, values, dim, tile, e).out[a]
  {
    AbsorbTile(exp, xs, Column(values, a), tile, k);
    DotOfProbs(exp, xs[k..e], Column(values[k..e], a), Top(NegInf, xs[..e]));
    assert Column(values, a)[k..e] == Column(values[k..e], a);
  }

  // ----- Loops over a tile of rows -----

  /** The arrays of one tile of query rows: scores of the current tile, accumulator, running maxima and sums. */
  datatype Buffers = Buffers(score: array2<Score>, out: array2<real>, tops: array<Score>, sums: array<real>)

  ghost predicate Shaped(b: Buffers)
  {
    b.score.Length0 == b.out.Length0 == b.tops.Length == b.sums.Length
  }

  ghost function OutOf(out: array2<real>, r: nat): (o: seq<real>)
    requires r < out.Length0
    reads out
    ensures |o| == out.Length1 && forall a :: 0 <= a < out.Length1 ==> o[a] == out[r, a]
  {
    seq(out.Length1, a requires 0 <= a < out.Length1 && r < out.Length0 reads out => out[r, a])
  }

  ghost function StateOf(b: Buffers, r: nat): (st: RowState)
    requires Shaped(b) && r < b.tops.Length
    reads b.out, b.tops, b.sums
    ensures |st.out| == b.out.Length1
  {
    RowState(b.tops[r], b.sums[r], OutOf(b.out, r))
  }

  ghost predicate RowsClean(score: array2<Score>, cols: nat)
    requires cols <= score.Length1
    reads score
  {
    forall r :: 0 <= r < score.Length0 ==> Clean(RowOf(score, r, cols))
  }

  /** The streaming update of one row for the tile in the score buffer. */
  method NormalizeRow(exp: real -> real, b: Buffers, r: nat, cols: nat) returns (ok: bool)
    requires Shaped(b) && r < b.tops.Length && cols <= b.score.Length1
    modifies b.score, b.out, b.tops, b.sums
    ensures ok == Clean(old(RowOf(b.score, r, cols)))
    ensures ok ==> StateOf(b, r) == Normalized(exp, old(StateOf(b, r)), old(RowOf(b.score, r, cols)))
    ensures ok ==> RowOf(b.score, r, cols) == Probs(exp, old(RowOf(b.score, r, cols)), b.tops[r])
    ensures forall i :: 0 <= i < b.tops.Length && i != r ==>
              StateOf(b, i) == old(StateOf(b, i)) && RowOf(b.score, i, cols) == old(RowOf(b.score, i, cols))
  {
    var hi;
    ok, hi := ScanRow(b.score, r, cols, b.tops[r]);
    if ok {
      var alpha := Rescale(exp, b.tops[r], b.sums[r], hi);
      var sum := FillProbs(exp, b.score, r, cols, hi);
      b.tops[r] := hi;
      b.sums[r] := Times(alpha, b.sums[r]) + sum;
      RescaleRow(b.out, r, alpha);
    }
  }

  /** Normalizes all rows, or reports a score the engine refuses. */
  method NormalizeTile(exp: real -> real, b: Buffers, cols: nat) returns (ok: bool)
    requires Shaped(b) && cols <= b.score.Length1
    modifies b.score, b.out, b.tops, b.sums
    ensures ok == old(RowsClean(b.score, cols))
    ensures ok ==> forall r :: 0 <= r < b.tops.Length ==>
              && StateOf(b, r) == Normalized(exp, old(StateOf(b, r)), old(RowOf(b.score, r, cols)))
              && RowOf(b.score, r, cols) == Probs(exp, old(RowOf(b.score, r, cols)), StateOf(b, r).top)
  {
    for r := 0 to b.tops.Length
      invariant forall i :: 0 <= i < r ==> Clean(old(RowOf(b.score, i, cols)))
      invariant forall i :: 0 <= i < r ==>
                  && StateOf(b, i) == Normalized(exp, old(StateOf(b, i)), old(RowOf(b.score, i, cols)))
                  && RowOf(b.score, i, cols) == Probs(exp, old(RowOf(b.score, i, cols)), StateOf(b, i).top)
      invariant forall i :: r <= i < b.tops.Length ==>
                  StateOf(b, i) == old(StateOf(b, i)) && RowOf(b.score, i, cols) == old(RowOf(b.score, i, cols))
    {
      ok := NormalizeRow(exp, b, r, cols);
      if !ok {
        return;
      }
    }
    ok := true;
  }

  method DotRow(score: array2<Score>, r: nat, cols: nat, values: seq<seq<real>>, a: nat) returns (dot: real)
    requires r < score.Length0 && cols == |values| <= score.Length1
    requires forall j :: 0 <= j < |values| ==> a < |values[j]|
    ensures dot == Dot(RowOf(score, r, cols), Column(values, a))
  {
    ghost var ps, ws := RowOf(score, r, cols), Column(values, a);
    dot := 0.0;
    for j := 0 to cols
      invariant dot == Dot(ps[..j], ws[..j])
    {
      assert ps[..j + 1][..j] == ps[..j] && ws[..j + 1][..j] == ws[..j];
      dot := dot + (if score[r, j].Fin? then score[r, j].v else 0.0) * values[j][a];
    }
    assert ps[..cols] == ps && ws[..cols] == ws;
  }

  method AccumulateRow(b: Buffers, r: nat, cols: nat, values: seq<seq<real>>)
    requires Shaped(b) && r < b.tops.Length && cols == |values| <= b.score.Length1 && Wide(values, b.out.Length1)
    modifies b.out
    ensures OutOf(b.out, r) == Added(old(OutOf(b.out, r)), RowOf(b.score, r, cols), values)
    ensures forall i :: 0 <= i < b.tops.Length && i != r ==> OutOf(b.out, i) == old(OutOf(b.out, i))
  {
    for a := 0 to b.out.Length1
      invariant forall k :: 0 <= k < a ==>
                    b.out[r, k] == old(b.out[r, k]) + Dot(RowOf(b.score, r, cols), Column(values, k))
      invariant forall i, k :: 0 <= i < b.tops.Length && 0 <= k < b.out.Length1 && (i != r || k >= a) ==>
                  b.out[i, k] == old(b.out[i, k])
    {
      var dot := DotRow(b.score, r, cols, values, a);
      b.out[r, a] := b.out[r, a] + dot;
    }
  }

  /** Adds probabilities times the values of the tile's keys to the accumulator. */
  method AccumulateTile(b: Buffers, cols: nat, values: seq<seq<real>>)
    requires Shaped(b) && cols == |values| <= b.score.Length1 && Wide(values, b.out.Length1)
    modifies b.out
    ensures forall r :: 0 <= r < b.tops.Length ==>
              OutOf(b.out, r) == Added(old(OutOf(b.out, r)), RowOf(b.score, r, cols), values)
  {
    for r := 0 to b.tops.Length
      invariant forall i :: 0 <= i < r ==>
                    OutOf(b.out, i) == Added(old(OutOf(b.out, i)), RowOf(b.score, i, cols), values)
      invariant forall i :: r <= i < b.tops.Length ==> OutOf(b.out, i) == old(OutOf(b.out, i))
    {
      AccumulateRow(b, r, cols, values);
    }
  }

  /** Copies the scores of a tile's columns into the buffer. */
  method LoadScores(score: array2<Score>, scores: seq<seq<Score>>, k: nat, cols: nat)
    requires score.Length0 == |scores| && cols <= score.Length1
    requires forall r :: 0 <= r < |scores| ==> k + cols <= |scores[r]|
    modifies score
    ensures forall r :: 0 <= r < |scores| ==> RowOf(score, r, cols) == scores[r][k..k + cols]
  {
    for r := 0 to |scores|
      invariant forall i, j :: 0 <= i < r && 0 <= j < cols ==> score[i, j] == scores[i][k + j]
    {
      for j := 0 to cols
        invariant forall i, q :: 0 <= i < r && 0 <= q < cols ==> score[i, q] == scores[i][k + q]
        invariant forall q :: 0 <= q < j ==> score[r, q] == scores[r][k + q]
      {
        score[r, j] := scores[r][k + j];
      }
    }
  }

  // ----- All keys -----

  /** Scores of some query rows against all keys, and the values, with matching shapes. */
  ghost predicate Problem(scores: seq<seq<Score>>, values: seq<seq<real>>, dim: nat)
  {
    Wide(values, dim) && forall r :: 0 <= r < |scores| ==> |scores[r]| == |values|
  }

  /** Every row holds the state of its first k columns. */
  ghost predicate AllAt(exp: real -> real, b: Buffers, scores: seq<seq<Score>>, values: seq<seq<real>>, tile: nat,
                        k: nat)
    requires Shaped(b) && b.tops.Length == |scores| && Problem(scores, values, b.out.Length1) && tile > 0
    requires k <= |values|
    reads b.out, b.tops, b.sums
  {
    forall r :: 0 <= r < |scores| ==> StateOf(b, r) == StateAt(exp, scores[r], values, b.out.Length1, tile, k)
  }

  /** Normalizes the loaded tile and multiplies it with the values. */
  method AbsorbLoaded(exp: real -> real, b: Buffers, cols: nat, values: seq<seq<real>>) returns (ok: bool)
    requires Shaped(b) && cols == |values| <= b.score.Length1 && Wide(values, b.out.Length1)
    modifies b.score, b.out, b.tops, b.sums
    ensures ok == old(RowsClean(b.score, cols))
    ensures ok ==> forall r :: 0 <= r < b.tops.Length ==>
              StateOf(b, r) == Absorbed(exp, old(StateOf(b, r)), old(RowOf(b.score, r, cols)), values)
  {
    ok := NormalizeTile(exp, b, cols);
    if ok {
      AccumulateTile(b, cols, values);
    }
  }

  /** The loaded buffer is clean exactly if the tile's scores are. */
  method LoadTile(score: array2<Score>, scores: seq<seq<Score>>, k: nat, e: nat, cols: nat)
    requires score.Length0 == |scores| && cols <= score.Length1 && k + cols == e
    requires forall r :: 0 <= r < |scores| ==> e <= |scores[r]|
    modifies score
    ensures forall r :: 0 <= r < |scores| ==> RowOf(score, r, cols) == scores[r][k..e]
    ensures RowsClean(score, cols) == AllClean(scores, k, e)
  {
    LoadScores(score, scores, k, cols);
    LoadedClean(score, scores, k, e, cols);
  }

  /** One tile: scores loaded, normalized, multiplied with the values. */
  method AttendTile(exp: real -> real, b: Buffers, scores: seq<seq<Score>>, values: seq<seq<real>>, ghost tile: nat,
                    k: nat, e: nat)
    returns (ok: bool)
    requires IsExponential(exp) && Shaped(b) && b.tops.Length == |scores| && Problem(scores, values, b.out.Length1)
    requires 0 < tile && k < |values| && Boundary(|values|, tile, k)
    requires e == Min(k + tile, |values|) && e - k <= b.score.Length1
    requires AllAt(exp, b, scores, values, tile, k)
    modifies b.score, b.out, b.tops, b.sums
    ensures ok == AllClean(scores, k, e)
    ensures ok ==> AllAt(exp, b, scores, values, tile, e)
  {
    var cols := e - k;
    LoadTile(b.score, scores, k, e, cols);
    ok := AbsorbNext(exp, b, scores, values, tile, k, e, cols);
  }

  /** The loaded tile takes every row's state to the tile's end. */
  method AbsorbNext(exp: real -> real, b: Buffers, ghost scores: seq<seq<Score>>, values: seq<seq<real>>,
                    ghost tile: nat, k: nat, e: nat, cols: nat)
    returns (ok: bool)
    requires IsExponential(exp) && Shaped(b) && b.tops.Length == |scores| && Problem(scores, values, b.out.Length1)
    requires 0 < tile && k < |values| && Boundary(|values|, tile, k)
    requires e == Min(k + tile, |values|) && cols == e - k && cols <= b.score.Length1
    requires AllAt(exp, b, scores, values, tile, k)
    requires forall r :: 0 <= r < |scores| ==> RowOf(b.score, r, cols) == scores[r][k..e]
    modifies b.score, b.out, b.tops, b.sums
    ensures ok == old(RowsClean(b.score, cols))
    ensures ok ==> AllAt(exp, b, scores, values, tile, e)
  {
    ok := AbsorbLoaded(exp, b, cols, values[k..e]);
    if ok {
      forall r | 0 <= r < |scores|
        ensures StateOf(b, r) == StateAt(exp, scores[r], values, b.out.Length1, tile, e)
      {
        assert old(RowOf(b.score, r, cols)) == scores[r][k..e];
        AbsorbedIsNext(exp, scores[r], values, b.out.Length1, tile, k, e);
      }
    }
  }

  lemma LoadedClean(score: array2<Score>, scores: seq<seq<Score>>, k: nat, e: nat, cols: nat)
    requires score.Length0 == |scores| && cols <= score.Length1 && k + cols == e
    requires forall r :: 0 <= r < |scores| ==> e <= |scores[r]| && RowOf(score, r, cols) == scores[r][k..e]
    ensures RowsClean(score, cols) == AllClean(scores, k, e)
  {
    if AllClean(scores, k, e) {
      forall r | 0 <= r < |scores|
        ensures Clean(RowOf(score, r, cols))
      {
        assert Clean(scores[r][k..e]);
      }
    }
    if RowsClean(score, cols) {
      forall r | 0 <= r < |scores|
        ensures Clean(scores[r][k..e])
      {
        assert Clean(RowOf(score, r, cols));
      }
    }
  }

  /** No score in a range of columns is one the engine refuses. */
  ghost predicate AllClean(scores: seq<seq<Score>>, k: nat, e: nat)
    requires k <= e && forall r :: 0 <= r < |scores| ==> e <= |scores[r]|
  {
    forall r :: 0 <= r < |scores| ==> Clean(scores[r][k..e])
  }

  lemma AllCleanSplit(scores: seq<seq<Score>>, k: nat, e: nat)
    requires k <= e && forall r :: 0 <= r < |scores| ==> e <= |scores[r]|
    ensures AllClean(scores, 0, e) <==> AllClean(scores, 0, k) && AllClean(scores, k, e)
  {
    forall r | 0 <= r < |scores|
      ensures Clean(scores[r][0..e]) <==> Clean(scores[r][0..k]) && Clean(scores[r][k..e])
    {
      assert scores[r][0..e] == scores[r][0..k] + scores[r][k..e];
      forall j | k <= j < e
        ensures scores[r][k..e][j - k] == scores[r][0..e][j]
      {
      }
    }
  }

  lemma NothingAbsorbed(exp: real -> real, xs: seq<Score>, values: seq<seq<real>>, dim: nat, tile: nat)
    requires |xs| == |values| && Wide(values, dim) && tile > 0
    ensures StateAt(exp, xs, values, dim, tile, 0) == RowState(NegInf, 0.0, seq(dim, _ => 0.0))
  {
    assert xs[..0] == [];
  }

  method NewBuffers(rows: nat, tile: nat, dim: nat) returns (b: Buffers)
    ensures fresh(b.score) && fresh(b.out) && fresh(b.tops) && fresh(b.sums)
    ensures Shaped(b) && b.tops.Length == rows && b.score.Length1 == tile && b.out.Length1 == dim
    ensures forall r :: 0 <= r < rows ==> StateOf(b, r) == RowState(NegInf, 0.0, seq(dim, _ => 0.0))
  {
    var score := new Score[rows, tile]((_, _) => NegInf);
    var out := new real[rows, dim]((_, _) => 0.0);
    var tops := new Score[rows](_ => NegInf);
    var sums := new real[rows](_ => 0.0);
    b := Buffers(score, out, tops, sums);
    forall r | 0 <= r < rows
      ensures StateOf(b, r) == RowState(NegInf, 0.0, seq(dim, _ => 0.0))
    {
      assert OutOf(out, r) == seq(dim, _ => 0.0);
    }
  }

  /** The final division by the row sums; a row that accumulated nothing gives zeros. */
  method DivideOut(b: Buffers)
    requires Shaped(b)
    modifies b.out
    ensures forall r, a :: 0 <= r < b.tops.Length && 0 <= a < b.out.Length1 ==>
              b.out[r, a] == Quotient(old(b.out[r, a]), b.sums[r])
  {
    for r := 0 to b.tops.Length
      invariant forall i, a :: 0 <= i < r && 0 <= a < b.out.Length1 ==>
                    b.out[i, a] == Quotient(old(b.out[i, a]), b.sums[i])
      invariant forall i, a :: r <= i < b.tops.Length && 0 <= a < b.out.Length1 ==> b.out[i, a] == old(b.out[i, a])
    {
      for a := 0 to b.out.Length1
        invariant forall i, k :: 0 <= i < r && 0 <= k < b.out.Length1 ==>
                      b.out[i, k] == Quotient(old(b.out[i, k]), b.sums[i])
        invariant forall k :: 0 <= k < a ==> b.out[r, k] == Quotient(old(b.out[r, k]), b.sums[r])
        invariant forall i, k :: r <= i < b.tops.Length && 0 <= k < b.out.Length1 && (i != r || k >= a) ==>
                    b.out[i, k] == old(b.out[i, k])
      {
        b.out[r, a] := Quotient(b.out[r, a], b.sums[r]);
      }
    }
  }

  lemma AttendedIsFinal(exp: real -> real, xs: seq<Score>, values: seq<seq<real>>, dim: nat, tile: nat, a: nat)
    requires |xs| == |values| && Wide(values, dim) && tile > 0 && a < dim
    ensures var st := StateAt(exp, xs, values, dim, tile, |xs|);
            Quotient(st.out[a], st.sum) == Attended(exp, xs, Column(values, a), tile)
  {
    assert xs[..|xs|] == xs && KeptBy(xs, tile)[..|xs|] == KeptBy(xs, tile);
    assert Ones(|xs|)[..|xs|] == Ones(|xs|) && Column(values, a)[..|xs|] == Column(values, a);
  }

  /** All tiles of keys, in order. */
  method AttendTiles(exp: real -> real, b: Buffers, scores: seq<seq<Score>>, values: seq<seq<real>>, tile: nat)
    returns (ok: bool)
    requires IsExponential(exp) && Shaped(b) && b.tops.Length == |scores| && Problem(scores, values, b.out.Length1)
    requires 0 < tile <= b.score.Length1 && |values| > 0 && AllAt(exp, b, scores, values, tile, 0)
    modifies b.score, b.out, b.tops, b.sums
    ensures ok == AllClean(scores, 0, |values|)
    ensures ok ==> AllAt(exp, b, scores, values, tile, |values|)
  {
    var k := 0;
    while k < |values|
      invariant k <= |values| && Boundary(|values|, tile, k)
      invariant AllAt(exp, b, scores, values, tile, k)
      invariant AllClean(scores, 0, k)
    {
      var e := Min(k + tile, |values|);
      AllCleanSplit(scores, k, e);
      AllCleanSplit(scores, e, |values|);
      NextBoundary(|values|, tile, k);
      ok := AttendTile(exp, b, scores, values, tile, k, e);
      if !ok {
        return;
      }
      k := e;
    }
    ok := true;
  }

  /** Streaming attention of some query rows: every output is the tiled mean of its row and column. */
  method AttendStreaming(exp: real -> real, scores: seq<seq<Score>>, values: seq<seq<real>>, dim: nat, tile: nat)
    returns (ok: bool, out: array2<real>)
    requires IsExponential(exp) && Problem(scores, values, dim) && 0 < tile && |values| > 0
    ensures ok == AllClean(scores, 0, |values|)
    ensures out.Length0 == |scores| && out.Length1 == dim
    ensures ok ==> forall r, a :: 0 <= r < |scores| && 0 <= a < dim ==>
              out[r, a] == Attended(exp, scores[r], Column(values, a), tile)
  {
    var b := NewBuffers(|scores|, tile, dim);
    out := b.out;
    forall r | 0 <= r < |scores|
      ensures StateAt(exp, scores[r], values, dim, tile, 0) == StateOf(b, r)
    {
      NothingAbsorbed(exp, scores[r], values, dim, tile);
    }
    ok := AttendTiles(exp, b, scores, values, tile);
    if ok {
      FinishRows(exp, b, scores, values, tile);
    }
  }

  /** Divides every accumulator by its row's sum. */
  method FinishRows(exp: real -> real, b: Buffers, ghost scores: seq<seq<Score>>, ghost values: seq<seq<real>>,
                    ghost tile: nat)
    requires Shaped(b) && b.tops.Length == |scores| && Problem(scores, values, b.out.Length1) && tile > 0
    requires AllAt(exp, b, scores, values, tile, |values|)
    modifies b.out
    ensures forall r, a :: 0 <= r < |scores| && 0 <= a < b.out.Length1 ==>
              b.out[r, a] == Attended(exp, scores[r], Column(values, a), tile)
  {
    forall r, a | 0 <= r < |scores| && 0 <= a < b.out.Length1
      ensures Quotient(b.out[r, a], b.sums[r]) == Attended(exp, scores[r], Column(values, a), tile)
    {
      AttendedIsFinal(exp, scores[r], values, b.out.Length1, tile, a);
      assert OutOf(b.out, r) == StateAt(exp, scores[r], values, b.out.Length1, tile, |values|).out;
      assert b.out[r, a] == OutOf(b.out, r)[a];
    }
    DivideOut(b);
  }

  lemma NextBoundary(n: nat, tile: nat, k: nat)
    requires tile > 0 && k < n && Boundary(n, tile, k)
    ensures Boundary(n, tile, Min(k + tile, n))
  {
    AddOneTimes(k / tile, tile);
    DivModUnique(k / tile + 1, tile, 0);
  }

  // ----- Whole rows: one tile, probabilities divided before they meet the values -----

  /** Normalized probabilities of a row. */
  ghost function Shares(exp: real -> real, xs: seq<Score>): (ps: seq<Score>)
    ensures |ps| == |xs|
  {
    var top := Top(NegInf, xs);
    var total := TileDot(exp, xs, Ones(|xs|), top);
    seq(|xs|, j requires 0 <= j < |xs| => Fin(Quotient(Prob(exp, xs[j], top), total)))
  }

  /** Replaces the scores of a row by its normalized probabilities. */
  method ShareRow(exp: real -> real, score: array2<Score>, r: nat, cols: nat) returns (ok: bool)
    requires r < score.Length0 && cols <= score.Length1
    modifies score
    ensures ok == Clean(old(RowOf(score, r, cols)))
    ensures ok ==> RowOf(score, r, cols) == Shares(exp, old(RowOf(score, r, cols)))
    ensures forall i :: 0 <= i < score.Length0 && i != r ==> RowOf(score, i, cols) == old(RowOf(score, i, cols))
  {
    var hi;
    ok, hi := ScanRow(score, r, cols, NegInf);
    if ok {
      var total := FillProbs(exp, score, r, cols, hi);
      DivideScores(score, r, cols, total);
    }
  }

  method ShareTile(exp: real -> real, score: array2<Score>, cols: nat) returns (ok: bool)
    requires cols <= score.Length1
    modifies score
    ensures ok == old(RowsClean(score, cols))
    ensures ok ==> forall r :: 0 <= r < score.Length0 ==>
                RowOf(score, r, cols) == Shares(exp, old(RowOf(score, r, cols)))
  {
    for r := 0 to score.Length0
      invariant forall i :: 0 <= i < r ==> Clean(old(RowOf(score, i, cols)))
      invariant forall i :: 0 <= i < r ==> RowOf(score, i, cols) == Shares(exp, old(RowOf(score, i, cols)))
      invariant forall i :: r <= i < score.Length0 ==> RowOf(score, i, cols) == old(RowOf(score, i, cols))
    {
      ok := ShareRow(exp, score, r, cols);
      if !ok {
        return;
      }
    }
    ok := true;
  }

  lemma {:induction false} DotOfQuotients(ps: seq<Score>, qs: seq<Score>, ws: seq<real>, total: real)
    requires |ps| == |qs| == |ws|
    requires forall j :: 0 <= j < |ps| ==> ps[j].Fin? && qs[j] == Fin(Quotient(ps[j].v, total))
    ensures Dot(qs, ws) == Quotient(Dot(ps, ws), total)
  {
    if ps != [] {
      var n := |ps| - 1;
      DotOfQuotients(ps[..n], qs[..n], ws[..n], total);
      if total != 0.0 {
        QuotientSum(Dot(ps[..n], ws[..n]), ps[n].v, ws[n], total);
      }
    }
  }

  lemma QuotientSum(a: real, p: real, w: real, total: real)
    requires total != 0.0
    ensures a / total + (p / total) * w == (a + p * w) / total
  {
    var x, q := a / total, p / total;
    assert a == x * total && p == q * total;
    Regroup(q, total, w);
    Swap(total, w);
    Regroup(q, w, total);
    Factor(total, x, q * w);
    Swap(total, x);
    Swap(total, q * w);
    Swap(total, x + q * w);
    QuotientOf(x + q * w, total);
  }

  /** Dividing before or after multiplying with the values is the same; the result is the one-tile mean. */
  lemma SharesAttend(exp: real -> real, xs: seq<Score>, ws: seq<real>, tile: nat)
    requires |xs| == |ws| > 0 && tile >= |xs|
    ensures Dot(Shares(exp, xs), ws) == Attended(exp, xs, ws, tile)
  {
    var top := Top(NegInf, xs);
    var total := TileDot(exp, xs, Ones(|xs|), top);
    assert xs[..|xs|] == xs;
    forall j | 0 <= j < |xs|
      ensures KeptBy(xs, tile)[j] == Near(xs[j], top)
    {
      TileEndOfNext(|xs|, tile, 0, j);
    }
    TileDotIsMass(exp, xs, KeptBy(xs, tile), Ones(|xs|), top);
    TileDotIsMass(exp, xs, KeptBy(xs, tile), ws, top);
    DotOfProbs(exp, xs, ws, top);
    DotOfQuotients(Probs(exp, xs, top), Shares(exp, xs), ws, total);
  }

  /** Normalizes the loaded rows and multiplies them with the values. */
  method ShareLoaded(exp: real -> real, b: Buffers, values: seq<seq<real>>) returns (ok: bool)
    requires Shaped(b) && |values| <= b.score.Length1 && Wide(values, b.out.Length1)
    modifies b.score, b.out
    ensures ok == old(RowsClean(b.score, |values|))
    ensures ok ==> forall r :: 0 <= r < b.tops.Length ==>
              OutOf(b.out, r) == Added(old(OutOf(b.out, r)), Shares(exp, old(RowOf(b.score, r, |values|))), values)
  {
    ok := ShareTile(exp, b.score, |values|);
    if ok {
      AccumulateTile(b, |values|, values);
    }
  }

  /** Attention of query rows whose scores fit one tile. */
  method AttendWhole(exp: real -> real, scores: seq<seq<Score>>, values: seq<seq<real>>, dim: nat, tile: nat)
    returns (ok: bool, out: array2<real>)
    requires Problem(scores, values, dim) && tile >= |values| > 0
    ensures ok == AllClean(scores, 0, |values|)
    ensures out.Length0 == |scores| && out.Length1 == dim
    ensures ok ==> forall r, a :: 0 <= r < |scores| && 0 <= a < dim ==>
              out[r, a] == Attended(exp, scores[r], Column(values, a), tile)
  {
    var b := NewBuffers(|scores|, |values|, dim);
    out := b.out;
    LoadScores(b.score, scores, 0, |values|);
    LoadedClean(b.score, scores, 0, |values|, |values|);
    assert forall r :: 0 <= r < |scores| ==> OutOf(out, r) == StateOf(b, r).out == seq(dim, _ => 0.0);
    ok := ShareLoaded(exp, b, values);
    if ok {
      forall r, a | 0 <= r < |scores| && 0 <= a < dim
        ensures out[r, a] == Attended(exp, scores[r], Column(values, a), tile)
      {
        SharedOutput(exp, scores[r], values, dim, tile, a);
        assert out[r, a] == OutOf(out, r)[a];
      }
    }
  }

  lemma SharedOutput(exp: real -> real, xs: seq<Score>, values: seq<seq<real>>, dim: nat, tile: nat, a: nat)
    requires Wide(values, dim) && a < dim && |xs| == |values| > 0 && tile >= |xs|
    ensures Added(seq(dim, _ => 0.0), Shares(exp, xs[0..|values|]), values)[a]
         == Attended(exp, xs, Column(values, a), tile)
  {
    assert xs[0..|xs|] == xs;
    SharesAttend(exp, xs, Column(values, a), tile);
  }

  /** Attention over tiles of keys; with one tile the row is normalized whole, otherwise it is streamed. */
  method Attend(exp: real -> real, scores: seq<seq<Score>>, values: seq<seq<real>>, dim: nat, tile: nat)
    returns (ok: bool, out: array2<real>)
    requires IsExponential(exp) && Problem(scores, values, dim) && tile > 0 && |values| > 0
    ensures ok == AllClean(scores, 0, |values|)
    ensures out.Length0 == |scores| && out.Length1 == dim
    ensures ok ==> forall r, a :: 0 <= r < |scores| && 0 <= a < dim ==>
              out[r, a] == Attended(exp, scores[r], Column(values, a), tile)
  {
    if tile < |values| {
      ok, out := AttendStreaming(exp, scores, values, dim, tile);
    } else {
      ok, out := AttendWhole(exp, scores, values, dim, tile);
    }
  }
}
