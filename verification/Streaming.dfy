/**
 Streaming attention over tiles of keys, as values: what a row's running maximum, sum and accumulator hold after
 each tile, and when the result is softmax of the whole row.
 */
module Streaming {
  import opened Words
  import opened SoftmaxLaws

  /** Where the tile holding a column ends. */
  function TileEnd(n: nat, tile: nat, j: nat): (e: nat)
    requires tile > 0 && j < n
    ensures j < e <= n
  {
    DivBelow(j, tile, j / tile + 1);
    Min((j / tile + 1) * tile, n)
  }

  /** The scores a tiled pass keeps: near the highest score seen when their own tile is processed. */
  function KeptBy(xs: seq<Score>, tile: nat): (keep: seq<bool>)
    requires tile > 0
    ensures |keep| == |xs|
    ensures forall j :: 0 <= j < |xs| ==> keep[j] == Near(xs[j], Top(NegInf, xs[..TileEnd(|xs|, tile, j)]))
  {
    seq(|xs|, j requires 0 <= j < |xs| => Near(xs[j], Top(NegInf, xs[..TileEnd(|xs|, tile, j)])))
  }

  /** Factor applied to a row's earlier results when its maximum moves. */
  function Rescale(exp: real -> real, top: Score, sum: real, top': Score): real
  {
    if sum == 0.0 || !top.Fin? || !top'.Fin? then 0.0 else exp(top.v - top'.v)
  }

  /** Rescaled earlier results. */
  function Carried(exp: real -> real, acc: real, top: Score, sum: real, top': Score): real
  {
    Times(Rescale(exp, top, sum, top'), acc)
  }

  /** Unnormalized probabilities of one tile, weighted and added up. */
  function TileDot(exp: real -> real, xs: seq<Score>, ws: seq<real>, top: Score): real
    requires |xs| == |ws|
  {
    if xs == [] then 0.0
    else TileDot(exp, xs[..|xs| - 1], ws[..|xs| - 1], top) + Prob(exp, xs[|xs| - 1], top) * ws[|xs| - 1]
  }

  lemma {:induction false} TileDotIsMass(exp: real -> real, xs: seq<Score>, keep: seq<bool>, ws: seq<real>, top: Score)
    requires |xs| == |keep| == |ws| && forall j :: 0 <= j < |xs| ==> keep[j] == Near(xs[j], top)
    ensures TileDot(exp, xs, ws, top) == Mass(exp, xs, keep, ws, top)
  {
    if xs != [] {
      TileDotIsMass(exp, xs[..|xs| - 1], keep[..|xs| - 1], ws[..|xs| - 1], top);
    }
  }

  /** What a row has accumulated over its first k columns. */
  function Streamed(exp: real -> real, xs: seq<Score>, ws: seq<real>, tile: nat, k: nat): real
    requires tile > 0 && |xs| == |ws| && k <= |xs|
  {
    Mass(exp, xs[..k], KeptBy(xs, tile)[..k], ws[..k], Top(NegInf, xs[..k]))
  }

  predicate Boundary(n: nat, tile: nat, k: nat)
    requires tile > 0
  {
    k == n || (k < n && k % tile == 0)
  }

  lemma TileEndInside(n: nat, tile: nat, k: nat, j: nat)
    requires tile > 0 && Boundary(n, tile, k) && j < k
    ensures TileEnd(n, tile, j) <= k
  {
    if k < n {
      assert k == (k / tile) * tile;
      DivBelow(j, tile, k / tile);
      MulMonotone(j / tile + 1, k / tile, tile);
    }
  }

  lemma TileEndOfNext(n: nat, tile: nat, k: nat, j: nat)
    requires tile > 0 && Boundary(n, tile, k) && k <= j < Min(k + tile, n)
    ensures TileEnd(n, tile, j) == Min(k + tile, n)
  {
    assert k == (k / tile) * tile;
    DivModUnique(k / tile, tile, j - k);
    AddOneTimes(k / tile, tile);
  }

  /** Tops only grow along a row. */
  lemma TopPrefix(xs: seq<Score>, e: nat, k: nat)
    requires e <= k <= |xs|
    ensures var t, t' := Top(NegInf, xs[..e]), Top(NegInf, xs[..k]);
            t.Fin? ==> t'.Fin? && t.v <= t'.v
  {
    assert xs[..k] == xs[..e] + xs[e..k];
    TopConcat(NegInf, xs[..e], xs[e..k]);
    TopIsHighest(Top(NegInf, xs[..e]), xs[e..k]);
  }

  /** The highest score of a prefix is kept. */
  lemma HighestKept(xs: seq<Score>, tile: nat, k: nat) returns (j: nat)
    requires tile > 0 && Boundary(|xs|, tile, k) && Top(NegInf, xs[..k]).Fin?
    ensures j < k <= |xs| && KeptBy(xs, tile)[j] && xs[j] == Top(NegInf, xs[..k])
  {
    var t := Top(NegInf, xs[..k]);
    TopIsHighest(NegInf, xs[..k]);
    j :| 0 <= j < k && xs[..k][j] == t;
    var e := TileEnd(|xs|, tile, j);
    TileEndInside(|xs|, tile, k, j);
    TopPrefix(xs, e, k);
    TopIsHighest(NegInf, xs[..e]);
    assert xs[..e][j] == t;
  }

  /** A row that has seen a finite score has a positive sum. */
  lemma SumPositive(exp: real -> real, xs: seq<Score>, tile: nat, k: nat)
    requires IsExponential(exp) && tile > 0 && Boundary(|xs|, tile, k) && Top(NegInf, xs[..k]).Fin?
    ensures Streamed(exp, xs, Ones(|xs|), tile, k) > 0.0
  {
    var j := HighestKept(xs, tile, k);
    var keep, ones, top := KeptBy(xs, tile)[..k], Ones(|xs|)[..k], Top(NegInf, xs[..k]);
    MassAtLeast(exp, xs[..k], keep, ones, top, j);
    TopTerm(exp, top);
    assert xs[..k][j] == top && keep[j] && ones[j] == 1.0;
  }

  lemma TopTerm(exp: real -> real, top: Score)
    requires IsExponential(exp) && top.Fin?
    ensures Term(exp, top, true, 1.0, top) == 1.0
  {
    assert top.v - top.v == 0.0;
  }

  /** Nothing finite so far, nothing accumulated, whatever the reference level. */
  lemma NothingYet(exp: real -> real, xs: seq<Score>, ws: seq<real>, tile: nat, k: nat, top: Score)
    requires tile > 0 && |xs| == |ws| && k <= |xs| && !Top(NegInf, xs[..k]).Fin?
    ensures Mass(exp, xs[..k], KeptBy(xs, tile)[..k], ws[..k], top) == 0.0
  {
    TopIsHighest(NegInf, xs[..k]);
    MassOfNothing(exp, xs[..k], KeptBy(xs, tile)[..k], ws[..k], top);
  }

  /**
   The streaming recurrence: rescaling what was accumulated and adding the tile's weighted probabilities gives what
   is accumulated one tile later. With unit weights this is the running sum, with a column of V the accumulator.
   */
  lemma AbsorbTile(exp: real -> real, xs: seq<Score>, ws: seq<real>, tile: nat, k: nat)
    requires IsExponential(exp) && tile > 0 && |xs| == |ws| && k < |xs| && Boundary(|xs|, tile, k)
    ensures var e := Min(k + tile, |xs|);
            var top, top' := Top(NegInf, xs[..k]), Top(NegInf, xs[..e]);
            && top' == Top(top, xs[k..e])
            && Streamed(exp, xs, ws, tile, e)
               == Carried(exp, Streamed(exp, xs, ws, tile, k), top, Streamed(exp, xs, Ones(|xs|), tile, k), top')
                  + TileDot(exp, xs[k..e], ws[k..e], top')
  {
    var e := Min(k + tile, |xs|);
    var top, top' := Top(NegInf, xs[..k]), Top(NegInf, xs[..e]);
    assert xs[..e] == xs[..k] + xs[k..e];
    TopConcat(NegInf, xs[..k], xs[k..e]);
    TopPrefix(xs, k, e);
    SplitMass(exp, xs, ws, tile, k);
    CarriedOver(exp, xs, ws, tile, k, top');
  }

  /** The accumulation up to a tile's end splits into what came before and the tile. */
  lemma SplitMass(exp: real -> real, xs: seq<Score>, ws: seq<real>, tile: nat, k: nat)
    requires tile > 0 && |xs| == |ws| && k < |xs| && Boundary(|xs|, tile, k)
    ensures var e := Min(k + tile, |xs|);
            var top' := Top(NegInf, xs[..e]);
            Streamed(exp, xs, ws, tile, e)
              == Mass(exp, xs[..k], KeptBy(xs, tile)[..k], ws[..k], top') + TileDot(exp, xs[k..e], ws[k..e], top')
  {
    var e := Min(k + tile, |xs|);
    var keep := KeptBy(xs, tile);
    var top' := Top(NegInf, xs[..e]);
    SplitAt(xs, k, e);
    SplitAt(ws, k, e);
    SplitAt(keep, k, e);
    MassConcat(exp, xs[..k], keep[..k], ws[..k], xs[k..e], keep[k..e], ws[k..e], top');
    KeptInTile(xs, tile, k, e);
    TileDotIsMass(exp, xs[k..e], keep[k..e], ws[k..e], top');
  }

  lemma SplitAt<T>(s: seq<T>, k: nat, e: nat)
    requires k <= e <= |s|
    ensures s[..e] == s[..k] + s[k..e]
  {
  }

  /** Within a tile the kept scores are those near the highest score at the tile's end. */
  lemma KeptInTile(xs: seq<Score>, tile: nat, k: nat, e: nat)
    requires tile > 0 && k < |xs| && Boundary(|xs|, tile, k) && e == Min(k + tile, |xs|)
    ensures forall j :: 0 <= j < e - k ==> KeptBy(xs, tile)[k..e][j] == Near(xs[k..e][j], Top(NegInf, xs[..e]))
  {
    forall j | 0 <= j < e - k
      ensures KeptBy(xs, tile)[k..e][j] == Near(xs[k..e][j], Top(NegInf, xs[..e]))
    {
      TileEndOfNext(|xs|, tile, k, k + j);
    }
  }

  /** Rescaling restates what came before against the new maximum. */
  lemma CarriedOver(exp: real -> real, xs: seq<Score>, ws: seq<real>, tile: nat, k: nat, top': Score)
    requires IsExponential(exp) && tile > 0 && |xs| == |ws| && k < |xs| && Boundary(|xs|, tile, k)
    requires Top(NegInf, xs[..k]).Fin? ==> top'.Fin?
    ensures var top := Top(NegInf, xs[..k]);
            Mass(exp, xs[..k], KeptBy(xs, tile)[..k], ws[..k], top')
              == Carried(exp, Streamed(exp, xs, ws, tile, k), top, Streamed(exp, xs, Ones(|xs|), tile, k), top')
  {
    var top := Top(NegInf, xs[..k]);
    if top.Fin? {
      SumPositive(exp, xs, tile, k);
      MassRebase(exp, xs[..k], KeptBy(xs, tile)[..k], ws[..k], top, top');
      assert Rescale(exp, top, Streamed(exp, xs, Ones(|xs|), tile, k), top') == exp(top.v - top'.v);
    } else {
      NothingYet(exp, xs, ws, tile, k, top');
      NothingYet(exp, xs, Ones(|xs|), tile, k, top);
    }
  }

  // ----- What the result means -----

  /** The weighted mean over the kept scores, or zero when nothing is kept. */
  function Mean(exp: real -> real, xs: seq<Score>, keep: seq<bool>, ws: seq<real>): real
    requires |xs| == |keep| == |ws|
  {
    var top := Top(NegInf, xs);
    var sum := Mass(exp, xs, keep, Ones(|xs|), top);
    if sum == 0.0 then 0.0 else Mass(exp, xs, keep, ws, top) / sum
  }

  /** What tiled attention computes for one row of scores and one column of values. */
  function Attended(exp: real -> real, xs: seq<Score>, ws: seq<real>, tile: nat): real
    requires tile > 0 && |xs| == |ws|
  {
    Mean(exp, xs, KeptBy(xs, tile), ws)
  }

  function Finite(xs: seq<Score>): (keep: seq<bool>)
    ensures |keep| == |xs| && forall j :: 0 <= j < |xs| ==> keep[j] == xs[j].Fin?
  {
    seq(|xs|, j requires 0 <= j < |xs| => xs[j].Fin?)
  }

  /** Textbook softmax of the whole row applied to a column: no maximum, no tiles, no cut-off. */
  function SoftmaxOf(exp: real -> real, xs: seq<Score>, ws: seq<real>): real
    requires |xs| == |ws|
  {
    var sum := Mass(exp, xs, Finite(xs), Ones(|xs|), Fin(0.0));
    if sum == 0.0 then 0.0 else Mass(exp, xs, Finite(xs), ws, Fin(0.0)) / sum
  }

  /** A selection of finite scores that is empty only if there are none. */
  ghost predicate Selects(xs: seq<Score>, keep: seq<bool>)
  {
    && |keep| == |xs|
    && (forall j :: 0 <= j < |xs| && keep[j] ==> xs[j].Fin?)
    && (Top(NegInf, xs).Fin? ==> exists j :: 0 <= j < |xs| && keep[j])
  }

  lemma KeptBySelects(exp: real -> real, xs: seq<Score>, tile: nat)
    requires IsExponential(exp) && tile > 0
    ensures Selects(xs, KeptBy(xs, tile)) && Selects(xs, Finite(xs))
  {
    assert xs[..|xs|] == xs;
    if Top(NegInf, xs).Fin? {
      var j := HighestKept(xs, tile, |xs|);
      TopIsHighest(NegInf, xs);
    }
  }

  /** The sum of a selection is positive exactly if some score is finite. */
  lemma SelectedSum(exp: real -> real, xs: seq<Score>, keep: seq<bool>, top: Score)
    requires IsExponential(exp) && Selects(xs, keep) && top.Fin?
    ensures Mass(exp, xs, keep, Ones(|xs|), top) >= 0.0
    ensures Mass(exp, xs, keep, Ones(|xs|), top) == 0.0 <==> !Top(NegInf, xs).Fin?
  {
    MassNonNegative(exp, xs, keep, Ones(|xs|), top);
    if Top(NegInf, xs).Fin? {
      var j :| 0 <= j < |xs| && keep[j];
      MassAtLeast(exp, xs, keep, Ones(|xs|), top, j);
    } else {
      TopIsHighest(NegInf, xs);
      MassOfNothing(exp, xs, keep, Ones(|xs|), top);
    }
  }

  /** The mean over all finite scores is textbook softmax: subtracting the maximum changes nothing. */
  lemma MeanIsSoftmax(exp: real -> real, xs: seq<Score>, ws: seq<real>)
    requires IsExponential(exp) && |xs| == |ws|
    ensures Mean(exp, xs, Finite(xs), ws) == SoftmaxOf(exp, xs, ws)
  {
    KeptBySelects(exp, xs, 1);
    var top, zero := Top(NegInf, xs), Fin(0.0);
    var sum, sum0 := Mass(exp, xs, Finite(xs), Ones(|xs|), top), Mass(exp, xs, Finite(xs), Ones(|xs|), zero);
    SelectedSum(exp, xs, Finite(xs), zero);
    if top.Fin? {
      SelectedSum(exp, xs, Finite(xs), top);
      MassRebase(exp, xs, Finite(xs), ws, zero, top);
      MassRebase(exp, xs, Finite(xs), Ones(|xs|), zero, top);
      SameRatio(exp(zero.v - top.v), Mass(exp, xs, Finite(xs), ws, zero), sum0, Mass(exp, xs, Finite(xs), ws, top),
                sum);
    } else {
      TopIsHighest(NegInf, xs);
      MassOfNothing(exp, xs, Finite(xs), Ones(|xs|), top);
    }
  }

  /** A common factor leaves a quotient unchanged. */
  lemma SameRatio(c: real, a: real, b: real, ca: real, cb: real)
    requires b != 0.0 && cb != 0.0 && ca == Times(c, a) && cb == Times(c, b)
    ensures ca / cb == a / b
  {
    var q := a / b;
    assert a == q * b;
    Regroup(c, q, b);
    Swap(c, q);
    Regroup(q, c, b);
    QuotientOf(q, cb);
  }

  lemma Swap(a: real, b: real)
    ensures a * b == b * a
  {
  }

  lemma QuotientOf(q: real, d: real)
    requires d != 0.0
    ensures (q * d) / d == q
  {
  }

  function Unit(n: nat, j: nat): (ws: seq<real>)
    requires j < n
    ensures |ws| == n && forall k :: 0 <= k < n ==> ws[k] == if k == j then 1.0 else 0.0
  {
    seq(n, k => if k == j then 1.0 else 0.0)
  }

  /** The weight a mean gives one score is positive exactly if the score is kept. */
  lemma UnitMean(exp: real -> real, xs: seq<Score>, keep: seq<bool>, j: nat)
    requires IsExponential(exp) && Selects(xs, keep) && j < |xs|
    ensures Mean(exp, xs, keep, Unit(|xs|, j)) > 0.0 <==> keep[j]
    ensures !keep[j] ==> Mean(exp, xs, keep, Unit(|xs|, j)) == 0.0
  {
    var top := Top(NegInf, xs);
    TopIsHighest(NegInf, xs);
    if top.Fin? {
      SelectedSum(exp, xs, keep, top);
      MassAtLeast(exp, xs, keep, Unit(|xs|, j), top, j);
      if !keep[j] {
        MassOfNothing(exp, xs, keep, Unit(|xs|, j), top);
      }
    } else {
      MassOfNothing(exp, xs, keep, Ones(|xs|), top);
    }
  }

  /** Two means agree on every column of values exactly if they keep the same scores. */
  lemma MeansAgree(exp: real -> real, xs: seq<Score>, keep: seq<bool>, keep': seq<bool>)
    requires IsExponential(exp) && Selects(xs, keep) && Selects(xs, keep')
    ensures (forall ws: seq<real> :: |ws| == |xs| ==> Mean(exp, xs, keep, ws) == Mean(exp, xs, keep', ws))
           <==> keep == keep'
  {
    if keep != keep' {
      var j :| 0 <= j < |xs| && keep[j] != keep'[j];
      UnitMean(exp, xs, keep, j);
      UnitMean(exp, xs, keep', j);
    }
  }

  /**
   Tiled attention is softmax of the whole row, for every column of values, exactly if no finite score falls more
   than 87 below the highest score seen when its own tile is processed.
   */
  lemma StreamingIsSoftmax(exp: real -> real, xs: seq<Score>, tile: nat)
    requires IsExponential(exp) && tile > 0
    ensures (forall ws: seq<real> :: |ws| == |xs| ==> Attended(exp, xs, ws, tile) == SoftmaxOf(exp, xs, ws))
            <==> KeptBy(xs, tile) == Finite(xs)
  {
    KeptBySelects(exp, xs, tile);
    MeansAgree(exp, xs, KeptBy(xs, tile), Finite(xs));
    forall ws: seq<real> | |ws| == |xs|
      ensures Mean(exp, xs, Finite(xs), ws) == SoftmaxOf(exp, xs, ws)
    {
      MeanIsSoftmax(exp, xs, ws);
    }
  }

  /** Two tile widths give the same attention for every column of values exactly if they keep the same scores. */
  lemma TilingIndependent(exp: real -> real, xs: seq<Score>, tile: nat, tile': nat)
    requires IsExponential(exp) && tile > 0 && tile' > 0
    ensures (forall ws: seq<real> :: |ws| == |xs| ==> Attended(exp, xs, ws, tile) == Attended(exp, xs, ws, tile'))
            <==> KeptBy(xs, tile) == KeptBy(xs, tile')
  {
    KeptBySelects(exp, xs, tile);
    KeptBySelects(exp, xs, tile');
    MeansAgree(exp, xs, KeptBy(xs, tile), KeptBy(xs, tile'));
  }

  /** Tiling never drops a score that the whole row would keep. */
  lemma TilesKeepMore(xs: seq<Score>, tile: nat, whole: nat, j: nat)
    requires tile > 0 && whole >= |xs| && j < |xs| && KeptBy(xs, whole)[j]
    ensures KeptBy(xs, tile)[j]
  {
    var e := TileEnd(|xs|, tile, j);
    WholeTile(|xs|, whole, j);
    TopPrefix(xs, e, |xs|);
    TopIsHighest(NegInf, xs[..e]);
    assert xs[..e][j] == xs[j];
  }

  lemma WholeTile(n: nat, whole: nat, j: nat)
    requires whole >= n && j < n
    ensures TileEnd(n, whole, j) == n
  {
    DivModUnique(0, whole, j);
  }

  /** Scores that spread by no more than 87 give the same attention under every tile width: softmax. */
  lemma NarrowSpread(exp: real -> real, xs: seq<Score>, ws: seq<real>, tile: nat)
    requires IsExponential(exp) && tile > 0 && |xs| == |ws|
    requires forall i, j :: 0 <= i < |xs| && 0 <= j < |xs| && xs[i].Fin? && xs[j].Fin? ==> xs[i].v - xs[j].v >= -87.0
    ensures Attended(exp, xs, ws, tile) == SoftmaxOf(exp, xs, ws)
  {
    forall j | 0 <= j < |xs|
      ensures KeptBy(xs, tile)[j] == Finite(xs)[j]
    {
      var prefix := xs[..TileEnd(|xs|, tile, j)];
      TopIsHighest(NegInf, prefix);
      assert prefix[j] == xs[j];
    }
    StreamingIsSoftmax(exp, xs, tile);
  }

  /** A fully masked row gives zero. */
  lemma FullyMasked(exp: real -> real, xs: seq<Score>, ws: seq<real>, tile: nat)
    requires IsExponential(exp) && tile > 0 && |xs| == |ws| && forall j :: 0 <= j < |xs| ==> xs[j] == NegInf
    ensures Attended(exp, xs, ws, tile) == 0.0
  {
    TopIsHighest(NegInf, xs);
    MassOfNothing(exp, xs, KeptBy(xs, tile), Ones(|xs|), Top(NegInf, xs));
  }

  /** The cut-off is visible: two scores 88 apart are weighed by tiles of one and not by a tile of two. */
  lemma CutOffDependsOnTiles(exp: real -> real)
    requires IsExponential(exp)
    ensures var xs := [Fin(0.0), Fin(88.0)];
            Attended(exp, xs, [1.0, 0.0], 1) > 0.0 && Attended(exp, xs, [1.0, 0.0], 2) == 0.0
  {
    var xs := [Fin(0.0), Fin(88.0)];
    assert xs[..1] == [Fin(0.0)] && xs[..2] == xs;
    assert [Fin(0.0)][..0] == [] && xs[..2][..1] == [Fin(0.0)];
    assert Top(NegInf, []) == NegInf;
    assert Top(NegInf, xs[..1]) == Fin(0.0) && Top(NegInf, xs[..2]) == Fin(88.0);
    assert Unit(2, 0) == [1.0, 0.0];
    assert KeptBy(xs, 1)[0] && !KeptBy(xs, 2)[0];
    KeptBySelects(exp, xs, 1);
    KeptBySelects(exp, xs, 2);
    UnitMean(exp, xs, KeptBy(xs, 1), 0);
    UnitMean(exp, xs, KeptBy(xs, 2), 0);
  }
}
