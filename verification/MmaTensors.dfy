/** The tiled multiplication over nested matrices: what it leaves in flat memory is the matrix product. */
module MmaTensors {
  import opened Words
  import opened Grids
  import opened Mma
  import opened Tensors

  /** An element of a matrix; zero outside it. */
  function Entry(t: Tensor2, i: nat, j: nat): real
  {
    if i < |t| && j < |t[i]| then t[i][j] else 0.0
  }

  /** The matrix product added to a matrix. */
  function Added(w: Tensor2, a: Tensor2, o: Tensor2): Tensor2
  {
    seq(|o|, i requires 0 <= i < |o| =>
      seq(|o[i]|, j requires 0 <= j < |o[i]| =>
        o[i][j] + SumTo(|a|, (k: nat) => Times(Entry(w, i, k), Entry(a, k, j)))))
  }

  lemma {:induction false} DotIsSum(s: Shape, w: Tensor2, a: Tensor2, i: nat, j: nat, k: nat, f: nat -> real)
    requires Shaped2(w, s.m, s.k) && Shaped2(a, s.k, s.n) && i < s.m && j < s.n && k <= s.k
    requires forall x: nat :: f(x) == Times(Entry(w, i, x), Entry(a, x, j))
    ensures Dot(s, Concat(w), Concat(a), i, j, k) == SumTo(k, f)
  {
    if k > 0 {
      DotIsSum(s, w, a, i, j, k - 1, f);
      Flatten2At(w, s.m, s.k, i, k - 1);
      Flatten2At(a, s.k, s.n, k - 1, j);
    }
  }

  lemma ProductElement(s: Shape, w: Tensor2, a: Tensor2, o: Tensor2, i: nat, j: nat)
    requires Shaped2(w, s.m, s.k) && Shaped2(a, s.k, s.n) && Shaped2(o, s.m, s.n) && i < s.m && j < s.n
    ensures |Concat(o)| == s.m * s.n && i * s.n + j < s.m * s.n
    ensures ProductAdded(s, Concat(w), Concat(a), Concat(o))[i * s.n + j] == Added(w, a, o)[i][j]
  {
    Flatten2At(o, s.m, s.n, i, j);
    CellBelow(s.m, s.n, i, j);
    DotIsSum(s, w, a, i, j, s.k, (k: nat) => Times(Entry(w, i, k), Entry(a, k, j)));
  }

  /** On memory that flattens three matrices row by row, the multiplication leaves the flattened O + W A. */
  lemma MultipliesMatrices(s: Shape, w: Tensor2, a: Tensor2, o: Tensor2)
    requires Shaped2(w, s.m, s.k) && Shaped2(a, s.k, s.n) && Shaped2(o, s.m, s.n)
    ensures |Concat(o)| == s.m * s.n
    ensures ProductAdded(s, Concat(w), Concat(a), Concat(o)) == Concat(Added(w, a, o))
  {
    var r := Added(w, a, o);
    ConcatLength(o, s.n);
    ConcatLength(r, s.n);
    forall x | 0 <= x < s.m * s.n
      ensures ProductAdded(s, Concat(w), Concat(a), Concat(o))[x] == Concat(r)[x]
    {
      GridCovers(s.m, s.n, x);
      var i, j := Div(x, s.n), Rem(x, s.n);
      DivModParts(x, s.n);
      ProductElement(s, w, a, o, i, j);
      ConcatAt(r, s.n, i, j);
    }
  }
}
