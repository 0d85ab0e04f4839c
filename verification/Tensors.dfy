/** Nested tensors and their row-major flattening, which is concatenation of the flattened parts. */
module Tensors {
  import opened Words

  type Tensor2 = seq<seq<real>>
  type Tensor3 = seq<Tensor2>
  type Tensor4 = seq<Tensor3>

  function Concat(parts: seq<seq<real>>): seq<real>
  {
    if parts == [] then [] else Concat(parts[..|parts| - 1]) + parts[|parts| - 1]
  }

  function Flatten3(t: Tensor3): seq<real>
  {
    Concat(seq(|t|, i requires 0 <= i < |t| => Concat(t[i])))
  }

  function Flatten4(t: Tensor4): seq<real>
  {
    Concat(seq(|t|, i requires 0 <= i < |t| => Flatten3(t[i])))
  }

  ghost predicate Shaped2(t: Tensor2, rows: nat, cols: nat)
  {
    |t| == rows && forall i :: 0 <= i < rows ==> |t[i]| == cols
  }

  ghost predicate Shaped3(t: Tensor3, a: nat, b: nat, c: nat)
  {
    |t| == a && forall i :: 0 <= i < a ==> Shaped2(t[i], b, c)
  }

  ghost predicate Shaped4(t: Tensor4, a: nat, b: nat, c: nat, d: nat)
  {
    |t| == a && forall i :: 0 <= i < a ==> Shaped3(t[i], b, c, d)
  }

  lemma {:induction false} ConcatLength(parts: seq<seq<real>>, width: nat)
    requires forall i :: 0 <= i < |parts| ==> |parts[i]| == width
    ensures |Concat(parts)| == Mul(|parts|, width)
  {
    if parts != [] {
      ConcatLength(parts[..|parts| - 1], width);
      AddOneTimes(|parts| - 1, width);
    }
  }

  /** Part i begins after i parts. */
  lemma {:induction false} ConcatAt(parts: seq<seq<real>>, width: nat, i: nat, j: nat)
    requires forall i :: 0 <= i < |parts| ==> |parts[i]| == width
    requires i < |parts| && j < width
    ensures Mul(i, width) + j < |Concat(parts)| && Concat(parts)[Mul(i, width) + j] == parts[i][j]
  {
    var n := |parts| - 1;
    ConcatLength(parts[..n], width);
    if i < n {
      ConcatAt(parts[..n], width, i, j);
    }
  }

  lemma Flatten2At(t: Tensor2, rows: nat, cols: nat, i: nat, j: nat)
    requires Shaped2(t, rows, cols) && i < rows && j < cols
    ensures |Concat(t)| == Mul(rows, cols)
    ensures Mul(i, cols) + j < |Concat(t)| && Concat(t)[Mul(i, cols) + j] == t[i][j]
  {
    ConcatLength(t, cols);
    ConcatAt(t, cols, i, j);
  }

  lemma Flatten3Length(t: Tensor3, a: nat, b: nat, c: nat)
    requires Shaped3(t, a, b, c)
    ensures |Flatten3(t)| == Mul(a, Mul(b, c))
  {
    var parts := seq(|t|, i requires 0 <= i < |t| => Concat(t[i]));
    forall i | 0 <= i < |parts|
      ensures |parts[i]| == Mul(b, c)
    {
      ConcatLength(t[i], c);
    }
    ConcatLength(parts, Mul(b, c));
  }

  lemma Flatten3At(t: Tensor3, a: nat, b: nat, c: nat, i: nat, j: nat, k: nat)
    requires Shaped3(t, a, b, c) && i < a && j < b && k < c
    ensures Mul(Mul(i, b) + j, c) + k < |Flatten3(t)| && Flatten3(t)[Mul(Mul(i, b) + j, c) + k] == t[i][j][k]
  {
    var parts := seq(|t|, i requires 0 <= i < |t| => Concat(t[i]));
    forall i | 0 <= i < |parts|
      ensures |parts[i]| == Mul(b, c)
    {
      ConcatLength(t[i], c);
    }
    Flatten2At(t[i], b, c, j, k);
    ConcatAt(parts, Mul(b, c), i, Mul(j, c) + k);
    Regroup(i, b, j, c);
  }

  lemma Flatten4Length(t: Tensor4, a: nat, b: nat, c: nat, d: nat)
    requires Shaped4(t, a, b, c, d)
    ensures |Flatten4(t)| == Mul(a, Mul(b, Mul(c, d)))
  {
    var parts := seq(|t|, i requires 0 <= i < |t| => Flatten3(t[i]));
    forall i | 0 <= i < |parts|
      ensures |parts[i]| == Mul(b, Mul(c, d))
    {
      Flatten3Length(t[i], b, c, d);
    }
    ConcatLength(parts, Mul(b, Mul(c, d)));
  }

  /** Part i of the flattening is the flattening of part i. */
  lemma Flatten4Part(t: Tensor4, a: nat, b: nat, c: nat, d: nat, i: nat, inner: nat)
    requires Shaped4(t, a, b, c, d) && i < a && inner < Mul(b, Mul(c, d))
    ensures |Flatten3(t[i])| == Mul(b, Mul(c, d))
    ensures var at := Mul(i, Mul(b, Mul(c, d))) + inner;
            at < |Flatten4(t)| && Flatten4(t)[at] == Flatten3(t[i])[inner]
  {
    var parts, size := seq(|t|, i requires 0 <= i < |t| => Flatten3(t[i])), Mul(b, Mul(c, d));
    forall i | 0 <= i < |parts|
      ensures |parts[i]| == size
    {
      Flatten3Length(t[i], b, c, d);
    }
    ConcatAt(parts, size, i, inner);
  }

  /** Where the flattening has an element: the usual row-major index. */
  lemma Flatten4At(t: Tensor4, a: nat, b: nat, c: nat, d: nat, i: nat, j: nat, k: nat, l: nat)
    requires Shaped4(t, a, b, c, d) && i < a && j < b && k < c && l < d
    ensures var at := Mul(Mul(Mul(i, b) + j, c) + k, d) + l;
            at < |Flatten4(t)| && Flatten4(t)[at] == t[i][j][k][l]
  {
    Flatten3Length(t[i], b, c, d);
    Flatten3At(t[i], b, c, d, j, k, l);
    Flatten4Part(t, a, b, c, d, i, Mul(Mul(j, c) + k, d) + l);
    Regroup4(i, b, j, c, k, d);
  }

  lemma Regroup4(i: nat, b: nat, j: nat, c: nat, k: nat, d: nat)
    ensures Mul(i, Mul(b, Mul(c, d))) + Mul(Mul(j, c) + k, d) == Mul(Mul(Mul(i, b) + j, c) + k, d)
  {
    Regroup(i, b, j, Mul(c, d));
    Regroup(j, c, k, d);
    Regroup(Mul(i, b) + j, c, k, d);
  }

  /** Counting whole groups first or last is the same. */
  lemma Regroup(i: nat, b: nat, j: nat, c: nat)
    ensures Mul(i, Mul(b, c)) + Mul(j, c) == Mul(Mul(i, b) + j, c)
  {
    Distribute(i * b, j, c);
    assert i * (b * c) == (i * b) * c;
  }

  /** Sum of the first n values of a function. */
  function SumTo(n: nat, f: nat -> real): real
  {
    if n == 0 then 0.0 else SumTo(n - 1, f) + f(n - 1)
  }

  lemma {:induction false} SumsAgree(n: nat, f: nat -> real, g: nat -> real)
    requires forall k: nat :: k < n ==> f(k) == g(k)
    ensures SumTo(n, f) == SumTo(n, g)
  {
    if n > 0 {
      SumsAgree(n - 1, f, g);
    }
  }
}
