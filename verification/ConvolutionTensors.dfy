/**
 The convolution over nested tensors: what the engine computes on flat arrays is the nested sum over the elements of
 the tensors those arrays flatten.
 */
module ConvolutionTensors {
  import opened Words
  import opened Convolution
  import opened ConvolutionLoops
  import opened Grids
  import opened Tensors

  /** An element of a tensor; zero outside it. */
  function Element(t: Tensor4, n: nat, y: int, x: int, c: nat): real
  {
    if n < |t| && 0 <= y < |t[n]| && 0 <= x < |t[n][y]| && c < |t[n][y][x]| then t[n][y][x][c] else 0.0
  }

  /** One product: image n at the place a kernel offset sees, in a channel of the filter's group, times its weight. */
  function Term(p: Conv, t: Tensor4, w: Tensor4, n: nat, k: nat, c: nat, r: nat, s: nat, oy: nat, ox: nat): real
    requires p.groups > 0
  {
    var channels, filters := Div(p.channels, p.groups), Div(p.filters, p.groups);
    var group := if filters == 0 then 0 else Div(k, filters);
    Times(Element(t, n, oy * p.strideH + r * p.dilationH - p.padTop, ox * p.strideW + s * p.dilationW - p.padLeft,
                  group * channels + c),
          Element(w, k, c, r, s))
  }

  // The nested sum: over the channels of the group, the rows of the kernel and its columns.

  function ColumnSum(p: Conv, t: Tensor4, w: Tensor4, n: nat, k: nat, c: nat, r: nat, oy: nat, ox: nat): real
    requires p.groups > 0
  {
    SumTo(p.kernelW, (s: nat) => Term(p, t, w, n, k, c, r, s, oy, ox))
  }

  function RowSum(p: Conv, t: Tensor4, w: Tensor4, n: nat, k: nat, c: nat, oy: nat, ox: nat): real
    requires p.groups > 0
  {
    SumTo(p.kernelH, (r: nat) => ColumnSum(p, t, w, n, k, c, r, oy, ox))
  }

  function ChannelSum(p: Conv, t: Tensor4, w: Tensor4, n: nat, k: nat, oy: nat, ox: nat): real
    requires p.groups > 0
  {
    SumTo(Div(p.channels, p.groups), (c: nat) => RowSum(p, t, w, n, k, c, oy, ox))
  }

  function Lower(x: real, y: real): real { if x < y then x else y }

  function Higher(x: real, y: real): real { if x > y then x else y }

  /** The value of filter k at an output position of image n. */
  function ValueOf(p: Conv, t: Tensor4, w: Tensor4, bias: Option<seq<real>>, n: nat, k: nat, oy: nat, ox: nat): real
    requires p.groups > 0 && (bias.Some? ==> k < |bias.value|)
  {
    var x := ChannelSum(p, t, w, n, k, oy, ox) + match bias { case None => 0.0 case Some(b) => b[k] };
    match p.activation
    case NoActivation => x
    case Relu => Higher(x, 0.0)
    case Relu6 => Lower(Higher(x, 0.0), 6.0)
  }

  /** The output as a tensor: image, row, column, filter. */
  function OutputTensor(p: Conv, t: Tensor4, w: Tensor4, bias: Option<seq<real>>): Tensor4
    requires p.groups > 0 && (bias.Some? ==> |bias.value| == p.filters)
  {
    seq(p.batch, n requires 0 <= n < p.batch =>
      seq(p.outH, oy requires 0 <= oy < p.outH =>
        seq(p.outW, ox requires 0 <= ox < p.outW =>
          seq(p.filters, k requires 0 <= k < p.filters => ValueOf(p, t, w, bias, n, k, oy, ox)))))
  }

  /** Images by row, column and channel; filters by channel of the group, kernel row and kernel column. */
  ghost predicate Operands(p: Conv, t: Tensor4, w: Tensor4, bias: Option<seq<real>>)
    requires p.groups > 0
  {
    && Shaped4(t, p.batch, p.height, p.width, p.channels)
    && Shaped4(w, p.filters, Div(p.channels, p.groups), p.kernelH, p.kernelW)
    && (bias.Some? ==> |bias.value| == p.filters)
  }

  // ----- Products -----

  lemma PixelIsElement(p: Conv, t: Tensor4, n: nat, channel: nat, r: nat, s: nat, oy: nat, ox: nat)
    requires Shaped4(t, p.batch, p.height, p.width, p.channels) && n < p.batch && channel < p.channels
    ensures Pixel(p, Flatten4(t), n, channel, r, s, oy, ox)
         == Element(t, n, oy * p.strideH + r * p.dilationH - p.padTop, ox * p.strideW + s * p.dilationW - p.padLeft,
                    channel)
  {
    var iy := oy * p.strideH + r * p.dilationH - p.padTop;
    var ix := ox * p.strideW + s * p.dilationW - p.padLeft;
    PlaceIsElement(p, t, n, iy, ix, channel);
  }

  lemma PlaceIsElement(p: Conv, t: Tensor4, n: nat, iy: int, ix: int, channel: nat)
    requires Shaped4(t, p.batch, p.height, p.width, p.channels) && n < p.batch && channel < p.channels
    ensures Element(t, n, iy, ix, channel)
         == if Inside(p, iy, ix) then Read(Flatten4(t), InputIndex(p, n, iy, ix, channel)) else 0.0
  {
    assert Shaped3(t[n], p.height, p.width, p.channels);
    if 0 <= iy < p.height {
      assert Shaped2(t[n][iy], p.width, p.channels);
      if 0 <= ix < p.width {
        Flatten4At(t, p.batch, p.height, p.width, p.channels, n, iy, ix, channel);
      }
    }
  }

  lemma WeightIndex(p: Conv, k: nat, c: nat, r: nat, s: nat)
    requires p.groups > 0
    ensures k * Taps(p) + Tap(p, c, r, s) == Mul(Mul(Mul(k, GroupChannels(p)) + c, p.kernelH) + r, p.kernelW) + s
  {
    TapOfGroup(p, k, c, r, s);
  }

  lemma WeightIsElement(p: Conv, w: Tensor4, k: nat, c: nat, r: nat, s: nat, at: nat)
    requires p.groups > 0 && Shaped4(w, p.filters, GroupChannels(p), p.kernelH, p.kernelW)
    requires k < p.filters && c < GroupChannels(p) && r < p.kernelH && s < p.kernelW
    requires at == Mul(Mul(Mul(k, GroupChannels(p)) + c, p.kernelH) + r, p.kernelW) + s
    ensures Read(Flatten4(w), at) == Element(w, k, c, r, s)
  {
    assert Shaped3(w[k], GroupChannels(p), p.kernelH, p.kernelW) && Shaped2(w[k][c], p.kernelH, p.kernelW);
    Flatten4At(w, p.filters, GroupChannels(p), p.kernelH, p.kernelW, k, c, r, s);
  }

  /** A channel of a filter's group is a channel of the input. */
  lemma ChannelOfGroup(p: Conv, k: nat, c: nat)
    requires ValidConv(p) && k < p.filters && c < GroupChannels(p)
    ensures GroupFilters(p) > 0 && GroupOf(p, k) * GroupChannels(p) + c < p.channels
  {
    DivModParts(p.filters, p.groups);
    DivModParts(p.channels, p.groups);
    DivBelow(k, GroupFilters(p), p.groups);
    CellBelow(p.groups, GroupChannels(p), GroupOf(p, k), c);
  }

  lemma ProductIsTerm(p: Conv, t: Tensor4, w: Tensor4, n: nat, k: nat, c: nat, r: nat, s: nat, oy: nat, ox: nat)
    requires ValidConv(p) && Operands(p, t, w, None) && n < p.batch && k < p.filters
    requires c < GroupChannels(p) && r < p.kernelH && s < p.kernelW
    ensures Product(p, Flatten4(t), Flatten4(w), n, k, c, r, s, oy, ox) == Term(p, t, w, n, k, c, r, s, oy, ox)
  {
    ChannelOfGroup(p, k, c);
    PixelIsElement(p, t, n, GroupOf(p, k) * GroupChannels(p) + c, r, s, oy, ox);
    WeightIndex(p, k, c, r, s);
    WeightIsElement(p, w, k, c, r, s, k * Taps(p) + Tap(p, c, r, s));
  }

  // ----- Sums -----

  lemma {:induction false} ColumnsAgree(p: Conv, t: Tensor4, w: Tensor4, n: nat, k: nat, c: nat, r: nat, s: nat,
                                        oy: nat, ox: nat, f: nat -> real)
    requires ValidConv(p) && Operands(p, t, w, None) && n < p.batch && k < p.filters
    requires c < GroupChannels(p) && r < p.kernelH && s <= p.kernelW
    requires forall i: nat :: f(i) == Term(p, t, w, n, k, c, r, i, oy, ox)
    ensures SumColumns(p, Flatten4(t), Flatten4(w), n, k, c, r, s, oy, ox) == SumTo(s, f)
    decreases s
  {
    if s > 0 {
      ColumnsAgree(p, t, w, n, k, c, r, s - 1, oy, ox, f);
      ProductIsTerm(p, t, w, n, k, c, r, s - 1, oy, ox);
    }
  }

  lemma {:induction false} RowsAgree(p: Conv, t: Tensor4, w: Tensor4, n: nat, k: nat, c: nat, r: nat,
                                     oy: nat, ox: nat, f: nat -> real)
    requires ValidConv(p) && Operands(p, t, w, None) && n < p.batch && k < p.filters
    requires c < GroupChannels(p) && r <= p.kernelH
    requires forall i: nat :: f(i) == ColumnSum(p, t, w, n, k, c, i, oy, ox)
    ensures SumRows(p, Flatten4(t), Flatten4(w), n, k, c, r, oy, ox) == SumTo(r, f)
    decreases r
  {
    if r > 0 {
      RowsAgree(p, t, w, n, k, c, r - 1, oy, ox, f);
      ColumnsAgree(p, t, w, n, k, c, r - 1, p.kernelW, oy, ox, (s: nat) => Term(p, t, w, n, k, c, r - 1, s, oy, ox));
    }
  }

  lemma {:induction false} ChannelsAgree(p: Conv, t: Tensor4, w: Tensor4, n: nat, k: nat, c: nat,
                                         oy: nat, ox: nat, f: nat -> real)
    requires ValidConv(p) && Operands(p, t, w, None) && n < p.batch && k < p.filters && c <= GroupChannels(p)
    requires forall i: nat :: f(i) == RowSum(p, t, w, n, k, i, oy, ox)
    ensures SumChannels(p, Flatten4(t), Flatten4(w), n, k, c, oy, ox) == SumTo(c, f)
    decreases c
  {
    if c > 0 {
      ChannelsAgree(p, t, w, n, k, c - 1, oy, ox, f);
      RowsAgree(p, t, w, n, k, c - 1, p.kernelH, oy, ox, (r: nat) => ColumnSum(p, t, w, n, k, c - 1, r, oy, ox));
    }
  }

  /** An output value of the flat arrays is the nested sum over the tensors, with bias and activation. */
  lemma ValueAgrees(p: Conv, t: Tensor4, w: Tensor4, bias: Option<seq<real>>, n: nat, k: nat, oy: nat, ox: nat)
    requires ValidConv(p) && Operands(p, t, w, bias) && n < p.batch && k < p.filters
    ensures Activated(p.activation, ConvAt(p, Flatten4(t), Flatten4(w), bias, n, k, oy, ox))
         == ValueOf(p, t, w, bias, n, k, oy, ox)
  {
    ChannelsAgree(p, t, w, n, k, GroupChannels(p), oy, ox, (c: nat) => RowSum(p, t, w, n, k, c, oy, ox));
  }

  // ----- The whole output -----

  lemma OutputShaped(p: Conv, t: Tensor4, w: Tensor4, bias: Option<seq<real>>)
    requires p.groups > 0 && (bias.Some? ==> |bias.value| == p.filters)
    ensures Shaped4(OutputTensor(p, t, w, bias), p.batch, p.outH, p.outW, p.filters)
  {
  }

  /** The flat index of an output element. */
  function OutputIndex(p: Conv, n: nat, oy: nat, ox: nat, k: nat): nat
  {
    Mul(Mul(Mul(n, p.outH) + oy, p.outW) + ox, p.filters) + k
  }

  /** Every flat index is the index of an element. */
  lemma IndexDecodes(p: Conv, i: nat) returns (n: nat, oy: nat, ox: nat, k: nat)
    requires ValidConv(p) && i < OutputSize(p)
    ensures n < p.batch && oy < p.outH && ox < p.outW && k < p.filters && i == OutputIndex(p, n, oy, ox, k)
  {
    GridCovers(p.batch * Positions(p), p.filters, i);
    var pixel := Div(i, p.filters);
    k := Rem(i, p.filters);
    GridCovers(p.batch, Positions(p), pixel);
    var position := Rem(pixel, Positions(p));
    n := Div(pixel, Positions(p));
    GridCovers(p.outH, p.outW, position);
    oy, ox := Div(position, p.outW), Rem(position, p.outW);
    DivModParts(i, p.filters);
    DivModParts(pixel, Positions(p));
    DivModParts(position, p.outW);
    Regroup(n, p.outH, oy, p.outW);
  }

  /** An output index is a pixel number and a filter; the pixel number is an image and a position. */
  lemma IndexSplits(p: Conv, n: nat, oy: nat, ox: nat, k: nat)
    requires n < p.batch && oy < p.outH && ox < p.outW && k < p.filters
    ensures var i := OutputIndex(p, n, oy, ox, k);
            i < OutputSize(p) && i / p.filters == n * Positions(p) + (oy * p.outW + ox) && i % p.filters == k
  {
    Regroup(n, p.outH, oy, p.outW);
    CellBelow(p.outH, p.outW, oy, ox);
    CellBelow(p.batch, Positions(p), n, oy * p.outW + ox);
    CellBelow(p.batch * Positions(p), p.filters, Mul(Mul(n, p.outH) + oy, p.outW) + ox, k);
  }

  lemma OutputValue(p: Conv, t: Tensor4, w: Tensor4, bias: Option<seq<real>>, n: nat, oy: nat, ox: nat, k: nat)
    requires ValidConv(p) && Operands(p, t, w, bias) && n < p.batch && oy < p.outH && ox < p.outW && k < p.filters
    ensures var o, i := ConvOutput(p, Flatten4(t), Flatten4(w), bias), OutputIndex(p, n, oy, ox, k);
            i < |o| && o[i] == ValueOf(p, t, w, bias, n, k, oy, ox)
  {
    IndexSplits(p, n, oy, ox, k);
    OutputAtPosition(p, Flatten4(t), Flatten4(w), bias, n, oy, ox, k);
    ValueAgrees(p, t, w, bias, n, k, oy, ox);
  }

  lemma OutputElement(p: Conv, t: Tensor4, w: Tensor4, bias: Option<seq<real>>, i: nat)
    requires ValidConv(p) && Operands(p, t, w, bias) && i < OutputSize(p)
    ensures i < |Flatten4(OutputTensor(p, t, w, bias))|
    ensures ConvOutput(p, Flatten4(t), Flatten4(w), bias)[i] == Flatten4(OutputTensor(p, t, w, bias))[i]
  {
    var n, oy, ox, k := IndexDecodes(p, i);
    OutputValue(p, t, w, bias, n, oy, ox, k);
    OutputShaped(p, t, w, bias);
    Flatten4At(OutputTensor(p, t, w, bias), p.batch, p.outH, p.outW, p.filters, n, oy, ox, k);
  }

  /**
   On arrays that flatten an image tensor and a filter tensor, the convolution the engine computes is the flattening
   of the tensor of nested sums.
   */
  lemma ConvolvesTensors(p: Conv, t: Tensor4, w: Tensor4, bias: Option<seq<real>>)
    requires ValidConv(p) && Operands(p, t, w, bias)
    ensures ConvOutput(p, Flatten4(t), Flatten4(w), bias) == Flatten4(OutputTensor(p, t, w, bias))
  {
    OutputShaped(p, t, w, bias);
    Flatten4Length(OutputTensor(p, t, w, bias), p.batch, p.outH, p.outW, p.filters);
    SizesAgree(p);
    forall i | 0 <= i < OutputSize(p)
      ensures ConvOutput(p, Flatten4(t), Flatten4(w), bias)[i] == Flatten4(OutputTensor(p, t, w, bias))[i]
    {
      OutputElement(p, t, w, bias, i);
    }
  }

  lemma SizesAgree(p: Conv)
    ensures OutputSize(p) == Mul(p.batch, Mul(p.outH, Mul(p.outW, p.filters)))
  {
    Associate(p.batch, p.outH, p.outW, p.filters);
    assert p.batch * (p.outH * p.outW) == p.batch * p.outH * p.outW;
    assert p.outH * (p.outW * p.filters) == p.outH * p.outW * p.filters;
  }

  // ----- An identity -----

  lemma {:induction false} OnlyOneCounts(n: nat, f: nat -> real, k: nat)
    requires forall i: nat :: i < n && i != k ==> f(i) == 0.0
    ensures SumTo(n, f) == if k < n then f(k) else 0.0
  {
    if n > 0 {
      OnlyOneCounts(n - 1, f, k);
    }
  }

  /** A convolution that looks at one pixel, with filter k taking channel k as it is. */
  ghost predicate Identity(p: Conv, w: Tensor4)
  {
    && p.groups == 1 && p.filters == p.channels && p.kernelH == 1 && p.kernelW == 1
    && p.strideH == 1 && p.strideW == 1 && p.padTop == 0 && p.padLeft == 0
    && p.outH == p.height && p.outW == p.width && p.activation == NoActivation
    && Shaped4(w, p.filters, p.channels, 1, 1)
    && forall k, c :: 0 <= k < p.filters && 0 <= c < p.channels ==> w[k][c][0][0] == if k == c then 1.0 else 0.0
  }

  lemma IdentityTerm(p: Conv, t: Tensor4, w: Tensor4, n: nat, k: nat, c: nat, oy: nat, ox: nat)
    requires Identity(p, w) && Shaped4(t, p.batch, p.height, p.width, p.channels)
    requires n < p.batch && k < p.filters && c < p.channels && oy < p.outH && ox < p.outW
    ensures RowSum(p, t, w, n, k, c, oy, ox) == if k == c then t[n][oy][ox][c] else 0.0
  {
    DivModUnique(k, 1, 0);
    DivModUnique(p.channels, 1, 0);
    DivModUnique(p.filters, 1, 0);
    assert Shaped3(t[n], p.height, p.width, p.channels) && Shaped2(t[n][oy], p.width, p.channels);
    assert Shaped3(w[k], p.channels, 1, 1) && Shaped2(w[k][c], 1, 1);
    OneTerm(1, (s: nat) => Term(p, t, w, n, k, c, 0, s, oy, ox));
    OneTerm(1, (r: nat) => ColumnSum(p, t, w, n, k, c, r, oy, ox));
  }

  lemma OneTerm(n: nat, f: nat -> real)
    requires n == 1
    ensures SumTo(n, f) == f(0)
  {
    assert SumTo(0, f) == 0.0;
  }

  lemma IdentityValue(p: Conv, t: Tensor4, w: Tensor4, n: nat, k: nat, oy: nat, ox: nat)
    requires Identity(p, w) && Shaped4(t, p.batch, p.height, p.width, p.channels)
    requires n < p.batch && k < p.filters && oy < p.outH && ox < p.outW
    ensures ValueOf(p, t, w, None, n, k, oy, ox) == t[n][oy][ox][k]
  {
    DivModUnique(p.channels, 1, 0);
    var f := (c: nat) => RowSum(p, t, w, n, k, c, oy, ox);
    forall c: nat | c < p.channels
      ensures f(c) == if k == c then t[n][oy][ox][c] else 0.0
    {
      IdentityTerm(p, t, w, n, k, c, oy, ox);
    }
    OnlyOneCounts(p.channels, f, k);
  }

  /** The identity convolution returns its input. */
  lemma IdentityReturnsInput(p: Conv, t: Tensor4, w: Tensor4)
    requires ValidConv(p) && Identity(p, w) && Shaped4(t, p.batch, p.height, p.width, p.channels)
    ensures ConvOutput(p, Flatten4(t), Flatten4(w), None) == Flatten4(t)
  {
    DivModUnique(p.channels, 1, 0);
    ConvolvesTensors(p, t, w, None);
    var x := OutputTensor(p, t, w, None);
    forall n, oy, ox, k | 0 <= n < p.batch && 0 <= oy < p.outH && 0 <= ox < p.outW && 0 <= k < p.filters
      ensures x[n][oy][ox][k] == t[n][oy][ox][k]
    {
      IdentityValue(p, t, w, n, k, oy, ox);
    }
    SameTensor(x, t, p.batch, p.outH, p.outW, p.filters);
  }

  lemma SameTensor(x: Tensor4, t: Tensor4, a: nat, b: nat, c: nat, d: nat)
    requires Shaped4(x, a, b, c, d) && Shaped4(t, a, b, c, d)
    requires forall n, oy, ox, k :: 0 <= n < a && 0 <= oy < b && 0 <= ox < c && 0 <= k < d ==>
               x[n][oy][ox][k] == t[n][oy][ox][k]
    ensures x == t
  {
    forall n | 0 <= n < a
      ensures x[n] == t[n]
    {
      assert Shaped3(x[n], b, c, d) && Shaped3(t[n], b, c, d);
      forall oy | 0 <= oy < b
        ensures x[n][oy] == t[n][oy]
      {
        assert Shaped2(x[n][oy], c, d) && Shaped2(t[n][oy], c, d);
        forall ox | 0 <= ox < c
          ensures x[n][oy][ox] == t[n][oy][ox]
        {
        }
      }
    }
  }
}
