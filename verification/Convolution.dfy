/**
 Grouped two-dimensional convolution in exact arithmetic: the definition as nested sums, the unrolled matrix that the
 matrix-multiply form uses, and why the two give the same value.
 */
module Convolution {
  import opened Words

  datatype Activation = NoActivation | Relu | Relu6

  datatype Conv = Conv(batch: nat, channels: nat, height: nat, width: nat, filters: nat, kernelH: nat, kernelW: nat,
                       strideH: nat, strideW: nat, padTop: nat, padLeft: nat, dilationH: nat, dilationW: nat,
                       groups: nat, outH: nat, outW: nat, activation: Activation)

  /** What computing the output dimensions guarantees. */
  ghost predicate ValidConv(p: Conv)
  {
    && p.groups > 0 && p.channels % p.groups == 0 && p.filters % p.groups == 0 && p.outH > 0 && p.outW > 0
  }

  function GroupChannels(p: Conv): nat
    requires p.groups > 0
  {
    Div(p.channels, p.groups)
  }

  function GroupFilters(p: Conv): nat
    requires p.groups > 0
  {
    Div(p.filters, p.groups)
  }

  /** Kernel taps of one filter. */
  function Taps(p: Conv): nat
    requires p.groups > 0
  {
    GroupChannels(p) * p.kernelH * p.kernelW
  }

  /** Output positions of one image. */
  function Positions(p: Conv): nat { p.outH * p.outW }

  function InputSize(p: Conv): nat { p.batch * p.height * p.width * p.channels }

  function WeightSize(p: Conv): nat
    requires p.groups > 0
  {
    p.filters * Taps(p)
  }

  /** Rows of the unrolled matrix of one image: one per channel and kernel offset. */
  function UnrolledRows(p: Conv): nat { p.channels * p.kernelH * p.kernelW }

  function InputIndex(p: Conv, n: nat, iy: nat, ix: nat, channel: nat): nat
  {
    ((n * p.height + iy) * p.width + ix) * p.channels + channel
  }

  predicate Inside(p: Conv, iy: int, ix: int)
  {
    0 <= iy < p.height && 0 <= ix < p.width
  }

  /** The input seen through a kernel offset at an output position; zero in the padding. */
  function Pixel(p: Conv, input: seq<real>, n: nat, channel: nat, r: nat, s: nat, oy: nat, ox: nat): real
  {
    var iy := oy * p.strideH + r * p.dilationH - p.padTop;
    var ix := ox * p.strideW + s * p.dilationW - p.padLeft;
    if Inside(p, iy, ix) then Read(input, InputIndex(p, n, iy, ix, channel)) else 0.0
  }

  function Tap(p: Conv, c: nat, r: nat, s: nat): nat { (c * p.kernelH + r) * p.kernelW + s }

  /** Group of a filter. */
  function GroupOf(p: Conv, filter: nat): nat
    requires p.groups > 0
  {
    if GroupFilters(p) == 0 then 0 else Div(filter, GroupFilters(p))
  }

  /** One product of the convolution sum. */
  function Product(p: Conv, input: seq<real>, weight: seq<real>, n: nat, filter: nat, c: nat, r: nat, s: nat,
                   oy: nat, ox: nat): real
    requires p.groups > 0
  {
    Times(Pixel(p, input, n, GroupOf(p, filter) * GroupChannels(p) + c, r, s, oy, ox),
          Read(weight, filter * Taps(p) + Tap(p, c, r, s)))
  }

  // The convolution sum, nested as it is usually written: over channels of the group, kernel rows, kernel columns.

  function SumColumns(p: Conv, input: seq<real>, weight: seq<real>, n: nat, filter: nat, c: nat, r: nat, s: nat,
                      oy: nat, ox: nat): real
    requires p.groups > 0
    decreases s
  {
    if s == 0 then 0.0
    else
      SumColumns(p, input, weight, n, filter, c, r, s - 1, oy, ox)
      + Product(p, input, weight, n, filter, c, r, s - 1, oy, ox)
  }

  function SumRows(p: Conv, input: seq<real>, weight: seq<real>, n: nat, filter: nat, c: nat, r: nat,
                   oy: nat, ox: nat): real
    requires p.groups > 0
    decreases r
  {
    if r == 0 then 0.0
    else
      SumRows(p, input, weight, n, filter, c, r - 1, oy, ox)
      + SumColumns(p, input, weight, n, filter, c, r - 1, p.kernelW, oy, ox)
  }

  function SumChannels(p: Conv, input: seq<real>, weight: seq<real>, n: nat, filter: nat, c: nat, oy: nat,
                       ox: nat): real
    requires p.groups > 0
    decreases c
  {
    if c == 0 then 0.0
    else
      SumChannels(p, input, weight, n, filter, c - 1, oy, ox)
      + SumRows(p, input, weight, n, filter, c - 1, p.kernelH, oy, ox)
  }

  function BiasOf(bias: Option<seq<real>>, filter: nat): real
  {
    if bias.Some? then Read(bias.value, filter) else 0.0
  }

  /** The output of a filter at a position, before activation. */
  function ConvAt(p: Conv, input: seq<real>, weight: seq<real>, bias: Option<seq<real>>, n: nat, filter: nat,
                  oy: nat, ox: nat): real
    requires p.groups > 0
  {
    SumChannels(p, input, weight, n, filter, GroupChannels(p), oy, ox) + BiasOf(bias, filter)
  }

  function Activated(a: Activation, x: real): real
  {
    match a
    case NoActivation => x
    case Relu => if x < 0.0 then 0.0 else x
    case Relu6 => if x < 0.0 then 0.0 else if x > 6.0 then 6.0 else x
  }

  // ----- Output dimensions -----

  /** Division of signed integers as C does it, toward zero. */
  function TruncDiv(a: int, b: nat): int
    requires b > 0
  {
    var q: int := Div(if a >= 0 then a else -a, b);
    if a >= 0 then q else -q
  }

  /** Distance from the first to the last tap of a kernel, in the 32-bit arithmetic of the check. */
  function Reach(kernel: nat, dilation: nat): nat
  {
    Wrap32(dilation * Wrap32(kernel + U32 - 1))
  }

  /** Room left for moving the kernel over the padded input; negative if the kernel is larger. */
  function Slack(extent: nat, padding: nat, kernel: nat, dilation: nat): int
  {
    extent + padding - Reach(kernel, dilation) - 1
  }

  /** One output dimension as computed; the descriptor is refused unless it is positive. */
  function OutDim(extent: nat, padding: nat, kernel: nat, dilation: nat, stride: nat): int
    requires stride > 0
  {
    TruncDiv(Slack(extent, padding, kernel, dilation), stride) + 1
  }

  /** A dimension is accepted exactly if the kernel exceeds the padded input by less than a stride. */
  lemma AcceptedExactly(extent: nat, padding: nat, kernel: nat, dilation: nat, stride: nat)
    requires stride > 0
    ensures OutDim(extent, padding, kernel, dilation, stride) > 0
           <==> stride + Slack(extent, padding, kernel, dilation) > 0
    ensures 0 < stride + Slack(extent, padding, kernel, dilation) < stride ==>
                OutDim(extent, padding, kernel, dilation, stride) == 1
  {
    TruncDivAboveMinusOne(Slack(extent, padding, kernel, dilation), stride);
  }

  /** Truncation keeps the quotient of a small negative number at zero. */
  lemma TruncDivAboveMinusOne(a: int, b: nat)
    requires b > 0
    ensures TruncDiv(a, b) >= 0 <==> a + b > 0
    ensures 0 < a + b < b ==> TruncDiv(a, b) == 0
  {
    if a < 0 {
      DivBelow(-a, b, 1);
    }
  }

  /** A placement of the kernel that starts at an output row stays inside the padded input. */
  predicate PlacementFits(extent: nat, padding: nat, kernel: nat, dilation: nat, stride: nat, y: nat)
    requires kernel > 0
  {
    y * stride + dilation * (kernel - 1) + 1 <= extent + padding
  }

  /**
   When the kernel fits the padded input, the dimension counts its placements; when it does not, the code still accepts
   one placement if the excess is below the stride, although no placement fits.
   */
  lemma OutDimCountsPlacements(extent: nat, padding: nat, kernel: nat, dilation: nat, stride: nat, y: nat)
    requires stride > 0 && 0 < kernel < U32 && dilation * (kernel - 1) < U32
    ensures Slack(extent, padding, kernel, dilation) >= 0 ==>
              (y < OutDim(extent, padding, kernel, dilation, stride)
               <==> PlacementFits(extent, padding, kernel, dilation, stride, y))
    ensures Slack(extent, padding, kernel, dilation) < 0 ==>
                !PlacementFits(extent, padding, kernel, dilation, stride, y)
  {
    var slack := Slack(extent, padding, kernel, dilation);
    ReachExact(kernel, dilation);
    assert slack == extent + padding - dilation * (kernel - 1) - 1;
    if slack >= 0 {
      DivBelow(slack, stride, y);
    }
  }

  lemma ReachExact(kernel: nat, dilation: nat)
    requires 0 < kernel < U32 && dilation * (kernel - 1) < U32
    ensures Reach(kernel, dilation) == dilation * (kernel - 1)
  {
    assert kernel + U32 - 1 == 1 * U32 + (kernel - 1);
    DivModUnique(1, U32, kernel - 1);
  }

  /** A kernel of three rows is accepted over an unpadded input of two rows when the stride is two. */
  lemma OversizedKernelAccepted()
    ensures OutDim(2, 0, 3, 1, 2) == 1 && !PlacementFits(2, 0, 3, 1, 2, 0)
  {
    ReachExact(3, 1);
  }

  // ----- Unrolling -----

  /** An entry of the unrolled matrix: its row encodes channel and kernel offset, its column the output position. */
  function UnrolledAt(p: Conv, input: seq<real>, n: nat, row: nat, column: nat): real
  {
    if p.kernelH == 0 || p.kernelW == 0 || p.outW == 0 then 0.0
    else
      Pixel(p, input, n, row / p.kernelW / p.kernelH, row / p.kernelW % p.kernelH, row % p.kernelW,
            column / p.outW, column % p.outW)
  }

  lemma RowDecodes(p: Conv, channel: nat, r: nat, s: nat)
    requires r < p.kernelH && s < p.kernelW
    ensures var row := Tap(p, channel, r, s);
            row / p.kernelW / p.kernelH == channel && row / p.kernelW % p.kernelH == r && row % p.kernelW == s
  {
    DivModUnique(channel * p.kernelH + r, p.kernelW, s);
    DivModUnique(channel, p.kernelH, r);
  }

  lemma ColumnDecodes(p: Conv, oy: nat, ox: nat)
    requires ox < p.outW
    ensures (oy * p.outW + ox) / p.outW == oy && (oy * p.outW + ox) % p.outW == ox
  {
    DivModUnique(oy, p.outW, ox);
  }

  /** The unrolled matrix holds, for every channel, kernel offset and position, the pixel that the convolution sees. */
  lemma UnrolledIsPixel(p: Conv, input: seq<real>, n: nat, channel: nat, r: nat, s: nat, oy: nat, ox: nat)
    requires r < p.kernelH && s < p.kernelW && ox < p.outW
    ensures UnrolledAt(p, input, n, Tap(p, channel, r, s), oy * p.outW + ox)
         == Pixel(p, input, n, channel, r, s, oy, ox)
  {
    RowDecodes(p, channel, r, s);
    ColumnDecodes(p, oy, ox);
  }

  /** The matrix-multiply sum of a filter over the first taps of its row of weights. */
  function FlatSum(p: Conv, input: seq<real>, weight: seq<real>, n: nat, filter: nat, column: nat, taps: nat): real
    requires p.groups > 0
    decreases taps
  {
    if taps == 0 then 0.0
    else
      FlatSum(p, input, weight, n, filter, column, taps - 1)
      + Times(UnrolledAt(p, input, n, GroupOf(p, filter) * Taps(p) + (taps - 1), column),
              Read(weight, filter * Taps(p) + (taps - 1)))
  }

  /** A tap of a group is a row of the unrolled matrix. */
  lemma TapOfGroup(p: Conv, g: nat, c: nat, r: nat, s: nat)
    requires p.groups > 0
    ensures g * Taps(p) + Tap(p, c, r, s) == Tap(p, g * GroupChannels(p) + c, r, s)
  {
    var gc, h, w := GroupChannels(p), p.kernelH, p.kernelW;
    Associate(g, gc, h, w);
    Distribute(g * gc, c, h);
    Distribute(g * gc * h, c * h + r, w);
  }

  lemma Associate(g: nat, a: nat, b: nat, c: nat)
    ensures g * (a * b * c) == g * a * b * c
  {
  }

  lemma FlatStep(p: Conv, input: seq<real>, weight: seq<real>, n: nat, filter: nat, c: nat, r: nat, s: nat, oy: nat,
                 ox: nat)
    requires p.groups > 0 && r < p.kernelH && s < p.kernelW && ox < p.outW
    ensures var t, column := Tap(p, c, r, s), oy * p.outW + ox;
            FlatSum(p, input, weight, n, filter, column, t + 1)
              == FlatSum(p, input, weight, n, filter, column, t) + Product(p, input, weight, n, filter, c, r, s, oy, ox)
  {
    TapOfGroup(p, GroupOf(p, filter), c, r, s);
    UnrolledIsPixel(p, input, n, GroupOf(p, filter) * GroupChannels(p) + c, r, s, oy, ox);
  }

  lemma {:induction false} FlatColumns(p: Conv, input: seq<real>, weight: seq<real>, n: nat, filter: nat, c: nat,
                                       r: nat, s: nat, oy: nat, ox: nat)
    requires p.groups > 0 && r < p.kernelH && s <= p.kernelW && ox < p.outW
    ensures var column := oy * p.outW + ox;
            FlatSum(p, input, weight, n, filter, column, Tap(p, c, r, s))
              == FlatSum(p, input, weight, n, filter, column, Tap(p, c, r, 0))
               + SumColumns(p, input, weight, n, filter, c, r, s, oy, ox)
    decreases s
  {
    if s > 0 {
      FlatColumns(p, input, weight, n, filter, c, r, s - 1, oy, ox);
      FlatStep(p, input, weight, n, filter, c, r, s - 1, oy, ox);
    }
  }

  lemma {:induction false} FlatRows(p: Conv, input: seq<real>, weight: seq<real>, n: nat, filter: nat, c: nat, r: nat,
                                    oy: nat, ox: nat)
    requires p.groups > 0 && r <= p.kernelH && ox < p.outW
    ensures var column := oy * p.outW + ox;
            FlatSum(p, input, weight, n, filter, column, Tap(p, c, r, 0))
              == FlatSum(p, input, weight, n, filter, column, Tap(p, c, 0, 0))
               + SumRows(p, input, weight, n, filter, c, r, oy, ox)
    decreases r
  {
    if r > 0 {
      FlatRows(p, input, weight, n, filter, c, r - 1, oy, ox);
      FlatColumns(p, input, weight, n, filter, c, r - 1, p.kernelW, oy, ox);
      AddOneTimes(c * p.kernelH + r - 1, p.kernelW);
    }
  }

  lemma {:induction false} FlatChannels(p: Conv, input: seq<real>, weight: seq<real>, n: nat, filter: nat, c: nat,
                                        oy: nat, ox: nat)
    requires p.groups > 0 && ox < p.outW
    ensures FlatSum(p, input, weight, n, filter, oy * p.outW + ox, Tap(p, c, 0, 0))
         == SumChannels(p, input, weight, n, filter, c, oy, ox)
    decreases c
  {
    if c > 0 {
      FlatChannels(p, input, weight, n, filter, c - 1, oy, ox);
      FlatRows(p, input, weight, n, filter, c - 1, p.kernelH, oy, ox);
      AddOneTimes(c - 1, p.kernelH);
    }
  }

  /** The matrix-multiply value of a filter at a column of the unrolled matrix. */
  function GemmAt(p: Conv, input: seq<real>, weight: seq<real>, bias: Option<seq<real>>, n: nat, filter: nat,
                  column: nat): real
    requires p.groups > 0
  {
    BiasOf(bias, filter) + FlatSum(p, input, weight, n, filter, column, Taps(p))
  }

  /** Unrolling and multiplying computes the convolution, for every group, stride, padding and dilation. */
  lemma GemmIsConv(p: Conv, input: seq<real>, weight: seq<real>, bias: Option<seq<real>>, n: nat, filter: nat,
                   oy: nat, ox: nat)
    requires ValidConv(p) && ox < p.outW
    ensures GemmAt(p, input, weight, bias, n, filter, oy * p.outW + ox)
         == ConvAt(p, input, weight, bias, n, filter, oy, ox)
  {
    FlatChannels(p, input, weight, n, filter, GroupChannels(p), oy, ox);
  }
}
