/** The convolution engine's loops: direct form, and unrolling followed by matrix multiplication. */
module ConvolutionLoops {
  import opened Words
  import opened Convolution
  import opened Grids

  // ----- Unrolling -----

  lemma InputInRange(p: Conv, n: nat, iy: nat, ix: nat, channel: nat)
    requires n < p.batch && iy < p.height && ix < p.width && channel < p.channels
    ensures InputIndex(p, n, iy, ix, channel) < InputSize(p)
  {
    CellBelow(p.batch, p.height, n, iy);
    CellBelow(p.batch * p.height, p.width, n * p.height + iy, ix);
    CellBelow(p.batch * p.height * p.width, p.channels, (n * p.height + iy) * p.width + ix, channel);
  }

  /** The pixel under a kernel offset, or zero outside the input. */
  method ReadPixel(p: Conv, input: seq<real>, n: nat, channel: nat, r: nat, s: nat, oy: nat, ox: nat) returns (x: real)
    requires |input| == InputSize(p) && n < p.batch && channel < p.channels
    ensures x == Pixel(p, input, n, channel, r, s, oy, ox)
  {
    var iy := oy * p.strideH + r * p.dilationH - p.padTop;
    var ix := ox * p.strideW + s * p.dilationW - p.padLeft;
    if 0 <= iy < p.height && 0 <= ix < p.width {
      InputInRange(p, n, iy, ix, channel);
      x := input[InputIndex(p, n, iy, ix, channel)];
    } else {
      x := 0.0;
    }
  }

  /** Fills one row of the unrolled matrix. */
  method UnrollRow(p: Conv, input: seq<real>, n: nat, channel: nat, r: nat, s: nat, row: nat,
                   buf: array<real>, ghost g: seq<seq<nat>>)
    requires |input| == InputSize(p) && n < p.batch && channel < p.channels && r < p.kernelH && s < p.kernelW
    requires row == Tap(p, channel, r, s) < UnrolledRows(p)
    requires g == Grid(UnrolledRows(p), Positions(p)) && Numbering(g, UnrolledRows(p), Positions(p), buf.Length)
    modifies buf
    ensures forall j :: 0 <= j < Positions(p) ==> buf[g[row][j]] == UnrolledAt(p, input, n, row, j)
    ensures forall i, j :: 0 <= i < UnrolledRows(p) && 0 <= j < Positions(p) && i != row ==>
                buf[g[i][j]] == old(buf[g[i][j]])
  {
    var column := 0;
    for oy := 0 to p.outH
      invariant column == oy * p.outW
      invariant forall j :: 0 <= j < column && j < Positions(p) ==> buf[g[row][j]] == UnrolledAt(p, input, n, row, j)
      invariant forall i, j :: 0 <= i < UnrolledRows(p) && 0 <= j < Positions(p) && i != row ==>
                    buf[g[i][j]] == old(buf[g[i][j]])
    {
      for ox := 0 to p.outW
        invariant column == oy * p.outW + ox
        invariant forall j :: 0 <= j < column && j < Positions(p) ==> buf[g[row][j]] == UnrolledAt(p, input, n, row, j)
        invariant forall i, j :: 0 <= i < UnrolledRows(p) && 0 <= j < Positions(p) && i != row ==>
                      buf[g[i][j]] == old(buf[g[i][j]])
      {
        CellBelow(p.outH, p.outW, oy, ox);
        UnrolledIsPixel(p, input, n, channel, r, s, oy, ox);
        var x := ReadPixel(p, input, n, channel, r, s, oy, ox);
        assert g[row][column] == row * Positions(p) + column;
        buf[row * Positions(p) + column] := x;
        column := column + 1;
      }
      AddOneTimes(oy, p.outW);
    }
  }

  /** The buffer holds the first rows of the unrolled matrix. */
  ghost predicate Unrolled(p: Conv, input: seq<real>, n: nat, buf: array<real>, g: seq<seq<nat>>, rows: nat)
    requires Numbering(g, UnrolledRows(p), Positions(p), buf.Length)
    reads buf
  {
    forall i, j :: 0 <= i < rows && i < UnrolledRows(p) && 0 <= j < Positions(p) ==>
      buf[g[i][j]] == UnrolledAt(p, input, n, i, j)
  }

  /** The kernel offsets of one channel. */
  method UnrollChannel(p: Conv, input: seq<real>, n: nat, channel: nat, buf: array<real>, ghost g: seq<seq<nat>>)
    requires |input| == InputSize(p) && n < p.batch && channel < p.channels
    requires g == Grid(UnrolledRows(p), Positions(p)) && Numbering(g, UnrolledRows(p), Positions(p), buf.Length)
    requires Unrolled(p, input, n, buf, g, Tap(p, channel, 0, 0))
    modifies buf
    ensures Unrolled(p, input, n, buf, g, Tap(p, channel + 1, 0, 0))
  {
    var row := channel * p.kernelH * p.kernelW;
    for r := 0 to p.kernelH
      invariant row == Tap(p, channel, r, 0) && Unrolled(p, input, n, buf, g, row)
    {
      for s := 0 to p.kernelW
        invariant row == Tap(p, channel, r, s) && Unrolled(p, input, n, buf, g, row)
      {
        CellBelow(p.channels, p.kernelH, channel, r);
        CellBelow(p.channels * p.kernelH, p.kernelW, channel * p.kernelH + r, s);
        UnrollRow(p, input, n, channel, r, s, row, buf, g);
        row := row + 1;
      }
      AddOneTimes(channel * p.kernelH + r, p.kernelW);
    }
    AddOneTimes(channel, p.kernelH);
  }

  /** Unrolls one image: the buffer becomes the unrolled matrix, every entry written. */
  method Im2col(p: Conv, input: seq<real>, n: nat, buf: array<real>, ghost g: seq<seq<nat>>)
    requires ValidConv(p) && |input| == InputSize(p) && n < p.batch
    requires g == Grid(UnrolledRows(p), Positions(p)) && Numbering(g, UnrolledRows(p), Positions(p), buf.Length)
    modifies buf
    ensures Unrolled(p, input, n, buf, g, UnrolledRows(p))
  {
    var channel := 0;
    for group := 0 to p.groups
      invariant channel == group * GroupChannels(p) && Unrolled(p, input, n, buf, g, Tap(p, channel, 0, 0))
    {
      for c := 0 to GroupChannels(p)
        invariant channel == group * GroupChannels(p) + c && Unrolled(p, input, n, buf, g, Tap(p, channel, 0, 0))
      {
        GroupsOfChannels(p.channels, p.groups);
        CellBelow(p.groups, GroupChannels(p), group, c);
        UnrollChannel(p, input, n, channel, buf, g);
        channel := channel + 1;
      }
      AddOneTimes(group, GroupChannels(p));
    }
    GroupsOfChannels(p.channels, p.groups);
  }

  lemma GroupsOfChannels(total: nat, groups: nat)
    requires groups > 0 && total % groups == 0
    ensures groups * Div(total, groups) == total
  {
  }

  // ----- Matrix multiplication -----

  lemma WeightInRange(p: Conv, filter: nat, t: nat)
    requires p.groups > 0 && filter < p.filters && t < Taps(p)
    ensures filter * Taps(p) + t < WeightSize(p)
  {
    CellBelow(p.filters, Taps(p), filter, t);
  }

  /** The rows of a group are rows of the unrolled matrix. */
  lemma GroupRowInRange(p: Conv, group: nat, t: nat)
    requires ValidConv(p) && group < p.groups && t < Taps(p)
    ensures group * Taps(p) + t < UnrolledRows(p)
  {
    CellBelow(p.groups, Taps(p), group, t);
    Associate(p.groups, GroupChannels(p), p.kernelH, p.kernelW);
    GroupsOfChannels(p.channels, p.groups);
  }

  /** An entry of the unrolled matrix, read from the buffer. */
  method FetchUnrolled(p: Conv, group: nat, t: nat, column: nat, buf: array<real>,
                       ghost input: seq<real>, ghost n: nat, ghost g: seq<seq<nat>>) returns (x: real)
    requires ValidConv(p) && group < p.groups && t < Taps(p) && column < Positions(p)
    requires g == Grid(UnrolledRows(p), Positions(p)) && Numbering(g, UnrolledRows(p), Positions(p), buf.Length)
    requires Unrolled(p, input, n, buf, g, UnrolledRows(p))
    ensures x == UnrolledAt(p, input, n, group * Taps(p) + t, column)
  {
    GroupRowInRange(p, group, t);
    var row := group * Taps(p) + t;
    assert g[row][column] == row * Positions(p) + column;
    x := buf[row * Positions(p) + column];
  }

  /** One row of weights times one column of the unrolled matrix. */
  method GemmEntry(p: Conv, weight: seq<real>, bias: Option<seq<real>>, filter: nat, group: nat, column: nat,
                   buf: array<real>, ghost input: seq<real>, ghost n: nat, ghost g: seq<seq<nat>>) returns (sum: real)
    requires ValidConv(p) && |weight| == WeightSize(p) && filter < p.filters && column < Positions(p)
    requires group == GroupOf(p, filter) < p.groups && (bias.Some? ==> |bias.value| == p.filters)
    requires g == Grid(UnrolledRows(p), Positions(p)) && Numbering(g, UnrolledRows(p), Positions(p), buf.Length)
    requires Unrolled(p, input, n, buf, g, UnrolledRows(p))
    ensures sum == GemmAt(p, input, weight, bias, n, filter, column)
  {
    sum := if bias.Some? then bias.value[filter] else 0.0;
    for t := 0 to Taps(p)
      invariant sum == BiasOf(bias, filter) + FlatSum(p, input, weight, n, filter, column, t)
    {
      WeightInRange(p, filter, t);
      var x := FetchUnrolled(p, group, t, column, buf, input, n, g);
      sum := sum + Times(x, weight[filter * Taps(p) + t]);
    }
  }

  // ----- Output -----

  lemma PositionsPositive(p: Conv)
    requires ValidConv(p)
    ensures Positions(p) > 0
  {
    MulMonotone(1, p.outH, p.outW);
  }

  /** The convolution value of a filter at a pixel, numbered through all images. */
  function OutputAt(p: Conv, input: seq<real>, weight: seq<real>, bias: Option<seq<real>>, pixel: nat,
                    filter: nat): real
    requires ValidConv(p)
  {
    PositionsPositive(p);
    var position := Rem(pixel, Positions(p));
    ConvAt(p, input, weight, bias, Div(pixel, Positions(p)), filter, Div(position, p.outW), Rem(position, p.outW))
  }

  lemma OutputAtPosition(p: Conv, input: seq<real>, weight: seq<real>, bias: Option<seq<real>>, n: nat, oy: nat,
                         ox: nat, filter: nat)
    requires ValidConv(p) && oy < p.outH && ox < p.outW
    ensures OutputAt(p, input, weight, bias, n * Positions(p) + (oy * p.outW + ox), filter)
         == ConvAt(p, input, weight, bias, n, filter, oy, ox)
  {
    CellBelow(p.outH, p.outW, oy, ox);
    DivModUnique(n, Positions(p), oy * p.outW + ox);
  }

  /** The output of the whole convolution, pixels in row-major order and filters last. */
  ghost function ConvOutput(p: Conv, input: seq<real>, weight: seq<real>, bias: Option<seq<real>>): (o: seq<real>)
    requires ValidConv(p)
    ensures |o| == OutputSize(p)
  {
    seq(OutputSize(p), k requires 0 <= k < OutputSize(p) =>
      GridCovers(p.batch * Positions(p), p.filters, k);
      Activated(p.activation, OutputAt(p, input, weight, bias, k / p.filters, k % p.filters)))
  }

  function OutputSize(p: Conv): nat { p.batch * Positions(p) * p.filters }

  /** The cells of some pixels and one filter hold their convolution values. */
  ghost predicate Computed(p: Conv, input: seq<real>, weight: seq<real>, bias: Option<seq<real>>, output: array<real>,
                           cell: seq<seq<nat>>, from: nat, to: nat, filter: nat)
    requires ValidConv(p) && Numbering(cell, p.batch * Positions(p), p.filters, output.Length) && filter < p.filters
    reads output
  {
    forall i :: from <= i < to && i < p.batch * Positions(p) ==>
      output[cell[i][filter]] == OutputAt(p, input, weight, bias, i, filter)
  }

  /** Only cells of some pixels and one filter differ between two contents. */
  ghost predicate OnlyPlane(p: Conv, before: seq<real>, after: seq<real>, cell: seq<seq<nat>>, from: nat, to: nat,
                            filter: nat)
    requires |before| == |after| && Numbering(cell, p.batch * Positions(p), p.filters, |before|)
  {
    forall i, k :: 0 <= i < p.batch * Positions(p) && 0 <= k < p.filters && (k != filter || i < from || i >= to) ==>
      after[cell[i][k]] == before[cell[i][k]]
  }

  /** The sizes the two forms expect of their arguments. */
  ghost predicate Arguments(p: Conv, input: seq<real>, weight: seq<real>, bias: Option<seq<real>>)
    requires ValidConv(p)
  {
    |input| == InputSize(p) && |weight| == WeightSize(p) && (bias.Some? ==> |bias.value| == p.filters)
  }

  /** One filter over one image, by matrix multiplication: column by column of the unrolled matrix. */
  method GemmPlane(p: Conv, input: seq<real>, weight: seq<real>, bias: Option<seq<real>>, n: nat, group: nat,
                   filter: nat,
                   buf: array<real>, ghost g: seq<seq<nat>>, output: array<real>, ghost cell: seq<seq<nat>>,
                   from: nat, to: nat)
    requires ValidConv(p) && Arguments(p, input, weight, bias) && n < p.batch && filter < p.filters && buf != output
    requires group == GroupOf(p, filter) < p.groups && from == n * Positions(p) && to == from + Positions(p)
    requires g == Grid(UnrolledRows(p), Positions(p)) && Numbering(g, UnrolledRows(p), Positions(p), buf.Length)
    requires Unrolled(p, input, n, buf, g, UnrolledRows(p))
    requires cell == Grid(p.batch * Positions(p), p.filters)
    requires Numbering(cell, p.batch * Positions(p), p.filters, output.Length)
    modifies output
    ensures Computed(p, input, weight, bias, output, cell, from, to, filter)
    ensures OnlyPlane(p, old(output[..]), output[..], cell, from, to, filter)
  {
    for column := 0 to Positions(p)
      invariant Computed(p, input, weight, bias, output, cell, from, from + column, filter)
      invariant OnlyPlane(p, old(output[..]), output[..], cell, from, from + column, filter)
    {
      var sum := GemmEntry(p, weight, bias, filter, group, column, buf, input, n, g);
      GemmIsOutput(p, input, weight, bias, n, filter, column);
      CellBelow(p.batch, Positions(p), n, column);
      StoreOutput(p, input, weight, bias, output, cell, from + column, filter, sum);
    }
  }

  lemma GemmIsOutput(p: Conv, input: seq<real>, weight: seq<real>, bias: Option<seq<real>>, n: nat, filter: nat,
                     column: nat)
    requires ValidConv(p) && column < Positions(p)
    ensures GemmAt(p, input, weight, bias, n, filter, column)
         == OutputAt(p, input, weight, bias, n * Positions(p) + column, filter)
  {
    var oy, ox := column / p.outW, column % p.outW;
    GridCovers(p.outH, p.outW, column);
    assert column == oy * p.outW + ox;
    GemmIsConv(p, input, weight, bias, n, filter, oy, ox);
    OutputAtPosition(p, input, weight, bias, n, oy, ox, filter);
  }

  /** Writes one output cell. */
  method StoreOutput(p: Conv, ghost input: seq<real>, ghost weight: seq<real>, ghost bias: Option<seq<real>>,
                     output: array<real>, ghost cell: seq<seq<nat>>, pixel: nat, filter: nat, value: real)
    requires ValidConv(p) && pixel < p.batch * Positions(p) && filter < p.filters
    requires value == OutputAt(p, input, weight, bias, pixel, filter)
    requires cell == Grid(p.batch * Positions(p), p.filters)
    requires Numbering(cell, p.batch * Positions(p), p.filters, output.Length)
    modifies output
    ensures output[cell[pixel][filter]] == OutputAt(p, input, weight, bias, pixel, filter)
    ensures forall i, k :: 0 <= i < p.batch * Positions(p) && 0 <= k < p.filters && (i != pixel || k != filter) ==>
              output[cell[i][k]] == old(output[cell[i][k]])
  {
    assert cell[pixel][filter] == pixel * p.filters + filter;
    output[pixel * p.filters + filter] := value;
  }

  lemma FilterGroup(p: Conv, group: nat, k: nat)
    requires ValidConv(p) && group < p.groups && k < GroupFilters(p)
    ensures var filter := group * GroupFilters(p) + k;
            filter < p.filters && GroupOf(p, filter) == group
  {
    CellBelow(p.groups, GroupFilters(p), group, k);
    GroupsOfChannels(p.filters, p.groups);
  }

  /** All cells of the first pixels hold their values, and of the pixels up to a second bound the first filters. */
  ghost predicate ImagesDone(p: Conv, input: seq<real>, weight: seq<real>, bias: Option<seq<real>>, output: array<real>,
                             cell: seq<seq<nat>>, from: nat, to: nat, filters: nat)
    requires ValidConv(p) && Numbering(cell, p.batch * Positions(p), p.filters, output.Length)
    reads output
  {
    forall i, k :: 0 <= i < p.batch * Positions(p) && 0 <= k < p.filters && (i < from || (i < to && k < filters)) ==>
      output[cell[i][k]] == OutputAt(p, input, weight, bias, i, k)
  }

  /** One image, by unrolling and matrix multiplication, group by group. */
  method GemmImage(p: Conv, input: seq<real>, weight: seq<real>, bias: Option<seq<real>>, n: nat,
                   buf: array<real>, ghost g: seq<seq<nat>>, output: array<real>, ghost cell: seq<seq<nat>>,
                   from: nat, to: nat)
    requires ValidConv(p) && Arguments(p, input, weight, bias) && n < p.batch && buf != output
    requires from == n * Positions(p) && to == from + Positions(p)
    requires g == Grid(UnrolledRows(p), Positions(p)) && Numbering(g, UnrolledRows(p), Positions(p), buf.Length)
    requires cell == Grid(p.batch * Positions(p), p.filters)
    requires Numbering(cell, p.batch * Positions(p), p.filters, output.Length)
    requires ImagesDone(p, input, weight, bias, output, cell, from, from, 0)
    modifies output, buf
    ensures ImagesDone(p, input, weight, bias, output, cell, to, to, 0)
  {
    Im2col(p, input, n, buf, g);
    var filter := 0;
    for group := 0 to p.groups
      invariant filter == group * GroupFilters(p) && Unrolled(p, input, n, buf, g, UnrolledRows(p))
      invariant ImagesDone(p, input, weight, bias, output, cell, from, to, filter)
    {
      for k := 0 to GroupFilters(p)
        invariant filter == group * GroupFilters(p) + k && Unrolled(p, input, n, buf, g, UnrolledRows(p))
        invariant ImagesDone(p, input, weight, bias, output, cell, from, to, filter)
      {
        FilterGroup(p, group, k);
        GemmPlane(p, input, weight, bias, n, group, filter, buf, g, output, cell, from, to);
        filter := filter + 1;
      }
      AddOneTimes(group, GroupFilters(p));
    }
    GroupsOfChannels(p.filters, p.groups);
  }

  /** The activation, over the whole output. */
  method Activate(a: Activation, output: array<real>)
    modifies output
    ensures forall i :: 0 <= i < output.Length ==> output[i] == Activated(a, old(output[i]))
  {
    if a == NoActivation {
      return;
    }
    for i := 0 to output.Length
      invariant forall k :: 0 <= k < i ==> output[k] == Activated(a, old(output[k]))
      invariant forall k :: i <= k < output.Length ==> output[k] == old(output[k])
    {
      if output[i] < 0.0 {
        output[i] := 0.0;
      }
      if a == Relu6 && output[i] > 6.0 {
        output[i] := 6.0;
      }
    }
  }

  /** Every cell computed and activated: the output is the convolution. */
  lemma OutputComplete(p: Conv, input: seq<real>, weight: seq<real>, bias: Option<seq<real>>, raw: seq<real>,
                       final: seq<real>, cell: seq<seq<nat>>)
    requires ValidConv(p) && |raw| == |final| == OutputSize(p)
    requires cell == Grid(p.batch * Positions(p), p.filters)
    requires Numbering(cell, p.batch * Positions(p), p.filters, |raw|)
    requires forall i, k :: 0 <= i < p.batch * Positions(p) && 0 <= k < p.filters ==>
               raw[cell[i][k]] == OutputAt(p, input, weight, bias, i, k)
    requires forall i :: 0 <= i < |raw| ==> final[i] == Activated(p.activation, raw[i])
    ensures final == ConvOutput(p, input, weight, bias)
  {
    forall i | 0 <= i < |raw|
      ensures final[i] == ConvOutput(p, input, weight, bias)[i]
    {
      GridCovers(p.batch * Positions(p), p.filters, i);
    }
  }

  /** Unrolling followed by matrix multiplication computes the convolution; nothing is assumed of the old output. */
  method ConvGemm(p: Conv, input: seq<real>, weight: seq<real>, bias: Option<seq<real>>, output: array<real>,
                  buf: array<real>)
    requires ValidConv(p) && Arguments(p, input, weight, bias) && buf != output
    requires output.Length == OutputSize(p) && buf.Length == UnrolledRows(p) * Positions(p)
    modifies output, buf
    ensures output[..] == ConvOutput(p, input, weight, bias)
  {
    ghost var g, cell := Grid(UnrolledRows(p), Positions(p)), Grid(p.batch * Positions(p), p.filters);
    GridNumbers(UnrolledRows(p), Positions(p));
    GridNumbers(p.batch * Positions(p), p.filters);
    GemmImages(p, input, weight, bias, buf, g, output, cell);
    ghost var raw := output[..];
    Activate(p.activation, output);
    OutputComplete(p, input, weight, bias, raw, output[..], cell);
  }

  /** All images, one after the other. */
  method GemmImages(p: Conv, input: seq<real>, weight: seq<real>, bias: Option<seq<real>>,
                    buf: array<real>, ghost g: seq<seq<nat>>, output: array<real>, ghost cell: seq<seq<nat>>)
    requires ValidConv(p) && Arguments(p, input, weight, bias) && buf != output
    requires g == Grid(UnrolledRows(p), Positions(p)) && Numbering(g, UnrolledRows(p), Positions(p), buf.Length)
    requires cell == Grid(p.batch * Positions(p), p.filters)
    requires Numbering(cell, p.batch * Positions(p), p.filters, output.Length)
    modifies output, buf
    ensures forall i, k :: 0 <= i < p.batch * Positions(p) && 0 <= k < p.filters ==>
              output[cell[i][k]] == OutputAt(p, input, weight, bias, i, k)
  {
    var from := 0;
    for n := 0 to p.batch
      invariant from == n * Positions(p) && ImagesDone(p, input, weight, bias, output, cell, from, from, 0)
    {
      GemmImage(p, input, weight, bias, n, buf, g, output, cell, from, from + Positions(p));
      AddOneTimes(n, Positions(p));
      from := from + Positions(p);
    }
  }

  // ----- Direct form -----

  /** The convolution sum, adding only the products whose pixel lies inside the input. */
  method DirectSum(p: Conv, input: seq<real>, weight: seq<real>, n: nat, group: nat, filter: nat, oy: nat, ox: nat)
    returns (sum: real)
    requires ValidConv(p) && |input| == InputSize(p) && |weight| == WeightSize(p) && n < p.batch
    requires filter < p.filters && group == GroupOf(p, filter) < p.groups
    ensures sum == SumChannels(p, input, weight, n, filter, GroupChannels(p), oy, ox)
  {
    sum := 0.0;
    for c := 0 to GroupChannels(p)
      invariant sum == SumChannels(p, input, weight, n, filter, c, oy, ox)
    {
      for r := 0 to p.kernelH
        invariant sum
             == SumChannels(p, input, weight, n, filter, c, oy, ox) + SumRows(p, input, weight, n, filter, c, r, oy, ox)
      {
        sum := AddColumns(p, input, weight, n, group, filter, c, r, oy, ox, sum);
      }
    }
  }

  /** The innermost loop of the direct sum. */
  method AddColumns(p: Conv, input: seq<real>, weight: seq<real>, n: nat, group: nat, filter: nat, c: nat, r: nat,
                    oy: nat, ox: nat, before: real) returns (sum: real)
    requires ValidConv(p) && |input| == InputSize(p) && |weight| == WeightSize(p) && n < p.batch
    requires filter < p.filters && group == GroupOf(p, filter) < p.groups && c < GroupChannels(p) && r < p.kernelH
    ensures sum == before + SumColumns(p, input, weight, n, filter, c, r, p.kernelW, oy, ox)
  {
    sum := before;
    for s := 0 to p.kernelW
      invariant sum == before + SumColumns(p, input, weight, n, filter, c, r, s, oy, ox)
    {
      var product := ProductAt(p, input, weight, n, group, filter, c, r, s, oy, ox);
      sum := sum + product;
    }
  }

  /** One product of the direct sum: nothing if the pixel lies outside the input. */
  method ProductAt(p: Conv, input: seq<real>, weight: seq<real>, n: nat, group: nat, filter: nat, c: nat, r: nat,
                   s: nat, oy: nat, ox: nat) returns (x: real)
    requires ValidConv(p) && |input| == InputSize(p) && |weight| == WeightSize(p) && n < p.batch
    requires filter < p.filters && group == GroupOf(p, filter) < p.groups
    requires c < GroupChannels(p) && r < p.kernelH && s < p.kernelW
    ensures x == Product(p, input, weight, n, filter, c, r, s, oy, ox)
  {
    CellBelow(p.groups, GroupChannels(p), group, c);
    GroupsOfChannels(p.channels, p.groups);
    TapInRange(p, c, r, s);
    WeightInRange(p, filter, Tap(p, c, r, s));
    TimesZero(weight[filter * Taps(p) + Tap(p, c, r, s)]);
    var channel := group * GroupChannels(p) + c;
    var iy := oy * p.strideH + r * p.dilationH - p.padTop;
    var ix := ox * p.strideW + s * p.dilationW - p.padLeft;
    if Inside(p, iy, ix) {
      InputInRange(p, n, iy, ix, channel);
      x := Times(input[InputIndex(p, n, iy, ix, channel)], weight[filter * Taps(p) + Tap(p, c, r, s)]);
    } else {
      x := 0.0;
    }
  }

  lemma TimesZero(x: real)
    ensures Times(0.0, x) == 0.0
  {
  }

  lemma TapInRange(p: Conv, c: nat, r: nat, s: nat)
    requires p.groups > 0 && c < GroupChannels(p) && r < p.kernelH && s < p.kernelW
    ensures Tap(p, c, r, s) < Taps(p)
  {
    CellBelow(GroupChannels(p), p.kernelH, c, r);
    CellBelow(GroupChannels(p) * p.kernelH, p.kernelW, c * p.kernelH + r, s);
  }

  /** One filter over one image, position by position. */
  method DirectPlane(p: Conv, input: seq<real>, weight: seq<real>, bias: Option<seq<real>>, n: nat, group: nat,
                     filter: nat, output: array<real>, ghost cell: seq<seq<nat>>, from: nat, to: nat)
    requires ValidConv(p) && Arguments(p, input, weight, bias) && n < p.batch && filter < p.filters
    requires group == GroupOf(p, filter) < p.groups && from == n * Positions(p) && to == from + Positions(p)
    requires cell == Grid(p.batch * Positions(p), p.filters)
    requires Numbering(cell, p.batch * Positions(p), p.filters, output.Length)
    modifies output
    ensures Computed(p, input, weight, bias, output, cell, from, to, filter)
    ensures OnlyPlane(p, old(output[..]), output[..], cell, from, to, filter)
  {
    var pixel := from;
    for oy := 0 to p.outH
      invariant pixel == from + oy * p.outW
      invariant Computed(p, input, weight, bias, output, cell, from, pixel, filter)
      invariant OnlyPlane(p, old(output[..]), output[..], cell, from, pixel, filter)
    {
      for ox := 0 to p.outW
        invariant pixel == from + oy * p.outW + ox
        invariant Computed(p, input, weight, bias, output, cell, from, pixel, filter)
        invariant OnlyPlane(p, old(output[..]), output[..], cell, from, pixel, filter)
      {
        var sum := DirectSum(p, input, weight, n, group, filter, oy, ox);
        CellBelow(p.outH, p.outW, oy, ox);
        CellBelow(p.batch, Positions(p), n, oy * p.outW + ox);
        OutputAtPosition(p, input, weight, bias, n, oy, ox, filter);
        StoreOutput(p, input, weight, bias, output, cell, pixel, filter,
                    if bias.Some? then sum + bias.value[filter] else sum);
        pixel := pixel + 1;
      }
      AddOneTimes(oy, p.outW);
    }
  }

  /** All cells of the first filters hold their values, and of the filters up to a second bound the first pixels. */
  ghost predicate FiltersDone(p: Conv, input: seq<real>, weight: seq<real>, bias: Option<seq<real>>,
                              output: array<real>,
                              cell: seq<seq<nat>>, from: nat, to: nat, filters: nat, pixels: nat, next: nat)
    requires ValidConv(p) && Numbering(cell, p.batch * Positions(p), p.filters, output.Length)
    reads output
  {
    forall i, k | 0 <= i < p.batch * Positions(p) && 0 <= k < p.filters &&
                  (k < from || (k < to && i < pixels) || (k < filters && i < next))
      :: output[cell[i][k]] == OutputAt(p, input, weight, bias, i, k)
  }

  /** One group of filters over one image. */
  method DirectImage(p: Conv, input: seq<real>, weight: seq<real>, bias: Option<seq<real>>, group: nat, n: nat,
                     output: array<real>, ghost cell: seq<seq<nat>>, first: nat, pixel: nat)
    requires ValidConv(p) && Arguments(p, input, weight, bias) && n < p.batch && group < p.groups
    requires first == group * GroupFilters(p) && pixel == n * Positions(p)
    requires cell == Grid(p.batch * Positions(p), p.filters)
    requires Numbering(cell, p.batch * Positions(p), p.filters, output.Length)
    requires FiltersDone(p, input, weight, bias, output, cell, first, first + GroupFilters(p), first, pixel, pixel)
    modifies output
    ensures FiltersDone(p, input, weight, bias, output, cell, first, first + GroupFilters(p), first,
                        pixel + Positions(p), pixel + Positions(p))
  {
    for k := 0 to GroupFilters(p)
      invariant FiltersDone(p, input, weight, bias, output, cell, first, first + GroupFilters(p), first + k,
                            pixel, pixel + Positions(p))
    {
      FilterGroup(p, group, k);
      DirectPlane(p, input, weight, bias, n, group, first + k, output, cell, pixel, pixel + Positions(p));
    }
  }

  /** The direct form computes the convolution. */
  method ConvDirect(p: Conv, input: seq<real>, weight: seq<real>, bias: Option<seq<real>>, output: array<real>)
    requires ValidConv(p) && Arguments(p, input, weight, bias) && output.Length == OutputSize(p)
    modifies output
    ensures output[..] == ConvOutput(p, input, weight, bias)
  {
    ghost var cell := Grid(p.batch * Positions(p), p.filters);
    GridNumbers(p.batch * Positions(p), p.filters);
    var first := 0;
    for group := 0 to p.groups
      invariant first == group * GroupFilters(p)
      invariant FiltersDone(p, input, weight, bias, output, cell, first, first, first, 0, 0)
    {
      var pixel := 0;
      for n := 0 to p.batch
        invariant pixel == n * Positions(p)
        invariant FiltersDone(p, input, weight, bias, output, cell, first, first + GroupFilters(p), first, pixel, pixel)
      {
        DirectImage(p, input, weight, bias, group, n, output, cell, first, pixel);
        AddOneTimes(n, Positions(p));
        pixel := pixel + Positions(p);
      }
      AddOneTimes(group, GroupFilters(p));
      first := first + GroupFilters(p);
    }
    GroupsOfChannels(p.filters, p.groups);
    ghost var raw := output[..];
    Activate(p.activation, output);
    OutputComplete(p, input, weight, bias, raw, output[..], cell);
  }
}
