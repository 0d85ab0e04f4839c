/** The matrix unit: tiled multiply-accumulate, and the in-place changes of element width around it. */
module Mma {
  import opened Words
  import opened Grids

  /** The shapes of a multiplication: W is m by k, A is k by n, both row-major. */
  datatype Shape = Shape(m: nat, n: nat, k: nat)

  /** Row i of W times column j of A, over the first k products. */
  function Dot(s: Shape, w: seq<real>, a: seq<real>, i: nat, j: nat, k: nat): real
  {
    if k == 0 then 0.0
    else Dot(s, w, a, i, j, k - 1) + Times(Read(w, i * s.k + (k - 1)), Read(a, (k - 1) * s.n + j))
  }

  /** Multiply-accumulate operations of a block, counted twice each. */
  function Flops(m: nat, n: nat, k: nat): nat { m * n * k * 2 }

  lemma FlopsAdd(m: nat, m': nat, n: nat, n': nat, k: nat, k': nat)
    ensures Flops(m, n, k) + Flops(m, n, k') == Flops(m, n, k + k')
    ensures Flops(m, n, k) + Flops(m, n', k) == Flops(m, n + n', k)
    ensures Flops(m, n, k) + Flops(m', n, k) == Flops(m + m', n, k)
  {
    assert m * n * (k + k') == m * n * k + m * n * k';
    assert m * (n + n') == m * n + m * n' && (m + m') * n == m * n + m' * n;
    Distribute(m * n, m * n', k);
    Distribute(m * n, m' * n, k);
  }

  lemma NoFlops(m: nat, n: nat, k: nat)
    ensures Flops(0, n, k) == Flops(m, 0, k) == Flops(m, n, 0) == 0
  {
  }

  /** A rectangle of output cells. */
  datatype Block = Block(top: nat, bottom: nat, left: nat, right: nat)

  predicate Within(s: Shape, b: Block)
  {
    b.top <= b.bottom <= s.m && b.left <= b.right <= s.n
  }

  predicate In(b: Block, i: nat, j: nat)
  {
    b.top <= i < b.bottom && b.left <= j < b.right
  }

  /**
   Products accumulated in a cell when the tiles before a block are complete and the block itself has its first k:
   all for cells above the block's rows or to its left, none for the rest.
   */
  function Level(s: Shape, b: Block, k: nat, i: nat, j: nat): nat
  {
    if i < b.top || (i < b.bottom && j < b.left) then s.k
    else if In(b, i, j) then k
    else 0
  }

  ghost predicate Accumulated(s: Shape, w: seq<real>, a: seq<real>, init: seq<real>, o: seq<real>, cell: seq<seq<nat>>,
                              b: Block, k: nat)
    requires Numbering(cell, s.m, s.n, |o|) && |init| == |o|
  {
    forall i, j :: 0 <= i < s.m && 0 <= j < s.n ==>
      o[cell[i][j]] == init[cell[i][j]] + Dot(s, w, a, i, j, Level(s, b, k, i, j))
  }

  /** The partial product of a cell over one tile. */
  method PartialSum(s: Shape, w: seq<real>, a: seq<real>, i: nat, j: nat, from: nat, to: nat) returns (sum: real)
    requires |w| == s.m * s.k && |a| == s.k * s.n && i < s.m && j < s.n && from <= to <= s.k
    ensures sum == Dot(s, w, a, i, j, to) - Dot(s, w, a, i, j, from)
  {
    sum := 0.0;
    for k := from to to
      invariant sum == Dot(s, w, a, i, j, k) - Dot(s, w, a, i, j, from)
    {
      CellBelow(s.m, s.k, i, k);
      CellBelow(s.k, s.n, k, j);
      sum := sum + Times(w[i * s.k + k], a[k * s.n + j]);
    }
  }

  // ----- The output memory -----

  /** A two-byte cell: a half-width number, or the low or high half of a full-width one. */
  datatype Cell = Half(v: real) | Low(v: real) | High(v: real)

  /** The first places of the memory hold full-width numbers. */
  ghost predicate FullWidth(mem: seq<Cell>, count: nat)
  {
    2 * count <= |mem| && forall x :: 0 <= x < count ==> FullAt(mem, x)
  }

  ghost predicate FullAt(mem: seq<Cell>, x: nat)
    requires 2 * x + 1 < |mem|
  {
    mem[2 * x].Low? && mem[2 * x + 1] == High(mem[2 * x].v)
  }

  /** The memory read at full width. */
  ghost function Numbers(mem: seq<Cell>, count: nat): (r: seq<real>)
    requires 2 * count <= |mem|
    ensures |r| == count && forall x :: 0 <= x < count ==> r[x] == mem[2 * x].v
  {
    seq(count, x requires 0 <= x < count => mem[2 * x].v)
  }

  /** Two memories that hold the same beyond the first places. */
  ghost predicate SameBeyond(mem: seq<Cell>, mem': seq<Cell>, count: nat)
  {
    |mem| == |mem'| && forall x :: 2 * count <= x < |mem| ==> mem[x] == mem'[x]
  }

  /** Adds to one full-width number. */
  method AddTo(mem: array<Cell>, count: nat, x: nat, sum: real)
    requires x < count && FullWidth(mem[..], count)
    modifies mem
    ensures FullWidth(mem[..], count) && SameBeyond(old(mem[..]), mem[..], count)
    ensures var before := Numbers(old(mem[..]), count); Numbers(mem[..], count) == before[x := before[x] + sum]
  {
    var value := mem[2 * x].v + sum;
    mem[2 * x], mem[2 * x + 1] := Low(value), High(value);
    forall y | 0 <= y < count
      ensures FullAt(mem[..], y)
    {
      assert FullAt(old(mem[..]), y);
    }
    assert Numbers(mem[..], count) == Numbers(old(mem[..]), count)[x := value];
  }

  // ----- One tile -----

  /** Products accumulated in a cell while a tile is being added, in row-major order up to (row, col). */
  function LevelWithin(s: Shape, b: Block, from: nat, to: nat, row: nat, col: nat, i: nat, j: nat): nat
  {
    if In(b, i, j) && (i < row || (i == row && j < col)) then to else Level(s, b, from, i, j)
  }

  ghost predicate PartlyAdded(s: Shape, w: seq<real>, a: seq<real>, init: seq<real>, o: seq<real>, cell: seq<seq<nat>>,
                              b: Block, from: nat, to: nat, row: nat, col: nat)
    requires Numbering(cell, s.m, s.n, |o|) && |init| == |o|
  {
    forall i, j :: 0 <= i < s.m && 0 <= j < s.n ==>
      o[cell[i][j]] == init[cell[i][j]] + Dot(s, w, a, i, j, LevelWithin(s, b, from, to, row, col, i, j))
  }

  /** Adding one cell's partial product is one step further. */
  lemma OneCellAdded(s: Shape, w: seq<real>, a: seq<real>, init: seq<real>, o: seq<real>, cell: seq<seq<nat>>,
                     b: Block, from: nat, to: nat, row: nat, col: nat)
    requires Numbering(cell, s.m, s.n, |o|) && |init| == |o| && Within(s, b) && In(b, row, col)
    requires PartlyAdded(s, w, a, init, o, cell, b, from, to, row, col)
    ensures var x, sum := cell[row][col], Dot(s, w, a, row, col, to) - Dot(s, w, a, row, col, from);
            PartlyAdded(s, w, a, init, o[x := o[x] + sum], cell, b, from, to, row, col + 1)
  {
    forall i, j | 0 <= i < s.m && 0 <= j < s.n && (i != row || j != col)
      ensures LevelWithin(s, b, from, to, row, col + 1, i, j) == LevelWithin(s, b, from, to, row, col, i, j)
      ensures cell[i][j] != cell[row][col]
    {
    }
  }

  /** A finished row is the next row begun. */
  lemma RowAdded(s: Shape, w: seq<real>, a: seq<real>, init: seq<real>, o: seq<real>, cell: seq<seq<nat>>,
                 b: Block, from: nat, to: nat, row: nat)
    requires Numbering(cell, s.m, s.n, |o|) && |init| == |o|
    requires PartlyAdded(s, w, a, init, o, cell, b, from, to, row, b.right)
    ensures PartlyAdded(s, w, a, init, o, cell, b, from, to, row + 1, b.left)
  {
    forall i, j | 0 <= i < s.m && 0 <= j < s.n
      ensures LevelWithin(s, b, from, to, row + 1, b.left, i, j) == LevelWithin(s, b, from, to, row, b.right, i, j)
    {
    }
  }

  /** Before its first row a tile has added nothing, after its last everything. */
  lemma TileEnds(s: Shape, w: seq<real>, a: seq<real>, init: seq<real>, o: seq<real>, cell: seq<seq<nat>>,
                 b: Block, from: nat, to: nat)
    requires Numbering(cell, s.m, s.n, |o|) && |init| == |o| && Within(s, b)
    ensures Accumulated(s, w, a, init, o, cell, b, from) ==>
              PartlyAdded(s, w, a, init, o, cell, b, from, to, b.top, b.left)
    ensures PartlyAdded(s, w, a, init, o, cell, b, from, to, b.bottom, b.left) ==>
              Accumulated(s, w, a, init, o, cell, b, to)
  {
    forall i, j | 0 <= i < s.m && 0 <= j < s.n
      ensures LevelWithin(s, b, from, to, b.top, b.left, i, j) == Level(s, b, from, i, j)
      ensures LevelWithin(s, b, from, to, b.bottom, b.left, i, j) == Level(s, b, to, i, j)
    {
    }
  }

  /** The operands, the output memory and the cells of a multiplication fit together. */
  ghost predicate Fits(s: Shape, w: seq<real>, a: seq<real>, mem: array<Cell>, cell: seq<seq<nat>>, init: seq<Cell>)
    reads mem
  {
    && |w| == s.m * s.k && |a| == s.k * s.n && |init| == mem.Length
    && cell == Grid(s.m, s.n) && Numbering(cell, s.m, s.n, s.m * s.n)
    && FullWidth(init, s.m * s.n) && FullWidth(mem[..], s.m * s.n) && SameBeyond(init, mem[..], s.m * s.n)
  }

  /** What the memory holds while a block is worked on. */
  ghost predicate Holds(s: Shape, w: seq<real>, a: seq<real>, mem: array<Cell>, cell: seq<seq<nat>>, init: seq<Cell>,
                        b: Block, k: nat)
    reads mem
  {
    && Fits(s, w, a, mem, cell, init)
    && Accumulated(s, w, a, Numbers(init, s.m * s.n), Numbers(mem[..], s.m * s.n), cell, b, k)
  }

  ghost predicate HoldsWithin(s: Shape, w: seq<real>, a: seq<real>, mem: array<Cell>, cell: seq<seq<nat>>,
                              init: seq<Cell>, b: Block, from: nat, to: nat, row: nat, col: nat)
    reads mem
  {
    && Fits(s, w, a, mem, cell, init)
    && PartlyAdded(s, w, a, Numbers(init, s.m * s.n), Numbers(mem[..], s.m * s.n), cell, b, from, to, row, col)
  }

  /** One cell of a tile. */
  method AddCell(s: Shape, w: seq<real>, a: seq<real>, mem: array<Cell>, ghost cell: seq<seq<nat>>,
                 ghost init: seq<Cell>, b: Block, from: nat, to: nat, row: nat, col: nat)
    requires Within(s, b) && from <= to <= s.k && In(b, row, col)
    requires HoldsWithin(s, w, a, mem, cell, init, b, from, to, row, col)
    modifies mem
    ensures HoldsWithin(s, w, a, mem, cell, init, b, from, to, row, col + 1)
  {
    var sum := PartialSum(s, w, a, row, col, from, to);
    OneCellAdded(s, w, a, Numbers(init, s.m * s.n), Numbers(mem[..], s.m * s.n), cell, b, from, to, row, col);
    assert cell[row][col] == row * s.n + col;
    AddTo(mem, s.m * s.n, row * s.n + col, sum);
  }

  /** One row of a tile. */
  method AddRow(s: Shape, w: seq<real>, a: seq<real>, mem: array<Cell>, ghost cell: seq<seq<nat>>,
                ghost init: seq<Cell>, b: Block, from: nat, to: nat, row: nat)
    requires Within(s, b) && from <= to <= s.k && b.top <= row < b.bottom
    requires HoldsWithin(s, w, a, mem, cell, init, b, from, to, row, b.left)
    modifies mem
    ensures HoldsWithin(s, w, a, mem, cell, init, b, from, to, row + 1, b.left)
  {
    var col := b.left;
    while col < b.right
      invariant b.left <= col <= b.right && HoldsWithin(s, w, a, mem, cell, init, b, from, to, row, col)
    {
      AddCell(s, w, a, mem, cell, init, b, from, to, row, col);
      col := col + 1;
    }
    RowAdded(s, w, a, Numbers(init, s.m * s.n), Numbers(mem[..], s.m * s.n), cell, b, from, to, row);
  }

  lemma TileBegins(s: Shape, w: seq<real>, a: seq<real>, mem: array<Cell>, cell: seq<seq<nat>>, init: seq<Cell>,
                   b: Block, from: nat, to: nat)
    requires Within(s, b) && Holds(s, w, a, mem, cell, init, b, from)
    ensures HoldsWithin(s, w, a, mem, cell, init, b, from, to, b.top, b.left)
  {
    TileEnds(s, w, a, Numbers(init, s.m * s.n), Numbers(mem[..], s.m * s.n), cell, b, from, to);
  }

  lemma TileAdded(s: Shape, w: seq<real>, a: seq<real>, mem: array<Cell>, cell: seq<seq<nat>>, init: seq<Cell>,
                  b: Block, from: nat, to: nat)
    requires Within(s, b) && HoldsWithin(s, w, a, mem, cell, init, b, from, to, b.bottom, b.left)
    ensures Holds(s, w, a, mem, cell, init, b, to)
  {
    TileEnds(s, w, a, Numbers(init, s.m * s.n), Numbers(mem[..], s.m * s.n), cell, b, from, to);
  }

  /** Adds one tile's partial products to a block of the output. */
  method AddTile(s: Shape, w: seq<real>, a: seq<real>, mem: array<Cell>, ghost cell: seq<seq<nat>>,
                 ghost init: seq<Cell>, b: Block, from: nat, to: nat)
    requires Within(s, b) && from <= to <= s.k && Holds(s, w, a, mem, cell, init, b, from)
    modifies mem
    ensures Holds(s, w, a, mem, cell, init, b, to)
  {
    TileBegins(s, w, a, mem, cell, init, b, from, to);
    var row := b.top;
    while row < b.bottom
      invariant b.top <= row <= b.bottom && HoldsWithin(s, w, a, mem, cell, init, b, from, to, row, b.left)
    {
      AddRow(s, w, a, mem, cell, init, b, from, to, row);
      row := row + 1;
    }
    TileAdded(s, w, a, mem, cell, init, b, from, to);
  }

  /** Number of tiles along one dimension. */
  function Tiles(extent: nat, width: nat): nat
    requires width > 0
  {
    Div(extent + width - 1, width)
  }

  /** Where a tile begins: tiles follow one another until the extent is reached. */
  function TileStart(extent: nat, width: nat, tile: nat): (r: nat)
    ensures r <= extent
  {
    if tile == 0 then 0 else Min(TileStart(extent, width, tile - 1) + width, extent)
  }

  lemma {:induction false} TileStartIs(extent: nat, width: nat, tile: nat)
    ensures TileStart(extent, width, tile) == if tile * width < extent then tile * width else extent
  {
    if tile > 0 {
      TileStartIs(extent, width, tile - 1);
      AddOneTimes(tile - 1, width);
    }
  }

  /** The tiles counted by rounding up cover the extent: each begins inside it, and after the last it is reached. */
  lemma TilesCover(extent: nat, width: nat, tile: nat)
    requires width > 0
    ensures tile < Tiles(extent, width) ==> TileStart(extent, width, tile) == tile * width < extent
    ensures tile >= Tiles(extent, width) ==> TileStart(extent, width, tile) == extent
  {
    TileStartIs(extent, width, tile);
    DivBelow(extent + width - 1, width, tile + 1);
    DivBelow(extent + width - 1, width, tile);
    AddOneTimes(tile, width);
  }

  /** Where a tile begins and ends. */
  method TileBounds(extent: nat, width: nat, tile: nat) returns (from: nat, to: nat)
    requires width > 0 && tile < Tiles(extent, width)
    ensures from == TileStart(extent, width, tile) && to == TileStart(extent, width, tile + 1) && from <= to <= extent
  {
    TilesCover(extent, width, tile);
    TileStartIs(extent, width, tile + 1);
    from := tile * width;
    to := if (tile + 1) * width < extent then (tile + 1) * width else extent;
  }

  /** All tiles of one block of output cells. */
  method BlockTiles(s: Shape, w: seq<real>, a: seq<real>, mem: array<Cell>, ghost cell: seq<seq<nat>>,
                    ghost init: seq<Cell>, b: Block, width: nat) returns (flops: nat)
    requires Within(s, b) && width > 0 && Holds(s, w, a, mem, cell, init, b, 0)
    modifies mem
    ensures Holds(s, w, a, mem, cell, init, b, s.k)
    ensures flops == Flops(b.bottom - b.top, b.right - b.left, s.k)
  {
    flops := 0;
    NoFlops(b.bottom - b.top, b.right - b.left, 0);
    for t := 0 to Tiles(s.k, width)
      invariant Holds(s, w, a, mem, cell, init, b, TileStart(s.k, width, t))
      invariant flops == Flops(b.bottom - b.top, b.right - b.left, TileStart(s.k, width, t))
    {
      var from, to := TileBounds(s.k, width, t);
      AddTile(s, w, a, mem, cell, init, b, from, to);
      FlopsAdd(b.bottom - b.top, 0, b.right - b.left, 0, from, to - from);
      flops := flops + Flops(b.bottom - b.top, b.right - b.left, to - from);
    }
    TilesCover(s.k, width, Tiles(s.k, width));
  }

  /** Rows of a strip are complete up to a column. */
  lemma StripAdvances(s: Shape, w: seq<real>, a: seq<real>, init: seq<real>, o: seq<real>, cell: seq<seq<nat>>,
                      b: Block, right: nat)
    requires Numbering(cell, s.m, s.n, |o|) && |init| == |o| && Within(s, b) && b.right <= right
    requires Accumulated(s, w, a, init, o, cell, b, s.k)
    ensures Accumulated(s, w, a, init, o, cell, Block(b.top, b.bottom, b.right, right), 0)
  {
    forall i, j | 0 <= i < s.m && 0 <= j < s.n
      ensures Level(s, b, s.k, i, j) == Level(s, Block(b.top, b.bottom, b.right, right), 0, i, j)
    {
    }
  }

  /** A whole strip done is the next strip begun. */
  lemma StripComplete(s: Shape, w: seq<real>, a: seq<real>, init: seq<real>, o: seq<real>, cell: seq<seq<nat>>,
                      b: Block, bottom: nat, right: nat)
    requires Numbering(cell, s.m, s.n, |o|) && |init| == |o| && Within(s, b) && b.left == s.n
    requires Accumulated(s, w, a, init, o, cell, b, 0)
    ensures Accumulated(s, w, a, init, o, cell, Block(b.bottom, bottom, 0, right), 0)
  {
    forall i, j | 0 <= i < s.m && 0 <= j < s.n
      ensures Level(s, b, 0, i, j) == Level(s, Block(b.bottom, bottom, 0, right), 0, i, j)
    {
    }
  }

  /** An empty block and any block right of it leave the same to do. */
  lemma BlockBegins(s: Shape, w: seq<real>, a: seq<real>, init: seq<real>, o: seq<real>, cell: seq<seq<nat>>,
                    b: Block, right: nat)
    requires Numbering(cell, s.m, s.n, |o|) && |init| == |o| && Within(s, b) && b.left == b.right
    requires Accumulated(s, w, a, init, o, cell, b, 0)
    ensures Accumulated(s, w, a, init, o, cell, b.(right := right), 0)
  {
    forall i, j | 0 <= i < s.m && 0 <= j < s.n
      ensures Level(s, b, 0, i, j) == Level(s, b.(right := right), 0, i, j)
    {
    }
  }

  /** One block of a strip. */
  method StripBlock(s: Shape, w: seq<real>, a: seq<real>, mem: array<Cell>, ghost cell: seq<seq<nat>>,
                    ghost init: seq<Cell>, b: Block, width: nat) returns (flops: nat)
    requires Within(s, b) && width > 0 && Holds(s, w, a, mem, cell, init, Block(b.top, b.bottom, b.left, b.left), 0)
    modifies mem
    ensures Holds(s, w, a, mem, cell, init, Block(b.top, b.bottom, b.right, b.right), 0)
    ensures flops == Flops(b.bottom - b.top, b.right - b.left, s.k)
  {
    ghost var n, empty := s.m * s.n, Block(b.top, b.bottom, b.left, b.left);
    BlockBegins(s, w, a, Numbers(init, n), Numbers(mem[..], n), cell, empty, b.right);
    flops := BlockTiles(s, w, a, mem, cell, init, b, width);
    StripAdvances(s, w, a, Numbers(init, n), Numbers(mem[..], n), cell, b, b.right);
  }

  /** The empty block at which a strip stands before a tile. */
  function StripEdge(s: Shape, top: nat, bottom: nat, width: nat, tile: nat): Block
  {
    Block(top, bottom, TileStart(s.n, width, tile), TileStart(s.n, width, tile))
  }

  /** All blocks of one strip of rows. */
  method StripTiles(s: Shape, w: seq<real>, a: seq<real>, mem: array<Cell>, ghost cell: seq<seq<nat>>,
                    ghost init: seq<Cell>, top: nat, bottom: nat, width: nat) returns (flops: nat)
    requires top <= bottom <= s.m && width > 0 && Holds(s, w, a, mem, cell, init, Block(top, bottom, 0, 0), 0)
    modifies mem
    ensures Holds(s, w, a, mem, cell, init, Block(bottom, bottom, 0, 0), 0)
    ensures flops == Flops(bottom - top, s.n, s.k)
  {
    flops := 0;
    NoFlops(bottom - top, 0, s.k);
    for t := 0 to Tiles(s.n, width)
      invariant Holds(s, w, a, mem, cell, init, StripEdge(s, top, bottom, width, t), 0)
      invariant flops == Flops(bottom - top, TileStart(s.n, width, t), s.k)
    {
      var left, right := TileBounds(s.n, width, t);
      var block := StripBlock(s, w, a, mem, cell, init, Block(top, bottom, left, right), width);
      FlopsAdd(bottom - top, 0, left, right - left, s.k, 0);
      flops := flops + block;
    }
    TilesCover(s.n, width, Tiles(s.n, width));
    ghost var n := s.m * s.n;
    StripComplete(s, w, a, Numbers(init, n), Numbers(mem[..], n), cell, Block(top, bottom, s.n, s.n), bottom, 0);
  }

  /** An empty strip and any strip below it leave the same to do. */
  lemma StripBegins(s: Shape, w: seq<real>, a: seq<real>, init: seq<real>, o: seq<real>, cell: seq<seq<nat>>,
                    top: nat, bottom: nat)
    requires Numbering(cell, s.m, s.n, |o|) && |init| == |o| && top <= bottom <= s.m
    requires Accumulated(s, w, a, init, o, cell, Block(top, top, 0, 0), 0)
    ensures Accumulated(s, w, a, init, o, cell, Block(top, bottom, 0, 0), 0)
  {
    forall i, j | 0 <= i < s.m && 0 <= j < s.n
      ensures Level(s, Block(top, top, 0, 0), 0, i, j) == Level(s, Block(top, bottom, 0, 0), 0, i, j)
    {
    }
  }

  /** The matrix product of W and A added to what the output held, row-major. */
  ghost function ProductAdded(s: Shape, w: seq<real>, a: seq<real>, init: seq<real>): (o: seq<real>)
    requires |init| == s.m * s.n
    ensures |o| == |init|
  {
    seq(|init|, x requires 0 <= x < |init| =>
      GridCovers(s.m, s.n, x);
      init[x] + Dot(s, w, a, Div(x, s.n), Rem(x, s.n), s.k))
  }

  /** All strips of the output. */
  method AllTiles(s: Shape, w: seq<real>, a: seq<real>, mem: array<Cell>, ghost cell: seq<seq<nat>>,
                  ghost init: seq<Cell>, peRows: nat, peCols: nat) returns (flops: nat)
    requires peRows > 0 && peCols > 0 && Holds(s, w, a, mem, cell, init, Block(0, 0, 0, 0), 0)
    modifies mem
    ensures Holds(s, w, a, mem, cell, init, Block(s.m, s.m, 0, 0), 0)
    ensures flops == Flops(s.m, s.n, s.k)
  {
    flops := 0;
    NoFlops(0, s.n, s.k);
    for t := 0 to Tiles(s.m, peRows)
      invariant Holds(s, w, a, mem, cell, init, Block(TileStart(s.m, peRows, t), TileStart(s.m, peRows, t), 0, 0), 0)
      invariant flops == Flops(TileStart(s.m, peRows, t), s.n, s.k)
    {
      var top, bottom := TileBounds(s.m, peRows, t);
      StripBegins(s, w, a, Numbers(init, s.m * s.n), Numbers(mem[..], s.m * s.n), cell, top, bottom);
      var strip := StripTiles(s, w, a, mem, cell, init, top, bottom, peCols);
      FlopsAdd(top, bottom - top, s.n, 0, s.k, 0);
      flops := flops + strip;
    }
    TilesCover(s.m, peRows, Tiles(s.m, peRows));
  }

  /**
   The tiled multiplication, in place: whatever the tile sizes, every output number gains its full product exactly
   once, memory beyond the output stays, and the operations counted are two per scalar product.
   */
  method Multiply(s: Shape, w: seq<real>, a: seq<real>, mem: array<Cell>, peRows: nat, peCols: nat)
    returns (flops: nat)
    requires |w| == s.m * s.k && |a| == s.k * s.n && FullWidth(mem[..], s.m * s.n) && peRows > 0 && peCols > 0
    modifies mem
    ensures FullWidth(mem[..], s.m * s.n) && SameBeyond(old(mem[..]), mem[..], s.m * s.n)
    ensures Numbers(mem[..], s.m * s.n) == ProductAdded(s, w, a, Numbers(old(mem[..]), s.m * s.n))
    ensures flops == 2 * (s.m * s.n * s.k)
  {
    ghost var cell, init, n := Grid(s.m, s.n), mem[..], s.m * s.n;
    GridNumbers(s.m, s.n);
    NothingYet(s, w, a, Numbers(init, n), cell);
    flops := AllTiles(s, w, a, mem, cell, init, peRows, peCols);
    ProductComplete(s, w, a, Numbers(init, n), Numbers(mem[..], n), cell);
  }

  /** Before the first strip nothing has been added. */
  lemma NothingYet(s: Shape, w: seq<real>, a: seq<real>, init: seq<real>, cell: seq<seq<nat>>)
    requires Numbering(cell, s.m, s.n, |init|)
    ensures Accumulated(s, w, a, init, init, cell, Block(0, 0, 0, 0), 0)
  {
  }

  /** All cells complete. */
  lemma ProductComplete(s: Shape, w: seq<real>, a: seq<real>, init: seq<real>, o: seq<real>, cell: seq<seq<nat>>)
    requires cell == Grid(s.m, s.n) && |init| == |o| == s.m * s.n && Numbering(cell, s.m, s.n, |o|)
    requires Accumulated(s, w, a, init, o, cell, Block(s.m, s.m, 0, 0), 0)
    ensures o == ProductAdded(s, w, a, init)
  {
    forall x | 0 <= x < |o|
      ensures o[x] == ProductAdded(s, w, a, init)[x]
    {
      GridCovers(s.m, s.n, x);
      var i, j := Div(x, s.n), Rem(x, s.n);
      assert cell[i][j] == x && Level(s, Block(s.m, s.m, 0, 0), 0, i, j) == s.k;
    }
  }

  // ----- Element widths -----

  /** The full-width number at a place is the widened half-width one of the source. */
  ghost predicate WidenedAt(mem: array<Cell>, source: seq<Cell>, i: nat)
    requires 2 * i + 1 < mem.Length && i < |source|
    reads mem
  {
    mem[2 * i] == Low(source[i].v) && mem[2 * i + 1] == High(source[i].v)
  }

  /** Expands half-width numbers at the start of a buffer to full width, from the last to the first. */
  method Widen(mem: array<Cell>, rows: nat, cols: nat)
    requires 2 * (rows * cols) <= mem.Length
    modifies mem
    ensures forall i :: 0 <= i < rows * cols ==> WidenedAt(mem, old(mem[..]), i)
    ensures forall i :: 2 * (rows * cols) <= i < mem.Length ==> mem[i] == old(mem[i])
  {
    ghost var source := mem[..];
    var m: nat, start: nat := rows, rows * cols;
    while m > 0
      invariant m <= rows && start == m * cols <= rows * cols
      invariant forall i :: start <= i < rows * cols ==> WidenedAt(mem, source, i)
      invariant forall i :: 0 <= i < mem.Length && (i < 2 * start || i >= 2 * (rows * cols)) ==> mem[i] == source[i]
    {
      m := m - 1;
      AddOneTimes(m, cols);
      label Before:
      WidenRow(mem, start - cols, start, source);
      forall i | start <= i < rows * cols
        ensures WidenedAt(mem, source, i)
      {
        assert old@Before(WidenedAt(mem, source, i));
      }
      start := start - cols;
    }
  }

  /** One row of the expansion. */
  method WidenRow(mem: array<Cell>, start: nat, end: nat, ghost source: seq<Cell>)
    requires start <= end && 2 * end <= mem.Length == |source|
    requires forall i :: start <= i < end ==> mem[i] == source[i]
    modifies mem
    ensures forall i :: start <= i < end ==> WidenedAt(mem, source, i)
    ensures forall i :: 0 <= i < mem.Length && (i < 2 * start || i >= 2 * end) ==> mem[i] == old(mem[i])
  {
    var n: nat := end;
    while n > start
      invariant start <= n <= end
      invariant forall i :: n <= i < end ==> WidenedAt(mem, source, i)
      invariant forall i :: 0 <= i < mem.Length && (i < 2 * n || i >= 2 * end) ==> mem[i] == old(mem[i])
    {
      label Before:
      var x := mem[n - 1].v;
      mem[2 * (n - 1)] := Low(x);
      mem[2 * (n - 1) + 1] := High(x);
      forall i | n <= i < end
        ensures WidenedAt(mem, source, i)
      {
        assert old@Before(WidenedAt(mem, source, i));
      }
      n := n - 1;
    }
  }

  /** The half-width numbers at the start of a buffer. */
  ghost function Halves(mem: seq<Cell>, count: nat): (r: seq<real>)
    requires count <= |mem|
    ensures |r| == count && forall i :: 0 <= i < count ==> r[i] == mem[i].v
  {
    seq(count, i requires 0 <= i < count => mem[i].v)
  }

  /**
   The multiplication with bias, in one buffer throughout: half-width biases widened in place, plus the matrix product.
   */
  method MultiplyWithBias(s: Shape, w: seq<real>, a: seq<real>, mem: array<Cell>, peRows: nat, peCols: nat)
    returns (flops: nat)
    requires |w| == s.m * s.k && |a| == s.k * s.n && 2 * (s.m * s.n) <= mem.Length && peRows > 0 && peCols > 0
    modifies mem
    ensures FullWidth(mem[..], s.m * s.n) && SameBeyond(old(mem[..]), mem[..], s.m * s.n)
    ensures Numbers(mem[..], s.m * s.n) == ProductAdded(s, w, a, Halves(old(mem[..]), s.m * s.n))
    ensures flops == 2 * (s.m * s.n * s.k)
  {
    ghost var source, n := mem[..], s.m * s.n;
    Widen(mem, s.m, s.n);
    forall x | 0 <= x < n
      ensures FullAt(mem[..], x) && mem[2 * x].v == source[x].v
    {
      assert WidenedAt(mem, source, x);
    }
    assert Numbers(mem[..], n) == Halves(source, n);
    flops := Multiply(s, w, a, mem, peRows, peCols);
  }

  /** Packs full-width numbers at the start of a buffer to half width, from the first to the last. */
  method Narrow(mem: array<Cell>, count: nat)
    requires 2 * count <= mem.Length
    modifies mem
    ensures forall i :: 0 <= i < count ==> mem[i] == Half(old(mem[2 * i].v))
    ensures forall i :: count <= i < mem.Length ==> mem[i] == old(mem[i])
  {
    ghost var source := mem[..];
    for i := 0 to count
      invariant forall k :: 0 <= k < i ==> mem[k] == Half(source[2 * k].v)
      invariant forall k :: i <= k < mem.Length ==> mem[k] == source[k]
    {
      mem[i] := Half(mem[2 * i].v);
    }
  }

  /** Expanding one number of a buffer. */
  function Widened(mem: seq<Cell>, i: nat): seq<Cell>
    requires 2 * i + 1 < |mem|
  {
    mem[2 * i := Low(mem[i].v)][2 * i + 1 := High(mem[i].v)]
  }

  /** The order matters: expanding from the first to the last destroys the second number before it is read. */
  lemma AscendingClobbers(mem: seq<Cell>)
    requires |mem| == 4 && mem[0].v != mem[1].v
    ensures Widened(Widened(mem, 1), 0) == [Low(mem[0].v), High(mem[0].v), Low(mem[1].v), High(mem[1].v)]
    ensures Widened(Widened(mem, 0), 1) != [Low(mem[0].v), High(mem[0].v), Low(mem[1].v), High(mem[1].v)]
  {
    assert Widened(Widened(mem, 0), 1)[2] == Low(mem[0].v);
  }
}
