/**
 Admission of a descriptor's SRAM addresses, against the bytes its copy loop touches.
 */
module SramSpans {
  import opened Words
  import opened Descriptor

  /** One contiguous copy inside a transfer: `length` bytes from offset `from` to offset `to`. */
  datatype Piece = Piece(from: nat, to: nat, length: nat)

  // ----- The engine's check -----

  /** The size of a region; a handle that names none has no bytes. */
  function SizeOf(sizes: seq<nat>, region: nat): nat
  {
    if region < |sizes| then sizes[region] else 0
  }

  /** A result that must fit 64 bits. */
  function Checked(x: nat): Option<nat> { if x <= U64_MAX then Some(x) else None }

  function MulChecked(a: nat, b: nat): Option<nat> { Checked(a * b) }

  function AddChecked(a: nat, b: nat): Option<nat> { Checked(a + b) }

  function Chain(a: Option<nat>, b: Option<nat>): Option<nat>
  {
    if a.Some? && b.Some? then AddChecked(a.value, b.value) else None
  }

  predicate RangeFits(sizes: seq<nat>, region: Option<nat>, offset: nat, bytes: nat)
  {
    region.Some? ==>
      offset <= SizeOf(sizes, region.value) && bytes <= SizeOf(sizes, region.value) - offset
  }

  predicate EndFits(sizes: seq<nat>, region: nat, end: Option<nat>)
  {
    end.Some? && end.value <= SizeOf(sizes, region)
  }

  predicate Strided2DFits(sizes: seq<nat>, s: Side, rows: nat, rowBytes: nat)
  {
    s.region.Some? && rows != 0 && rowBytes != 0 ==>
      EndFits(sizes, s.region.value,
              Chain(Chain(Some(s.base), MulChecked(rows - 1, s.rowStride)), Some(rowBytes)))
  }

  predicate Strided3DFits(sizes: seq<nat>, s: Side, depth: nat, rows: nat, rowBytes: nat)
  {
    s.region.Some? && depth != 0 && rows != 0 && rowBytes != 0 ==>
      EndFits(sizes, s.region.value,
              Chain(Chain(Chain(Some(s.base), MulChecked(depth - 1, s.depthStride)),
                          MulChecked(rows - 1, s.rowStride)), Some(rowBytes)))
  }

  predicate EndpointsPresent(d: Desc)
  {
    if d.shape == Multicast then d.direction == HostToTu
    else match d.direction
      case HostToTu => d.dst.region.Some?
      case TuToHost => d.src.region.Some?
      case TuToTu => d.src.region.Some? && d.dst.region.Some?
  }

  predicate SpansValid(sizes: seq<nat>, d: Desc)
  {
    EndpointsPresent(d) &&
    match d.shape
    case Strided2D =>
      Strided2DFits(sizes, d.src, d.dim0, d.elemSize * d.dim1) &&
      Strided2DFits(sizes, d.dst, d.dim0, d.elemSize * d.dim1)
    case Strided3D =>
      Strided3DFits(sizes, d.src, d.dim0, d.dim1, d.elemSize * d.dim2) &&
      Strided3DFits(sizes, d.dst, d.dim0, d.dim1, d.elemSize * d.dim2)
    case Scatter => IndexedFits(sizes, d, d.dst.region)
    case Gather => IndexedFits(sizes, d, d.src.region)
    case Multicast =>
      && (d.targets != [] ==> d.hasTargets)
      && forall i :: 0 <= i < |d.targets| ==>
           && d.targets[i].region.Some?
           && RangeFits(sizes, d.targets[i].region, d.targets[i].offset, d.dim0 * d.elemSize)
    case Linear =>
      RangeFits(sizes, d.src.region, d.src.base, d.totalBytes) &&
      RangeFits(sizes, d.dst.region, d.dst.base, d.totalBytes)
  }

  predicate IndexedFits(sizes: seq<nat>, d: Desc, region: Option<nat>)
  {
    && (region.None? ==> d.index == [])
    && (d.index != [] ==> d.hasIndex)
    && d.indexElemSize == d.elemSize
    && forall i :: 0 <= i < |d.index| ==> RangeFits(sizes, region, d.index[i], d.elemSize)
  }

  // ----- What the copy loops touch -----

  /** The bytes of one row as the geometry means them. */
  function MeantRowBytes(d: Desc): nat
  {
    match d.shape
    case Strided2D => d.elemSize * d.dim1
    case Strided3D => d.elemSize * d.dim2
    case Multicast => d.dim0 * d.elemSize
    case Linear => d.totalBytes
    case _ => d.elemSize
  }

  /** The bytes of one row as the copy loops compute them, in 32 bits. */
  function RowBytes(d: Desc): nat
  {
    Wrap32(MeantRowBytes(d))
  }

  function PieceCount(d: Desc): nat
  {
    match d.shape
    case Strided2D => d.dim0
    case Strided3D => d.dim0 * d.dim1
    case Multicast => |d.targets|
    case Linear => 1
    case _ => |d.index|
  }

  function Offset2D(s: Side, r: nat): nat
  {
    s.base + r * s.rowStride
  }

  function Offset3D(s: Side, z: nat, r: nat): nat
  {
    s.base + z * s.depthStride + r * s.rowStride
  }

  /** The k-th copy of a host/TU transfer. The host offset of an indexed element is a 32-bit product. */
  function PieceAt(d: Desc, k: nat): Piece
    requires k < PieceCount(d)
  {
    var w := RowBytes(d);
    match d.shape
    case Strided2D => Piece(Offset2D(d.src, k), Offset2D(d.dst, k), w)
    case Strided3D =>
      if d.dim1 == 0 then Piece(0, 0, 0)
      else
        var zr := SliceRow(d.dim1, k);
        Piece(Offset3D(d.src, zr.0, zr.1), Offset3D(d.dst, zr.0, zr.1), w)
    case Multicast => Piece(0, d.targets[k].offset, w)
    case Linear => Piece(d.src.base, d.dst.base, w)
    case Scatter => Piece(Wrap32(k * d.elemSize), d.index[k], w)
    case Gather => Piece(d.index[k], Wrap32(k * d.elemSize), w)
  }

  function Pieces(d: Desc): (ps: seq<Piece>)
    ensures |ps| == PieceCount(d)
    ensures forall k :: 0 <= k < |ps| ==> ps[k] == PieceAt(d, k)
  {
    seq(PieceCount(d), k requires 0 <= k < PieceCount(d) => PieceAt(d, k))
  }

  /** The SRAM offset of a piece. */
  function NearOffset(d: Desc, p: Piece): nat
  {
    if d.direction == TuToHost then p.from else p.to
  }

  /** The region a piece touches. */
  function NearRegion(d: Desc, k: nat): Option<nat>
    requires k < PieceCount(d)
  {
    if d.shape == Multicast then d.targets[k].region else SramSide(d).region
  }

  predicate Covers(start: nat, length: nat, address: nat)
  {
    start <= address < start + length
  }

  /** Every SRAM byte a copy touches exists in its region. */
  ghost predicate TouchesOnlyRegions(sizes: seq<nat>, d: Desc)
  {
    forall k: nat, a: nat :: k < PieceCount(d) && Covers(NearOffset(d, PieceAt(d, k)), RowBytes(d), a) ==>
      NearRegion(d, k).Some? && a < SizeOf(sizes, NearRegion(d, k).value)
  }

  /** If there is a row to copy, its 32-bit width is its real width. */
  predicate RowWidthExact(d: Desc)
  {
    PieceCount(d) > 0 ==> RowBytes(d) == MeantRowBytes(d)
  }

  /** Checks of a single range also want the region, and the start of an empty range to be no further than its end. */
  ghost predicate StartsInRegions(sizes: seq<nat>, d: Desc)
  {
    d.shape != Strided2D && d.shape != Strided3D ==>
      forall k: nat :: k < PieceCount(d) ==>
        NearRegion(d, k).Some? && NearOffset(d, PieceAt(d, k)) <= SizeOf(sizes, NearRegion(d, k).value)
  }

  // ----- Admission is exact -----

  /** Byte by byte or end by end. */
  lemma EndsDecide(sizes: seq<nat>, d: Desc)
    ensures TouchesOnlyRegions(sizes, d) <==>
              (RowBytes(d) == 0 || forall k: nat :: k < PieceCount(d) ==>
                 && NearRegion(d, k).Some?
                 && NearOffset(d, PieceAt(d, k)) + RowBytes(d) <= SizeOf(sizes, NearRegion(d, k).value))
  {
    if TouchesOnlyRegions(sizes, d) && RowBytes(d) > 0 {
      forall k: nat | k < PieceCount(d)
        ensures NearRegion(d, k).Some?
        ensures NearOffset(d, PieceAt(d, k)) + RowBytes(d) <= SizeOf(sizes, NearRegion(d, k).value)
      {
        var start := NearOffset(d, PieceAt(d, k));
        assert Covers(start, RowBytes(d), start + RowBytes(d) - 1);
      }
    }
  }

  // A region's size is below 2^64, so a sum that leaves 64 bits lies outside it, like any other that is too large.

  lemma TwoTermEnd(sizes: seq<nat>, region: nat, base: nat, rows: nat, bytes: nat)
    requires SizeOf(sizes, region) < U32
    ensures EndFits(sizes, region, Chain(Chain(Some(base), Checked(rows)), Some(bytes)))
       <==> base + rows + bytes <= SizeOf(sizes, region)
  {
  }

  lemma ThreeTermEnd(sizes: seq<nat>, region: nat, base: nat, slices: nat, rows: nat, bytes: nat)
    requires SizeOf(sizes, region) < U32
    ensures EndFits(sizes, region, Chain(Chain(Chain(Some(base), Checked(slices)), Checked(rows)), Some(bytes)))
       <==> base + slices + rows + bytes <= SizeOf(sizes, region)
  {
  }

  /** The last row of a 2D span is its furthest. */
  lemma LastRowFurthest(s: Side, rows: nat, r: nat)
    requires r < rows
    ensures Offset2D(s, r) <= Offset2D(s, rows - 1)
  {
    MulMonotone(r, rows - 1, s.rowStride);
  }

  /** The last row of the last slice of a 3D span is its furthest. */
  lemma LastSliceFurthest(s: Side, depth: nat, rows: nat, z: nat, r: nat)
    requires z < depth && r < rows
    ensures Offset3D(s, z, r) <= Offset3D(s, depth - 1, rows - 1)
  {
    MulMonotone(z, depth - 1, s.depthStride);
    MulMonotone(r, rows - 1, s.rowStride);
  }

  /** The check of a 2D span looks at its last row. */
  lemma CheckedRow(sizes: seq<nat>, s: Side, rows: nat, rowBytes: nat)
    requires s.region.Some? && SizeOf(sizes, s.region.value) < U32 && rows > 0 && rowBytes > 0
    ensures Strided2DFits(sizes, s, rows, rowBytes)
       <==> Offset2D(s, rows - 1) + rowBytes <= SizeOf(sizes, s.region.value)
  {
    TwoTermEnd(sizes, s.region.value, s.base, (rows - 1) * s.rowStride, rowBytes);
  }

  /** The check of a 3D span looks at the last row of its last slice. */
  lemma CheckedSlice(sizes: seq<nat>, s: Side, depth: nat, rows: nat, rowBytes: nat)
    requires s.region.Some? && SizeOf(sizes, s.region.value) < U32 && depth > 0 && rows > 0 && rowBytes > 0
    ensures Strided3DFits(sizes, s, depth, rows, rowBytes)
       <==> Offset3D(s, depth - 1, rows - 1) + rowBytes <= SizeOf(sizes, s.region.value)
  {
    ThreeTermEnd(sizes, s.region.value, s.base, (depth - 1) * s.depthStride, (rows - 1) * s.rowStride, rowBytes);
  }

  /** The last row decides a 2D span. */
  lemma LastRowDecides(sizes: seq<nat>, s: Side, rows: nat, rowBytes: nat)
    requires s.region.Some? && SizeOf(sizes, s.region.value) < U32
    ensures Strided2DFits(sizes, s, rows, rowBytes) <==>
              forall r: nat :: r < rows && rowBytes > 0 ==>
                Offset2D(s, r) + rowBytes <= SizeOf(sizes, s.region.value)
  {
    if rows > 0 && rowBytes > 0 {
      CheckedRow(sizes, s, rows, rowBytes);
      forall r: nat | r < rows
        ensures Offset2D(s, r) <= Offset2D(s, rows - 1)
      {
        LastRowFurthest(s, rows, r);
      }
    }
  }

  /** The last row of the last slice decides a 3D span. */
  lemma LastSliceDecides(sizes: seq<nat>, s: Side, depth: nat, rows: nat, rowBytes: nat)
    requires s.region.Some? && SizeOf(sizes, s.region.value) < U32
    ensures Strided3DFits(sizes, s, depth, rows, rowBytes) <==>
              forall z: nat, r: nat :: z < depth && r < rows && rowBytes > 0 ==>
                Offset3D(s, z, r) + rowBytes <= SizeOf(sizes, s.region.value)
  {
    if depth > 0 && rows > 0 && rowBytes > 0 {
      CheckedSlice(sizes, s, depth, rows, rowBytes);
      forall z: nat, r: nat | z < depth && r < rows
        ensures Offset3D(s, z, r) <= Offset3D(s, depth - 1, rows - 1)
      {
        LastSliceFurthest(s, depth, rows, z, r);
      }
    }
  }

  lemma RowIndex(rows: nat, depth: nat, z: nat, r: nat)
    requires z < depth && r < rows
    ensures z * rows + r < depth * rows
    ensures SliceRow(rows, z * rows + r) == (z, r)
  {
    MulMonotone(z + 1, depth, rows);
    AddOneTimes(z, rows);
    DivModUnique(z, rows, r);
  }

  /** Quantifying over rows of slices or over the flat row number is the same. */
  lemma FlatRows(d: Desc, size: nat)
    requires d.shape == Strided3D
    ensures (forall z: nat, r: nat :: z < d.dim0 && r < d.dim1 ==> Offset3D(SramSide(d), z, r) + RowBytes(d) <= size)
       <==> (forall k: nat :: k < PieceCount(d) ==> NearOffset(d, PieceAt(d, k)) + RowBytes(d) <= size)
  {
    if forall k: nat :: k < PieceCount(d) ==> NearOffset(d, PieceAt(d, k)) + RowBytes(d) <= size {
      forall z: nat, r: nat | z < d.dim0 && r < d.dim1
        ensures Offset3D(SramSide(d), z, r) + RowBytes(d) <= size
      {
        RowIndex(d.dim1, d.dim0, z, r);
        assert NearOffset(d, PieceAt(d, z * d.dim1 + r)) == Offset3D(SramSide(d), z, r);
      }
    } else {
      var k: nat :| k < PieceCount(d) && NearOffset(d, PieceAt(d, k)) + RowBytes(d) > size;
      NonzeroFactors(d.dim0, d.dim1, k);
      DivBelow(k, d.dim1, d.dim0);
      assert NearOffset(d, PieceAt(d, k)) == Offset3D(SramSide(d), SliceRow(d.dim1, k).0, SliceRow(d.dim1, k).1);
    }
  }

  lemma NonzeroFactors(a: nat, b: nat, k: nat)
    requires k < a * b
    ensures a > 0 && b > 0
  {
  }

  /**
   A built descriptor is admitted iff it is a multicast or its direction's SRAM side names a region, its row width
   does not wrap, and every byte its copy loop touches lies in its region.
   */
  lemma AdmissionExact(sizes: seq<nat>, d: Desc)
    requires Built(d) && forall i :: 0 <= i < |sizes| ==> sizes[i] < U32
    ensures SpansValid(sizes, d) <==>
              && (d.shape == Multicast
                  || (d.direction == HostToTu && d.dst.region.Some?)
                  || (d.direction == TuToHost && d.src.region.Some?))
              && RowWidthExact(d) && TouchesOnlyRegions(sizes, d) && StartsInRegions(sizes, d)
  {
    if EndpointsPresent(d) {
      EndsDecide(sizes, d);
      match d.shape
      case Strided2D => Admission2D(sizes, d);
      case Strided3D => Admission3D(sizes, d);
      case Multicast => AdmissionMulticast(sizes, d);
      case Linear => AdmissionLinear(sizes, d);
      case _ => AdmissionIndexed(sizes, d);
    }
  }

  lemma Admission2D(sizes: seq<nat>, d: Desc)
    requires Built(d) && d.shape == Strided2D && SramSide(d).region.Some?
    requires SizeOf(sizes, SramSide(d).region.value) < U32 && d.direction != TuToTu
    ensures Strided2DFits(sizes, d.src, d.dim0, d.elemSize * d.dim1)
         && Strided2DFits(sizes, d.dst, d.dim0, d.elemSize * d.dim1)
       <==> RowWidthExact(d) &&
            (RowBytes(d) == 0 || forall k: nat :: k < PieceCount(d) ==>
               NearOffset(d, PieceAt(d, k)) + RowBytes(d) <= SizeOf(sizes, SramSide(d).region.value))
  {
    var side, w := SramSide(d), MeantRowBytes(d);
    LastRowDecides(sizes, side, d.dim0, w);
    FlatRows2D(d, w, SizeOf(sizes, side.region.value));
    if d.dim0 > 0 && w > 0 && Strided2DFits(sizes, side, d.dim0, w) {
      assert Offset2D(side, 0) + w <= SizeOf(sizes, side.region.value);
    }
  }

  lemma FlatRows2D(d: Desc, w: nat, size: nat)
    requires d.shape == Strided2D
    ensures (forall r: nat :: r < d.dim0 ==> Offset2D(SramSide(d), r) + w <= size)
       <==> (forall k: nat :: k < PieceCount(d) ==> NearOffset(d, PieceAt(d, k)) + w <= size)
  {
    forall k: nat | k < PieceCount(d)
      ensures NearOffset(d, PieceAt(d, k)) == Offset2D(SramSide(d), k)
    {
    }
  }

  lemma Admission3D(sizes: seq<nat>, d: Desc)
    requires Built(d) && d.shape == Strided3D && SramSide(d).region.Some?
    requires SizeOf(sizes, SramSide(d).region.value) < U32 && d.direction != TuToTu
    ensures Strided3DFits(sizes, d.src, d.dim0, d.dim1, d.elemSize * d.dim2)
         && Strided3DFits(sizes, d.dst, d.dim0, d.dim1, d.elemSize * d.dim2)
       <==> RowWidthExact(d) &&
            (RowBytes(d) == 0 || forall k: nat :: k < PieceCount(d) ==>
               NearOffset(d, PieceAt(d, k)) + RowBytes(d) <= SizeOf(sizes, SramSide(d).region.value))
  {
    LastSliceDecides(sizes, SramSide(d), d.dim0, d.dim1, MeantRowBytes(d));
    FlatRows(d, SizeOf(sizes, SramSide(d).region.value));
    if PieceCount(d) > 0 {
      NonzeroFactors(d.dim0, d.dim1, 0);
      assert Offset3D(SramSide(d), 0, 0) >= 0;
    }
  }

  lemma AdmissionLinear(sizes: seq<nat>, d: Desc)
    requires Built(d) && d.shape == Linear && SramSide(d).region.Some? && d.direction != TuToTu
    ensures RangeFits(sizes, d.src.region, d.src.base, d.totalBytes)
         && RangeFits(sizes, d.dst.region, d.dst.base, d.totalBytes)
       <==> StartsInRegions(sizes, d) && RowWidthExact(d) &&
            (RowBytes(d) == 0 || forall k: nat :: k < PieceCount(d) ==>
               NearOffset(d, PieceAt(d, k)) + RowBytes(d) <= SizeOf(sizes, SramSide(d).region.value))
  {
    assert NearOffset(d, PieceAt(d, 0)) == SramSide(d).base && RowBytes(d) == d.totalBytes;
  }

  lemma AdmissionIndexed(sizes: seq<nat>, d: Desc)
    requires Built(d) && (d.shape == Scatter || d.shape == Gather) && SramSide(d).region.Some?
    ensures IndexedFits(sizes, d, SramSide(d).region)
       <==> StartsInRegions(sizes, d) && RowWidthExact(d) &&
            (RowBytes(d) == 0 || forall k: nat :: k < PieceCount(d) ==>
               NearOffset(d, PieceAt(d, k)) + RowBytes(d) <= SizeOf(sizes, SramSide(d).region.value))
  {
    assert forall k: nat :: k < PieceCount(d) ==> NearOffset(d, PieceAt(d, k)) == d.index[k];
  }

  lemma AdmissionMulticast(sizes: seq<nat>, d: Desc)
    requires Built(d) && d.shape == Multicast && forall i :: 0 <= i < |sizes| ==> sizes[i] < U32
    ensures SpansValid(sizes, d)
       <==> StartsInRegions(sizes, d) && RowWidthExact(d) &&
            (RowBytes(d) == 0 || forall k: nat :: k < PieceCount(d) ==>
               && NearRegion(d, k).Some?
               && NearOffset(d, PieceAt(d, k)) + RowBytes(d) <= SizeOf(sizes, NearRegion(d, k).value))
  {
    assert forall k: nat :: k < PieceCount(d) ==> NearOffset(d, PieceAt(d, k)) == d.targets[k].offset;
    if SpansValid(sizes, d) {
      var t := d.targets[0];
      assert RangeFits(sizes, t.region, t.offset, d.dim0 * d.elemSize);
    }
  }

  /** The row-width condition is needed: a wrapped width of zero touches nothing, yet is refused. */
  lemma WrappedWidthRefused(d: Desc)
    requires Built(d) && d.shape == Strided2D && d.direction == HostToTu && d.dst.region == Some(0)
    requires d.dim0 == 1 && d.elemSize == 65536 && d.dim1 == 65536
    ensures TouchesOnlyRegions([1024], d) && !SpansValid([1024], d)
  {
    AdmissionExact([1024], d);
  }

  /** After admission the multicast loop's own overflow test, done in 32 bits, never skips a target. */
  lemma MulticastSkipUnreachable(sizes: seq<nat>, d: Desc, k: nat)
    requires Built(d) && d.shape == Multicast && SpansValid(sizes, d) && k < |d.targets|
    requires forall i :: 0 <= i < |sizes| ==> sizes[i] < U32
    ensures d.targets[k].region.Some?
    ensures Wrap32(d.targets[k].offset + RowBytes(d)) <= SizeOf(sizes, d.targets[k].region.value)
    ensures d.targets[k].offset + RowBytes(d) < U32
  {
    AdmissionMulticast(sizes, d);
    assert RangeFits(sizes, d.targets[k].region, d.targets[k].offset, d.dim0 * d.elemSize);
  }
}
