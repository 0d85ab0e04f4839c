/** DMA descriptors and the shapes their constructors build. */
module Descriptor {
  import opened Words

  datatype Shape = Linear | Strided2D | Strided3D | Scatter | Gather | Multicast

  datatype Direction = HostToTu | TuToHost | TuToTu

  /** One side of a transfer: an SRAM region (None is host memory), a base offset and two strides. */
  datatype Side = Side(region: Option<nat>, base: nat, rowStride: nat, depthStride: nat, pointer: bool)

  datatype Target = Target(region: Option<nat>, offset: nat)

  datatype Desc = Desc(
    id: nat,
    shape: Shape,
    direction: Direction,
    channel: nat,
    priority: nat,
    src: Side,
    dst: Side,
    external: Option<nat>,
    dim0: nat,
    dim1: nat,
    dim2: nat,
    elemSize: nat,
    totalBytes: nat,
    index: seq<nat>,
    hasIndex: bool,
    indexElemSize: nat,
    targets: seq<Target>,
    hasTargets: bool)

  /** Every field holds a value of its C type. */
  ghost predicate Fits32(d: Desc)
  {
    && d.dim0 < U32 && d.dim1 < U32 && d.dim2 < U32
    && d.elemSize < U32 && d.totalBytes < U32 && d.indexElemSize < U32
    && SideFits32(d.src) && SideFits32(d.dst)
    && |d.index| < U32 && |d.targets| < U32
    && (forall i :: 0 <= i < |d.index| ==> d.index[i] < U32)
    && (forall i :: 0 <= i < |d.targets| ==> d.targets[i].offset < U32)
    && d.priority < 256
  }

  ghost predicate SideFits32(s: Side)
  {
    s.base < U32 && s.rowStride < U32 && s.depthStride < U32
  }

  /** Slice and row of the k-th row of a 3D transfer. */
  function SliceRow(rows: nat, k: nat): (zr: (nat, nat))
    requires rows > 0
    ensures zr.1 < rows
  {
    (k / rows, k % rows)
  }

  /** The SRAM side of a descriptor that moves data between host and one region. */
  function SramSide(d: Desc): Side
  {
    if d.direction == TuToHost then d.src else d.dst
  }

  function OtherSide(d: Desc): Side
  {
    if d.direction == TuToHost then d.dst else d.src
  }

  /**
   Descriptors the constructors return. Host/TU descriptors have one
   SRAM side and one host side; the constructors leave both sides empty for TU-to-TU.
   */
  ghost predicate Built(d: Desc)
  {
    && Fits32(d)
    && match d.shape
       case Linear =>
         BuiltStrided(d) && d.dim1 == 1 && d.dim2 == 1 && d.totalBytes == Wrap32(d.elemSize * d.dim0)
       case Strided2D => BuiltStrided(d) && d.dim2 == 1 && d.totalBytes == Wrap32(d.elemSize * d.dim0 * d.dim1)
       case Strided3D => BuiltStrided(d) && d.totalBytes == Wrap32(d.elemSize * d.dim0 * d.dim1 * d.dim2)
       case Scatter => d.direction == HostToTu && BuiltIndexed(d)
       case Gather => d.direction == TuToHost && BuiltIndexed(d)
       case Multicast =>
         && d.direction == HostToTu && d.hasTargets && |d.targets| > 0 && d.dim1 == |d.targets|
         && d.totalBytes == Wrap32(d.dim0 * d.elemSize * |d.targets|)
  }

  ghost predicate BuiltStrided(d: Desc)
  {
    if d.direction == TuToTu then d.src.region.None? && d.dst.region.None?
    else OtherSide(d).region.None? && OtherSide(d).base == 0
  }

  ghost predicate BuiltIndexed(d: Desc)
  {
    && OtherSide(d).region.None? && OtherSide(d).base == 0 && SramSide(d).base == 0
    && (d.index != [] ==> d.hasIndex)
    && d.indexElemSize == d.elemSize
    && d.totalBytes == Wrap32(|d.index| * d.elemSize)
  }
}
