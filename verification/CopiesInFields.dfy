/**
 Admission and copying told in the fields of a descriptor and the sizes of the regions alone: which bytes a transfer
 means to move, and that it is admitted exactly if they exist.
 */
module CopiesInFields {
  import opened Words
  import opened Descriptor
  import opened SramSpans

  /** The bytes of a region; a handle that names none has no bytes. */
  function Capacity(sizes: seq<nat>, region: nat): nat
  {
    if region >= |sizes| then 0 else sizes[region]
  }

  /** The offset of byte b of row r of slice z. */
  function ByteOf(s: Side, z: nat, r: nat, b: nat): nat
  {
    s.base + Mul(z, s.depthStride) + Mul(r, s.rowStride) + b
  }

  /** Every byte the transfer means to read or write on its SRAM side exists; an empty range starts in its region. */
  ghost predicate BytesExist(d: Desc, near: Side, size: nat)
  {
    match d.shape
    case Linear => near.base + d.totalBytes <= size
    case Strided2D =>
      forall r: nat, b: nat :: r < d.dim0 && b < d.elemSize * d.dim1 ==> ByteOf(near, 0, r, b) < size
    case Strided3D =>
      forall z: nat, r: nat, b: nat :: z < d.dim0 && r < d.dim1 && b < d.elemSize * d.dim2 ==>
        ByteOf(near, z, r, b) < size
    case _ => forall k :: 0 <= k < |d.index| ==> d.index[k] + d.elemSize <= size
  }

  /** Every target of a multicast names a region that its copy fits. */
  ghost predicate TargetsExist(sizes: seq<nat>, d: Desc)
  {
    forall k :: 0 <= k < |d.targets| ==>
      && d.targets[k].region.Some?
      && d.targets[k].offset + d.dim0 * d.elemSize <= Capacity(sizes, d.targets[k].region.value)
  }

  /** A built descriptor is acceptable if its SRAM side, chosen by its direction, names a region that has its bytes. */
  ghost predicate Acceptable(sizes: seq<nat>, d: Desc)
  {
    if d.shape == Multicast then TargetsExist(sizes, d)
    else match d.direction
      case HostToTu => d.dst.region.Some? && BytesExist(d, d.dst, Capacity(sizes, d.dst.region.value))
      case TuToHost => d.src.region.Some? && BytesExist(d, d.src, Capacity(sizes, d.src.region.value))
      case TuToTu => false
  }

  lemma RowsExist2D(s: Side, rows: nat, width: nat, size: nat)
    ensures (forall r: nat, b: nat :: r < rows && b < width ==> ByteOf(s, 0, r, b) < size)
       <==> (forall r: nat :: r < rows && width > 0 ==> Offset2D(s, r) + width <= size)
  {
    if forall r: nat, b: nat :: r < rows && b < width ==> ByteOf(s, 0, r, b) < size {
      forall r: nat | r < rows && width > 0
        ensures Offset2D(s, r) + width <= size
      {
        assert ByteOf(s, 0, r, width - 1) < size;
      }
    } else {
      var r: nat, b: nat :| r < rows && b < width && ByteOf(s, 0, r, b) >= size;
      assert Offset2D(s, r) + width > size;
    }
  }

  lemma RowsExist3D(s: Side, depth: nat, rows: nat, width: nat, size: nat)
    ensures (forall z: nat, r: nat, b: nat :: z < depth && r < rows && b < width ==> ByteOf(s, z, r, b) < size)
       <==> (forall z: nat, r: nat :: z < depth && r < rows && width > 0 ==> Offset3D(s, z, r) + width <= size)
  {
    if forall z: nat, r: nat, b: nat :: z < depth && r < rows && b < width ==> ByteOf(s, z, r, b) < size {
      forall z: nat, r: nat | z < depth && r < rows && width > 0
        ensures Offset3D(s, z, r) + width <= size
      {
        assert ByteOf(s, z, r, width - 1) < size;
      }
    } else {
      var z: nat, r: nat, b: nat :| z < depth && r < rows && b < width && ByteOf(s, z, r, b) >= size;
      assert Offset3D(s, z, r) + width > size;
    }
  }

  /** Admission looks at the SRAM side only: the other side of a built descriptor names no region. */
  lemma NearSideDecides(sizes: seq<nat>, d: Desc, near: Side)
    requires Built(d) && d.shape != Multicast && d.direction != TuToTu && near.region.Some?
    requires near == if d.direction == HostToTu then d.dst else d.src
    requires SizeOf(sizes, near.region.value) < U32
    ensures SpansValid(sizes, d) <==> BytesExist(d, near, SizeOf(sizes, near.region.value))
  {
    var size := SizeOf(sizes, near.region.value);
    match d.shape
    case Strided2D =>
      LastRowDecides(sizes, near, d.dim0, d.elemSize * d.dim1);
      RowsExist2D(near, d.dim0, d.elemSize * d.dim1, size);
    case Strided3D =>
      LastSliceDecides(sizes, near, d.dim0, d.dim1, d.elemSize * d.dim2);
      RowsExist3D(near, d.dim0, d.dim1, d.elemSize * d.dim2, size);
    case _ =>
  }

  /** A built descriptor is admitted exactly if it is acceptable. */
  lemma AdmissionInFields(sizes: seq<nat>, d: Desc)
    requires Built(d) && forall i :: 0 <= i < |sizes| ==> sizes[i] < U32
    ensures SpansValid(sizes, d) <==> Acceptable(sizes, d)
  {
    if d.shape == Multicast {
      TargetsDecide(sizes, d);
    } else if d.direction == HostToTu && d.dst.region.Some? {
      NearSideDecides(sizes, d, d.dst);
    } else if d.direction == TuToHost && d.src.region.Some? {
      NearSideDecides(sizes, d, d.src);
    }
  }

  lemma TargetsDecide(sizes: seq<nat>, d: Desc)
    requires Built(d) && d.shape == Multicast
    ensures SpansValid(sizes, d) <==> TargetsExist(sizes, d)
  {
    assert forall k :: 0 <= k < |d.targets| && d.targets[k].region.Some? ==>
             (RangeFits(sizes, d.targets[k].region, d.targets[k].offset, d.dim0 * d.elemSize)
              <==> d.targets[k].offset + d.dim0 * d.elemSize <= Capacity(sizes, d.targets[k].region.value));
  }
}
