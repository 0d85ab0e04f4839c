/** How the cost options of the DMA engine relate to each other and to the bytes moved. */
module CostBounds {
  import opened Words
  import opened Descriptor
  import opened BurstSplit
  import opened ServiceCost

  /** Bytes of each piece the address-bounded walk visits. */
  function PieceBytes(d: Desc): nat
  {
    if d.shape == Multicast then d.dim0 * d.elemSize else LogicalSegmentBytes(d)
  }

  /** The 32-bit size product of the descriptor did not wrap: its pieces add up to its total. */
  ghost predicate ExactSize(d: Desc)
  {
    && d.totalBytes < U32
    && LogicalSegmentCount(d) * LogicalSegmentBytes(d) == d.totalBytes
    && BoundedSegmentCount(d) * PieceBytes(d) == d.totalBytes
  }

  lemma Reorder3(a: nat, b: nat, c: nat)
    ensures a * b * c == b * (a * c)
  {
  }

  lemma Reorder4(a: nat, b: nat, c: nat, e: nat)
    ensures a * b * c * e == (b * c) * (a * e)
  {
    assert a * b * c * e == a * (b * c) * e;
    Reorder3(a, b * c, e);
  }

  lemma NonzeroFactors(a: nat, b: nat)
    requires a * b > 0
    ensures a > 0 && b > 0
  {
  }

  lemma Commute(a: nat, b: nat)
    ensures a * b == b * a
  {
  }

  lemma ExactProduct(d: Desc, size: nat, count: nat)
    requires size < U32 && d.totalBytes == Wrap32(size)
    requires d.shape == Strided2D || d.shape == Strided3D
    requires count == if d.shape == Strided2D then d.dim0 else d.dim0 * d.dim1
    requires size == count * LogicalSegmentBytes(d)
    ensures ExactSize(d)
  {
  }

  // A constructor's descriptor is exact as soon as its mathematical size fits its 32-bit field.

  lemma BuiltLinearIsExact(d: Desc)
    requires Built(d) && d.shape == Linear
    ensures ExactSize(d)
  {
  }

  lemma Built2DIsExact(d: Desc)
    requires Built(d) && d.shape == Strided2D
    requires d.elemSize * d.dim0 * d.dim1 < U32
    ensures ExactSize(d)
  {
    Reorder3(d.elemSize, d.dim0, d.dim1);
    ExactProduct(d, d.elemSize * d.dim0 * d.dim1, d.dim0);
  }

  lemma Built3DIsExact(d: Desc)
    requires Built(d) && d.shape == Strided3D
    requires d.elemSize * d.dim0 * d.dim1 * d.dim2 < U32
    ensures ExactSize(d)
  {
    Reorder4(d.elemSize, d.dim0, d.dim1, d.dim2);
    ExactProduct(d, d.elemSize * d.dim0 * d.dim1 * d.dim2, d.dim0 * d.dim1);
  }

  lemma BuiltMulticastIsExact(d: Desc)
    requires Built(d) && d.shape == Multicast
    requires d.dim0 * d.elemSize * |d.targets| < U32
    ensures ExactSize(d)
  {
    Commute(d.dim0 * d.elemSize, |d.targets|);
  }

  lemma BuiltIndexedIsExact(d: Desc)
    requires Built(d) && (d.shape == Scatter || d.shape == Gather)
    requires |d.index| * d.elemSize < U32
    ensures ExactSize(d)
  {
  }

  /** A cut that respects more boundaries is a cut that respects fewer. */
  lemma {:induction false} DropBoundaries(l: Limits, sram: nat, external: nat, bytes: nat, cut: seq<nat>)
    requires ValidLimits(l) && LegalCut(l, sram, external, bytes, cut)
    ensures LegalCut(Limits(l.burst, None, None), sram, external, bytes, cut)
    decreases |cut|
  {
    if cut != [] {
      DropBoundaries(l, sram + cut[0], external + cut[0], bytes - cut[0], cut[1..]);
    }
  }

  lemma PieceSize(d: Desc, k: nat)
    requires k < BoundedSegmentCount(d)
    ensures SegmentAt(d, k).bytes == PieceBytes(d)
  {
    if d.shape == Strided3D {
      NonzeroFactors(d.dim0, d.dim1);
    }
  }

  /** Each piece costs at least its size-only bursts and at least its whole-piece beats, and at most its bytes. */
  lemma WalkBounds(c: CostConfig, d: Desc, n: nat)
    requires ValidCost(c) && n <= BoundedSegmentCount(d)
    ensures n * CeilDiv(PieceBytes(d), BurstBytes(c, d)) <= BoundedBursts(c, d, n) <= n * PieceBytes(d)
    ensures n * CeilDiv(PieceBytes(d), c.busBytes) <= BoundedBeats(c, d, n) <= n * PieceBytes(d)
  {
    BurstsBounds(c, d, n, CeilDiv(PieceBytes(d), BurstBytes(c, d)));
    BeatsBounds(c, d, n, CeilDiv(PieceBytes(d), c.busBytes));
  }

  lemma {:induction false} BurstsBounds(c: CostConfig, d: Desc, n: nat, each: nat)
    requires ValidCost(c) && n <= BoundedSegmentCount(d) && each == CeilDiv(PieceBytes(d), BurstBytes(c, d))
    ensures Mul(n, each) <= BoundedBursts(c, d, n) <= Mul(n, PieceBytes(d))
  {
    if n > 0 {
      BurstsBounds(c, d, n - 1, each);
      PieceBounds(c, d, n - 1);
      AddOneTimes(n - 1, each);
      AddOneTimes(n - 1, PieceBytes(d));
    }
  }

  lemma {:induction false} BeatsBounds(c: CostConfig, d: Desc, n: nat, each: nat)
    requires ValidCost(c) && n <= BoundedSegmentCount(d) && each == CeilDiv(PieceBytes(d), c.busBytes)
    ensures Mul(n, each) <= BoundedBeats(c, d, n) <= Mul(n, PieceBytes(d))
  {
    if n > 0 {
      BeatsBounds(c, d, n - 1, each);
      PieceBounds(c, d, n - 1);
      AddOneTimes(n - 1, each);
      AddOneTimes(n - 1, PieceBytes(d));
    }
  }

  lemma PieceBounds(c: CostConfig, d: Desc, k: nat)
    requires ValidCost(c) && k < BoundedSegmentCount(d)
    ensures var s := SegmentAt(d, k);
            var cut := Split(BurstLimits(c, d), s.sram, s.external, s.bytes);
            && CeilDiv(PieceBytes(d), BurstBytes(c, d)) <= |cut| <= PieceBytes(d)
            && CeilDiv(PieceBytes(d), c.busBytes) <= Beats(cut, c.busBytes) <= PieceBytes(d)
  {
    PieceSize(d, k);
    var s, l := SegmentAt(d, k), BurstLimits(c, d);
    var cut := Split(l, s.sram, s.external, s.bytes);
    DropBoundaries(l, s.sram, s.external, s.bytes, cut);
    SplitIsMinimal(Limits(l.burst, None, None), s.sram, s.external, s.bytes, cut);
    UnboundedSplit(l.burst, s.sram, s.external, s.bytes, c.busBytes);
    CutBeatsAtLeastWhole(l, s.sram, s.external, s.bytes, cut, c.busBytes);
    CutCovers(l, s.sram, s.external, s.bytes, cut, c.busBytes);
  }

  /** In size-only mode the walk has the closed forms the engine uses instead of it. */
  lemma WalkWithoutBoundaries(c: CostConfig, d: Desc, n: nat)
    requires ValidCost(c) && c.boundary == SizeOnly && n <= BoundedSegmentCount(d)
    ensures BoundedBursts(c, d, n) == n * CeilDiv(PieceBytes(d), BurstBytes(c, d))
    ensures BoundedBeats(c, d, n)
         == n * BurstAlignedPayloadCycles(PieceBytes(d), BurstBytes(c, d), c.busBytes)
  {
    BurstsWithoutBoundaries(c, d, n, CeilDiv(PieceBytes(d), BurstBytes(c, d)));
    BeatsWithoutBoundaries(c, d, n, BurstAlignedPayloadCycles(PieceBytes(d), BurstBytes(c, d), c.busBytes));
  }

  lemma {:induction false} BurstsWithoutBoundaries(c: CostConfig, d: Desc, n: nat, each: nat)
    requires ValidCost(c) && c.boundary == SizeOnly && n <= BoundedSegmentCount(d)
    requires each == CeilDiv(PieceBytes(d), BurstBytes(c, d))
    ensures BoundedBursts(c, d, n) == Mul(n, each)
  {
    if n > 0 {
      BurstsWithoutBoundaries(c, d, n - 1, each);
      PieceWithoutBoundaries(c, d, n - 1);
      AddOneTimes(n - 1, each);
    }
  }

  lemma {:induction false} BeatsWithoutBoundaries(c: CostConfig, d: Desc, n: nat, each: nat)
    requires ValidCost(c) && c.boundary == SizeOnly && n <= BoundedSegmentCount(d)
    requires each == BurstAlignedPayloadCycles(PieceBytes(d), BurstBytes(c, d), c.busBytes)
    ensures BoundedBeats(c, d, n) == Mul(n, each)
  {
    if n > 0 {
      BeatsWithoutBoundaries(c, d, n - 1, each);
      PieceWithoutBoundaries(c, d, n - 1);
      AddOneTimes(n - 1, each);
    }
  }

  lemma PieceWithoutBoundaries(c: CostConfig, d: Desc, k: nat)
    requires ValidCost(c) && c.boundary == SizeOnly && k < BoundedSegmentCount(d)
    ensures var s := SegmentAt(d, k);
            var cut := Split(BurstLimits(c, d), s.sram, s.external, s.bytes);
            && |cut| == CeilDiv(PieceBytes(d), BurstBytes(c, d))
            && Beats(cut, c.busBytes) == BurstAlignedPayloadCycles(PieceBytes(d), BurstBytes(c, d), c.busBytes)
  {
    PieceSize(d, k);
    var s := SegmentAt(d, k);
    UnboundedSplit(BurstBytes(c, d), s.sram, s.external, s.bytes, c.busBytes);
  }

  /** Turning an address boundary on never saves a burst. */
  lemma BoundaryNeverSavesBursts(c: CostConfig, d: Desc)
    requires ValidCost(c) && ExactSize(d)
    ensures BurstCount(c.(boundary := SizeOnly), d) <= BurstCount(c, d)
  {
    if d.totalBytes > 0 && c.boundary != SizeOnly {
      WalkedBursts(c, d);
      SizeOnlyBursts(c.(boundary := SizeOnly), d, BurstCount(c, d));
    }
  }

  /** Counted by size alone, whole or piece by piece, bursts are at most those of the pieces taken separately. */
  lemma SizeOnlyBursts(c: CostConfig, d: Desc, bursts: nat)
    requires ValidCost(c) && ExactSize(d) && c.boundary == SizeOnly && d.totalBytes > 0
    requires bursts >= BoundedSegmentCount(d) * CeilDiv(PieceBytes(d), BurstBytes(c, d))
    ensures BurstCount(c, d) <= bursts
  {
    if c.segmentation == Logical && d.shape != Multicast {
      WrapFits(LogicalSegmentCount(d) * CeilDiv(LogicalSegmentBytes(d), BurstBytes(c, d)));
    } else {
      PackedIsLeast(BoundedSegmentCount(d), PieceBytes(d), bursts, BurstBytes(c, d));
      WrapFits(CeilDiv(d.totalBytes, BurstBytes(c, d)));
    }
  }

  lemma WalkedBursts(c: CostConfig, d: Desc)
    requires ValidCost(c) && ExactSize(d) && c.boundary != SizeOnly && d.totalBytes > 0
    ensures BurstCount(c, d) >= BoundedSegmentCount(d) * CeilDiv(PieceBytes(d), BurstBytes(c, d))
  {
    WalkBounds(c, d, BoundedSegmentCount(d));
    WrapFits(BoundedBursts(c, d, BoundedSegmentCount(d)));
  }

  /** n pieces moved one by one take at least the beats of moving them packed. */
  lemma PackedIsLeast(n: nat, bytes: nat, beats: nat, bus: nat)
    requires bus > 0 && beats >= n * CeilDiv(bytes, bus)
    ensures CeilDiv(n * bytes, bus) <= beats
  {
    var whole := CeilDiv(bytes, bus);
    CeilDivBounds(bytes, bus);
    MulMonotone(bytes, whole * bus, n);
    assert n * (whole * bus) == (n * whole) * bus;
    MulMonotone(n * whole, beats, bus);
    CeilDivLeast(n * bytes, bus, beats);
  }

  lemma AlignedBeats(bytes: nat, burst: nat, bus: nat)
    requires burst > 0 && bus > 0
    ensures CeilDiv(bytes, bus) <= BurstAlignedPayloadCycles(bytes, burst, bus) <= bytes
  {
    var l := Limits(burst, None, None);
    var cut := Split(l, 0, 0, bytes);
    UnboundedSplit(burst, 0, 0, bytes, bus);
    CutBeatsAtLeastWhole(l, 0, 0, bytes, cut, bus);
    CutCovers(l, 0, 0, bytes, cut, bus);
  }

  /** The payload is at least the packed transfer and at most one beat per byte. */
  ghost predicate Bounded(c: CostConfig, d: Desc, payload: nat)
    requires ValidCost(c)
  {
    CeilDiv(d.totalBytes, c.busBytes) <= payload <= d.totalBytes
  }

  /** Pieces of equal size, each taking between its packed beats and its bytes. */
  lemma PiecesBounded(c: CostConfig, d: Desc, n: nat, bytes: nat, each: nat)
    requires ValidCost(c) && n * bytes == d.totalBytes < U32 && CeilDiv(bytes, c.busBytes) <= each <= bytes
    ensures Bounded(c, d, n * each) && Bounded(c, d, Wrap64(n * each))
  {
    MulMonotoneLeft(n, CeilDiv(bytes, c.busBytes), each);
    MulMonotoneLeft(n, each, bytes);
    PackedIsLeast(n, bytes, n * each, c.busBytes);
    WrapFits(n * each);
  }

  lemma WalkedPayload(c: CostConfig, d: Desc)
    requires ValidCost(c) && ExactSize(d)
    ensures Bounded(c, d, Wrap64(BoundedBeats(c, d, BoundedSegmentCount(d))))
  {
    var m := BoundedSegmentCount(d);
    WalkBounds(c, d, m);
    PackedIsLeast(m, PieceBytes(d), BoundedBeats(c, d, m), c.busBytes);
    WrapFits(BoundedBeats(c, d, m));
  }

  /** Payload beats under every scope and boundary, in terms of the bytes. */
  lemma PayloadBounds(c: CostConfig, d: Desc)
    requires ValidCost(c) && ExactSize(d)
    ensures CeilDiv(d.totalBytes, c.busBytes) <= PayloadCycles(c, d) <= d.totalBytes
  {
    if d.totalBytes > 0 {
      var n, b := LogicalSegmentCount(d), LogicalSegmentBytes(d);
      NonzeroFactors(n, b);
      CeilDivBounds(d.totalBytes, c.busBytes);
      CeilDivBounds(b, c.busBytes);
      AlignedBeats(b, BurstBytes(c, d), c.busBytes);
      AlignedBeats(d.totalBytes, BurstBytes(c, d), c.busBytes);
      if c.payloadScope == AlignLogicalSegment {
        PiecesBounded(c, d, n, b, CeilDiv(b, c.busBytes));
      } else if c.boundary != SizeOnly {
        WalkedPayload(c, d);
      } else {
        PiecesBounded(c, d, n, b, BurstAlignedPayloadCycles(b, BurstBytes(c, d), c.busBytes));
      }
    }
  }

  /** The bus is occupied for at least the useful bytes, under every cost option. */
  lemma OccupiedCoversUseful(c: CostConfig, d: Desc)
    requires ValidCost(c) && ExactSize(d)
    ensures PayloadCycles(c, d) * c.busBytes >= d.totalBytes
    ensures RawCharge(c.(costMode := OccupiedBytes), d) >= RawCharge(c.(costMode := UsefulBytes), d)
  {
    PayloadBounds(c, d);
    CeilDivLeast(d.totalBytes, c.busBytes, PayloadCycles(c, d));
    var o := c.(costMode := OccupiedBytes);
    var u := c.(costMode := UsefulBytes);
    SamePayload(c, d, OccupiedBytes);
    MulMonotone(PayloadCycles(c, d), U32, c.busBytes);
    MulMonotone(c.busBytes, 128, U32);
  }

  lemma SamePayload(c: CostConfig, d: Desc, m: CostMode)
    requires ValidCost(c)
    ensures PayloadCycles(c.(costMode := m), d) == PayloadCycles(c, d)
  {
    SameBeats(c, d, m, BoundedSegmentCount(d));
  }

  lemma {:induction false} SameBeats(c: CostConfig, d: Desc, m: CostMode, n: nat)
    requires ValidCost(c)
    ensures BoundedBeats(c.(costMode := m), d, n) == BoundedBeats(c, d, n)
  {
    if n > 0 {
      SameBeats(c, d, m, n - 1);
    }
  }

  /** Under logical segmentation or an address boundary each finer payload scope costs at least the coarser one. */
  lemma FinerScopeCostsMore(c: CostConfig, d: Desc)
    requires ValidCost(c) && ExactSize(d) && (c.segmentation == Logical || c.boundary != SizeOnly)
    ensures PayloadCycles(c.(payloadScope := PackedDescriptor), d)
         <= PayloadCycles(c.(payloadScope := AlignLogicalSegment), d)
         <= PayloadCycles(c.(payloadScope := AlignBurstCommand), d)
  {
    PayloadBounds(c.(payloadScope := AlignLogicalSegment), d);
    if d.totalBytes > 0 {
      SegmentScope(c.(payloadScope := AlignLogicalSegment), d);
      BurstScope(c.(payloadScope := AlignBurstCommand), d);
    }
  }

  lemma SegmentScope(c: CostConfig, d: Desc)
    requires ValidCost(c) && c.payloadScope == AlignLogicalSegment
    ensures PayloadCycles(c, d) <= LogicalSegmentCount(d) * CeilDiv(LogicalSegmentBytes(d), c.busBytes)
  {
    WrapFits(LogicalSegmentCount(d) * CeilDiv(LogicalSegmentBytes(d), c.busBytes));
  }

  lemma BurstScope(c: CostConfig, d: Desc)
    requires ValidCost(c) && ExactSize(d) && (c.segmentation == Logical || c.boundary != SizeOnly)
    requires c.payloadScope == AlignBurstCommand && d.totalBytes > 0
    ensures PayloadCycles(c, d) >= LogicalSegmentCount(d) * CeilDiv(LogicalSegmentBytes(d), c.busBytes)
  {
    var n, b := LogicalSegmentCount(d), LogicalSegmentBytes(d);
    NonzeroFactors(n, b);
    if d.shape == Multicast {
      PayloadBounds(c, d);
    } else if c.boundary == SizeOnly {
      AlignedBeats(b, BurstBytes(c, d), c.busBytes);
      WrappedProduct(n, CeilDiv(b, c.busBytes), BurstAlignedPayloadCycles(b, BurstBytes(c, d), c.busBytes), b);
    } else {
      WalkedScope(c, d);
    }
  }

  lemma WrappedProduct(n: nat, low: nat, high: nat, bytes: nat)
    requires low <= high <= bytes && n * bytes < U32
    ensures Wrap64(n * high) >= n * low
  {
    MulMonotoneLeft(n, low, high);
    MulMonotoneLeft(n, high, bytes);
    WrapFits(n * high);
  }

  lemma WalkedScope(c: CostConfig, d: Desc)
    requires ValidCost(c) && ExactSize(d) && d.shape != Multicast && d.totalBytes > 0
    ensures Wrap64(BoundedBeats(c, d, BoundedSegmentCount(d)))
         >= LogicalSegmentCount(d) * CeilDiv(LogicalSegmentBytes(d), c.busBytes)
  {
    var n := BoundedSegmentCount(d);
    NonzeroFactors(LogicalSegmentCount(d), LogicalSegmentBytes(d));
    BeatsBounds(c, d, n, CeilDiv(PieceBytes(d), c.busBytes));
    WrapFits(BoundedBeats(c, d, n));
  }

  /** Overlapping issue with payload lies between the slower stage alone and both in sequence. */
  lemma OverlapBetween(payload: nat, bursts: nat, issue: nat)
    ensures Max(bursts * issue, payload)
         <= CombinePayloadIssue(Overlapped, payload, bursts, issue)
         <= CombinePayloadIssue(Serialized, payload, bursts, issue)
    ensures bursts > 0 && issue > 0 ==>
              (CombinePayloadIssue(Overlapped, payload, bursts, issue)
               == CombinePayloadIssue(Serialized, payload, bursts, issue)
               <==> payload == 0 || bursts == 1)
  {
    if bursts > 0 && issue > 0 {
      AddOneTimes(bursts - 1, issue);
      if bursts > 1 {
        MulMonotone(1, bursts - 1, issue);
      }
    }
  }

  /**
   Quantum-rounded charging covers the exact charge by less than a quantum. It is the least multiple of the quantum
   that does, exactly unless the rounded charge would leave 64 bits; then it is the largest 64-bit value.
   */
  lemma RoundedCharge(c: CostConfig, d: Desc, k: nat)
    requires ValidCost(c) && c.granularity == QuantumRounded && d.totalBytes < U32
    ensures RawCharge(c, d) <= DrrCost(c, d) <= RawCharge(c, d) + (Quantum(c) - 1)
    ensures if RawCharge(c, d) + (Quantum(c) - 1) <= U64_MAX then
              && DrrCost(c, d) == CeilDiv(RawCharge(c, d), Quantum(c)) * Quantum(c)
              && (k * Quantum(c) >= RawCharge(c, d) <==> k * Quantum(c) >= DrrCost(c, d))
            else DrrCost(c, d) == U64_MAX
  {
    var cost, q := RawCharge(c, d), Quantum(c);
    if cost == 0 {
      DivModUnique(0, q, 0);
    } else if cost + (q - 1) <= U64_MAX {
      RoundUpFits(cost, q);
      RoundUpAgrees(cost, q);
      LeastMultiple(cost, q, k);
    }
  }

  lemma LeastMultiple(cost: nat, q: nat, k: nat)
    requires q > 0
    ensures k * q >= cost <==> k * q >= CeilDiv(cost, q) * q
  {
    var m := CeilDiv(cost, q);
    CeilDivLeast(cost, q, k);
    if k >= m {
      MulMonotone(m, k, q);
    } else {
      MulMonotone(k + 1, m, q);
      AddOneTimes(k, q);
    }
  }
}
