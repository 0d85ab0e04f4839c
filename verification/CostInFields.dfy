/**
 Service cost told in the fields of the configuration and the addresses of the copies a transfer makes: which bursts
 a copy is cut into, how they add up, and what issue, latency and charge make of them.
 */
module CostInFields {
  import opened Words
  import opened Descriptor
  import opened BurstSplit
  import opened ServiceCost
  import opened SramSpans
  import opened CostBounds

  // ----- The walk visits the copies -----

  /** The bus address at which the host side of a copy begins. */
  function FarAddress(d: Desc, p: Piece): nat
  {
    (if d.external.Some? then d.external.value else 0) + if d.direction == HostToTu then p.from else p.to
  }

  /**
   Every piece the cost walk visits is the copy of the same number: its SRAM offset, its length and its bus address.
   Only a TU-to-TU descriptor, which is never admitted, has a base on its far side, and that is left out.
   */
  ghost predicate Visits(d: Desc, k: nat)
  {
    && k < PieceCount(d)
    && var s, p := SegmentAt(d, k), PieceAt(d, k);
       && s.sram == NearOffset(d, p) && s.bytes == p.length
       && s.external + (if d.direction == TuToTu then d.dst.base else 0) == FarAddress(d, p)
  }

  lemma WalkVisitsCopies(d: Desc, k: nat)
    requires Built(d) && ExactSize(d) && k < BoundedSegmentCount(d)
    ensures Visits(d, k)
  {
    PieceIsWhole(d);
    match d.shape
    case Strided3D => Visits3D(d, k);
    case Scatter => VisitsIndexed(d, k);
    case Gather => VisitsIndexed(d, k);
    case _ =>
  }

  lemma Visits3D(d: Desc, k: nat)
    requires Built(d) && ExactSize(d) && d.shape == Strided3D && k < BoundedSegmentCount(d)
    ensures Visits(d, k)
  {
    PieceIsWhole(d);
    CostBounds.NonzeroFactors(d.dim0, d.dim1);
  }

  lemma VisitsIndexed(d: Desc, k: nat)
    requires Built(d) && ExactSize(d) && (d.shape == Scatter || d.shape == Gather) && k < BoundedSegmentCount(d)
    ensures Visits(d, k)
  {
    PieceIsWhole(d);
    MulMonotone(k, |d.index|, d.elemSize);
  }

  lemma PieceIsWhole(d: Desc)
    requires Built(d) && ExactSize(d) && BoundedSegmentCount(d) > 0
    ensures MeantRowBytes(d) == PieceBytes(d) < U32 && RowBytes(d) == PieceBytes(d)
  {
    MulMonotone(1, BoundedSegmentCount(d), PieceBytes(d));
  }

  /** A transfer that moves something is walked copy by copy, all of them. */
  lemma AllCopiesVisited(d: Desc)
    requires Built(d) && ExactSize(d) && d.totalBytes > 0
    ensures BoundedSegmentCount(d) == PieceCount(d)
  {
    CostBounds.NonzeroFactors(BoundedSegmentCount(d), PieceBytes(d));
  }

  // ----- How a copy is cut -----

  predicate SameBlock(block: nat, address: int, bytes: nat)
    requires block > 0
  {
    address / block == (address + bytes - 1) / block
  }

  /** A burst of so many bytes is allowed: within the limit of its direction, and inside one block of bounded sides. */
  ghost predicate MayBurst(c: CostConfig, d: Desc, near: nat, far: nat, bytes: nat)
    requires ValidCost(c)
  {
    var burst := if d.direction == TuToHost then c.writeBurst else c.readBurst;
    && 0 < bytes <= burst
    && match c.boundary
       case SizeOnly => true
       case SramAddress => SameBlock(burst, near, bytes)
       case Sram4K => SameBlock(4096, near, bytes)
       case External4K => SameBlock(4096, far, bytes)
       case Both4K => SameBlock(4096, near, bytes) && SameBlock(4096, far, bytes)
       case ExternalAddress => SameBlock(burst, far, bytes)
       case BothAddress => SameBlock(burst, near, bytes) && SameBlock(burst, far, bytes)
  }

  /** The bursts cut up the copy, and each of them is allowed. */
  ghost predicate IsCut(c: CostConfig, d: Desc, near: nat, far: nat, bytes: nat, cut: seq<nat>)
    requires ValidCost(c)
    decreases |cut|
  {
    if cut == [] then bytes == 0
    else
      && cut[0] <= bytes && MayBurst(c, d, near, far, cut[0])
      && IsCut(c, d, near + cut[0], far + cut[0], bytes - cut[0], cut[1..])
  }

  /** Moreover none of the bursts could be longer. */
  ghost predicate IsGreedyCut(c: CostConfig, d: Desc, near: nat, far: nat, bytes: nat, cut: seq<nat>)
    requires ValidCost(c)
    decreases |cut|
  {
    if cut == [] then bytes == 0
    else
      && cut[0] <= bytes && MayBurst(c, d, near, far, cut[0])
      && (cut[0] == bytes || !MayBurst(c, d, near, far, cut[0] + 1))
      && IsGreedyCut(c, d, near + cut[0], far + cut[0], bytes - cut[0], cut[1..])
  }

  /** Staying inside a block is ending no later than the next boundary. */
  lemma SameBlockIsRoom(block: nat, address: nat, bytes: nat)
    requires block > 0 && bytes > 0
    ensures SameBlock(block, address, bytes) <==> address % block + bytes <= block
  {
    var q, r := Div(address, block), Rem(address, block);
    DivModParts(address, block);
    if r + bytes <= block {
      DivModUnique(q, block, r + bytes - 1);
    } else {
      AddOneTimes(q, block);
      DivBelow(address + bytes - 1, block, q + 1);
    }
  }

  lemma AllowedIsLegal(c: CostConfig, d: Desc, near: nat, far: nat, bytes: nat)
    requires ValidCost(c)
    ensures MayBurst(c, d, near, far, bytes) <==> Legal(BurstLimits(c, d), near, far, bytes)
  {
    if bytes > 0 {
      SameBlockIsRoom(BurstBytes(c, d), near, bytes);
      SameBlockIsRoom(BurstBytes(c, d), far, bytes);
      SameBlockIsRoom(4096, near, bytes);
      SameBlockIsRoom(4096, far, bytes);
    }
  }

  lemma {:induction false} CutIsLegal(c: CostConfig, d: Desc, near: nat, far: nat, bytes: nat, cut: seq<nat>)
    requires ValidCost(c)
    ensures IsCut(c, d, near, far, bytes, cut) <==> LegalCut(BurstLimits(c, d), near, far, bytes, cut)
    decreases |cut|
  {
    if cut != [] && cut[0] <= bytes {
      AllowedIsLegal(c, d, near, far, cut[0]);
      CutIsLegal(c, d, near + cut[0], far + cut[0], bytes - cut[0], cut[1..]);
    }
  }

  /** The longest allowed burst is the chunk the engine cuts. */
  lemma LongestIsChunk(c: CostConfig, d: Desc, near: nat, far: nat, bytes: nat, b: nat)
    requires ValidCost(c) && bytes > 0
    ensures b <= bytes && MayBurst(c, d, near, far, b) && (b == bytes || !MayBurst(c, d, near, far, b + 1))
       <==> b == Chunk(BurstLimits(c, d), near, far, bytes)
  {
    AllowedIsLegal(c, d, near, far, b);
    AllowedIsLegal(c, d, near, far, b + 1);
  }

  lemma SplitStep(l: Limits, sram: nat, external: nat, bytes: nat, cut: seq<nat>)
    requires ValidLimits(l) && bytes > 0 && cut != [] && cut[0] == Chunk(l, sram, external, bytes)
    ensures cut == Split(l, sram, external, bytes)
       <==> cut[1..] == Split(l, sram + cut[0], external + cut[0], bytes - cut[0])
  {
    assert cut == [cut[0]] + cut[1..];
  }

  /** The engine's cut is the one greedy cut. */
  lemma {:induction false} GreedyIsSplit(c: CostConfig, d: Desc, near: nat, far: nat, bytes: nat, cut: seq<nat>)
    requires ValidCost(c)
    ensures IsGreedyCut(c, d, near, far, bytes, cut) <==> cut == Split(BurstLimits(c, d), near, far, bytes)
    decreases |cut|
  {
    if cut != [] && bytes > 0 {
      LongestIsChunk(c, d, near, far, bytes, cut[0]);
      if cut[0] == Chunk(BurstLimits(c, d), near, far, bytes) {
        GreedyIsSplit(c, d, near + cut[0], far + cut[0], bytes - cut[0], cut[1..]);
        SplitStep(BurstLimits(c, d), near, far, bytes, cut);
      }
    }
  }

  // ----- Bursts and beats of a transfer -----

  /** One cut for each copy of a transfer. */
  ghost predicate CutsOf(c: CostConfig, d: Desc, cuts: seq<seq<nat>>)
    requires ValidCost(c)
  {
    |cuts| == PieceCount(d) && forall k :: 0 <= k < |cuts| ==>
      var p := PieceAt(d, k); IsCut(c, d, NearOffset(d, p), FarAddress(d, p), p.length, cuts[k])
  }

  ghost predicate GreedyCutsOf(c: CostConfig, d: Desc, cuts: seq<seq<nat>>)
    requires ValidCost(c)
  {
    |cuts| == PieceCount(d) && forall k :: 0 <= k < |cuts| ==>
      var p := PieceAt(d, k); IsGreedyCut(c, d, NearOffset(d, p), FarAddress(d, p), p.length, cuts[k])
  }

  function Lengths(cuts: seq<seq<nat>>): (r: seq<nat>)
    ensures |r| == |cuts|
  {
    seq(|cuts|, k requires 0 <= k < |cuts| => |cuts[k]|)
  }

  function AllBeats(cuts: seq<seq<nat>>, bus: nat): (r: seq<nat>)
    requires bus > 0
    ensures |r| == |cuts|
  {
    seq(|cuts|, k requires 0 <= k < |cuts| => Beats(cuts[k], bus))
  }

  /** A copy that is visited, or is empty and so has no bursts. */
  lemma CopyCut(c: CostConfig, d: Desc, cuts: seq<seq<nat>>, k: nat)
    requires ValidCost(c) && Built(d) && ExactSize(d) && d.direction != TuToTu && k < BoundedSegmentCount(d)
    requires k < |cuts| == PieceCount(d)
    ensures var s := SegmentAt(d, k);
            && (GreedyCutsOf(c, d, cuts) ==> cuts[k] == Split(BurstLimits(c, d), s.sram, s.external, s.bytes))
            && (CutsOf(c, d, cuts) ==> |Split(BurstLimits(c, d), s.sram, s.external, s.bytes)| <= |cuts[k]|)
  {
    WalkVisitsCopies(d, k);
    var s := SegmentAt(d, k);
    GreedyIsSplit(c, d, s.sram, s.external, s.bytes, cuts[k]);
    CutIsLegal(c, d, s.sram, s.external, s.bytes, cuts[k]);
    if CutsOf(c, d, cuts) {
      SplitIsMinimal(BurstLimits(c, d), s.sram, s.external, s.bytes, cuts[k]);
    }
  }

  lemma {:induction false} GreedyTotals(c: CostConfig, d: Desc, cuts: seq<seq<nat>>, n: nat)
    requires ValidCost(c) && Built(d) && ExactSize(d) && d.direction != TuToTu && n <= BoundedSegmentCount(d)
    requires n <= |cuts| && GreedyCutsOf(c, d, cuts)
    ensures BoundedBursts(c, d, n) == Total(Lengths(cuts)[..n])
    ensures BoundedBeats(c, d, n) == Total(AllBeats(cuts, c.busBytes)[..n])
  {
    if n > 0 {
      GreedyTotals(c, d, cuts, n - 1);
      CopyCut(c, d, cuts, n - 1);
      assert Lengths(cuts)[..n][..n - 1] == Lengths(cuts)[..n - 1];
      assert AllBeats(cuts, c.busBytes)[..n][..n - 1] == AllBeats(cuts, c.busBytes)[..n - 1];
    }
  }

  lemma {:induction false} LeastTotals(c: CostConfig, d: Desc, cuts: seq<seq<nat>>, n: nat)
    requires ValidCost(c) && Built(d) && ExactSize(d) && d.direction != TuToTu && n <= BoundedSegmentCount(d)
    requires n <= |cuts| && CutsOf(c, d, cuts)
    ensures BoundedBursts(c, d, n) <= Total(Lengths(cuts)[..n])
  {
    if n > 0 {
      LeastTotals(c, d, cuts, n - 1);
      CopyCut(c, d, cuts, n - 1);
      assert Lengths(cuts)[..n][..n - 1] == Lengths(cuts)[..n - 1];
    }
  }

  /** No total of an exact descriptor leaves 64 bits. */
  lemma TotalsFit(c: CostConfig, d: Desc)
    requires ValidCost(c) && ExactSize(d)
    ensures var n := BoundedSegmentCount(d);
            && Wrap64(BoundedBursts(c, d, n)) == BoundedBursts(c, d, n)
            && Wrap64(BoundedBeats(c, d, n)) == BoundedBeats(c, d, n)
  {
    var n := BoundedSegmentCount(d);
    WalkBounds(c, d, n);
    WrapFits(BoundedBursts(c, d, n));
    WrapFits(BoundedBeats(c, d, n));
  }

  /**
   With an address boundary, a transfer's bursts are those of the greedy cuts of its copies, and so are its data
   beats if payload is aligned to bursts.
   */
  lemma BoundedCost(c: CostConfig, d: Desc, cuts: seq<seq<nat>>)
    requires ValidCost(c) && Built(d) && ExactSize(d) && d.direction != TuToTu && d.totalBytes > 0
    requires c.boundary != SizeOnly && GreedyCutsOf(c, d, cuts)
    ensures BurstCount(c, d) == Total(Lengths(cuts))
    ensures c.payloadScope == AlignBurstCommand ==> PayloadCycles(c, d) == Total(AllBeats(cuts, c.busBytes))
  {
    var n := BoundedSegmentCount(d);
    AllCopiesVisited(d);
    GreedyTotals(c, d, cuts, n);
    TotalsFit(c, d);
    assert Lengths(cuts)[..n] == Lengths(cuts) && AllBeats(cuts, c.busBytes)[..n] == AllBeats(cuts, c.busBytes);
    SegmentsExist(d);
  }

  lemma SegmentsExist(d: Desc)
    requires ExactSize(d) && d.totalBytes > 0
    ensures LogicalSegmentCount(d) > 0 && LogicalSegmentBytes(d) > 0
  {
    CostBounds.NonzeroFactors(LogicalSegmentCount(d), LogicalSegmentBytes(d));
  }

  /** No way to cut the copies into allowed bursts has fewer. */
  lemma BoundedCostIsLeast(c: CostConfig, d: Desc, cuts: seq<seq<nat>>)
    requires ValidCost(c) && Built(d) && ExactSize(d) && d.direction != TuToTu && d.totalBytes > 0
    requires c.boundary != SizeOnly && CutsOf(c, d, cuts)
    ensures BurstCount(c, d) <= Total(Lengths(cuts))
  {
    var n := BoundedSegmentCount(d);
    AllCopiesVisited(d);
    LeastTotals(c, d, cuts, n);
    TotalsFit(c, d);
    assert Lengths(cuts)[..n] == Lengths(cuts);
  }

  /** Greedy cuts of all copies exist. */
  lemma GreedyCutsExist(c: CostConfig, d: Desc) returns (cuts: seq<seq<nat>>)
    requires ValidCost(c)
    ensures GreedyCutsOf(c, d, cuts)
  {
    var l := BurstLimits(c, d);
    cuts := seq(PieceCount(d), k requires 0 <= k < PieceCount(d) =>
      var p := PieceAt(d, k); Split(l, NearOffset(d, p), FarAddress(d, p), p.length));
    forall k | 0 <= k < |cuts|
      ensures var p := PieceAt(d, k); IsGreedyCut(c, d, NearOffset(d, p), FarAddress(d, p), p.length, cuts[k])
    {
      var p := PieceAt(d, k);
      GreedyIsSplit(c, d, NearOffset(d, p), FarAddress(d, p), p.length, cuts[k]);
    }
  }

  // ----- Costs counted by size -----

  /** What counts as one segment: a copy, except that a multicast counts as one segment of all its bytes. */
  function SegmentsOf(d: Desc): nat { if d.shape == Multicast then 1 else PieceCount(d) }

  function BytesEach(d: Desc): nat { if d.shape == Multicast then d.totalBytes else MeantRowBytes(d) }

  lemma SegmentsAgree(d: Desc)
    requires Built(d) && ExactSize(d) && d.totalBytes > 0
    ensures LogicalSegmentCount(d) == SegmentsOf(d) > 0 && LogicalSegmentBytes(d) == BytesEach(d) > 0
    ensures SegmentsOf(d) * BytesEach(d) == d.totalBytes < U32
  {
    SegmentsExist(d);
  }

  /** Beats of some bytes moved in bursts of the limit, a shorter one last; each burst begins a new beat. */
  function BurstBeats(bytes: nat, burst: nat, bus: nat): nat
    requires burst > 0 && bus > 0
  {
    Mul(bytes / burst, CeilDiv(burst, bus)) + CeilDiv(bytes % burst, bus)
  }

  lemma BeatsAgree(bytes: nat, burst: nat, bus: nat)
    requires burst > 0 && bus > 0
    ensures BurstAlignedPayloadCycles(bytes, burst, bus) == BurstBeats(bytes, burst, bus)
  {
    DivModUnique(0, bus, 0);
  }

  /** A product of segments and something at most their bytes fits 64 bits. */
  lemma ProductFits(n: nat, bytes: nat, each: nat)
    requires n * bytes < U32 && each <= bytes
    ensures Wrap64(n * each) == n * each
  {
    MulMonotoneLeft(n, each, bytes);
    WrapFits(n * each);
  }

  /** Bursts without an address boundary: of the whole transfer, or of every segment. */
  lemma SizedBursts(c: CostConfig, d: Desc, burst: nat)
    requires ValidCost(c) && Built(d) && ExactSize(d) && d.totalBytes > 0 && c.boundary == SizeOnly
    requires burst == if d.direction == TuToHost then c.writeBurst else c.readBurst
    ensures BurstCount(c, d) == if c.segmentation == Aggregate then CeilDiv(d.totalBytes, burst)
                                else SegmentsOf(d) * CeilDiv(BytesEach(d), burst)
  {
    SegmentsAgree(d);
    CeilDivBounds(BytesEach(d), burst);
    ProductFits(SegmentsOf(d), BytesEach(d), CeilDiv(BytesEach(d), burst));
  }

  /** Data beats: packed, aligned to segments, or aligned to bursts of segments or of the whole transfer. */
  lemma SizedPayload(c: CostConfig, d: Desc, burst: nat)
    requires ValidCost(c) && Built(d) && ExactSize(d) && d.totalBytes > 0
    requires c.payloadScope == AlignBurstCommand ==> c.boundary == SizeOnly
    requires burst == if d.direction == TuToHost then c.writeBurst else c.readBurst
    ensures PayloadCycles(c, d) ==
            match c.payloadScope
            case PackedDescriptor => CeilDiv(d.totalBytes, c.busBytes)
            case AlignLogicalSegment => SegmentsOf(d) * CeilDiv(BytesEach(d), c.busBytes)
            case AlignBurstCommand =>
              if c.segmentation == Logical then SegmentsOf(d) * BurstBeats(BytesEach(d), burst, c.busBytes)
              else BurstBeats(d.totalBytes, burst, c.busBytes)
  {
    SegmentsAgree(d);
    var n, bytes := SegmentsOf(d), BytesEach(d);
    match c.payloadScope
    case PackedDescriptor =>
    case AlignLogicalSegment =>
      CeilDivBounds(bytes, c.busBytes);
      ProductFits(n, bytes, CeilDiv(bytes, c.busBytes));
    case AlignBurstCommand =>
      BeatsAgree(bytes, burst, c.busBytes);
      BeatsAgree(d.totalBytes, burst, c.busBytes);
      AlignedBeats(bytes, burst, c.busBytes);
      ProductFits(n, bytes, BurstAlignedPayloadCycles(bytes, burst, c.busBytes));
  }

  // ----- Service time and charge -----

  /** Something that moves has at least one burst. */
  lemma SomeBurst(c: CostConfig, d: Desc)
    requires ValidCost(c) && Built(d) && ExactSize(d) && d.totalBytes > 0
    ensures BurstCount(c, d) > 0
  {
    var burst, o := BurstBytes(c, d), c.(boundary := SizeOnly);
    BoundaryNeverSavesBursts(c, d);
    SizedBursts(o, d, burst);
    SegmentsAgree(d);
    CeilDivLeast(d.totalBytes, burst, 0);
    CeilDivLeast(BytesEach(d), burst, 0);
    MulMonotone(1, SegmentsOf(d), CeilDiv(BytesEach(d), burst));
  }

  /**
   Latency once or per segment, then issue and payload: one after the other, or the first issue followed by whichever
   of payload and remaining issues takes longer.
   */
  lemma TransferTime(c: CostConfig, d: Desc, latency: nat, issue: nat, payload: nat, bursts: nat)
    requires ValidCost(c) && Built(d) && ExactSize(d) && d.totalBytes > 0
    requires latency == if d.direction == TuToHost then c.writeLatency else c.readLatency
    requires issue == if d.direction == TuToHost then c.writeIssue else c.readIssue
    requires payload == PayloadCycles(c, d) && bursts == BurstCount(c, d)
    ensures var base := (latency * if c.baseScope == PerLogicalSegment then SegmentsOf(d) else 1) % U64;
            TransferCycles(c, d) ==
              (base + if c.issueMode == Serialized then payload + bursts * issue
                      else Max(issue + payload, bursts * issue)) % U64
  {
    SegmentsAgree(d);
    SomeBurst(c, d);
    OverlapForms(payload, bursts, issue);
  }

  lemma OverlapForms(payload: nat, bursts: nat, issue: nat)
    requires bursts > 0
    ensures CombinePayloadIssue(Overlapped, payload, bursts, issue) == Max(issue + payload, bursts * issue)
  {
    AddOneTimes(bursts - 1, issue);
  }

  /** A transfer of nothing still takes its latency, unless that is counted per segment. */
  lemma EmptyTransferTime(c: CostConfig, d: Desc)
    requires ValidCost(c) && d.totalBytes == 0
    ensures BurstCount(c, d) == 0 && PayloadCycles(c, d) == 0
    ensures TransferCycles(c, d) == if c.baseScope == PerLogicalSegment then 0
                                    else (if d.direction == TuToHost then c.writeLatency else c.readLatency) % U64
  {
  }

  /** The charge: bytes moved, bytes the bus was occupied for, or cycles; exact, or rounded up to whole quanta. */
  lemma ChargeInFields(c: CostConfig, d: Desc, raw: nat, quantum: nat)
    requires ValidCost(c) && d.totalBytes < U32
    requires raw == match c.costMode
                    case UsefulBytes => d.totalBytes
                    case OccupiedBytes => (PayloadCycles(c, d) * c.busBytes) % U64
                    case ServiceCycles => TransferCycles(c, d)
    requires quantum == if c.costMode == ServiceCycles then c.quantumCycles else c.quantumBytes
    ensures DrrCost(c, d) == if c.granularity == Exact then raw
                             else if raw + (quantum - 1) > U64_MAX then U64_MAX
                             else CeilDiv(raw, quantum) * quantum
  {
    if c.granularity == QuantumRounded {
      RoundedCharge(c, d, 0);
    }
  }

  // ----- An example -----

  /** Reads are cut at 64 bytes and at multiples of 64 in SRAM. */
  function Cut64(): (c: CostConfig)
    ensures ValidCost(c)
  {
    CostConfig(16, 64, 64, 0, 0, 0, 0, Aggregate, PerDescriptor, AlignBurstCommand, Serialized, SramAddress,
               UsefulBytes, Exact, 256, 1)
  }

  /** Two rows of 64 bytes that go to SRAM 96 bytes apart. */
  function TwoRows(): Desc
  {
    Desc(0, Strided2D, HostToTu, 0, 0, Side(None, 0, 64, 1, true), Side(Some(0), 0, 96, 1, false), None, 2, 64, 1, 1,
         128, [], false, 0, [], false)
  }

  /** The second row starts in the middle of a block, so that three bursts are needed, where packed rows need two. */
  lemma StrideCostsABurst(c: CostConfig, d: Desc)
    requires c == Cut64() && d == TwoRows()
    ensures BurstCount(c, d) == 3 && PayloadCycles(c, d) == 8
  {
    var cuts := [[64], [32, 32]];
    RowsCut(c, d);
    RowsTotal(cuts, 16);
    BoundedCost(c, d, cuts);
  }

  lemma RowsTotal(cuts: seq<seq<nat>>, bus: nat)
    requires cuts == [[64], [32, 32]] && bus == 16
    ensures Total(Lengths(cuts)) == 3 && Total(AllBeats(cuts, bus)) == 8
  {
    var a, b: seq<nat> := [64], [32, 32];
    assert a[1..] == [] && b[1..] == [32] && b[1..][1..] == [];
    assert Beats(b[1..], bus) == 2;
    assert Beats(a, bus) == 4 && Beats(b, bus) == 4;
    assert Lengths(cuts) == [1, 2] && AllBeats(cuts, bus) == [4, 4];
    assert [1, 2][..1] == [1] && [4, 4][..1] == [4];
  }

  lemma RowsCut(c: CostConfig, d: Desc)
    requires c == Cut64() && d == TwoRows()
    ensures Built(d) && ExactSize(d) && GreedyCutsOf(c, d, [[64], [32, 32]])
  {
    assert PieceAt(d, 0) == Piece(0, 0, 64) && PieceAt(d, 1) == Piece(64, 96, 64);
    assert IsGreedyCut(c, d, 160, 128, 0, []);
    assert IsGreedyCut(c, d, 128, 96, 32, [32]);
    assert [32, 32][1..] == [32] && [32][1..] == [] && [64][1..] == [];
    assert IsGreedyCut(c, d, 96, 64, 64, [32, 32]);
    assert IsGreedyCut(c, d, 0, 0, 64, [64]);
  }
}
