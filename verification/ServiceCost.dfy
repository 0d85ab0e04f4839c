/**
 Bus service cost of a descriptor: burst commands, data beats, command issue and base latency, and the
 charge deficit round robin puts on it.
 */
module ServiceCost {
  import opened Words
  import opened Descriptor
  import opened BurstSplit

  datatype Segmentation = Aggregate | Logical
  datatype BaseScope = PerDescriptor | PerLogicalSegment
  datatype PayloadScope = PackedDescriptor | AlignLogicalSegment | AlignBurstCommand
  datatype IssueMode = Serialized | Overlapped
  datatype Boundary = SizeOnly | SramAddress | Sram4K | External4K | Both4K | ExternalAddress | BothAddress
  datatype CostMode = UsefulBytes | OccupiedBytes | ServiceCycles
  datatype Granularity = Exact | QuantumRounded

  datatype CostConfig = CostConfig(
    busBytes: nat,
    readBurst: nat,
    writeBurst: nat,
    readIssue: nat,
    writeIssue: nat,
    readLatency: nat,
    writeLatency: nat,
    segmentation: Segmentation,
    baseScope: BaseScope,
    payloadScope: PayloadScope,
    issueMode: IssueMode,
    boundary: Boundary,
    costMode: CostMode,
    granularity: Granularity,
    quantumBytes: nat,
    quantumCycles: nat)

  /** What the engine's configuration checks leave. */
  ghost predicate ValidCost(c: CostConfig)
  {
    && 4 <= c.busBytes <= 128
    && 16 <= c.readBurst <= 65536 && 16 <= c.writeBurst <= 65536
    && 16 <= c.quantumBytes <= 65536 && 1 <= c.quantumCycles <= 1048576
  }

  const PAGE: nat := 4096

  predicate BoundsSram(b: Boundary)
  {
    b == SramAddress || b == Sram4K || b == Both4K || b == BothAddress
  }

  predicate BoundsExternal(b: Boundary)
  {
    b == External4K || b == Both4K || b == ExternalAddress || b == BothAddress
  }

  function BurstBytes(c: CostConfig, d: Desc): nat
  {
    if d.direction == TuToHost then c.writeBurst else c.readBurst
  }

  function BurstLimits(c: CostConfig, d: Desc): (l: Limits)
    requires ValidCost(c)
    ensures ValidLimits(l)
  {
    var burst := BurstBytes(c, d);
    Limits(burst,
           if !BoundsSram(c.boundary) then None
           else if c.boundary == SramAddress || c.boundary == BothAddress then Some(burst) else Some(PAGE),
           if !BoundsExternal(c.boundary) then None
           else if c.boundary == ExternalAddress || c.boundary == BothAddress then Some(burst) else Some(PAGE))
  }

  function LogicalSegmentCount(d: Desc): nat
  {
    if d.totalBytes == 0 then 0
    else match d.shape
      case Strided2D => d.dim0
      case Strided3D => d.dim0 * d.dim1
      case Scatter => |d.index|
      case Gather => |d.index|
      case _ => 1
  }

  function LogicalSegmentBytes(d: Desc): nat
  {
    match d.shape
    case Strided2D => d.elemSize * d.dim1
    case Strided3D => d.elemSize * d.dim2
    case Scatter => d.indexElemSize
    case Gather => d.indexElemSize
    case _ => d.totalBytes
  }

  /** One contiguous piece of a transfer as the bus sees it. */
  datatype Segment = Segment(sram: nat, external: nat, bytes: nat)

  function ExternalBase(d: Desc): nat { d.external.GetOr(0) }

  /** The k-th piece the address-bounded cost walks over. */
  function SegmentAt(d: Desc, k: nat): Segment
  {
    var near, ext := SramSide(d), if d.direction == HostToTu then d.src else d.dst;
    var base, bytes := ExternalBase(d), LogicalSegmentBytes(d);
    match d.shape
    case Strided2D => Segment(near.base + Mul(k, near.rowStride), base + Mul(k, ext.rowStride), bytes)
    case Strided3D =>
      if d.dim1 == 0 then Segment(0, 0, 0)
      else
        var zr := SliceRow(d.dim1, k);
        Segment(near.base + Mul(zr.0, near.depthStride) + Mul(zr.1, near.rowStride),
                base + Mul(zr.0, ext.depthStride) + Mul(zr.1, ext.rowStride), bytes)
    case Multicast =>
      Segment(if k < |d.targets| then d.targets[k].offset else 0, base, d.dim0 * d.elemSize)
    case Linear => Segment(near.base, base, d.totalBytes)
    case _ => Segment(if k < |d.index| then d.index[k] else 0, base + Mul(k, bytes), bytes)
  }

  function BoundedSegmentCount(d: Desc): nat
  {
    if d.totalBytes == 0 || LogicalSegmentBytes(d) == 0 then 0
    else if d.shape == Multicast then |d.targets|
    else LogicalSegmentCount(d)
  }

  /** Bursts of the first n pieces. */
  function BoundedBursts(c: CostConfig, d: Desc, n: nat): nat
    requires ValidCost(c)
  {
    if n == 0 then 0
    else
      var s := SegmentAt(d, n - 1);
      BoundedBursts(c, d, n - 1) + |Split(BurstLimits(c, d), s.sram, s.external, s.bytes)|
  }

  /** Data beats of the first n pieces. */
  function BoundedBeats(c: CostConfig, d: Desc, n: nat): nat
    requires ValidCost(c)
  {
    if n == 0 then 0
    else
      var s := SegmentAt(d, n - 1);
      BoundedBeats(c, d, n - 1) + Beats(Split(BurstLimits(c, d), s.sram, s.external, s.bytes), c.busBytes)
  }

  /** The walk over all pieces of a descriptor. */
  method AddressBoundedTotals(c: CostConfig, d: Desc) returns (bursts: nat, payload: nat)
    requires ValidCost(c)
    ensures bursts == BoundedBursts(c, d, BoundedSegmentCount(d))
    ensures payload == BoundedBeats(c, d, BoundedSegmentCount(d))
  {
    bursts, payload := 0, 0;
    var count := BoundedSegmentCount(d);
    for k := 0 to count
      invariant bursts == BoundedBursts(c, d, k) && payload == BoundedBeats(c, d, k)
    {
      var s := SegmentAt(d, k);
      bursts, payload :=
        AddAddressBoundedSegment(BurstLimits(c, d), s.sram, s.external, s.bytes, c.busBytes, bursts, payload);
    }
  }

  function BurstCount(c: CostConfig, d: Desc): nat
    requires ValidCost(c)
  {
    if d.totalBytes == 0 then 0
    else if c.boundary != SizeOnly then Wrap64(BoundedBursts(c, d, BoundedSegmentCount(d)))
    else if c.segmentation != Logical then CeilDiv(d.totalBytes, BurstBytes(c, d))
    else if LogicalSegmentBytes(d) == 0 || LogicalSegmentCount(d) == 0 then 0
    else Wrap64(LogicalSegmentCount(d) * CeilDiv(LogicalSegmentBytes(d), BurstBytes(c, d)))
  }

  function PayloadCycles(c: CostConfig, d: Desc): nat
    requires ValidCost(c)
  {
    if d.totalBytes == 0 then 0
    else if c.payloadScope == PackedDescriptor then CeilDiv(d.totalBytes, c.busBytes)
    else if LogicalSegmentCount(d) == 0 || LogicalSegmentBytes(d) == 0 then 0
    else if c.payloadScope == AlignLogicalSegment then
      Wrap64(LogicalSegmentCount(d) * CeilDiv(LogicalSegmentBytes(d), c.busBytes))
    else if c.boundary != SizeOnly then Wrap64(BoundedBeats(c, d, BoundedSegmentCount(d)))
    else if c.segmentation == Logical then
      Wrap64(LogicalSegmentCount(d) * BurstAlignedPayloadCycles(LogicalSegmentBytes(d), BurstBytes(c, d), c.busBytes))
    else BurstAlignedPayloadCycles(d.totalBytes, BurstBytes(c, d), c.busBytes)
  }

  function BaseCycles(c: CostConfig, d: Desc): nat
  {
    var base := if d.direction == TuToHost then c.writeLatency else c.readLatency;
    Wrap64(base * if c.baseScope == PerLogicalSegment then LogicalSegmentCount(d) else 1)
  }

  function IssueCycles(c: CostConfig, d: Desc): nat
  {
    if d.direction == TuToHost then c.writeIssue else c.readIssue
  }

  /** Command issue and payload either one after the other, or overlapped behind the first command. */
  function CombinePayloadIssue(mode: IssueMode, payload: nat, bursts: nat, issue: nat): nat
  {
    if mode == Overlapped && bursts > 0 && issue > 0 then
      AddOneTimes(bursts - 1, issue);
      issue + Max(payload, bursts * issue - issue)
    else payload + bursts * issue
  }

  function TransferCycles(c: CostConfig, d: Desc): nat
    requires ValidCost(c)
  {
    Wrap64(BaseCycles(c, d) +
           CombinePayloadIssue(c.issueMode, PayloadCycles(c, d), BurstCount(c, d), IssueCycles(c, d)))
  }

  function Quantum(c: CostConfig): nat
  {
    if c.costMode == ServiceCycles then c.quantumCycles else c.quantumBytes
  }

  function RawCharge(c: CostConfig, d: Desc): (r: nat)
    requires ValidCost(c)
    ensures d.totalBytes < U32 ==> r <= U64_MAX
  {
    match c.costMode
    case ServiceCycles => TransferCycles(c, d)
    case OccupiedBytes => Wrap64(PayloadCycles(c, d) * c.busBytes)
    case UsefulBytes => d.totalBytes
  }

  /** The deficit-round-robin charge of a descriptor. */
  function DrrCost(c: CostConfig, d: Desc): (r: nat)
    requires ValidCost(c)
    ensures d.totalBytes < U32 ==> r <= U64_MAX
  {
    var cost, q := RawCharge(c, d), Quantum(c);
    if cost == 0 || c.granularity == Exact then cost
    else if cost + (q - 1) > U64_MAX then U64_MAX
    else RoundUpFits(cost, q); ((cost + q - 1) / q) * q
  }

  lemma RoundUpFits(cost: nat, q: nat)
    requires q > 0
    ensures cost <= ((cost + q - 1) / q) * q <= cost + q - 1
  {
    var x := cost + q - 1;
    assert x == (x / q) * q + x % q;
  }
}
