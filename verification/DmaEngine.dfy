/**
 The descriptor engine as a state machine: submit, tick, flush over per-channel queues and one shared bus.

 Submissions are single descriptors. The deficit-round-robin step is stated in the closed form of module
 DrrArbiter; module DmaEngineLoop holds the engine's own loops, proved to compute these functions.
 */
module DmaEngine {
  import opened Words
  import opened Cursors
  import opened Descriptor
  import opened ServiceCost
  import opened SramSpans
  import opened DrrArbiter
  import Sram

  datatype BusMode = Independent | SharedSerial
  datatype Policy = RoundRobin | StrictPriority | AgingPriority | DeficitRoundRobin
  datatype AgingScope = FromSubmission | FromQueueHead
  datatype AgingMetric = ByMissedGrants | ByWaitCycles
  datatype Binding = Explicit | Rotating | LeastOutstanding | LeastBytes | LeastProjectedCycles
  datatype Service = Interleaved | WorkConserving
  datatype IdlePolicy = IdleReset | RetainResidual
  datatype RoundCost = Fixed | PerChannel | PerVisitedChannel

  /** Settings that only price the arbitration scan. */
  datatype Knobs = Knobs(roundIssue: nat, selectIssue: nat, roundCost: RoundCost,
                         scanWidth: nat, roundWidth: nat, selectWidth: nat)

  datatype Config = Config(
    channels: nat, maxDepth: nat, async: bool, bus: BusMode, policy: Policy,
    scope: AgingScope, metric: AgingMetric, agingIncrement: nat, agingMaxBoost: nat, agingQuantum: nat,
    binding: Binding, cost: CostConfig, weights: seq<nat>, service: Service, idle: IdlePolicy,
    knobs: Knobs, sizes: seq<nat>)

  /** The ranges the engine's configuration accepts. */
  ghost predicate ValidConfig(c: Config)
  {
    && 1 <= c.channels <= 8 && ValidCost(c.cost) && |c.weights| == 8
    && (forall i :: 0 <= i < 8 ==> c.weights[i] < 256)
    && 1 <= c.agingIncrement < 256 && c.agingMaxBoost < 256 && c.agingQuantum >= 1
  }

  /** Descriptors whose fields hold values of their C types. */
  type Desc32 = d: Desc | Fits32(d)
    witness Desc(0, Linear, HostToTu, 0, 0, Side(None, 0, 0, 0, false), Side(None, 0, 0, 0, false),
                 None, 0, 0, 0, 0, 0, [], false, 0, [], false)

  type BankMeter = m: Sram.Meter | Sram.ValidMeter(m)
    witness Sram.Fresh(Sram.Geometry(1, 1, 0, 0, 0))

  /** A queued descriptor with the clocks the aging policies read. */
  datatype Entry = Entry(d: Desc32, epochSubmitted: Word64, epochEligible: Word64,
                         cycleSubmitted: Word64, cycleEligible: Word64)

  datatype Active = Active(d: Desc32, completesAt: Word64)

  datatype Channel = Channel(queue: seq<Entry>, active: Option<Active>,
                             submitted: nat, completed: nat, credit: Word64)

  datatype State = State(now: Word64, ch: seq<Channel>, cursor: nat, cont: bool, contCh: nat,
                         epoch: Word64, nextBinding: nat, mem: seq<BankMeter>)

  /** A descriptor taken from a channel's queue to be executed. */
  datatype Start = Start(channel: nat, d: Desc32)

  datatype Outcome = Outcome(s: State, started: seq<Start>)

  ghost predicate ValidState(c: Config, s: State)
  {
    && |s.ch| == c.channels && s.cursor < c.channels && s.nextBinding < c.channels
    && (s.cont ==> s.contCh == s.cursor && c.policy == DeficitRoundRobin)
  }

  function Init(c: Config, mem: seq<BankMeter>): (s: State)
    requires ValidConfig(c)
    ensures ValidState(c, s)
  {
    State(0, seq(c.channels, _ => Channel([], None, 0, 0, 0)), 0, false, 0, 0, 0, mem)
  }

  // ----- Executing one descriptor -----

  /** The region whose bandwidth a transfer is charged to. */
  function ChargedRegion(d: Desc): Option<nat>
  {
    if d.shape == Multicast || d.direction == TuToTu then None else SramSide(d).region
  }

  /** Ask the banks for a transfer's words one by one; offsets are 32-bit. */
  function StallWords(m: BankMeter, base: nat, words: nat, write: bool): (r: (BankMeter, nat))
    ensures r.0.g == m.g
  {
    if words == 0 then (m, 0)
    else
      var (m1, s1) := StallWords(m, base, words - 1, write);
      var i := WalkBank(m.g, base, words - 1);
      (m1.(bank := m1.bank[i := Sram.Ask(m1.bank[i], write)]),
       s1 + if m1.bank[i].available > 0 then 0 else m.g.penalty)
  }

  /** The bank of the k-th word of a walk, whose offsets are 32-bit sums. */
  function WalkBank(g: Sram.Geometry, base: nat, k: nat): (i: nat)
    requires Sram.ValidGeometry(g)
    ensures i < g.banks
  {
    BankOf(g, Wrap32(base + Mul(k, g.width)))
  }

  function BankOf(g: Sram.Geometry, offset: nat): (i: nat)
    requires Sram.ValidGeometry(g)
    ensures i < g.banks
  {
    (offset / g.width) % g.banks
  }

  /** Words a transfer is metered as, in 32-bit arithmetic. */
  function MeteredWords(g: Sram.Geometry, bytes: nat): nat
    requires Sram.ValidGeometry(g)
  {
    Wrap32(bytes + g.width - 1) / g.width
  }

  /** SRAM bandwidth stalls of a transfer, and the meters after it. */
  function SramStall(mem: seq<BankMeter>, d: Desc32, cycles: nat): (seq<BankMeter>, nat)
  {
    var region := ChargedRegion(d);
    if region.None? || region.value >= |mem| || !mem[region.value].modeling then (mem, 0)
    else
      var m: BankMeter := Sram.Advance(mem[region.value], cycles);
      var words := MeteredWords(m.g, d.totalBytes);
      var (m', stall) := StallWords(m, SramSide(d).base, words, d.direction == HostToTu);
      (mem[region.value := m'], stall)
  }

  /** Both ends of the copy resolve to memory. */
  predicate Runnable(d: Desc)
  {
    d.shape == Multicast ||
    match d.direction
    case HostToTu => d.src.pointer && (d.dst.region.Some? || d.dst.pointer)
    case TuToHost => (d.src.region.Some? || d.src.pointer) && d.dst.pointer
    case TuToTu => d.src.region.Some? && d.dst.region.Some?
  }

  /** Bus time of a transfer, SRAM stalls included. */
  function ServiceTime(c: Config, mem: seq<BankMeter>, d: Desc32): nat
    requires ValidCost(c.cost)
  {
    TransferCycles(c.cost, d) + SramStall(mem, d, TransferCycles(c.cost, d)).1
  }

  /** Meters after an execution. */
  function MetersAfter(c: Config, mem: seq<BankMeter>, d: Desc32): seq<BankMeter>
    requires ValidCost(c.cost)
  {
    if Runnable(d) then SramStall(mem, d, TransferCycles(c.cost, d)).0 else mem
  }

  /** When an execution begun now completes. A descriptor that cannot run keeps completion time zero. */
  function CompletesAt(c: Config, now: Word64, mem: seq<BankMeter>, d: Desc32): Word64
    requires ValidCost(c.cost)
  {
    if Runnable(d) then Wrap64(now + ServiceTime(c, mem, d)) else 0
  }

  // ----- Submission -----

  function Outstanding(ch: Channel): nat
  {
    |ch.queue| + if ch.active.Some? then 1 else 0
  }

  function QueuedBytes(q: seq<Entry>): nat
  {
    if q == [] then 0 else q[0].d.totalBytes + QueuedBytes(q[1..])
  }

  function ActiveBytes(active: Option<Active>): nat
  {
    if active.Some? then active.value.d.totalBytes else 0
  }

  function AssignedBytes(ch: Channel): nat
  {
    Wrap64(ActiveBytes(ch.active) + QueuedBytes(ch.queue))
  }

  function QueuedCycles(c: CostConfig, q: seq<Entry>): nat
    requires ValidCost(c)
  {
    if q == [] then 0 else TransferCycles(c, q[0].d) + QueuedCycles(c, q[1..])
  }

  /** Cycles until the active transfer completes. */
  function Remaining(now: Word64, active: Option<Active>): nat
  {
    if active.Some? && active.value.completesAt > now then active.value.completesAt - now else 0
  }

  function ProjectedCycles(c: CostConfig, now: Word64, ch: Channel): nat
    requires ValidCost(c)
  {
    Wrap64(Remaining(now, ch.active) + QueuedCycles(c, ch.queue))
  }

  /** What the binding policy compares. */
  function Load(c: Config, s: State, i: nat): nat
    requires ValidCost(c.cost) && i < |s.ch|
  {
    match c.binding
    case LeastOutstanding => Outstanding(s.ch[i])
    case LeastBytes => AssignedBytes(s.ch[i])
    case _ => ProjectedCycles(c.cost, s.now, s.ch[i])
  }

  /** Loads at or above this are never chosen. */
  function LoadLimit(b: Binding): nat
  {
    if b == LeastOutstanding then U32_MAX else U64_MAX
  }

  function Loads(c: Config, s: State): (r: seq<nat>)
    requires ValidConfig(c) && ValidState(c, s)
    ensures |r| == c.channels
  {
    seq(c.channels, i requires 0 <= i < c.channels => Load(c, s, i))
  }

  /** The channel a submission is bound to; it may be out of range under explicit binding. */
  function BoundChannel(c: Config, s: State, d: Desc32): nat
    requires ValidConfig(c) && ValidState(c, s)
  {
    match c.binding
    case Explicit => d.channel
    case Rotating => s.nextBinding
    case _ =>
      var r := FirstLeast(Loads(c, s), s.nextBinding, LoadLimit(c.binding), c.channels);
      if r.Some? then At(c.channels, s.nextBinding, r.value) else d.channel
  }

  /** Spans and bus address are acceptable, and the bound channel exists and has room. */
  predicate Admits(c: Config, s: State, d: Desc32)
    requires ValidConfig(c) && ValidState(c, s)
  {
    && SpansValid(c.sizes, d)
    && (BoundsExternal(c.cost.boundary) ==> d.external.Some?)
    && BoundChannel(c, s, d) < c.channels
    && (c.maxDepth > 0 ==> Outstanding(s.ch[BoundChannel(c, s, d)]) < c.maxDepth)
  }

  function NextSlot(c: Config, i: nat): (r: nat)
    requires i < c.channels
    ensures r < c.channels
  {
    if i + 1 == c.channels then 0 else i + 1
  }

  /** Meters after executing a whole queue on the spot. */
  function Drain(c: Config, mem: seq<BankMeter>, q: seq<Entry>): seq<BankMeter>
    requires ValidCost(c.cost)
    decreases |q|
  {
    if q == [] then mem else Drain(c, MetersAfter(c, mem, q[0].d), q[1..])
  }

  function Starts(i: nat, q: seq<Entry>): (r: seq<Start>)
    ensures |r| == |q| && forall k :: 0 <= k < |q| ==> r[k] == Start(i, q[k].d)
  {
    seq(|q|, k requires 0 <= k < |q| => Start(i, q[k].d))
  }

  /** A submission on an accepted channel. Without asynchronous mode the queue is executed at once. */
  function Enqueue(c: Config, s: State, d: Desc32, i: nat): (r: Outcome)
    requires ValidConfig(c) && ValidState(c, s) && i < c.channels
    ensures ValidState(c, r.s)
  {
    var ch := s.ch[i];
    var q := ch.queue + [Entry(d, s.epoch, s.epoch, s.now, s.now)];
    var s1 := s.(nextBinding := if c.binding == Explicit then s.nextBinding else NextSlot(c, i));
    if c.async then Outcome(s1.(ch := s.ch[i := ch.(queue := q, submitted := ch.submitted + 1)]), [])
    else
      Outcome(s1.(ch := s.ch[i := ch.(queue := [], submitted := ch.submitted + 1, completed := ch.completed + |q|)],
                  mem := Drain(c, s.mem, q)),
              Starts(i, q))
  }

  function Submit(c: Config, s: State, d: Desc32): (r: Outcome)
    requires ValidConfig(c) && ValidState(c, s)
    ensures ValidState(c, r.s)
  {
    if Admits(c, s, d) then Enqueue(c, s, d, BoundChannel(c, s, d)) else Outcome(s, [])
  }

  // ----- Flush -----

  /** Executes everything queued on a channel and retires its active descriptor. */
  function Flush(c: Config, s: State, i: nat): (r: Outcome)
    requires ValidConfig(c) && ValidState(c, s)
    ensures ValidState(c, r.s)
  {
    if i >= c.channels then Outcome(s, [])
    else
      var ch := s.ch[i];
      var drained := ch.(queue := [], active := None, completed := ch.completed + Outstanding(ch));
      Outcome(s.(ch := s.ch[i := drained], mem := Drain(c, s.mem, ch.queue)), Starts(i, ch.queue))
  }

  // ----- Tick: retire, then start -----

  /** Moves the head of a waiting channel onto the bus. */
  function Begin(c: Config, s: State, i: nat): (s': State)
    requires ValidConfig(c) && ValidState(c, s) && i < c.channels && s.ch[i].queue != []
    ensures ValidState(c, s')
  {
    var ch, d := s.ch[i], s.ch[i].queue[0].d;
    s.(ch := s.ch[i := ch.(active := Some(Active(d, CompletesAt(c, s.now, s.mem, d))), queue := ch.queue[1..])],
       mem := MetersAfter(c, s.mem, d))
  }

  predicate Due(now: nat, ch: Channel)
  {
    ch.active.Some? && ch.active.value.completesAt <= now
  }

  function Retired(now: nat, ch: Channel): Channel
  {
    if Due(now, ch) then ch.(active := None, completed := ch.completed + 1) else ch
  }

  /** Retire what is due on the first n channels; independent channels also start their next transfer. */
  function RetireUpTo(c: Config, s: State, n: nat): (r: Outcome)
    requires ValidConfig(c) && ValidState(c, s) && n <= c.channels
    ensures ValidState(c, r.s)
  {
    if n == 0 then Outcome(s, [])
    else
      var r := RetireUpTo(c, s, n - 1);
      var s1 := r.s.(ch := r.s.ch[n - 1 := Retired(r.s.now, r.s.ch[n - 1])]);
      if c.bus == Independent && s1.ch[n - 1].active.None? && s1.ch[n - 1].queue != [] then
        Outcome(Begin(c, s1, n - 1), r.started + [Start(n - 1, s1.ch[n - 1].queue[0].d)])
      else Outcome(s1, r.started)
  }

  predicate BusFree(s: State)
  {
    forall i :: 0 <= i < |s.ch| ==> s.ch[i].active.None?
  }

  predicate AnyWaiting(s: State)
  {
    exists i :: 0 <= i < |s.ch| && s.ch[i].queue != []
  }

  // ----- Deficit round robin -----

  /** A channel's weight; an unset weight counts as one. */
  function Weight(c: Config, i: nat): (w: nat)
    requires ValidConfig(c) && i < c.channels
    ensures 0 < w < 256
  {
    if c.weights[i] == 0 then 1 else c.weights[i]
  }

  /** Credit a channel receives per visit. In range, the 64-bit product never saturates. */
  function Grant(c: Config, i: nat): (g: nat)
    requires ValidConfig(c) && i < c.channels
    ensures 0 < g <= U64_MAX
  {
    MulMonotone(1, Quantum(c.cost), Weight(c, i));
    MulMonotone(Quantum(c.cost), 1048576, Weight(c, i));
    Quantum(c.cost) * Weight(c, i)
  }

  function HeadCost(c: Config, ch: Channel): (r: nat)
    requires ValidCost(c.cost)
    ensures r <= U64_MAX
  {
    if ch.queue == [] then 0 else DrrCost(c.cost, ch.queue[0].d)
  }

  function Lanes(c: Config, s: State): (ls: seq<Lane>)
    requires ValidConfig(c) && ValidState(c, s)
    ensures |ls| == c.channels && ValidLanes(ls, s.cursor)
    ensures forall i :: 0 <= i < |ls| ==>
              ls[i] == Lane(s.ch[i].queue != [], HeadCost(c, s.ch[i]), s.ch[i].credit, Grant(c, i))
  {
    seq(c.channels, i requires 0 <= i < c.channels =>
      Lane(s.ch[i].queue != [], HeadCost(c, s.ch[i]), s.ch[i].credit, Grant(c, i)))
  }

  /** Groups of queue positions examined together. */
  function ScanGroups(k: Knobs, probes: nat, stageWidth: nat): nat
  {
    var width := if stageWidth > 0 then stageWidth else if k.scanWidth > 0 then k.scanWidth else 1;
    CeilDiv(probes, width)
  }

  /** Cycles an unsuccessful round costs. */
  function RoundDelay(c: Config): nat
  {
    if c.knobs.roundCost == Fixed then c.knobs.roundIssue
    else Mul(c.knobs.roundIssue, ScanGroups(c.knobs, c.channels, c.knobs.roundWidth))
  }

  /** Cycles a selection costs, after examining some number of queues. */
  function SelectDelay(c: Config, probes: nat): nat
  {
    match c.knobs.roundCost
    case Fixed => c.knobs.selectIssue
    case PerChannel => Mul(c.knobs.selectIssue, ScanGroups(c.knobs, c.channels, c.knobs.selectWidth))
    case PerVisitedChannel => Mul(c.knobs.selectIssue, ScanGroups(c.knobs, probes, c.knobs.selectWidth))
  }

  /** Scheduler time of an arbitration that succeeds at this probe of this round. */
  function ArbitrationDelay(c: Config, probe: nat, round: nat): nat
    requires round > 0
  {
    Mul(round - 1, RoundDelay(c)) + SelectDelay(c, probe + 1)
  }

  /** Visits a channel gets in an arbitration that succeeds at this probe of this round. */
  function Visits(n: nat, cursor: nat, probe: nat, round: nat, i: nat): nat
    requires cursor < n && probe < n && i < n && round > 0
  {
    if Dist(n, cursor, i) <= probe then round else round - 1
  }

  /** Credit of a channel after some visits, before any charge. */
  function CreditAfter(c: Config, s: State, i: nat, visits: nat): (r: nat)
    requires ValidConfig(c) && ValidState(c, s) && i < c.channels
    ensures r <= U64_MAX
  {
    if s.ch[i].queue == [] then
      if visits > 0 && c.idle == IdleReset then 0 else s.ch[i].credit
    else Visited(Lanes(c, s)[i], visits, Held(s.cont, Dist(c.channels, s.cursor, i)))
  }

  function WithCredits(c: Config, s: State, probe: nat, round: nat): (r: seq<Channel>)
    requires ValidConfig(c) && ValidState(c, s) && probe < c.channels && round > 0
    ensures |r| == c.channels
    ensures forall i :: 0 <= i < c.channels ==>
              r[i] == s.ch[i].(credit := CreditAfter(c, s, i, Visits(c.channels, s.cursor, probe, round, i)))
  {
    seq(c.channels, i requires 0 <= i < c.channels =>
      s.ch[i].(credit := CreditAfter(c, s, i, Visits(c.channels, s.cursor, probe, round, i))))
  }

  /** A scan of empty queues: resets idle credits and ends any continuation. */
  function ScanNobody(c: Config, s: State): (s': State)
    requires ValidConfig(c) && ValidState(c, s)
    ensures ValidState(c, s')
  {
    s.(ch := seq(c.channels, i requires 0 <= i < c.channels => s.ch[i].(credit := CreditAfter(c, s, i, 1))),
       cont := false)
  }

  /** Credit the winner keeps: what is left after its charge, or nothing if its queue empties under idle reset. */
  function Residue(c: Config, credit: nat, cost: nat, rest: seq<Entry>): (r: nat)
    requires cost <= credit
    ensures r <= credit
  {
    if rest == [] && c.idle == IdleReset then 0 else credit - cost
  }

  /** The winner may go on without a new grant at the next arbitration. */
  predicate Continues(c: Config, credit: nat, rest: seq<Entry>)
    requires ValidCost(c.cost)
  {
    c.service == WorkConserving && rest != [] && credit >= DrrCost(c.cost, rest[0].d)
  }

  ghost predicate CanWin(c: Config, s: State, probe: nat, round: nat)
    requires ValidConfig(c) && ValidState(c, s)
  {
    && probe < c.channels && round > 0 && c.policy == DeficitRoundRobin
    && var i := At(c.channels, s.cursor, probe);
       s.ch[i].queue != [] && HeadCost(c, s.ch[i]) <= CreditAfter(c, s, i, round)
  }

  /** The winner is charged and the scheduler's time has passed. */
  function Paid(c: Config, s: State, probe: nat, round: nat): (r: State)
    requires ValidConfig(c) && ValidState(c, s) && CanWin(c, s, probe, round)
    ensures ValidState(c, r)
    ensures r.ch[At(c.channels, s.cursor, probe)].queue == s.ch[At(c.channels, s.cursor, probe)].queue
  {
    var i := At(c.channels, s.cursor, probe);
    var left := Residue(c, CreditAfter(c, s, i, round), HeadCost(c, s.ch[i]), s.ch[i].queue[1..]);
    var chs := WithCredits(c, s, probe, round);
    s.(now := SatAdd(s.now, ArbitrationDelay(c, probe, round)), ch := chs[i := chs[i].(credit := left)], cont := false)
  }

  /** The cursor stays on a channel whose visit continues, or moves past it. */
  function Settle(c: Config, s: State, i: nat): (r: State)
    requires ValidConfig(c) && ValidState(c, s) && i < c.channels && c.policy == DeficitRoundRobin
    ensures ValidState(c, r)
  {
    var stay := Continues(c, s.ch[i].credit, s.ch[i].queue);
    s.(cursor := if stay then i else NextSlot(c, i), cont := stay,
       contCh := if stay then i else s.contCh, epoch := Wrap64(s.epoch + 1))
  }

  /** The state after the given probe of the given round wins. */
  function Award(c: Config, s: State, probe: nat, round: nat): (s': State)
    requires ValidConfig(c) && ValidState(c, s) && CanWin(c, s, probe, round)
    ensures ValidState(c, s')
  {
    var i := At(c.channels, s.cursor, probe);
    Settle(c, Begin(c, Paid(c, s, probe, round), i), i)
  }

  /** Why the verdict's winner can pay. */
  lemma WinnerCanPay(c: Config, s: State)
    requires ValidConfig(c) && ValidState(c, s) && c.policy == DeficitRoundRobin
    ensures var v := Arbitrate(Lanes(c, s), s.cursor, s.cont);
            v.Winner? ==> CanWin(c, s, v.probe, v.round)
  {
    BestIsBest(Lanes(c, s), s.cursor, s.cont, c.channels);
    var v := Arbitrate(Lanes(c, s), s.cursor, s.cont);
    if v.Winner? {
      NeedIsThreshold(LaneAt(Lanes(c, s), s.cursor, v.probe), Held(s.cont, v.probe), v.round);
    }
  }

  function ArbitrateDrr(c: Config, s: State): (r: Outcome)
    requires ValidConfig(c) && ValidState(c, s) && c.policy == DeficitRoundRobin
    ensures ValidState(c, r.s)
  {
    WinnerCanPay(c, s);
    var v := Arbitrate(Lanes(c, s), s.cursor, s.cont);
    if v.Nobody? then Outcome(ScanNobody(c, s), [])
    else
      var i := At(c.channels, s.cursor, v.probe);
      Outcome(Award(c, s, v.probe, v.round), [Start(i, s.ch[i].queue[0].d)])
  }

  // ----- Round robin and priorities -----

  /** Difference of two 64-bit clocks. */
  function Since(now: Word64, start: Word64): Word64
  {
    if now >= start then now - start else now + U64 - start
  }

  function Age(c: Config, s: State, e: Entry): nat
    requires c.agingQuantum > 0
  {
    if c.metric == ByWaitCycles then
      Since(s.now, if c.scope == FromQueueHead then e.cycleEligible else e.cycleSubmitted) / c.agingQuantum
    else
      Since(s.epoch, if c.scope == FromQueueHead then e.epochEligible else e.epochSubmitted)
  }

  /** Descriptor priority plus its aging boost, at most 255. */
  function EffectivePriority(c: Config, s: State, e: Entry): (p: nat)
    requires c.agingQuantum > 0
    ensures p < 256
  {
    var room := 255 - e.d.priority;
    var boost := Age(c, s, e) * c.agingIncrement;
    var capped := if c.agingMaxBoost != 0 && boost > c.agingMaxBoost then c.agingMaxBoost else boost;
    e.d.priority + if capped > room then room else capped
  }

  /** The rank by which the policy compares heads; round robin ranks all alike. */
  function Rank(c: Config, s: State, e: Entry): nat
    requires c.agingQuantum > 0
  {
    match c.policy
    case StrictPriority => e.d.priority
    case AgingPriority => EffectivePriority(c, s, e)
    case _ => 0
  }

  /** The highest rank among the heads of the first m channels. */
  function BestRank(c: Config, s: State, m: nat): (r: nat)
    requires ValidConfig(c) && ValidState(c, s) && m <= c.channels
  {
    if m == 0 then 0
    else
      var r := BestRank(c, s, m - 1);
      if s.ch[m - 1].queue != [] && Rank(c, s, s.ch[m - 1].queue[0]) > r then Rank(c, s, s.ch[m - 1].queue[0]) else r
  }

  /** No head ranks above the best rank, and some head has it unless it is zero. */
  lemma {:induction false} BestRankIsBest(c: Config, s: State, m: nat)
    requires ValidConfig(c) && ValidState(c, s) && m <= c.channels
    ensures var r := BestRank(c, s, m);
            && (forall i :: 0 <= i < m && s.ch[i].queue != [] ==> Rank(c, s, s.ch[i].queue[0]) <= r)
            && (r > 0 ==> exists i :: 0 <= i < m && s.ch[i].queue != [] && Rank(c, s, s.ch[i].queue[0]) == r)
  {
    if m > 0 {
      BestRankIsBest(c, s, m - 1);
    }
  }

  predicate Eligible(c: Config, s: State, i: nat)
    requires ValidConfig(c) && ValidState(c, s) && i < c.channels
  {
    s.ch[i].queue != [] && Rank(c, s, s.ch[i].queue[0]) == BestRank(c, s, c.channels)
  }

  /** The first eligible probe from p on. */
  function FirstEligible(c: Config, s: State, p: nat): (r: Option<nat>)
    requires ValidConfig(c) && ValidState(c, s) && p <= c.channels
    ensures r.Some? ==> p <= r.value < c.channels && Eligible(c, s, At(c.channels, s.cursor, r.value))
    decreases c.channels - p
  {
    if p == c.channels then None
    else if Eligible(c, s, At(c.channels, s.cursor, p)) then Some(p)
    else FirstEligible(c, s, p + 1)
  }

  /** No probe before the first eligible one is eligible, and none at all if there is no first. */
  lemma {:induction false} FirstEligibleIsFirst(c: Config, s: State, p: nat, k: nat)
    requires ValidConfig(c) && ValidState(c, s) && p <= k < c.channels
    ensures var r := FirstEligible(c, s, p);
            (r.None? || k < r.value) ==> !Eligible(c, s, At(c.channels, s.cursor, k))
    decreases c.channels - p
  {
    if p < k && !Eligible(c, s, At(c.channels, s.cursor, p)) {
      FirstEligibleIsFirst(c, s, p + 1, k);
    }
  }

  /** The next head of a channel becomes eligible for aging now. */
  function Promote(q: seq<Entry>, epoch: Word64, now: Word64): (r: seq<Entry>)
    ensures |r| == |q|
  {
    if q == [] then q else q[0 := q[0].(epochEligible := epoch, cycleEligible := now)]
  }

  /** The state after a ranked head at this probe is started. */
  function Serve(c: Config, s: State, probe: nat): (s': State)
    requires ValidConfig(c) && ValidState(c, s) && c.policy != DeficitRoundRobin && probe < c.channels
    requires s.ch[At(c.channels, s.cursor, probe)].queue != []
    ensures ValidState(c, s')
  {
    var i := At(c.channels, s.cursor, probe);
    var begun := Begin(c, s, i);
    var ch := begun.ch[i];
    begun.(ch := begun.ch[i := ch.(queue := Promote(ch.queue, Wrap64(s.epoch + 1), s.now))],
           cursor := NextSlot(c, i), epoch := Wrap64(s.epoch + 1))
  }

  function ArbitrateRank(c: Config, s: State): (r: Outcome)
    requires ValidConfig(c) && ValidState(c, s) && c.policy != DeficitRoundRobin
    ensures ValidState(c, r.s)
  {
    var p := FirstEligible(c, s, 0);
    if p.None? then Outcome(s, [])
    else
      var i := At(c.channels, s.cursor, p.value);
      Outcome(Serve(c, s, p.value), [Start(i, s.ch[i].queue[0].d)])
  }

  // ----- One tick -----

  function Retire(c: Config, s: State): (r: Outcome)
    requires ValidConfig(c) && ValidState(c, s)
    ensures ValidState(c, r.s)
  {
    RetireUpTo(c, s.(now := Wrap64(s.now + 1)), c.channels)
  }

  function Arbitration(c: Config, s: State): (r: Outcome)
    requires ValidConfig(c) && ValidState(c, s)
    ensures ValidState(c, r.s)
  {
    if c.bus != SharedSerial || !BusFree(s) then Outcome(s, [])
    else if c.policy == DeficitRoundRobin then ArbitrateDrr(c, s)
    else ArbitrateRank(c, s)
  }

  function Tick(c: Config, s: State): (r: Outcome)
    requires ValidConfig(c) && ValidState(c, s)
    ensures ValidState(c, r.s)
  {
    var r := Retire(c, s);
    var a := Arbitration(c, r.s);
    Outcome(a.s, r.started + a.started)
  }
}
