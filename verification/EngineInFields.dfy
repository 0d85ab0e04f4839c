/**
 What a tick retires and starts, and when a started transfer completes, told in the fields of the channels, the
 descriptors and the clock alone.
 */
module EngineInFields {
  import opened Words
  import opened Cursors
  import opened DrrArbiter
  import opened Descriptor
  import opened ServiceCost
  import opened CopiesInFields
  import opened DmaEngine
  import opened DmaRuns
  import opened DmaBandwidth
  import Sram

  /** Going round from the cursor, slot i is reached before slot j. */
  predicate Nearer(cursor: nat, i: nat, j: nat)
  {
    if cursor <= i then i < j || j < cursor else i < j < cursor
  }

  lemma NearerIsEarlier(n: nat, cursor: nat, i: nat, j: nat)
    requires cursor < n && i < n && j < n
    ensures Nearer(cursor, i, j) <==> Dist(n, cursor, i) < Dist(n, cursor, j)
  {
  }

  lemma DistIsModulo(n: nat, cursor: nat, i: nat)
    requires cursor < n && i < n
    ensures (i + n - cursor) % n == Dist(n, cursor, i)
  {
    if i >= cursor {
      DivModUnique(1, n, i - cursor);
    } else {
      DivModUnique(0, n, i + n - cursor);
    }
  }

  lemma NextSlotIsModulo(c: Config, i: nat)
    requires i < c.channels
    ensures NextSlot(c, i) == (i + 1) % c.channels
  {
    if i + 1 == c.channels {
      DivModUnique(1, c.channels, 0);
    } else {
      DivModUnique(0, c.channels, i + 1);
    }
  }

  // ----- Retiring -----

  /** The transfer that a channel has on the bus, if any, is over at this clock. */
  predicate Over(ch: Channel, clock: nat)
  {
    match ch.active
    case None => false
    case Some(a) => a.completesAt <= clock
  }

  /** A tick finds the bus free: whatever is active is over when the clock has advanced. */
  ghost predicate BusFreed(s: State)
  {
    forall i :: 0 <= i < |s.ch| && s.ch[i].active.Some? ==> Over(s.ch[i], (s.now + 1) % U64)
  }

  lemma BusFreedExactly(c: Config, s: State)
    requires ValidConfig(c) && ValidState(c, s) && c.bus == SharedSerial
    ensures BusFree(AfterRetire(c, s)) <==> BusFreed(s)
  {
    RetireShared(c, s);
    assert forall i :: 0 <= i < c.channels ==>
             (AfterRetire(c, s).ch[i].active.None? <==> s.ch[i].active.None? || Over(s.ch[i], (s.now + 1) % U64));
  }

  /** Retiring leaves the queues. */
  lemma StillWaiting(c: Config, s: State)
    requires ValidConfig(c) && ValidState(c, s) && c.bus == SharedSerial && AnyWaiting(s)
    ensures AnyWaiting(AfterRetire(c, s)) && AfterRetire(c, s).epoch == s.epoch
    ensures AfterRetire(c, s).now == (s.now + 1) % U64
  {
    var j :| 0 <= j < |s.ch| && s.ch[j].queue != [];
    RetireShared(c, s);
    RetireSame(c, s, j);
  }

  /** The channel after a tick: what is over counts as completed, and at most the head has left the queue. */
  ghost predicate Advanced(before: Channel, after: Channel, clock: nat)
  {
    && after.completed == before.completed + (if Over(before, clock) then 1 else 0)
    && after.submitted == before.submitted
    && if |after.queue| == |before.queue| then after.active == if Over(before, clock) then None else before.active
       else
         && |after.queue| + 1 == |before.queue| && (before.active.None? || Over(before, clock))
         && after.active.Some? && after.active.value.d == before.queue[0].d
  }

  lemma ArbitrationAdvances(c: Config, s: State, i: nat)
    requires ValidConfig(c) && ValidState(c, s) && i < c.channels && BusFree(s)
    ensures var a, b := s.ch[i], Arbitration(c, s).s.ch[i];
            && b.completed == a.completed && b.submitted == a.submitted
            && if |b.queue| == |a.queue| then b.active == a.active
               else |b.queue| + 1 == |a.queue| && b.active.Some? && b.active.value.d == a.queue[0].d
  {
    if c.bus == SharedSerial {
      if c.policy == DeficitRoundRobin {
        DrrAdvances(c, s, i);
      } else {
        RankAdvances(c, s, i);
      }
    }
  }

  lemma DrrAdvances(c: Config, s: State, i: nat)
    requires ValidConfig(c) && ValidState(c, s) && i < c.channels && c.policy == DeficitRoundRobin
    ensures var a, b := s.ch[i], ArbitrateDrr(c, s).s.ch[i];
            && b.completed == a.completed && b.submitted == a.submitted
            && if |b.queue| == |a.queue| then b.active == a.active
               else |b.queue| + 1 == |a.queue| && b.active.Some? && b.active.value.d == a.queue[0].d
  {
    var v := Arbitrate(Lanes(c, s), s.cursor, s.cont);
    WinnerCanPay(c, s);
    if v.Winner? {
      AwardChannels(c, s, v.probe, v.round);
      AwardStarts(c, s, v.probe, v.round);
    }
  }

  lemma RankAdvances(c: Config, s: State, i: nat)
    requires ValidConfig(c) && ValidState(c, s) && i < c.channels && c.policy != DeficitRoundRobin
    ensures var a, b := s.ch[i], ArbitrateRank(c, s).s.ch[i];
            && b.completed == a.completed && b.submitted == a.submitted
            && if |b.queue| == |a.queue| then b.active == a.active
               else |b.queue| + 1 == |a.queue| && b.active.Some? && b.active.value.d == a.queue[0].d
  {
    var p := FirstEligible(c, s, 0);
    if p.Some? {
      ServeChannels(c, s, p.value, i);
    }
  }

  /** On a shared bus a tick retires exactly what is over, and starts a head only when nothing else is on the bus. */
  lemma SharedTick(c: Config, s: State, i: nat)
    requires ValidConfig(c) && ValidState(c, s) && c.bus == SharedSerial && i < c.channels
    ensures Advanced(s.ch[i], Tick(c, s).s.ch[i], (s.now + 1) % U64)
    ensures |Tick(c, s).s.ch[i].queue| < |s.ch[i].queue| ==> BusFreed(s)
  {
    RetireShared(c, s);
    BusFreedExactly(c, s);
    if BusFreed(s) {
      ArbitrationAdvances(c, AfterRetire(c, s), i);
    }
  }

  /** The channel also starts its head if it has one and its slot is free. */
  ghost predicate AdvancedAlone(before: Channel, after: Channel, clock: nat)
  {
    && Advanced(before, after, clock)
    && (after.queue == if before.queue != [] && (before.active.None? || Over(before, clock))
                       then before.queue[1..] else before.queue)
  }

  /** Independent channels: each retires what is over and then starts its head. */
  lemma IndependentTick(c: Config, s: State, i: nat)
    requires ValidConfig(c) && ValidState(c, s) && c.bus == Independent && i < c.channels
    ensures Tick(c, s).s.now == (s.now + 1) % U64
    ensures AdvancedAlone(s.ch[i], Tick(c, s).s.ch[i], (s.now + 1) % U64)
  {
    AloneUpTo(c, s.(now := Wrap64(s.now + 1)), c.channels, i);
    assert Tick(c, s).s == Retire(c, s).s;
  }

  lemma {:induction false} AloneUpTo(c: Config, s: State, n: nat, i: nat)
    requires ValidConfig(c) && ValidState(c, s) && c.bus == Independent && n <= c.channels && i < c.channels
    ensures var r := RetireUpTo(c, s, n).s;
            r.now == s.now && if i < n then AdvancedAlone(s.ch[i], r.ch[i], s.now) else r.ch[i] == s.ch[i]
  {
    if n > 0 {
      AloneUpTo(c, s, n - 1, i);
      AloneStep(c, s, n, i);
    }
  }

  /** One channel advances; the others stay. */
  lemma AloneStep(c: Config, s: State, n: nat, i: nat)
    requires ValidConfig(c) && ValidState(c, s) && c.bus == Independent && 0 < n <= c.channels && i < c.channels
    ensures var a, b := RetireUpTo(c, s, n - 1).s, RetireUpTo(c, s, n).s;
            b.now == a.now && if i == n - 1 then AdvancedAlone(a.ch[i], b.ch[i], a.now) else b.ch[i] == a.ch[i]
  {
  }

  // ----- Completing -----

  /** The host side of a transfer has a pointer; a multicast never lacks one. */
  predicate HostGiven(d: Desc)
  {
    d.shape == Multicast || match d.direction
      case HostToTu => d.src.pointer
      case TuToHost => d.dst.pointer
      case TuToTu => false
  }

  /** A transfer begun now occupies its channel for its bus time and stalls; without a host pointer it ends at once. */
  ghost predicate Occupies(c: Config, mem: seq<BankMeter>, now: Word64, d: Desc32, a: Active)
    requires ValidCost(c.cost)
  {
    && a.d == d
    && a.completesAt == if !HostGiven(d) then 0
                        else (now + TransferCycles(c.cost, d) + SramStall(mem, d, TransferCycles(c.cost, d)).1) % U64
  }

  lemma BegunOccupies(c: Config, now: Word64, mem: seq<BankMeter>, d: Desc32)
    requires ValidConfig(c) && Built(d) && Acceptable(c.sizes, d)
    ensures Occupies(c, mem, now, d, Active(d, CompletesAt(c, now, mem, d)))
  {
  }

  /** What a tick of the shared bus starts occupies its channel from the clock the arbitration left. */
  lemma StartedOccupies(c: Config, s: State, i: nat)
    requires ValidConfig(c) && ValidState(c, s) && c.bus == SharedSerial && i < c.channels
    requires |Tick(c, s).s.ch[i].queue| < |s.ch[i].queue|
    requires Built(s.ch[i].queue[0].d) && Acceptable(c.sizes, s.ch[i].queue[0].d)
    ensures var r := Tick(c, s).s;
            r.ch[i].active.Some? && Occupies(c, s.mem, r.now, s.ch[i].queue[0].d, r.ch[i].active.value)
  {
    SharedTick(c, s, i);
    RetireShared(c, s);
    BusFreedExactly(c, s);
    ArbitrationStarts(c, AfterRetire(c, s), i);
    BegunOccupies(c, Tick(c, s).s.now, s.mem, s.ch[i].queue[0].d);
  }

  lemma ArbitrationStarts(c: Config, s: State, i: nat)
    requires ValidConfig(c) && ValidState(c, s) && c.bus == SharedSerial && i < c.channels && BusFree(s)
    requires |Arbitration(c, s).s.ch[i].queue| < |s.ch[i].queue|
    ensures var r, d := Arbitration(c, s).s, s.ch[i].queue[0].d;
            r.ch[i].active == Some(Active(d, CompletesAt(c, r.now, s.mem, d)))
  {
    if c.policy == DeficitRoundRobin {
      var v := Arbitrate(Lanes(c, s), s.cursor, s.cont);
      WinnerCanPay(c, s);
      AwardChannels(c, s, v.probe, v.round);
      AwardStarts(c, s, v.probe, v.round);
    } else {
      ServeChannels(c, s, FirstEligible(c, s, 0).value, i);
    }
  }

  // ----- Stalls -----

  /** Words of this width that the bytes fill, the last one perhaps in part. */
  lemma WordsMetered(g: Sram.Geometry, bytes: nat, k: nat)
    requires Sram.ValidGeometry(g) && bytes + g.width <= U32
    ensures k * g.width >= bytes <==> k >= MeteredWords(g, bytes)
  {
    var x := bytes + g.width - 1;
    DivBelow(x, g.width, k + 1);
    AddOneTimes(k, g.width);
    DivBelow(x, g.width, k);
    CeilDivLeast(bytes, g.width, k);
    DivModUnique(0, U32, x);
  }

  /** The word loop stalls the penalty for every word beyond what its bank has left. */
  lemma WordsStall(m: BankMeter, base: nat, bytes: nat, write: bool)
    requires m.modeling && bytes + m.g.width <= U32 && OffsetsFit(base, CeilDiv(bytes, m.g.width), m.g.width)
    ensures StallWords(m, base, MeteredWords(m.g, bytes), write).1
            == Mul(m.g.penalty, Sram.Overdrawn(m, Div(base, m.g.width), CeilDiv(bytes, m.g.width), m.g.banks))
  {
    var words := CeilDiv(bytes, m.g.width);
    WordsAgree(m.g, bytes);
    StallIsAccess(m, base, words, write);
    Sram.StallsAreExcess(m, Div(base, m.g.width), words, write);
  }

  /** A transfer stalls as its words do, after its own bus time has passed for the region it is charged to. */
  lemma StallInFields(mem: seq<BankMeter>, d: Desc32, near: Side, m: BankMeter, words: nat, cycles: nat)
    requires d.shape != Multicast && d.direction != TuToTu && near == if d.direction == TuToHost then d.src else d.dst
    requires d.totalBytes + m.g.width <= U32 && words == CeilDiv(d.totalBytes, m.g.width)
    requires OffsetsFit(near.base, words, m.g.width)
    requires near.region.Some? && near.region.value < |mem| && mem[near.region.value].modeling
    requires m == Sram.Advance(mem[near.region.value], cycles)
    ensures SramStall(mem, d, cycles).1
            == Mul(m.g.penalty, Sram.Overdrawn(m, Div(near.base, m.g.width), words, m.g.banks))
  {
    WordsStall(m, near.base, d.totalBytes, d.direction == HostToTu);
  }

  /** Each bank of that region serves or stalls the words that fall on it: writes for a load, reads for a store. */
  lemma MetersInFields(mem: seq<BankMeter>, d: Desc32, near: Side, m: BankMeter, words: nat, cycles: nat, i: nat)
    requires d.shape != Multicast && d.direction != TuToTu && near == if d.direction == TuToHost then d.src else d.dst
    requires d.totalBytes + m.g.width <= U32 && words == CeilDiv(d.totalBytes, m.g.width)
    requires OffsetsFit(near.base, words, m.g.width) && i < m.g.banks
    requires near.region.Some? && near.region.value < |mem| && mem[near.region.value].modeling
    requires m == Sram.Advance(mem[near.region.value], cycles)
    ensures var r, after := near.region.value, SramStall(mem, d, cycles).0;
            && after == mem[r := after[r]] && |after[r].bank| == m.g.banks
            && var hits := Sram.Hits(m.g.banks, Div(near.base, m.g.width), words, i);
               Sram.AfterHits(m.bank[i], after[r].bank[i].(used := m.bank[i].used + hits), hits,
                              d.direction == HostToTu)
  {
    WordsBanks(m, near.base, d.totalBytes, d.direction == HostToTu, i);
  }

  lemma WordsBanks(m: BankMeter, base: nat, bytes: nat, write: bool, i: nat)
    requires m.modeling && bytes + m.g.width <= U32 && OffsetsFit(base, CeilDiv(bytes, m.g.width), m.g.width)
    requires i < m.g.banks
    ensures var after := StallWords(m, base, MeteredWords(m.g, bytes), write).0;
            |after.bank| == m.g.banks &&
            var hits := Sram.Hits(m.g.banks, Div(base, m.g.width), CeilDiv(bytes, m.g.width), i);
            Sram.AfterHits(m.bank[i], after.bank[i].(used := m.bank[i].used + hits), hits, write)
  {
    var words := CeilDiv(bytes, m.g.width);
    WordsAgree(m.g, bytes);
    StallIsAccess(m, base, words, write);
    Sram.BanksAfterRun(m, Div(base, m.g.width), words, write, i);
  }

  lemma WordsAgree(g: Sram.Geometry, bytes: nat)
    requires Sram.ValidGeometry(g) && bytes + g.width <= U32
    ensures MeteredWords(g, bytes) == CeilDiv(bytes, g.width)
  {
    WordsMetered(g, bytes, MeteredWords(g, bytes));
    WordsMetered(g, bytes, CeilDiv(bytes, g.width));
    CeilDivLeast(bytes, g.width, MeteredWords(g, bytes));
    CeilDivLeast(bytes, g.width, CeilDiv(bytes, g.width));
  }

  /** Multicasts, and transfers of a region whose bandwidth is not modelled, stall nothing and leave the meters. */
  lemma NoStall(mem: seq<BankMeter>, d: Desc32, near: Side, cycles: nat)
    requires near == if d.direction == TuToHost then d.src else d.dst
    requires d.shape == Multicast || near.region.None? || near.region.value >= |mem| || !mem[near.region.value].modeling
    ensures SramStall(mem, d, cycles) == (mem, 0)
  {
  }
}
