/**
 The SRAM bandwidth that DMA transfers consume: how their stalls relate to metered accesses, and the budget over
 runs.
 */
module DmaBandwidth {
  import opened Words
  import opened Descriptor
  import opened ServiceCost
  import opened DmaEngine
  import opened DmaRuns
  import opened LiveRuns
  import Sram

  /** Banks that agree except for the count of words asked, which the transfer loop does not keep. */
  ghost predicate SameButUsed(a: seq<Sram.Bank>, b: seq<Sram.Bank>)
  {
    |a| == |b| && forall i :: 0 <= i < |a| ==> a[i] == b[i].(used := a[i].used)
  }

  /** Words that start inside a word-aligned walk fall on consecutive words. */
  lemma WordOf(base: nat, k: nat, width: nat)
    requires width > 0
    ensures (base + Mul(k, width)) / width == Div(base, width) + k
  {
    DivModParts(base, width);
    Distribute(Div(base, width), k, width);
    DivModUnique(Div(base, width) + k, width, Rem(base, width));
  }

  /** The byte offsets of a walk stay below 2^32. */
  ghost predicate OffsetsFit(base: nat, words: nat, width: nat)
  {
    base + Mul(words, width) <= U32
  }

  /** Without wrap-around a word's bank is that of its word number. */
  lemma BankOfWord(g: Sram.Geometry, base: nat, words: nat)
    requires Sram.ValidGeometry(g) && words > 0 && OffsetsFit(base, words, g.width)
    ensures OffsetsFit(base, words - 1, g.width)
    ensures WalkBank(g, base, words - 1) == (Div(base, g.width) + words - 1) % g.banks
  {
    AddOneTimes(words - 1, g.width);
    WordOf(base, words - 1, g.width);
    DivModUnique(0, U32, base + Mul(words - 1, g.width));
  }

  /** Offsets that do not wrap: the transfer's words are consecutive words, and it stalls as an access of them would. */
  lemma {:induction false} StallIsAccess(m: BankMeter, base: nat, words: nat, write: bool)
    requires m.modeling && OffsetsFit(base, words, m.g.width)
    ensures var (after, stall) := StallWords(m, base, words, write);
            var (after', stall') := Sram.ConsumeRun(m, Div(base, m.g.width), words, write);
            stall == stall' && SameButUsed(after.bank, after'.bank)
  {
    if words > 0 {
      BankOfWord(m.g, base, words);
      StallIsAccess(m, base, words - 1, write);
      var before, before' := StallWords(m, base, words - 1, write).0,
                             Sram.ConsumeRun(m, Div(base, m.g.width), words - 1, write).0;
      OneWordSame(before, before', WalkBank(m.g, base, words - 1), write);
    }
  }

  /** One word asked of banks that agree. */
  lemma OneWordSame(m: BankMeter, m': BankMeter, i: nat, write: bool)
    requires m'.modeling && m'.g == m.g && i < |m.bank| && SameButUsed(m.bank, m'.bank)
    ensures var (after, stall) := Sram.Consume(m', i, write);
            && SameButUsed(m.bank[i := Sram.Ask(m.bank[i], write)], after.bank)
            && stall == if m.bank[i].available > 0 then 0 else m.g.penalty
  {
  }

  lemma {:induction false} StallWordsKeepBudget(m: BankMeter, base: nat, words: nat, write: bool)
    requires Sram.AllWithinBudget(m)
    ensures Sram.AllWithinBudget(StallWords(m, base, words, write).0)
    ensures StallWords(m, base, words, write).0.cycle == m.cycle
  {
    if words > 0 {
      StallWordsKeepBudget(m, base, words - 1, write);
    }
  }

  /** Every region's banks are within budget. */
  ghost predicate Budgeted(mem: seq<BankMeter>)
  {
    forall r :: 0 <= r < |mem| ==> Sram.AllWithinBudget(mem[r])
  }

  lemma ExecutionKeepsBudget(c: Config, mem: seq<BankMeter>, d: Desc32)
    requires ValidCost(c.cost) && Budgeted(mem)
    ensures Budgeted(MetersAfter(c, mem, d))
  {
    var region, cycles := ChargedRegion(d), TransferCycles(c.cost, d);
    if region.Some? && region.value < |mem| && mem[region.value].modeling {
      var m: BankMeter := Sram.Advance(mem[region.value], cycles);
      Sram.StepKeepsBudget(mem[region.value], Sram.Elapse(cycles));
      StallWordsKeepBudget(m, SramSide(d).base, MeteredWords(m.g, d.totalBytes), d.direction == HostToTu);
    }
  }

  lemma {:induction false} DrainKeepsBudget(c: Config, mem: seq<BankMeter>, q: seq<Entry>)
    requires ValidCost(c.cost) && Budgeted(mem)
    ensures Budgeted(Drain(c, mem, q))
    decreases |q|
  {
    if q != [] {
      ExecutionKeepsBudget(c, mem, q[0].d);
      DrainKeepsBudget(c, MetersAfter(c, mem, q[0].d), q[1..]);
    }
  }

  lemma {:induction false} RetireKeepsBudget(c: Config, s: State, n: nat)
    requires ValidConfig(c) && ValidState(c, s) && n <= c.channels && Budgeted(s.mem)
    ensures Budgeted(RetireUpTo(c, s, n).s.mem)
  {
    if n > 0 {
      RetireKeepsBudget(c, s, n - 1);
      var r := RetireUpTo(c, s, n - 1);
      if r.s.ch[n - 1].queue != [] {
        ExecutionKeepsBudget(c, r.s.mem, r.s.ch[n - 1].queue[0].d);
      }
    }
  }

  lemma ArbitrationKeepsBudget(c: Config, s: State)
    requires ValidConfig(c) && ValidState(c, s) && Budgeted(s.mem)
    ensures Budgeted(Arbitration(c, s).s.mem)
  {
    if c.bus == SharedSerial && BusFree(s) {
      if c.policy == DeficitRoundRobin {
        DrrKeepsBudget(c, s);
      } else {
        RankKeepsBudget(c, s);
      }
    }
  }

  lemma DrrKeepsBudget(c: Config, s: State)
    requires ValidConfig(c) && ValidState(c, s) && Budgeted(s.mem) && c.policy == DeficitRoundRobin
    ensures Budgeted(ArbitrateDrr(c, s).s.mem)
  {
    WinnerCanPay(c, s);
    var started := ArbitrateDrr(c, s).started;
    if started != [] {
      ExecutionKeepsBudget(c, s.mem, started[0].d);
    }
  }

  lemma RankKeepsBudget(c: Config, s: State)
    requires ValidConfig(c) && ValidState(c, s) && Budgeted(s.mem) && c.policy != DeficitRoundRobin
    ensures Budgeted(ArbitrateRank(c, s).s.mem)
  {
    var started := ArbitrateRank(c, s).started;
    if started != [] {
      ExecutionKeepsBudget(c, s.mem, started[0].d);
    }
  }

  lemma StepKeepsBudget(c: Config, s: State, e: Event)
    requires ValidConfig(c) && ValidState(c, s) && Budgeted(s.mem)
    ensures Budgeted(Step(c, s, e).s.mem)
  {
    match e
    case Ticked =>
      RetireKeepsBudget(c, s.(now := Wrap64(s.now + 1)), c.channels);
      ArbitrationKeepsBudget(c, Retire(c, s).s);
    case Submitted(d) =>
      if Admits(c, s, d) {
        DrainKeepsBudget(c, s.mem, s.ch[BoundChannel(c, s, d)].queue + [Entry(d, s.epoch, s.epoch, s.now, s.now)]);
      }
    case Flushed(i) =>
      if i < c.channels {
        DrainKeepsBudget(c, s.mem, s.ch[i].queue);
      }
  }

  lemma AfterKeepsBudget(v: System, e: SystemEvent)
    requires ValidSystem(v) && Budgeted(v.s.mem)
    ensures Budgeted(After(v, e).s.mem)
  {
    match e
    case Operated(o) => StepKeepsBudget(v.c, v.s, o);
    case Configured(x) =>
    case Accessed(region, access) =>
      if region < |v.s.mem| {
        Sram.StepKeepsBudget(v.s.mem[region], access);
      }
  }

  /**
   Whatever is submitted, ticked, flushed and configured, and whatever else accesses the same regions in between, a
   bank never serves more words than one grant per refill window begun.
   */
  lemma {:induction false} TrafficWithinBudget(c: Config, mem: seq<BankMeter>, es: seq<SystemEvent>, r: nat, b: nat)
    requires ValidConfig(c) && Budgeted(mem)
    ensures var after := Live(Fresh(c, mem), es).s.mem;
            && Budgeted(after)
            && (r < |after| && b < |after[r].bank| ==>
                  Sram.Served(after[r].bank[b]) <= Sram.Granted(after[r].g, after[r].cycle))
  {
    if es != [] {
      TrafficWithinBudget(c, mem, es[..|es| - 1], r, b);
      AfterKeepsBudget(Live(Fresh(c, mem), es[..|es| - 1]), es[|es| - 1]);
    }
    var after := Live(Fresh(c, mem), es).s.mem;
    if r < |after| && b < |after[r].bank| {
      Sram.BudgetCapsServed(after[r], b);
    }
  }
}
