/**
 The ledger of deficit round robin over any live run and every service and idle mode: a channel's credit is what it
 was granted, less what its transfers were charged, what the idle policy or a setter took away, and what did not fit
 64 bits.
 */
module DrrLedger {
  import opened Words
  import opened Cursors
  import opened DrrArbiter
  import opened DmaEngine
  import opened DmaRuns
  import opened DrrSetters
  import opened LiveRuns
  import opened ServiceCost
  import opened DrrFairness

  /** Visits a tick's arbitration spends on a channel; a scan of empty queues visits everyone once. */
  function TickVisits(c: Config, s: State, i: nat): nat
    requires ValidConfig(c) && ValidState(c, s) && i < c.channels && c.policy == DeficitRoundRobin
  {
    if c.bus != SharedSerial || !BusFree(AfterRetire(c, s)) then 0
    else
      match DrrVerdict(c, s)
      case Nobody => 1
      case Winner(probe, round) => Visits(c.channels, s.cursor, probe, round, i)
  }

  /** Credit topped up, stopping at the largest 64-bit value. */
  function Capped(credit: nat, granted: nat): nat
  {
    if credit + granted > U64_MAX then U64_MAX else credit + granted
  }

  /** The part of a step's grants that does not fit 64 bits. */
  function Saturated(c: Config, s: State, e: Event, i: nat): nat
    requires ValidConfig(c) && ValidState(c, s) && i < c.channels
  {
    s.ch[i].credit + Granted(c, s, e, i) - Capped(s.ch[i].credit, Granted(c, s, e, i))
  }

  /** Credit the idle policy takes away in one step: from a visited empty queue, and from a winner left empty. */
  function Forfeited(c: Config, s: State, e: Event, i: nat): int
    requires ValidConfig(c) && ValidState(c, s) && i < c.channels && c.policy == DeficitRoundRobin
  {
    if !e.Ticked? || c.idle != IdleReset then 0
    else if s.ch[i].queue == [] then (if TickVisits(c, s, i) > 0 then s.ch[i].credit else 0)
    else if DrrWins(c, s) && i == DrrWinner(c, s) && |s.ch[i].queue| == 1 then
      Capped(s.ch[i].credit, Granted(c, s, e, i)) - HeadCost(c, s.ch[i])
    else 0
  }

  /** Cost of what a step's arbitration starts for a channel. Submissions and flushes start transfers uncharged. */
  function Paying(c: Config, s: State, e: Event, i: nat): nat
    requires ValidConfig(c) && ValidState(c, s) && i < c.channels
  {
    if e.Ticked? then Charged(c, s, e, i) else 0
  }

  /** Credit of a waiting channel after some visits. */
  lemma CreditGranted(c: Config, s: State, i: nat, visits: nat)
    requires ValidConfig(c) && ValidState(c, s) && i < c.channels && s.ch[i].queue != []
    ensures var grants := if Held(s.cont, Dist(c.channels, s.cursor, i)) && visits > 0 then visits - 1 else visits;
            CreditAfter(c, s, i, visits) == Capped(s.ch[i].credit, Repeated(grants, Grant(c, i)))
  {
    var grants := if Held(s.cont, Dist(c.channels, s.cursor, i)) && visits > 0 then visits - 1 else visits;
    RepeatedIsProduct(grants, Grant(c, i));
  }

  lemma CostOfOne(c: Config, w: nat, d: Desc32, i: nat)
    requires ValidConfig(c)
    ensures CostOn(c, [], i) == 0
    ensures CostOn(c, [Start(w, d)], i) == if w == i then DrrCost(c.cost, d) else 0
  {
    assert [Start(w, d)][..0] == [];
  }

  /** A tick starts the winner's head and nothing else. */
  lemma TickStarts(c: Config, s: State)
    requires ValidConfig(c) && ValidState(c, s) && c.bus == SharedSerial && c.policy == DeficitRoundRobin
    ensures if DrrWins(c, s)
            then AfterRetire(c, s).ch[DrrWinner(c, s)].queue != []
                 && Tick(c, s).started == [Start(DrrWinner(c, s), AfterRetire(c, s).ch[DrrWinner(c, s)].queue[0].d)]
            else Tick(c, s).started == []
  {
    RetireShared(c, s);
    WinnerCanPay(c, AfterRetire(c, s));
  }

  lemma ChargedOnWin(c: Config, s: State, i: nat)
    requires ValidConfig(c) && ValidState(c, s) && i < c.channels && c.bus == SharedSerial
    requires c.policy == DeficitRoundRobin
    ensures Paying(c, s, Ticked, i)
         == if DrrWins(c, s) && i == DrrWinner(c, s) then HeadCost(c, AfterRetire(c, s).ch[i]) else 0
  {
    TickStarts(c, s);
    assert Paying(c, s, Ticked, i) == CostOn(c, Tick(c, s).started, i);
    if DrrWins(c, s) {
      var w := DrrWinner(c, s);
      CostOfOne(c, w, AfterRetire(c, s).ch[w].queue[0].d, i);
    }
  }

  /** Credit of one channel after an award. */
  lemma AwardCredit(c: Config, r: State, probe: nat, round: nat, i: nat)
    requires ValidConfig(c) && ValidState(c, r) && CanWin(c, r, probe, round) && i < c.channels
    ensures Award(c, r, probe, round).ch[i].credit
         == if i == At(c.channels, r.cursor, probe)
            then Residue(c, CreditAfter(c, r, i, round), HeadCost(c, r.ch[i]), r.ch[i].queue[1..])
            else CreditAfter(c, r, i, Visits(c.channels, r.cursor, probe, round, i))
  {
    AwardChannels(c, r, probe, round);
  }

  /** A tick with a winner is its award. */
  lemma TickAwards(c: Config, s: State)
    requires ValidConfig(c) && ValidState(c, s) && DrrWins(c, s)
    ensures var r, v := AfterRetire(c, s), DrrVerdict(c, s);
            && r.cursor == s.cursor && r.cont == s.cont && CanWin(c, r, v.probe, v.round)
            && Tick(c, s).s == Award(c, r, v.probe, v.round)
  {
    RetireShared(c, s);
    WinnerCanPay(c, AfterRetire(c, s));
  }

  /** Books of a tick for its winner. */
  lemma WinnerBooks(c: Config, s: State, i: nat)
    requires ValidConfig(c) && ValidState(c, s) && DrrWins(c, s) && i == DrrWinner(c, s)
    ensures Tick(c, s).s.ch[i].credit + HeadCost(c, AfterRetire(c, s).ch[i]) + Forfeited(c, s, Ticked, i)
         == Capped(s.ch[i].credit, Granted(c, s, Ticked, i))
  {
    var r, v := AfterRetire(c, s), DrrVerdict(c, s);
    RetireSame(c, s, i);
    TickAwards(c, s);
    AwardCredit(c, r, v.probe, v.round, i);
    WinnerVisits(c.channels, s.cursor, v.probe, v.round);
    CreditGranted(c, r, i, v.round);
  }

  lemma WinnerVisits(n: nat, cursor: nat, probe: nat, round: nat)
    requires cursor < n && probe < n && round > 0
    ensures Visits(n, cursor, probe, round, At(n, cursor, probe)) == round
  {
  }

  /** Books of a tick for a channel that did not win. */
  lemma LoserBooks(c: Config, s: State, i: nat)
    requires ValidConfig(c) && ValidState(c, s) && i < c.channels && DrrWins(c, s) && i != DrrWinner(c, s)
    ensures Tick(c, s).s.ch[i].credit + Forfeited(c, s, Ticked, i)
         == Capped(s.ch[i].credit, Granted(c, s, Ticked, i))
  {
    var r, v := AfterRetire(c, s), DrrVerdict(c, s);
    RetireSame(c, s, i);
    TickAwards(c, s);
    AwardCredit(c, r, v.probe, v.round, i);
    if s.ch[i].queue != [] {
      CreditGranted(c, r, i, Visits(c.channels, s.cursor, v.probe, v.round, i));
    }
  }

  /** Books of one tick. */
  lemma TickBooks(c: Config, s: State, i: nat)
    requires ValidConfig(c) && ValidState(c, s) && i < c.channels && c.bus == SharedSerial
    requires c.policy == DeficitRoundRobin
    ensures Balanced(s.ch[i].credit, StepEntry(c, s, Ticked, i), Tick(c, s).s.ch[i].credit)
  {
    ChargedOnWin(c, s, i);
    if DrrWins(c, s) {
      if i == DrrWinner(c, s) {
        WinnerBooks(c, s, i);
      } else {
        LoserBooks(c, s, i);
      }
    } else {
      RetireSame(c, s, i);
      if BusFree(AfterRetire(c, s)) {
        NobodyWaits(c, AfterRetire(c, s), i);
      }
    }
  }

  /** What happened to a channel's credit: granted, charged, taken away, and lost to saturation. */
  datatype Entries = Entries(granted: nat, charged: nat, forfeited: int, saturated: nat)

  function Sum(a: Entries, b: Entries): Entries
  {
    Entries(a.granted + b.granted, a.charged + b.charged, a.forfeited + b.forfeited, a.saturated + b.saturated)
  }

  /** Credit before, what happened to it, and credit after. */
  predicate Balanced(before: nat, e: Entries, after: nat)
  {
    after + e.charged + e.forfeited + e.saturated == before + e.granted
  }

  function StepEntry(c: Config, s: State, e: Event, i: nat): Entries
    requires ValidConfig(c) && ValidState(c, s) && i < c.channels && c.policy == DeficitRoundRobin
  {
    Entries(Granted(c, s, e, i), Paying(c, s, e, i), Forfeited(c, s, e, i), Saturated(c, s, e, i))
  }

  /** Every step of the engine balances, saturating or not. */
  lemma StepBooks(c: Config, s: State, e: Event, i: nat)
    requires ValidConfig(c) && ValidState(c, s) && i < c.channels && c.bus == SharedSerial
    requires c.policy == DeficitRoundRobin
    ensures Balanced(s.ch[i].credit, StepEntry(c, s, e, i), Step(c, s, e).s.ch[i].credit)
  {
    if e.Ticked? {
      TickBooks(c, s, i);
    } else {
      OthersBook(c, s, e, i);
    }
  }

  /** Submissions and flushes leave credits, and make an empty entry. */
  lemma OthersBook(c: Config, s: State, e: Event, i: nat)
    requires ValidConfig(c) && ValidState(c, s) && i < c.channels && !e.Ticked? && c.policy == DeficitRoundRobin
    ensures Balanced(s.ch[i].credit, StepEntry(c, s, e, i), Step(c, s, e).s.ch[i].credit)
  {
    OtherEventsCredit(c, s, e, i);
  }

  /** The entry an event of a live run makes; credit a setter clears is forfeited. */
  function EntryOf(v: System, e: SystemEvent, i: nat): Entries
    requires ValidSystem(v) && i < v.c.channels && v.c.policy == DeficitRoundRobin
  {
    match e
    case Operated(o) => StepEntry(v.c, v.s, o, i)
    case Configured(x) => Entries(0, 0, if Clears(v.c, x, v.s.ch[i]) then v.s.ch[i].credit else 0, 0)
    case Accessed(region, access) => Entries(0, 0, 0, 0)
  }

  function EntriesOver(v: System, es: seq<SystemEvent>, i: nat): Entries
    requires ValidSystem(v) && i < v.c.channels && v.c.policy == DeficitRoundRobin
  {
    if es == [] then Entries(0, 0, 0, 0)
    else Sum(EntriesOver(v, es[..|es| - 1], i), EntryOf(Live(v, es[..|es| - 1]), es[|es| - 1], i))
  }

  lemma EventBooks(v: System, e: SystemEvent, i: nat)
    requires ValidSystem(v) && i < v.c.channels && v.c.bus == SharedSerial && v.c.policy == DeficitRoundRobin
    ensures Balanced(v.s.ch[i].credit, EntryOf(v, e, i), After(v, e).s.ch[i].credit)
  {
    match e
    case Operated(o) => StepBooks(v.c, v.s, o, i);
    case _ =>
  }

  lemma {:induction false} RunBooks(v: System, es: seq<SystemEvent>, i: nat)
    requires ValidSystem(v) && i < v.c.channels && v.c.bus == SharedSerial && v.c.policy == DeficitRoundRobin
    ensures Balanced(v.s.ch[i].credit, EntriesOver(v, es, i), Live(v, es).s.ch[i].credit)
  {
    if es != [] {
      RunBooks(v, es[..|es| - 1], i);
      EventBooks(Live(v, es[..|es| - 1]), es[|es| - 1], i);
    }
  }

  /** The idle policy only ever takes credit away. */
  lemma ForfeitsAreLosses(c: Config, s: State, e: Event, i: nat)
    requires ValidConfig(c) && ValidState(c, s) && i < c.channels && c.bus == SharedSerial
    requires c.policy == DeficitRoundRobin
    ensures Forfeited(c, s, e, i) >= 0
    ensures c.idle == RetainResidual ==> Forfeited(c, s, e, i) == 0
  {
    if e.Ticked? && DrrWins(c, s) && i == DrrWinner(c, s) {
      var r, v := AfterRetire(c, s), DrrVerdict(c, s);
      RetireSame(c, s, i);
      WinnerCanPay(c, r);
      VisitsWithinNeed(c, r, i);
      CreditGranted(c, r, i, v.round);
    }
  }

  /**
   The ledger in every reachable state, whatever settings change on the way: credit is granted less charged, forfeited
   and lost to saturation.
   */
  lemma Ledger(c: Config, mem: seq<BankMeter>, es: seq<SystemEvent>, i: nat)
    requires ValidConfig(c) && i < c.channels && c.bus == SharedSerial && c.policy == DeficitRoundRobin
    ensures var books := EntriesOver(Fresh(c, mem), es, i);
            Live(Fresh(c, mem), es).s.ch[i].credit
              == books.granted - books.charged - books.forfeited - books.saturated
  {
    RunBooks(Fresh(c, mem), es, i);
  }
}
