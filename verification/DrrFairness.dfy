/**
 Credits of deficit round robin over whole runs: the ledger, the bound on every credit, and the weighted
 fairness that follows when service is work-conserving and idle credit is reset.
 */
module DrrFairness {
  import opened Words
  import opened Cursors
  import opened DrrArbiter
  import opened ServiceCost
  import opened DmaEngine
  import opened DmaRuns

  // ----- What one step grants and charges -----

  /** Credit grants a channel receives in one step. */
  function Grants(c: Config, s: State, e: Event, i: nat): nat
    requires ValidConfig(c) && ValidState(c, s) && i < c.channels
  {
    if e.Ticked? && DrrWins(c, s) && s.ch[i].queue != [] then
      var v := DrrVerdict(c, s);
      var visits := Visits(c.channels, s.cursor, v.probe, v.round, i);
      if Held(s.cont, Dist(c.channels, s.cursor, i)) && visits > 0 then visits - 1 else visits
    else 0
  }

  /** Credit those grants are worth. */
  function Granted(c: Config, s: State, e: Event, i: nat): nat
    requires ValidConfig(c) && ValidState(c, s) && i < c.channels
  {
    Repeated(Grants(c, s, e, i), Grant(c, i))
  }

  /** Cost of the transfers in a list that were started for a channel. */
  function CostOn(c: Config, started: seq<Start>, i: nat): nat
    requires ValidConfig(c)
  {
    if started == [] then 0
    else
      var last := started[|started| - 1];
      CostOn(c, started[..|started| - 1], i) + if last.channel == i then DrrCost(c.cost, last.d) else 0
  }

  lemma {:induction false} CostOnConcat(c: Config, a: seq<Start>, b: seq<Start>, i: nat)
    requires ValidConfig(c)
    ensures CostOn(c, a + b, i) == CostOn(c, a, i) + CostOn(c, b, i)
  {
    if b == [] {
      assert a + b == a;
    } else {
      CostOnConcat(c, a, b[..|b| - 1], i);
      assert (a + b)[..|a + b| - 1] == a + b[..|b| - 1];
    }
  }

  lemma {:induction false} CostOfOthers(c: Config, started: seq<Start>, i: nat)
    requires ValidConfig(c) && forall k :: 0 <= k < |started| ==> started[k].channel != i
    ensures CostOn(c, started, i) == 0
  {
    if started != [] {
      CostOfOthers(c, started[..|started| - 1], i);
    }
  }

  /** Cost of what one step starts for a channel. */
  function Charged(c: Config, s: State, e: Event, i: nat): nat
    requires ValidConfig(c) && ValidState(c, s) && i < c.channels
  {
    CostOn(c, Step(c, s, e).started, i)
  }

  /** Grants of each step of a run. */
  function GrantLog(c: Config, s: State, es: seq<Event>, i: nat): seq<nat>
    requires ValidConfig(c) && ValidState(c, s) && i < c.channels
  {
    if es == [] then []
    else GrantLog(c, s, es[..|es| - 1], i) + [Grants(c, Run(c, s, es[..|es| - 1]), es[|es| - 1], i)]
  }

  function GrantsOver(c: Config, s: State, es: seq<Event>, i: nat): nat
    requires ValidConfig(c) && ValidState(c, s) && i < c.channels
  {
    Total(GrantLog(c, s, es, i))
  }

  /** Cost of everything started for a channel during a run. */
  function ServedOver(c: Config, s: State, es: seq<Event>, i: nat): nat
    requires ValidConfig(c) && ValidState(c, s) && i < c.channels
  {
    CostOn(c, Started(c, s, es), i)
  }

  // ----- Bounds every step keeps -----

  ghost predicate BoundedCosts(c: Config, s: State, m: nat)
    requires ValidConfig(c) && ValidState(c, s)
  {
    forall i, k :: 0 <= i < c.channels && 0 <= k < |s.ch[i].queue| ==> DrrCost(c.cost, s.ch[i].queue[k].d) <= m
  }

  function CreditLimit(c: Config, s: State, m: nat, i: nat): nat
    requires ValidConfig(c) && i < c.channels
  {
    m + if s.cont && s.contCh == i then Grant(c, i) else 0
  }

  ghost predicate BoundedCredits(c: Config, s: State, m: nat)
    requires ValidConfig(c) && ValidState(c, s)
  {
    forall i :: 0 <= i < c.channels ==> s.ch[i].credit < CreditLimit(c, s, m, i)
  }

  ghost predicate Bounded(c: Config, s: State, m: nat)
    requires ValidConfig(c) && ValidState(c, s)
  {
    BoundedCosts(c, s, m) && BoundedCredits(c, s, m)
  }

  /** The configuration and descriptor sizes the bound is about; a credit never reaches 64-bit saturation. */
  ghost predicate Conserving(c: Config, m: nat)
    requires ValidConfig(c)
  {
    && c.bus == SharedSerial && c.policy == DeficitRoundRobin
    && c.service == WorkConserving && c.idle == IdleReset
    && m > 0 && forall i :: 0 <= i < c.channels ==> m + Grant(c, i) <= U64_MAX
  }

  ghost predicate CostsWithin(c: Config, e: Event, m: nat)
    requires ValidConfig(c)
  {
    e.Submitted? ==> DrrCost(c.cost, e.d) <= m
  }

  ghost predicate AllCostsWithin(c: Config, es: seq<Event>, m: nat)
    requires ValidConfig(c)
  {
    forall k :: 0 <= k < |es| ==> CostsWithin(c, es[k], m)
  }

  /** Visits an arbitration spends on a channel never exceed what its head needs. */
  lemma VisitsWithinNeed(c: Config, s: State, i: nat)
    requires ValidConfig(c) && ValidState(c, s) && i < c.channels && s.ch[i].queue != []
    ensures var v := Arbitrate(Lanes(c, s), s.cursor, s.cont);
            var held := Held(s.cont, Dist(c.channels, s.cursor, i));
            && v.Winner?
            && var visits := Visits(c.channels, s.cursor, v.probe, v.round, i);
               && visits <= Need(Lanes(c, s)[i], held)
               && (i != At(c.channels, s.cursor, v.probe) ==> visits < Need(Lanes(c, s)[i], held))
               && (i == At(c.channels, s.cursor, v.probe) ==> visits == v.round)
  {
    var ls := Lanes(c, s);
    BestIsBest(ls, s.cursor, s.cont, c.channels);
    var d := Dist(c.channels, s.cursor, i);
    assert LaneAt(ls, s.cursor, d) == ls[i];
  }

  lemma HeldIsContinuing(c: Config, s: State, i: nat)
    requires ValidConfig(c) && ValidState(c, s) && i < c.channels
    ensures Held(s.cont, Dist(c.channels, s.cursor, i)) <==> s.cont && s.contCh == i
  {
  }

  /** Credit of a waiting channel at the end of an arbitration, before any charge. */
  lemma CreditAtVerdict(c: Config, s: State, m: nat, i: nat)
    requires ValidConfig(c) && ValidState(c, s) && i < c.channels && s.ch[i].queue != []
    requires Conserving(c, m) && Bounded(c, s, m)
    ensures var v := Arbitrate(Lanes(c, s), s.cursor, s.cont);
            var held := Held(s.cont, Dist(c.channels, s.cursor, i));
            && v.Winner?
            && var visits := Visits(c.channels, s.cursor, v.probe, v.round, i);
               var credit := CreditAfter(c, s, i, visits);
               && credit == s.ch[i].credit + Repeated(if held && visits > 0 then visits - 1 else visits, Grant(c, i))
               && credit < m + Grant(c, i)
               && (i != At(c.channels, s.cursor, v.probe) && visits > 0 ==> credit < m)
  {
    VisitsWithinNeed(c, s, i);
    HeldIsContinuing(c, s, i);
    var v := Arbitrate(Lanes(c, s), s.cursor, s.cont);
    var held := Held(s.cont, Dist(c.channels, s.cursor, i));
    var visits := Visits(c.channels, s.cursor, v.probe, v.round, i);
    VisitedBelow(Lanes(c, s)[i], held, visits, m);
    RepeatedIsProduct(if held && visits > 0 then visits - 1 else visits, Grant(c, i));
  }

  /** A channel that does not win keeps its credit below the limit it has afterwards. */
  lemma LoserBounded(c: Config, s: State, m: nat, probe: nat, round: nat, i: nat)
    requires ValidConfig(c) && ValidState(c, s) && Conserving(c, m) && Bounded(c, s, m)
    requires Arbitrate(Lanes(c, s), s.cursor, s.cont) == Winner(probe, round) && probe < c.channels && round > 0
    requires i < c.channels && i != At(c.channels, s.cursor, probe)
    ensures CreditAfter(c, s, i, Visits(c.channels, s.cursor, probe, round, i)) < m
  {
    HeldIsContinuing(c, s, i);
    if s.ch[i].queue != [] {
      CreditAtVerdict(c, s, m, i);
    }
  }

  /** The winner keeps less than a further charge, or goes on with less than one more grant. */
  lemma WinnerBounded(c: Config, s: State, m: nat, probe: nat, round: nat)
    requires ValidConfig(c) && ValidState(c, s) && Conserving(c, m) && Bounded(c, s, m)
    requires Arbitrate(Lanes(c, s), s.cursor, s.cont) == Winner(probe, round) && probe < c.channels && round > 0
    ensures var w := At(c.channels, s.cursor, probe);
            && s.ch[w].queue != [] && HeadCost(c, s.ch[w]) <= CreditAfter(c, s, w, round)
            && var left := Residue(c, CreditAfter(c, s, w, round), HeadCost(c, s.ch[w]), s.ch[w].queue[1..]);
               && left < m + Grant(c, w)
               && (!Continues(c, left, s.ch[w].queue[1..]) ==> left < m)
  {
    WinnerCanPay(c, s);
    CreditAtVerdict(c, s, m, At(c.channels, s.cursor, probe));
  }

  lemma AwardCosts(c: Config, s: State, m: nat)
    requires ValidConfig(c) && ValidState(c, s) && c.policy == DeficitRoundRobin && BoundedCosts(c, s, m)
    ensures BoundedCosts(c, ArbitrateDrr(c, s).s, m)
  {
    var v := Arbitrate(Lanes(c, s), s.cursor, s.cont);
    if v.Winner? {
      WinnerCanPay(c, s);
      AwardChannels(c, s, v.probe, v.round);
    }
  }

  lemma AwardCredits(c: Config, s: State, m: nat, i: nat)
    requires ValidConfig(c) && ValidState(c, s) && Conserving(c, m) && Bounded(c, s, m) && i < c.channels
    ensures ArbitrateDrr(c, s).s.ch[i].credit < CreditLimit(c, ArbitrateDrr(c, s).s, m, i)
  {
    match Arbitrate(Lanes(c, s), s.cursor, s.cont)
    case Nobody =>
      NobodyWaits(c, s, i);
    case Winner(probe, round) =>
      WinnerCanPay(c, s);
      if i == At(c.channels, s.cursor, probe) {
        WinnerCredit(c, s, m, probe, round);
      } else {
        LoserCredit(c, s, m, probe, round, i);
      }
  }

  lemma NobodyWaits(c: Config, s: State, i: nat)
    requires ValidConfig(c) && ValidState(c, s) && i < c.channels
    requires Arbitrate(Lanes(c, s), s.cursor, s.cont).Nobody?
    ensures s.ch[i].queue == []
  {
    if s.ch[i].queue != [] {
      VisitsWithinNeed(c, s, i);
    }
  }

  lemma LoserCredit(c: Config, s: State, m: nat, probe: nat, round: nat, i: nat)
    requires ValidConfig(c) && ValidState(c, s) && Conserving(c, m) && Bounded(c, s, m)
    requires Arbitrate(Lanes(c, s), s.cursor, s.cont) == Winner(probe, round) && probe < c.channels && round > 0
    requires i < c.channels && i != At(c.channels, s.cursor, probe)
    ensures ArbitrateDrr(c, s).s.ch[i].credit < m
  {
    LoserBounded(c, s, m, probe, round, i);
    WinnerCanPay(c, s);
    var s' := Award(c, s, probe, round);
    assert s'.ch[i].credit == CreditAfter(c, s, i, Visits(c.channels, s.cursor, probe, round, i));
  }

  lemma WinnerCredit(c: Config, s: State, m: nat, probe: nat, round: nat)
    requires ValidConfig(c) && ValidState(c, s) && Conserving(c, m) && Bounded(c, s, m)
    requires Arbitrate(Lanes(c, s), s.cursor, s.cont) == Winner(probe, round) && probe < c.channels && round > 0
    ensures var w := At(c.channels, s.cursor, probe);
            ArbitrateDrr(c, s).s.ch[w].credit < CreditLimit(c, ArbitrateDrr(c, s).s, m, w)
  {
    WinnerBounded(c, s, m, probe, round);
    AwardChannels(c, s, probe, round);
  }

  lemma TickBounded(c: Config, s: State, m: nat)
    requires ValidConfig(c) && ValidState(c, s) && Conserving(c, m) && Bounded(c, s, m)
    ensures Bounded(c, Tick(c, s).s, m)
  {
    RetireBounded(c, s, m);
    var r := AfterRetire(c, s);
    AwardCosts(c, r, m);
    forall i | 0 <= i < c.channels
      ensures ArbitrateDrr(c, r).s.ch[i].credit < CreditLimit(c, ArbitrateDrr(c, r).s, m, i)
    {
      AwardCredits(c, r, m, i);
    }
  }

  lemma RetireBounded(c: Config, s: State, m: nat)
    requires ValidConfig(c) && ValidState(c, s) && c.bus == SharedSerial && Bounded(c, s, m)
    ensures Bounded(c, AfterRetire(c, s), m)
  {
    RetireShared(c, s);
  }

  lemma SubmitBounded(c: Config, s: State, d: Desc32, m: nat)
    requires ValidConfig(c) && ValidState(c, s) && Bounded(c, s, m) && DrrCost(c.cost, d) <= m
    ensures Bounded(c, Submit(c, s, d).s, m)
  {
  }

  lemma FlushBounded(c: Config, s: State, i: nat, m: nat)
    requires ValidConfig(c) && ValidState(c, s) && Bounded(c, s, m)
    ensures Bounded(c, Flush(c, s, i).s, m)
  {
  }

  /** Deficit bound: every step keeps every credit below the largest cost, plus one grant while continuing. */
  lemma StepBounded(c: Config, s: State, e: Event, m: nat)
    requires ValidConfig(c) && ValidState(c, s) && Conserving(c, m) && Bounded(c, s, m) && CostsWithin(c, e, m)
    ensures Bounded(c, Step(c, s, e).s, m)
  {
    match e
    case Ticked => TickBounded(c, s, m);
    case Submitted(d) => SubmitBounded(c, s, d, m);
    case Flushed(i) => FlushBounded(c, s, i, m);
  }

  lemma {:induction false} RunBounded(c: Config, s: State, es: seq<Event>, m: nat)
    requires ValidConfig(c) && ValidState(c, s) && Conserving(c, m) && Bounded(c, s, m) && AllCostsWithin(c, es, m)
    ensures Bounded(c, Run(c, s, es), m)
  {
    if es != [] {
      RunBounded(c, s, es[..|es| - 1], m);
      StepBounded(c, Run(c, s, es[..|es| - 1]), es[|es| - 1], m);
    }
  }

  // ----- Ledger -----

  /** Books of one arbitration for a channel that waits before and after it: nothing is forfeited or saturated. */
  lemma ArbitrationLedger(c: Config, s: State, m: nat, i: nat)
    requires ValidConfig(c) && ValidState(c, s) && i < c.channels && Conserving(c, m) && Bounded(c, s, m)
    requires s.ch[i].queue != [] && ArbitrateDrr(c, s).s.ch[i].queue != []
    ensures var v := Arbitrate(Lanes(c, s), s.cursor, s.cont);
            && v.Winner? && v.probe < c.channels && v.round > 0
            && var visits := Visits(c.channels, s.cursor, v.probe, v.round, i);
               var grants := if Held(s.cont, Dist(c.channels, s.cursor, i)) && visits > 0 then visits - 1 else visits;
               ArbitrateDrr(c, s).s.ch[i].credit + CostOn(c, ArbitrateDrr(c, s).started, i)
               == s.ch[i].credit + Repeated(grants, Grant(c, i))
  {
    CreditAtVerdict(c, s, m, i);
    var v := Arbitrate(Lanes(c, s), s.cursor, s.cont);
    WinnerCanPay(c, s);
    AwardChannels(c, s, v.probe, v.round);
    VisitsWithinNeed(c, s, i);
  }

  /** Only a channel left empty, or another channel, is started by a submission or a flush. */
  lemma OtherEventsCharge(c: Config, s: State, e: Event, i: nat)
    requires ValidConfig(c) && ValidState(c, s) && i < c.channels && !e.Ticked?
    requires Step(c, s, e).s.ch[i].queue != []
    ensures Charged(c, s, e, i) == 0
  {
    CostOfOthers(c, Step(c, s, e).started, i);
  }

  /** And neither touches a credit. */
  lemma OtherEventsCredit(c: Config, s: State, e: Event, i: nat)
    requires ValidConfig(c) && ValidState(c, s) && i < c.channels && !e.Ticked?
    ensures Step(c, s, e).s.ch[i].credit == s.ch[i].credit && Granted(c, s, e, i) == 0
  {
  }

  /** A tick that finds the bus taken grants and charges nothing. */
  lemma TakenBusLedger(c: Config, s: State, i: nat)
    requires ValidConfig(c) && ValidState(c, s) && i < c.channels
    requires c.bus == SharedSerial && c.policy == DeficitRoundRobin && !BusFree(AfterRetire(c, s))
    ensures Charged(c, s, Ticked, i) == 0 == Granted(c, s, Ticked, i) && Tick(c, s).s.ch[i].credit == s.ch[i].credit
  {
    RetireSame(c, s, i);
    TickArbitrates(c, s);
    CostOfOthers(c, Step(c, s, Ticked).started, i);
  }

  /** A tick that finds the bus free charges what its arbitration does. */
  lemma FreeBusCharge(c: Config, s: State, i: nat)
    requires ValidConfig(c) && ValidState(c, s) && i < c.channels
    requires c.bus == SharedSerial && c.policy == DeficitRoundRobin && BusFree(AfterRetire(c, s))
    ensures Charged(c, s, Ticked, i) == CostOn(c, ArbitrateDrr(c, AfterRetire(c, s)).started, i)
  {
    TickArbitrates(c, s);
    assert Step(c, s, Ticked).started == ArbitrateDrr(c, AfterRetire(c, s)).started;
  }

  /** And grants what its visits are worth. */
  lemma FreeBusGrant(c: Config, s: State, i: nat)
    requires ValidConfig(c) && ValidState(c, s) && i < c.channels && s.ch[i].queue != [] && DrrWins(c, s)
    ensures var v := DrrVerdict(c, s);
            var visits := Visits(c.channels, s.cursor, v.probe, v.round, i);
            Granted(c, s, Ticked, i) ==
            Repeated(if Held(s.cont, Dist(c.channels, s.cursor, i)) && visits > 0 then visits - 1 else visits,
                     Grant(c, i))
  {
  }

  lemma TickLedger(c: Config, s: State, m: nat, i: nat)
    requires ValidConfig(c) && ValidState(c, s) && i < c.channels && Conserving(c, m) && Bounded(c, s, m)
    requires s.ch[i].queue != [] && Tick(c, s).s.ch[i].queue != []
    ensures Tick(c, s).s.ch[i].credit + Charged(c, s, Ticked, i)
         == s.ch[i].credit + Granted(c, s, Ticked, i)
  {
    if !BusFree(AfterRetire(c, s)) {
      TakenBusLedger(c, s, i);
    } else {
      RetireBounded(c, s, m);
      RetireSame(c, s, i);
      TickArbitrates(c, s);
      ArbitrationLedger(c, AfterRetire(c, s), m, i);
      FreeBusCharge(c, s, i);
      FreeBusGrant(c, s, i);
    }
  }

  /** A channel that waits before and after a step keeps exact books. */
  lemma StepLedger(c: Config, s: State, e: Event, m: nat, i: nat)
    requires ValidConfig(c) && ValidState(c, s) && i < c.channels && Conserving(c, m) && Bounded(c, s, m)
    requires s.ch[i].queue != [] && Step(c, s, e).s.ch[i].queue != []
    ensures Step(c, s, e).s.ch[i].credit + Charged(c, s, e, i)
         == s.ch[i].credit + Granted(c, s, e, i)
  {
    if e.Ticked? {
      TickLedger(c, s, m, i);
    } else {
      OtherEventsCharge(c, s, e, i);
      OtherEventsCredit(c, s, e, i);
    }
  }

  // ----- Sweep of the cursor -----

  /** The next position to receive a grant: past the cursor while a visit continues. */
  function NextGrant(s: State): nat
  {
    s.cursor + if s.cont then 1 else 0
  }

  function Passed(s: State, i: nat): nat { if i < NextGrant(s) then 1 else 0 }

  /** Complete turns of the grant position around the channels in one step. */
  function Laps(c: Config, s: State, e: Event): nat
    requires ValidConfig(c) && ValidState(c, s)
  {
    if e.Ticked? && DrrWins(c, s) then
      var v := DrrVerdict(c, s);
      LapCount(c.channels, s.cursor, v.probe, v.round, Tick(c, s).s.cont)
    else 0
  }

  /** Turns completed when a winner is found at this probe of this round. */
  function LapCount(n: nat, cursor: nat, probe: nat, round: nat, stay: bool): nat
    requires cursor < n && probe < n && round > 0
  {
    var w := At(n, cursor, probe);
    if w < cursor || (w + 1 == n && !stay) then round else round - 1
  }

  function LapsOver(c: Config, s: State, es: seq<Event>): nat
    requires ValidConfig(c) && ValidState(c, s)
  {
    if es == [] then 0
    else LapsOver(c, s, es[..|es| - 1]) + Laps(c, Run(c, s, es[..|es| - 1]), es[|es| - 1])
  }

  /** The counting behind StepSweep, on bare positions. */
  lemma SweepArithmetic(n: nat, cursor: nat, cont: bool, probe: nat, round: nat, stay: bool, i: nat)
    requires cursor < n && probe < n && i < n && round > 0
    ensures var visits := Visits(n, cursor, probe, round, i);
            var grants := if Held(cont, Dist(n, cursor, i)) && visits > 0 then visits - 1 else visits;
            var w := At(n, cursor, probe);
            var next := if stay then w + 1 else if w + 1 == n then 0 else w + 1;
            grants + (if i < cursor + (if cont then 1 else 0) then 1 else 0)
              == LapCount(n, cursor, probe, round, stay) + (if i < next then 1 else 0)
  {
  }

  /** The grant position moves to just past the winner. */
  lemma ArbitrationSweep(c: Config, s: State, i: nat)
    requires ValidConfig(c) && ValidState(c, s) && i < c.channels
    requires c.policy == DeficitRoundRobin && s.ch[i].queue != []
    ensures var v := Arbitrate(Lanes(c, s), s.cursor, s.cont);
            var s' := ArbitrateDrr(c, s).s;
            && v.Winner? && v.probe < c.channels && v.round > 0
            && var visits := Visits(c.channels, s.cursor, v.probe, v.round, i);
               var grants := if Held(s.cont, Dist(c.channels, s.cursor, i)) && visits > 0 then visits - 1 else visits;
               grants + Passed(s, i) == LapCount(c.channels, s.cursor, v.probe, v.round, s'.cont) + Passed(s', i)
  {
    VisitsWithinNeed(c, s, i);
    WinnerCanPay(c, s);
    var v := Arbitrate(Lanes(c, s), s.cursor, s.cont);
    AwardChannels(c, s, v.probe, v.round);
    SweepArithmetic(c.channels, s.cursor, s.cont, v.probe, v.round, ArbitrateDrr(c, s).s.cont, i);
  }

  lemma TickSweep(c: Config, s: State, i: nat)
    requires ValidConfig(c) && ValidState(c, s) && i < c.channels
    requires c.bus == SharedSerial && c.policy == DeficitRoundRobin && s.ch[i].queue != []
    ensures Grants(c, s, Ticked, i) + Passed(s, i) == Laps(c, s, Ticked) + Passed(Tick(c, s).s, i)
  {
    RetireSame(c, s, i);
    if BusFree(AfterRetire(c, s)) {
      ArbitrationSweep(c, AfterRetire(c, s), i);
    }
  }

  /** Grants in a step are the turns made, give or take the channel's side of the grant position. */
  lemma StepSweep(c: Config, s: State, e: Event, i: nat)
    requires ValidConfig(c) && ValidState(c, s) && i < c.channels
    requires c.bus == SharedSerial && c.policy == DeficitRoundRobin && s.ch[i].queue != []
    ensures Grants(c, s, e, i) + Passed(s, i) == Laps(c, s, e) + Passed(Step(c, s, e).s, i)
  {
    if e.Ticked? {
      TickSweep(c, s, i);
    }
  }

  ghost predicate Backlogged(c: Config, s: State, es: seq<Event>, i: nat)
    requires ValidConfig(c) && ValidState(c, s) && i < c.channels
  {
    forall k :: 0 <= k <= |es| ==> Run(c, s, es[..k]).ch[i].queue != []
  }

  lemma BackloggedPrefix(c: Config, s: State, es: seq<Event>, i: nat)
    requires ValidConfig(c) && ValidState(c, s) && i < c.channels && es != [] && Backlogged(c, s, es, i)
    ensures Backlogged(c, s, es[..|es| - 1], i)
    ensures Run(c, s, es).ch[i].queue != []
  {
    var n := |es| - 1;
    forall k | 0 <= k <= n
      ensures Run(c, s, es[..n][..k]).ch[i].queue != []
    {
      assert es[..n][..k] == es[..k];
    }
    assert es[..|es|] == es;
  }

  /** Over a backlogged interval, credit moves by exactly what was granted less what was charged. */
  lemma {:induction false} RunLedger(c: Config, s: State, es: seq<Event>, m: nat, i: nat)
    requires ValidConfig(c) && ValidState(c, s) && i < c.channels && Conserving(c, m) && Bounded(c, s, m)
    requires AllCostsWithin(c, es, m) && Backlogged(c, s, es, i)
    ensures Run(c, s, es).ch[i].credit + ServedOver(c, s, es, i)
         == s.ch[i].credit + Worth(GrantLog(c, s, es, i), Grant(c, i))
  {
    if es != [] {
      var before, last := es[..|es| - 1], es[|es| - 1];
      BackloggedPrefix(c, s, es, i);
      assert before[..|before|] == before;
      RunLedger(c, s, before, m, i);
      RunBounded(c, s, before, m);
      StepLedger(c, Run(c, s, before), last, m, i);
      Append(GrantLog(c, s, before, i), Grants(c, Run(c, s, before), last, i), Grant(c, i));
      CostOnConcat(c, Started(c, s, before), Step(c, Run(c, s, before), last).started, i);
    }
  }

  lemma {:induction false} RunSweep(c: Config, s: State, es: seq<Event>, i: nat)
    requires ValidConfig(c) && ValidState(c, s) && i < c.channels
    requires c.bus == SharedSerial && c.policy == DeficitRoundRobin && Backlogged(c, s, es, i)
    ensures GrantsOver(c, s, es, i) + Passed(s, i) == LapsOver(c, s, es) + Passed(Run(c, s, es), i)
  {
    if es != [] {
      var before, last := es[..|es| - 1], es[|es| - 1];
      BackloggedPrefix(c, s, es, i);
      assert before[..|before|] == before;
      RunSweep(c, s, before, i);
      StepSweep(c, Run(c, s, before), last, i);
      Append(GrantLog(c, s, before, i), Grants(c, Run(c, s, before), last, i), 0);
    }
  }

  // ----- Over all runs -----

  /**
   In every reachable state each credit is below the largest cost, plus one grant for the channel whose visit
   continues.
   */
  lemma CreditsBounded(c: Config, mem: seq<BankMeter>, es: seq<Event>, m: nat)
    requires ValidConfig(c) && Conserving(c, m) && AllCostsWithin(c, es, m)
    ensures Bounded(c, Run(c, Init(c, mem), es), m)
  {
    RunBounded(c, Init(c, mem), es, m);
  }

  /** A bounded credit scaled by the other weight. */
  lemma ScaledCredit(x: nat, m: nat, q: nat, w: nat, other: nat, p: nat)
    requires x < m + q * w && other > 0 && p == q * w * other
    ensures x * other < m * other + p
  {
    MulMonotone(x + 1, m + q * w, other);
    AddOneTimes(x, other);
    Distribute(m, q * w, other);
  }

  /** Books of one channel scaled by the other's weight. */
  lemma ScaledBooks(a: nat, b: nat, served: nat, grants: nat, q: nat, w: nat, other: nat, p: nat)
    requires b + served == a + grants * (q * w) && p == q * w * other
    ensures b * other + served * other == a * other + grants * p
  {
    Distribute(b, served, other);
    Distribute(a, grants * (q * w), other);
    assert grants * (q * w) * other == grants * (q * w * other);
  }

  /** Slack of the fairness bound: three quanta and one largest cost per weight of each, times both weights. */
  function Slack(q: nat, m: nat, wi: nat, wj: nat): nat
  {
    3 * (q * wi * wj) + m * wi + m * wj
  }

  lemma SwapFactors(q: nat, wi: nat, wj: nat)
    ensures q * wi * wj == q * wj * wi
  {
  }

  /** The inequality behind WeightedFairness, on bare numbers. */
  lemma FairnessArithmetic(q: nat, m: nat, wi: nat, wj: nat, gi: nat, gj: nat,
                           ai: nat, bi: nat, si: nat, aj: nat, bj: nat, sj: nat)
    requires wi > 0 && wj > 0 && gi <= gj + 1
    requires bi + si == ai + gi * (q * wi) && bj + sj == aj + gj * (q * wj)
    requires ai < m + q * wi && bj < m + q * wj
    ensures si * wj < sj * wi + Slack(q, m, wi, wj)
  {
    var p := q * wi * wj;
    SwapFactors(q, wi, wj);
    ScaledBooks(ai, bi, si, gi, q, wi, wj, p);
    ScaledBooks(aj, bj, sj, gj, q, wj, wi, p);
    ScaledCredit(ai, m, q, wi, wj, p);
    ScaledCredit(bj, m, q, wj, wi, p);
    MulMonotone(gi, gj + 1, p);
    AddOneTimes(gj, p);
  }

  /** Two channels backlogged over an interval are granted equally often, up to one. */
  lemma EqualGrants(c: Config, s: State, es: seq<Event>, i: nat, j: nat)
    requires ValidConfig(c) && ValidState(c, s) && i < c.channels && j < c.channels
    requires c.bus == SharedSerial && c.policy == DeficitRoundRobin
    requires Backlogged(c, s, es, i) && Backlogged(c, s, es, j)
    ensures GrantsOver(c, s, es, i) <= GrantsOver(c, s, es, j) + 1
  {
    RunSweep(c, s, es, i);
    RunSweep(c, s, es, j);
  }

  /** One direction of weighted fairness. */
  lemma FairnessOneWay(c: Config, s: State, es: seq<Event>, m: nat, i: nat, j: nat)
    requires ValidConfig(c) && ValidState(c, s) && i < c.channels && j < c.channels
    requires Conserving(c, m) && Bounded(c, s, m) && AllCostsWithin(c, es, m)
    requires Backlogged(c, s, es, i) && Backlogged(c, s, es, j)
    ensures ServedOver(c, s, es, i) * Weight(c, j)
          < ServedOver(c, s, es, j) * Weight(c, i) + Slack(Quantum(c.cost), m, Weight(c, i), Weight(c, j))
  {
    var s' := Run(c, s, es);
    RunBounded(c, s, es, m);
    RunLedger(c, s, es, m, i);
    RunLedger(c, s, es, m, j);
    WorthIsProduct(GrantLog(c, s, es, i), Grant(c, i));
    WorthIsProduct(GrantLog(c, s, es, j), Grant(c, j));
    EqualGrants(c, s, es, i, j);
    FairnessArithmetic(Quantum(c.cost), m, Weight(c, i), Weight(c, j),
                       GrantsOver(c, s, es, i), GrantsOver(c, s, es, j),
                       s.ch[i].credit, s'.ch[i].credit, ServedOver(c, s, es, i),
                       s.ch[j].credit, s'.ch[j].credit, ServedOver(c, s, es, j));
  }

  /**
   Weighted fairness: over any interval of any run in which two channels stay backlogged, their served costs per
   unit of configured weight differ by less than three quanta plus one largest cost per weight of each. Stated with
   both sides multiplied by the two weights; a weight of zero counts as one.
   */
  lemma WeightedFairness(c: Config, mem: seq<BankMeter>, past: seq<Event>, es: seq<Event>, m: nat, i: nat, j: nat)
    requires ValidConfig(c) && i < c.channels && j < c.channels
    requires Conserving(c, m) && AllCostsWithin(c, past, m) && AllCostsWithin(c, es, m)
    requires Backlogged(c, Run(c, Init(c, mem), past), es, i)
    requires Backlogged(c, Run(c, Init(c, mem), past), es, j)
    ensures var s := Run(c, Init(c, mem), past);
            var q := if c.cost.costMode == ServiceCycles then c.cost.quantumCycles else c.cost.quantumBytes;
            var wi, wj := if c.weights[i] == 0 then 1 else c.weights[i], if c.weights[j] == 0 then 1 else c.weights[j];
            && ServedOver(c, s, es, i) * wj < ServedOver(c, s, es, j) * wi + Slack(q, m, wi, wj)
            && ServedOver(c, s, es, j) * wi < ServedOver(c, s, es, i) * wj + Slack(q, m, wj, wi)
  {
    CreditsBounded(c, mem, past, m);
    FairnessOneWay(c, Run(c, Init(c, mem), past), es, m, i, j);
    FairnessOneWay(c, Run(c, Init(c, mem), past), es, m, j, i);
  }

  /** Bytes of the transfers in a list that were started for a channel. */
  function BytesOn(started: seq<Start>, i: nat): nat
  {
    if started == [] then 0
    else
      var last := started[|started| - 1];
      BytesOn(started[..|started| - 1], i) + if last.channel == i then last.d.totalBytes else 0
  }

  lemma {:induction false} CostIsBytes(c: Config, started: seq<Start>, i: nat)
    requires ValidConfig(c) && c.cost.costMode == UsefulBytes && c.cost.granularity == Exact
    ensures CostOn(c, started, i) == BytesOn(started, i)
  {
    if started != [] {
      CostIsBytes(c, started[..|started| - 1], i);
    }
  }

  /** Charged by useful bytes, it is bytes that are served in proportion to the weights. */
  lemma ByteFairness(c: Config, mem: seq<BankMeter>, past: seq<Event>, es: seq<Event>, m: nat, i: nat, j: nat)
    requires ValidConfig(c) && i < c.channels && j < c.channels && Conserving(c, m)
    requires c.cost.costMode == UsefulBytes && c.cost.granularity == Exact
    requires forall k :: 0 <= k < |past| && past[k].Submitted? ==> past[k].d.totalBytes <= m
    requires forall k :: 0 <= k < |es| && es[k].Submitted? ==> es[k].d.totalBytes <= m
    requires Backlogged(c, Run(c, Init(c, mem), past), es, i)
    requires Backlogged(c, Run(c, Init(c, mem), past), es, j)
    ensures var started := Started(c, Run(c, Init(c, mem), past), es);
            var wi, wj := if c.weights[i] == 0 then 1 else c.weights[i], if c.weights[j] == 0 then 1 else c.weights[j];
            BytesOn(started, i) * wj
              < BytesOn(started, j) * wi + (3 * (c.cost.quantumBytes * wi * wj) + m * wi + m * wj)
  {
    WeightedFairness(c, mem, past, es, m, i, j);
    var s := Run(c, Init(c, mem), past);
    CostIsBytes(c, Started(c, s, es), i);
    CostIsBytes(c, Started(c, s, es), j);
  }
}
