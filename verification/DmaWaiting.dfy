/**
 How long the head of a queue can be passed over on the shared bus: interleaved deficit round robin and aging
 priority both bound the number of other transfers started first.
 */
module DmaWaiting {
  import opened Words
  import opened Cursors
  import opened DrrArbiter
  import opened DmaEngine
  import opened DmaRuns

  /** Transfers that arbitration started during a run. */
  function ArbitrationStarts(c: Config, s: State, es: seq<Event>): nat
    requires ValidConfig(c) && ValidState(c, s)
  {
    if es == [] then 0
    else
      var before, last := es[..|es| - 1], es[|es| - 1];
      ArbitrationStarts(c, s, before) + if last.Ticked? then |Tick(c, Run(c, s, before)).started| else 0
  }

  /** None of these transfers is on the channel. */
  ghost predicate NoneOn(started: seq<Start>, i: nat)
  {
    forall k :: 0 <= k < |started| ==> started[k].channel != i
  }

  lemma NoneOnBoth(a: seq<Start>, b: seq<Start>, i: nat)
    requires NoneOn(a + b, i)
    ensures NoneOn(a, i) && NoneOn(b, i)
  {
    forall k | 0 <= k < |a|
      ensures a[k].channel != i
    {
      assert a[k] == (a + b)[k];
    }
    forall k | 0 <= k < |b|
      ensures b[k].channel != i
    {
      assert b[k] == (a + b)[|a| + k];
    }
  }

  /** The channel's head is never started during the run, by a tick, a flush or a synchronous submission. */
  ghost predicate PassedOver(c: Config, s: State, es: seq<Event>, i: nat)
    requires ValidConfig(c) && ValidState(c, s)
  {
    NoneOn(Started(c, s, es), i)
  }

  // ----- Deficit round robin, interleaved -----

  /** The lane of a channel as arbitration sees it. */
  function LaneOf(c: Config, s: State, i: nat): (l: Lane)
    requires ValidConfig(c) && ValidState(c, s) && i < c.channels
    ensures ValidLane(l)
  {
    Lane(s.ch[i].queue != [], HeadCost(c, s.ch[i]), s.ch[i].credit, Grant(c, i))
  }

  /** Positions of other channels on the way to a channel's visit number `need`. */
  function Positions(n: nat, need: nat, dist: nat): nat
    requires n > 0 && need > 0
  {
    Mul(need - 1, n - 1) + dist
  }

  /** Positions of other channels the cursor passes before this head becomes affordable and is reached. */
  function Ahead(c: Config, s: State, i: nat): nat
    requires ValidConfig(c) && ValidState(c, s) && i < c.channels
  {
    Positions(c.channels, Need(LaneOf(c, s, i), false), Dist(c.channels, s.cursor, i))
  }

  /** Visits that do not suffice bring the need down one for one. */
  lemma NeedDrops(l: Lane, visits: nat)
    requires ValidLane(l) && visits < Need(l, false)
    ensures Visited(l, visits, false) <= U64_MAX
    ensures Need(l.(credit := Visited(l, visits, false)), false) == Need(l, false) - visits
  {
    if visits > 0 {
      NeedIsThreshold(l, false, visits);
      var l' := l.(credit := Visited(l, visits, false));
      var u := Need(l, false) - visits;
      SameCredit(l, l', visits, u);
      NeedIsThreshold(l, false, visits + u);
      NeedIsThreshold(l', false, u);
      var w := Need(l', false);
      SameCredit(l, l', visits, w);
      NeedIsThreshold(l', false, w);
      NeedIsThreshold(l, false, visits + w);
    }
  }

  lemma SameCredit(l: Lane, l': Lane, visits: nat, more: nat)
    requires ValidLane(l) && l' == l.(credit := l.credit + visits * l.grant)
    ensures Visited(l', more, false) == Visited(l, visits + more, false)
  {
    Distribute(visits, more, l.grant);
  }

  lemma PositionsSplit(n: nat, need: nat, visits: nat, dist: nat)
    requires n > 0 && need > 0
    ensures Positions(n, need + visits, dist) == Positions(n, need, dist) + Mul(visits, n - 1)
  {
    Distribute(need - 1, visits, n - 1);
  }

  /** One arbitration won by another channel uses up at least one of the positions ahead. */
  lemma OvertakenArithmetic(n: nat, cursor: nat, probe: nat, round: nat, i: nat, need: nat)
    requires cursor < n && probe < n && i < n && round > 0 && i != At(n, cursor, probe)
    requires var visits := Visits(n, cursor, probe, round, i); visits < need
    ensures var visits := Visits(n, cursor, probe, round, i);
            var w := At(n, cursor, probe);
            var next := if w + 1 == n then 0 else w + 1;
            Positions(n, need - visits, Dist(n, next, i)) < Positions(n, need, Dist(n, cursor, i))
  {
    var visits := Visits(n, cursor, probe, round, i);
    PositionsSplit(n, need - visits, visits, Dist(n, cursor, i));
    if Dist(n, cursor, i) <= probe {
      MulMonotone(1, visits, n - 1);
    }
  }

  ghost predicate InterleavedDrr(c: Config)
  {
    c.bus == SharedSerial && c.policy == DeficitRoundRobin && c.service == Interleaved
  }

  /** Who wins, and with what visits for the others. */
  lemma LoserVisits(c: Config, s: State, i: nat)
    requires ValidConfig(c) && ValidState(c, s) && i < c.channels && !s.cont && s.ch[i].queue != []
    ensures var v := Arbitrate(Lanes(c, s), s.cursor, s.cont);
            && v.Winner? && v.probe < c.channels && v.round > 0
            && (i != At(c.channels, s.cursor, v.probe) ==>
                  Visits(c.channels, s.cursor, v.probe, v.round, i) < Need(LaneOf(c, s, i), false))
  {
    BestIsBest(Lanes(c, s), s.cursor, s.cont, c.channels);
    assert LaneAt(Lanes(c, s), s.cursor, Dist(c.channels, s.cursor, i)) == LaneOf(c, s, i);
  }

  /** An arbitration that passes a head over shortens its wait. */
  lemma ArbitrationOvertakes(c: Config, s: State, i: nat)
    requires ValidConfig(c) && ValidState(c, s) && InterleavedDrr(c) && i < c.channels
    requires !s.cont && s.ch[i].queue != []
    ensures var r := ArbitrateDrr(c, s);
            && |r.started| == 1 && !r.s.cont
            && (r.started[0].channel != i ==> r.s.ch[i].queue == s.ch[i].queue && Ahead(c, r.s, i) < Ahead(c, s, i))
  {
    LoserVisits(c, s, i);
    WinnerCanPay(c, s);
    var v := Arbitrate(Lanes(c, s), s.cursor, s.cont);
    AwardChannels(c, s, v.probe, v.round);
    if i != At(c.channels, s.cursor, v.probe) {
      LoserAhead(c, s, v.probe, v.round, i);
    }
  }

  lemma LoserAhead(c: Config, s: State, probe: nat, round: nat, i: nat)
    requires ValidConfig(c) && ValidState(c, s) && InterleavedDrr(c) && i < c.channels
    requires !s.cont && s.ch[i].queue != [] && probe < c.channels && round > 0
    requires i != At(c.channels, s.cursor, probe)
    requires Visits(c.channels, s.cursor, probe, round, i) < Need(LaneOf(c, s, i), false)
    requires CanWin(c, s, probe, round)
    ensures Ahead(c, Award(c, s, probe, round), i) < Ahead(c, s, i)
  {
    var visits := Visits(c.channels, s.cursor, probe, round, i);
    NeedDrops(LaneOf(c, s, i), visits);
    OvertakenArithmetic(c.channels, s.cursor, probe, round, i, Need(LaneOf(c, s, i), false));
    var s' := Award(c, s, probe, round);
    assert s'.ch[i] == s.ch[i].(credit := CreditAfter(c, s, i, visits));
    assert LaneOf(c, s', i) == LaneOf(c, s, i).(credit := Visited(LaneOf(c, s, i), visits, false));
  }

  lemma TickOvertakes(c: Config, s: State, i: nat)
    requires ValidConfig(c) && ValidState(c, s) && InterleavedDrr(c) && i < c.channels
    requires !s.cont && s.ch[i].queue != [] && NoneOn(Tick(c, s).started, i)
    ensures var r := Tick(c, s);
            && !r.s.cont && r.s.ch[i].queue == s.ch[i].queue
            && Ahead(c, r.s, i) + |r.started| <= Ahead(c, s, i)
  {
    RetireSame(c, s, i);
    var r := AfterRetire(c, s);
    assert Ahead(c, r, i) == Ahead(c, s, i);
    if BusFree(r) {
      ArbitrationOvertakes(c, r, i);
      assert Tick(c, s).started == ArbitrateDrr(c, r).started;
    }
  }

  lemma OthersKeepAhead(c: Config, s: State, e: Event, i: nat)
    requires ValidConfig(c) && ValidState(c, s) && i < c.channels && !e.Ticked?
    requires s.ch[i].queue != [] && NoneOn(Step(c, s, e).started, i)
    ensures var s' := Step(c, s, e).s;
            && s'.cont == s.cont && s'.ch[i].queue != [] && s'.ch[i].queue[0] == s.ch[i].queue[0]
            && Ahead(c, s', i) == Ahead(c, s, i)
  {
    var r := Step(c, s, e);
    assert LaneOf(c, r.s, i) == LaneOf(c, s, i);
  }

  /**
   Bounded waiting: while a head is passed over, arbitration starts at most (n - 1) * max(1, ceil((cost - credit) /
   grant)) other transfers, whatever arrives elsewhere.
   */
  lemma {:induction false} InterleavedWait(c: Config, s: State, es: seq<Event>, i: nat)
    requires ValidConfig(c) && ValidState(c, s) && InterleavedDrr(c) && i < c.channels
    requires !s.cont && s.ch[i].queue != [] && PassedOver(c, s, es, i)
    ensures var s' := Run(c, s, es);
            && !s'.cont && s'.ch[i].queue != [] && s'.ch[i].queue[0] == s.ch[i].queue[0]
            && Ahead(c, s', i) + ArbitrationStarts(c, s, es) <= Ahead(c, s, i)
  {
    if es != [] {
      var before, last := es[..|es| - 1], es[|es| - 1];
      var mid := Run(c, s, before);
      NoneOnBoth(Started(c, s, before), Step(c, mid, last).started, i);
      InterleavedWait(c, s, before, i);
      if last.Ticked? {
        TickOvertakes(c, mid, i);
      } else {
        OthersKeepAhead(c, mid, last, i);
      }
    }
  }

  /** Bounded waiting in every run: the head's cost, credit and grant at the time give the bound. */
  lemma InterleavedBoundedWaiting(c: Config, mem: seq<BankMeter>, past: seq<Event>, es: seq<Event>, i: nat)
    requires ValidConfig(c) && InterleavedDrr(c) && i < c.channels
    requires Run(c, Init(c, mem), past).ch[i].queue != []
    requires PassedOver(c, Run(c, Init(c, mem), past), es, i)
    ensures var s := Run(c, Init(c, mem), past);
            ArbitrationStarts(c, s, es)
              <= WaitBound(c.channels, HeadCost(c, s.ch[i]), s.ch[i].credit, Grant(c, i))
  {
    NeverContinues(c, Init(c, mem), past);
    var s := Run(c, Init(c, mem), past);
    InterleavedWait(c, s, es, i);
    PositionsBound(c.channels, LaneOf(c, s, i), Dist(c.channels, s.cursor, i));
  }

  /** Transfers on n - 1 other channels, per visit the head still needs. */
  function WaitBound(n: nat, cost: nat, credit: nat, grant: nat): nat
    requires n > 0 && grant > 0
  {
    (n - 1) * if cost <= credit then 1 else CeilDiv(cost - credit, grant)
  }

  lemma PositionsBound(n: nat, l: Lane, dist: nat)
    requires n > 0 && l.grant > 0 && dist < n
    ensures Positions(n, Need(l, false), dist) <= WaitBound(n, l.cost, l.credit, l.grant)
  {
    AddOneTimes(Need(l, false) - 1, n - 1);
  }

  lemma ArbitrationNeverContinues(c: Config, s: State)
    requires ValidConfig(c) && ValidState(c, s) && InterleavedDrr(c) && !s.cont
    ensures !ArbitrateDrr(c, s).s.cont
  {
    var v := Arbitrate(Lanes(c, s), s.cursor, s.cont);
    if v.Winner? {
      WinnerCanPay(c, s);
      AwardChannels(c, s, v.probe, v.round);
    }
  }

  lemma {:induction false} NeverContinues(c: Config, s: State, es: seq<Event>)
    requires ValidConfig(c) && ValidState(c, s) && InterleavedDrr(c) && !s.cont
    ensures !Run(c, s, es).cont
  {
    if es != [] {
      var mid := Run(c, s, es[..|es| - 1]);
      NeverContinues(c, s, es[..|es| - 1]);
      RetireSame(c, mid, 0);
      ArbitrationNeverContinues(c, AfterRetire(c, mid));
    }
  }
}
