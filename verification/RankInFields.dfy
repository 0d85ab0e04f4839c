/**
 One arbitration of round robin, strict priority and aging priority told in the fields of the configuration, the
 clocks and the descriptors alone: which waiting head is started, and what the tick leaves behind.
 */
module RankInFields {
  import opened Words
  import opened Cursors
  import opened DmaEngine
  import opened DmaRuns
  import opened DmaInvariants
  import opened EngineInFields

  /** Priority plus a step per quantum waited or per grant missed, the boost capped if a cap is set; at most 255. */
  function AgedPriority(c: Config, e: Entry, now: Word64, epoch: Word64): nat
    requires c.agingQuantum > 0
  {
    var clock := if c.metric == ByWaitCycles then now else epoch;
    var since := match (c.metric, c.scope)
      case (ByWaitCycles, FromQueueHead) => e.cycleEligible
      case (ByWaitCycles, FromSubmission) => e.cycleSubmitted
      case (ByMissedGrants, FromQueueHead) => e.epochEligible
      case (ByMissedGrants, FromSubmission) => e.epochSubmitted;
    var waited := (clock + U64 - since) % U64;
    var steps := if c.metric == ByWaitCycles then Div(waited, c.agingQuantum) else waited;
    var boost := Mul(steps, c.agingIncrement);
    Min(255, e.d.priority + if c.agingMaxBoost == 0 then boost else Min(c.agingMaxBoost, boost))
  }

  /** What the policy compares: nothing, the descriptor's priority, or its aged priority. */
  function Standing(c: Config, e: Entry, now: Word64, epoch: Word64): nat
    requires c.agingQuantum > 0
  {
    match c.policy
    case StrictPriority => e.d.priority
    case AgingPriority => AgedPriority(c, e, now, epoch)
    case _ => 0
  }

  /** Standing decides, and between equals the channel the cursor reaches first. */
  ghost predicate Precedes(c: Config, s: State, w: nat, i: nat)
    requires c.agingQuantum > 0 && w < |s.ch| && i < |s.ch|
    requires s.ch[w].queue != [] && s.ch[i].queue != []
  {
    var now := (s.now + 1) % U64;
    var x, y := Standing(c, s.ch[w].queue[0], now, s.epoch), Standing(c, s.ch[i].queue[0], now, s.epoch);
    x > y || (x == y && Nearer(s.cursor, w, i))
  }

  /** The head that moved up counts its wait from this grant and this cycle. */
  predicate MovedUp(before: seq<Entry>, after: seq<Entry>, epoch: Word64, now: Word64)
  {
    && |after| + 1 == |before|
    && (forall k :: 0 < k < |after| ==> after[k] == before[k + 1])
    && (after != [] ==> after[0] == before[1].(epochEligible := epoch, cycleEligible := now))
  }

  /** What a tick that finds the bus free and somebody waiting does, in fields. */
  ghost predicate TickInFields(c: Config, s: State, r: Outcome, w: nat)
    requires ValidConfig(c) && ValidState(c, s) && ValidState(c, r.s)
  {
    && w < c.channels && s.ch[w].queue != [] && r.started == [Start(w, s.ch[w].queue[0].d)]
    && (forall i: nat :: i < c.channels && i != w && s.ch[i].queue != [] ==> Precedes(c, s, w, i))
    && r.s.now == (s.now + 1) % U64 && r.s.epoch == (s.epoch + 1) % U64 && r.s.cursor == (w + 1) % c.channels
    && MovedUp(s.ch[w].queue, r.s.ch[w].queue, r.s.epoch, r.s.now)
    && (forall i: nat :: i < c.channels && i != w ==> r.s.ch[i].queue == s.ch[i].queue)
    && (forall i: nat :: i < c.channels ==> r.s.ch[i].credit == s.ch[i].credit)
  }

  lemma SinceIsModulo(now: Word64, start: Word64)
    ensures Since(now, start) == (now + U64 - start) % U64
  {
  }

  lemma RankIsStanding(c: Config, s: State, e: Entry)
    requires ValidConfig(c) && c.policy != DeficitRoundRobin
    ensures Rank(c, s, e) == Standing(c, e, s.now, s.epoch)
  {
    if c.metric == ByWaitCycles {
      SinceIsModulo(s.now, if c.scope == FromQueueHead then e.cycleEligible else e.cycleSubmitted);
    } else {
      SinceIsModulo(s.epoch, if c.scope == FromQueueHead then e.epochEligible else e.epochSubmitted);
    }
  }

  /** The served probe holds a head that outranks, or ties and precedes, every other waiting head. */
  lemma ServedPrecedes(c: Config, s: State, w: nat, i: nat)
    requires ValidConfig(c) && ValidState(c, s) && c.policy != DeficitRoundRobin
    requires w < c.channels && i < c.channels && i != w && s.ch[w].queue != [] && s.ch[i].queue != []
    requires FirstEligible(c, s, 0) == Some(Dist(c.channels, s.cursor, w))
    ensures var x, y := Rank(c, s, s.ch[w].queue[0]), Rank(c, s, s.ch[i].queue[0]);
            x > y || (x == y && Dist(c.channels, s.cursor, w) < Dist(c.channels, s.cursor, i))
  {
    BestRankIsBest(c, s, c.channels);
    assert Eligible(c, s, w);
    FirstEligibleIsFirst(c, s, 0, Dist(c.channels, s.cursor, i));
  }

  /** Somebody is served. */
  lemma Served(c: Config, s: State) returns (w: nat)
    requires ValidConfig(c) && ValidState(c, s) && c.policy != DeficitRoundRobin && AnyWaiting(s)
    ensures w < c.channels && s.ch[w].queue != []
    ensures FirstEligible(c, s, 0) == Some(Dist(c.channels, s.cursor, w))
  {
    RankServes(c, s);
    w := At(c.channels, s.cursor, FirstEligible(c, s, 0).value);
  }

  /** A tick of a ranking policy that finds the bus free is its arbitration. */
  lemma TickRanks(c: Config, s: State)
    requires ValidConfig(c) && ValidState(c, s) && c.bus == SharedSerial && c.policy != DeficitRoundRobin
    requires BusFree(AfterRetire(c, s))
    ensures Tick(c, s) == ArbitrateRank(c, AfterRetire(c, s))
  {
    RetireShared(c, s);
    var a := Arbitration(c, AfterRetire(c, s));
    assert [] + a.started == a.started;
  }

  lemma ServeMovesUp(c: Config, s: State, w: nat)
    requires ValidConfig(c) && ValidState(c, s) && c.policy != DeficitRoundRobin
    requires w < c.channels && s.ch[w].queue != []
    ensures var s' := Serve(c, s, Dist(c.channels, s.cursor, w));
            && s'.now == s.now && s'.epoch == (s.epoch + 1) % U64 && s'.cursor == (w + 1) % c.channels
            && MovedUp(s.ch[w].queue, s'.ch[w].queue, s'.epoch, s'.now) && s'.ch[w].credit == s.ch[w].credit
            && forall i: nat :: i < c.channels && i != w ==> s'.ch[i] == s.ch[i]
  {
    NextSlotIsModulo(c, w);
  }

  /** Retiring changes nothing that precedence looks at. */
  lemma PrecedesAfterRetire(c: Config, s: State, w: nat, i: nat)
    requires ValidConfig(c) && ValidState(c, s) && c.bus == SharedSerial && c.policy != DeficitRoundRobin
    requires w < c.channels && i < c.channels && i != w && s.ch[w].queue != [] && s.ch[i].queue != []
    requires FirstEligible(c, AfterRetire(c, s), 0) == Some(Dist(c.channels, s.cursor, w))
    ensures Precedes(c, s, w, i)
  {
    var r := AfterRetire(c, s);
    RetireSame(c, s, w);
    RetireSame(c, s, i);
    ServedPrecedes(c, r, w, i);
    RankIsStanding(c, r, r.ch[w].queue[0]);
    RankIsStanding(c, r, r.ch[i].queue[0]);
    StillWaiting(c, s);
    NearerIsEarlier(c.channels, s.cursor, w, i);
  }

  lemma ArbitrateServes(c: Config, s: State, w: nat)
    requires ValidConfig(c) && ValidState(c, s) && c.policy != DeficitRoundRobin
    requires w < c.channels && s.ch[w].queue != [] && FirstEligible(c, s, 0) == Some(Dist(c.channels, s.cursor, w))
    ensures ArbitrateRank(c, s) == Outcome(Serve(c, s, Dist(c.channels, s.cursor, w)), [Start(w, s.ch[w].queue[0].d)])
  {
  }

  /**
   A tick of round robin, strict or aging priority that finds the shared bus free and somebody waiting starts the
   head of greatest standing, the one nearest the cursor among equals.
   */
  lemma RankTick(c: Config, s: State) returns (w: nat)
    requires ValidConfig(c) && ValidState(c, s) && c.bus == SharedSerial && c.policy != DeficitRoundRobin
    requires BusFreed(s) && AnyWaiting(s)
    ensures TickInFields(c, s, Tick(c, s), w)
  {
    var r := AfterRetire(c, s);
    BusFreedExactly(c, s);
    TickRanks(c, s);
    StillWaiting(c, s);
    w := Served(c, r);
    RetireSame(c, s, w);
    ArbitrateServes(c, r, w);
    ServeMovesUp(c, r, w);
    forall i: nat | i < c.channels
      ensures r.ch[i].queue == s.ch[i].queue && r.ch[i].credit == s.ch[i].credit
      ensures i != w && s.ch[i].queue != [] ==> Precedes(c, s, w, i)
    {
      RetireSame(c, s, i);
      if i != w && s.ch[i].queue != [] {
        PrecedesAfterRetire(c, s, w, i);
      }
    }
  }
}
