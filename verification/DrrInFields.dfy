/**
 One arbitration of deficit round robin told in the fields of the configuration, the channels and the descriptors
 alone: who wins, what every channel's credit becomes, where the cursor goes and what the clock shows.
 */
module DrrInFields {
  import opened Words
  import opened Cursors
  import opened DrrArbiter
  import opened ServiceCost
  import opened DmaEngine
  import opened EngineInFields
  import opened DmaRuns
  import opened DmaInvariants
  import opened DrrFairness

  /** Credit of a waiting channel after some visits; the first visit of a continuing channel grants nothing. */
  function CreditAt(c: Config, s: State, i: nat, visits: nat): nat
    requires ValidConfig(c) && ValidState(c, s) && i < c.channels
  {
    var quantum := if c.cost.costMode == ServiceCycles then c.cost.quantumCycles else c.cost.quantumBytes;
    var weight := if c.weights[i] == 0 then 1 else c.weights[i];
    var grants := if s.cont && i == s.cursor && visits > 0 then visits - 1 else visits;
    Min(U64_MAX, s.ch[i].credit + Mul(grants, Mul(quantum, weight)))
  }

  /** Visits of a channel in an arbitration that ends at channel w after some full laps of the cursor. */
  function VisitsOf(s: State, w: nat, laps: nat, i: nat): nat
  {
    laps + if i == w || Nearer(s.cursor, i, w) then 1 else 0
  }

  /** What an arbitration won by channel w after some full laps means for a channel. */
  ghost predicate Settles(c: Config, s: State, s': State, w: nat, laps: nat, i: nat)
    requires ValidConfig(c) && ValidState(c, s) && ValidState(c, s') && w < c.channels && i < c.channels
  {
    var q, visits := s.ch[i].queue, VisitsOf(s, w, laps, i);
    if q == [] then
      s'.ch[i].credit == if visits > 0 && c.idle == IdleReset then 0 else s.ch[i].credit
    else
      var cost, credit := DrrCost(c.cost, q[0].d), CreditAt(c, s, i, visits);
      if i == w then
        && credit >= cost && (visits > 1 ==> CreditAt(c, s, i, visits - 1) < cost)
        && s'.ch[i].queue == q[1..]
        && s'.ch[i].credit == if |q| == 1 && c.idle == IdleReset then 0 else credit - cost
      else
        (visits > 0 ==> credit < cost) && s'.ch[i].queue == q && s'.ch[i].credit == credit
  }

  lemma VisitsAgree(c: Config, s: State, probe: nat, round: nat, i: nat)
    requires ValidConfig(c) && ValidState(c, s) && probe < c.channels && round > 0 && i < c.channels
    ensures VisitsOf(s, At(c.channels, s.cursor, probe), round - 1, i) == Visits(c.channels, s.cursor, probe, round, i)
  {
    NearerIsEarlier(c.channels, s.cursor, i, At(c.channels, s.cursor, probe));
  }

  lemma CreditsAgree(c: Config, s: State, i: nat, visits: nat)
    requires ValidConfig(c) && ValidState(c, s) && i < c.channels && s.ch[i].queue != []
    ensures CreditAfter(c, s, i, visits) == CreditAt(c, s, i, visits)
  {
    HeldIsContinuing(c, s, i);
  }

  /** A visit that is not a continuation adds quantum times weight, up to 64 bits; an unset weight counts as one. */
  lemma FreshVisitAdds(c: Config, s: State, i: nat)
    requires ValidConfig(c) && ValidState(c, s) && i < c.channels && s.ch[i].queue != [] && !(s.cont && s.contCh == i)
    ensures var quantum := if c.cost.costMode == ServiceCycles then c.cost.quantumCycles else c.cost.quantumBytes;
            var weight := if c.weights[i] == 0 then 1 else c.weights[i];
            CreditAfter(c, s, i, 1) == Min(U64_MAX, s.ch[i].credit + quantum * weight)
  {
    CreditsAgree(c, s, i, 1);
  }

  /** The winner named by the closed form settles every channel. */
  lemma AwardSettles(c: Config, s: State, probe: nat, round: nat, i: nat)
    requires ValidConfig(c) && ValidState(c, s) && c.policy == DeficitRoundRobin && i < c.channels
    requires Arbitrate(Lanes(c, s), s.cursor, s.cont) == Winner(probe, round) && probe < c.channels && round > 0
    ensures CanWin(c, s, probe, round)
    ensures Settles(c, s, Award(c, s, probe, round), At(c.channels, s.cursor, probe), round - 1, i)
  {
    WinnerCanPay(c, s);
    AwardChannels(c, s, probe, round);
    VisitsAgree(c, s, probe, round, i);
    if s.ch[i].queue != [] {
      AffordedAt(c, s, probe, round, i);
    }
  }

  /** Visits up to the verdict do not afford a head, except the winner's last. */
  lemma AffordedAt(c: Config, s: State, probe: nat, round: nat, i: nat)
    requires ValidConfig(c) && ValidState(c, s) && i < c.channels && s.ch[i].queue != []
    requires Arbitrate(Lanes(c, s), s.cursor, s.cont) == Winner(probe, round) && probe < c.channels && round > 0
    ensures var visits, cost := Visits(c.channels, s.cursor, probe, round, i), HeadCost(c, s.ch[i]);
            && CreditAfter(c, s, i, visits) == CreditAt(c, s, i, visits)
            && (i != At(c.channels, s.cursor, probe) && visits > 0 ==> CreditAt(c, s, i, visits) < cost)
            && (i == At(c.channels, s.cursor, probe) ==> visits == round)
            && (i == At(c.channels, s.cursor, probe) && visits > 1 ==> CreditAt(c, s, i, visits - 1) < cost)
  {
    var visits := Visits(c.channels, s.cursor, probe, round, i);
    VisitsWithinNeed(c, s, i);
    CreditsAgree(c, s, i, visits);
    var l, held := Lanes(c, s)[i], Held(s.cont, Dist(c.channels, s.cursor, i));
    if visits > 0 {
      NeedIsThreshold(l, held, visits);
    }
    if visits > 1 {
      CreditsAgree(c, s, i, visits - 1);
      NeedIsThreshold(l, held, visits - 1);
    }
  }

  /** Cycles to look at some queues in groups of a width, which falls back to the scan width and then to one. */
  function ScanTime(issue: nat, queues: nat, width: nat, scanWidth: nat): nat
  {
    var group := if width > 0 then width else if scanWidth > 0 then scanWidth else 1;
    Mul(issue, (queues + group - 1) / group)
  }

  /** The clock when channel w has won after some full laps: every lap is paid for, then the selection. */
  function ClockAfter(c: Config, s: State, start: Word64, w: nat, laps: nat): nat
    requires c.channels > 0 && s.cursor < c.channels
  {
    var k, probes := c.knobs, (w + c.channels - s.cursor) % c.channels + 1;
    var lap := if k.roundCost == Fixed then k.roundIssue
               else ScanTime(k.roundIssue, c.channels, k.roundWidth, k.scanWidth);
    var select := match k.roundCost
      case Fixed => k.selectIssue
      case PerChannel => ScanTime(k.selectIssue, c.channels, k.selectWidth, k.scanWidth)
      case PerVisitedChannel => ScanTime(k.selectIssue, probes, k.selectWidth, k.scanWidth);
    Min(U64_MAX, start + Mul(laps, lap) + select)
  }

  lemma GroupsAgree(k: Knobs, issue: nat, queues: nat, width: nat)
    ensures Mul(issue, ScanGroups(k, queues, width)) == ScanTime(issue, queues, width, k.scanWidth)
  {
    RoundUpAgrees(queues, if width > 0 then width else if k.scanWidth > 0 then k.scanWidth else 1);
  }

  lemma ClocksAgree(c: Config, s: State, probe: nat, round: nat)
    requires ValidConfig(c) && ValidState(c, s) && probe < c.channels && round > 0
    ensures SatAdd(s.now, ArbitrationDelay(c, probe, round))
         == ClockAfter(c, s, s.now, At(c.channels, s.cursor, probe), round - 1)
  {
    DistIsModulo(c.channels, s.cursor, At(c.channels, s.cursor, probe));
    GroupsAgree(c.knobs, c.knobs.roundIssue, c.channels, c.knobs.roundWidth);
    GroupsAgree(c.knobs, c.knobs.selectIssue, c.channels, c.knobs.selectWidth);
    GroupsAgree(c.knobs, c.knobs.selectIssue, probe + 1, c.knobs.selectWidth);
  }

  /** What a tick that finds the bus free and somebody waiting does, in fields, when arbitration starts at a clock. */
  ghost predicate TickInFields(c: Config, s: State, start: Word64, r: Outcome, w: nat, laps: nat)
    requires ValidConfig(c) && ValidState(c, s) && ValidState(c, r.s)
  {
    && w < c.channels && s.ch[w].queue != [] && r.started == [Start(w, s.ch[w].queue[0].d)]
    && (forall i: nat :: i < c.channels ==> Settles(c, s, r.s, w, laps, i))
    && var rest, credit := s.ch[w].queue[1..], r.s.ch[w].credit;
       && r.s.cont == (c.service == WorkConserving && rest != [] && credit >= DrrCost(c.cost, rest[0].d))
       && r.s.cursor == (if r.s.cont then w else (w + 1) % c.channels)
       && r.s.epoch == (s.epoch + 1) % U64
       && r.s.now == ClockAfter(c, s, start, w, laps)
  }

  /** Where the cursor, the continuation, the epoch and the clock stand after a win. */
  lemma AwardMoves(c: Config, s: State, probe: nat, round: nat, w: nat)
    requires ValidConfig(c) && ValidState(c, s) && CanWin(c, s, probe, round) && w == At(c.channels, s.cursor, probe)
    ensures var r, rest := Award(c, s, probe, round), s.ch[w].queue[1..];
            && r.cont == (c.service == WorkConserving && rest != [] && r.ch[w].credit >= DrrCost(c.cost, rest[0].d))
            && r.cursor == (if r.cont then w else (w + 1) % c.channels)
            && r.epoch == (s.epoch + 1) % U64
            && r.now == ClockAfter(c, s, s.now, w, round - 1)
  {
    AwardChannels(c, s, probe, round);
    AwardStarts(c, s, probe, round);
    ClocksAgree(c, s, probe, round);
    NextSlotIsModulo(c, w);
  }

  lemma AwardInFields(c: Config, s: State, probe: nat, round: nat, w: nat)
    requires ValidConfig(c) && ValidState(c, s) && c.policy == DeficitRoundRobin
    requires Arbitrate(Lanes(c, s), s.cursor, s.cont) == Winner(probe, round) && CanWin(c, s, probe, round)
    requires w == At(c.channels, s.cursor, probe)
    ensures TickInFields(c, s, s.now, Outcome(Award(c, s, probe, round), [Start(w, s.ch[w].queue[0].d)]), w, round - 1)
  {
    AwardMoves(c, s, probe, round, w);
    var r, laps := Award(c, s, probe, round), round - 1;
    forall i: nat | i < c.channels
      ensures Settles(c, s, r, w, laps, i)
    {
      AwardSettles(c, s, probe, round, i);
    }
  }

  lemma ArbitrationInFields(c: Config, s: State) returns (w: nat, laps: nat)
    requires ValidConfig(c) && ValidState(c, s) && c.policy == DeficitRoundRobin && AnyWaiting(s)
    ensures TickInFields(c, s, s.now, ArbitrateDrr(c, s), w, laps)
  {
    DrrServes(c, s);
    WinnerCanPay(c, s);
    var v := Arbitrate(Lanes(c, s), s.cursor, s.cont);
    w, laps := At(c.channels, s.cursor, v.probe), v.round - 1;
    AwardInFields(c, s, v.probe, v.round, w);
  }

  /** Retiring changes nothing that settling looks at. */
  lemma SettlesFrom(c: Config, s: State, r: State, s': State, w: nat, laps: nat, i: nat)
    requires ValidConfig(c) && ValidState(c, s) && ValidState(c, r) && ValidState(c, s')
    requires w < c.channels && i < c.channels && Settles(c, r, s', w, laps, i)
    requires r.cursor == s.cursor && r.cont == s.cont
    requires r.ch[i].queue == s.ch[i].queue && r.ch[i].credit == s.ch[i].credit
    ensures Settles(c, s, s', w, laps, i)
  {
  }

  /** States that agree on queues, credits, cursor, continuation and epoch see the same tick. */
  ghost predicate SameToArbiter(c: Config, s: State, r: State)
    requires ValidConfig(c) && ValidState(c, s) && ValidState(c, r)
  {
    && r.cursor == s.cursor && r.cont == s.cont && r.epoch == s.epoch
    && forall i :: 0 <= i < c.channels ==> r.ch[i].queue == s.ch[i].queue && r.ch[i].credit == s.ch[i].credit
  }

  lemma SeenFrom(c: Config, s: State, r: State, start: Word64, o: Outcome, w: nat, laps: nat)
    requires ValidConfig(c) && ValidState(c, s) && ValidState(c, r) && ValidState(c, o.s)
    requires SameToArbiter(c, s, r) && TickInFields(c, r, start, o, w, laps)
    ensures TickInFields(c, s, start, o, w, laps)
  {
    forall i: nat | i < c.channels
      ensures Settles(c, s, o.s, w, laps, i)
    {
      SettlesFrom(c, s, r, o.s, w, laps, i);
    }
  }

  lemma RetireHidden(c: Config, s: State)
    requires ValidConfig(c) && ValidState(c, s) && c.bus == SharedSerial
    ensures SameToArbiter(c, s, AfterRetire(c, s))
  {
    forall i: nat | i < c.channels
      ensures AfterRetire(c, s).ch[i].queue == s.ch[i].queue && AfterRetire(c, s).ch[i].credit == s.ch[i].credit
    {
      RetireSame(c, s, i);
    }
    RetireSame(c, s, 0);
  }

  /**
   A tick of deficit round robin that finds the shared bus free and somebody waiting starts one head: the first, in
   cursor order and lap by lap, that its channel's credit covers when each visit adds quantum times weight.
   */
  lemma DrrTick(c: Config, s: State) returns (w: nat, laps: nat)
    requires ValidConfig(c) && ValidState(c, s) && c.bus == SharedSerial && c.policy == DeficitRoundRobin
    requires BusFreed(s) && AnyWaiting(s)
    ensures TickInFields(c, s, (s.now + 1) % U64, Tick(c, s), w, laps)
  {
    var r := AfterRetire(c, s);
    BusFreedExactly(c, s);
    TickArbitrates(c, s);
    StillWaiting(c, s);
    w, laps := ArbitrationInFields(c, r);
    RetireHidden(c, s);
    SeenFrom(c, s, r, r.now, Tick(c, s), w, laps);
  }
}
