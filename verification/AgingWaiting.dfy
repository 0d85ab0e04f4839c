/**
 Aging priority does not starve: with missed-grant aging and no boost cap, every head reaches the top priority,
 and from then on the rotating cursor brings it closer with each transfer that overtakes it.
 */
module AgingWaiting {
  import opened Words
  import opened Cursors
  import opened DmaEngine
  import opened DmaRuns
  import opened DmaWaiting

  ghost predicate UncappedAging(c: Config)
  {
    && c.bus == SharedSerial && c.policy == AgingPriority
    && c.metric == ByMissedGrants && c.agingMaxBoost == 0
  }

  /** Missed grants after which a descriptor has top priority. */
  function Patience(c: Config, d: Desc32): nat
    requires ValidConfig(c)
  {
    CeilDiv(255 - d.priority, c.agingIncrement)
  }

  function HeadAge(c: Config, s: State, i: nat): nat
    requires ValidConfig(c) && ValidState(c, s) && i < c.channels && s.ch[i].queue != []
  {
    Age(c, s, s.ch[i].queue[0])
  }

  /** Grants to others left before the head must be served: age up, then wait for the cursor. */
  function GrantsLeft(c: Config, s: State, i: nat): nat
    requires ValidConfig(c) && ValidState(c, s) && i < c.channels && s.ch[i].queue != []
  {
    Left(c.channels, Patience(c, s.ch[i].queue[0].d), HeadAge(c, s, i), Dist(c.channels, s.cursor, i))
  }

  function Left(n: nat, patience: nat, age: nat, dist: nat): nat
    requires n > 0
  {
    if age < patience then patience - age + (n - 1) else dist
  }

  /** Top priority is reached exactly when patience has run out. */
  lemma TopWhenAged(c: Config, s: State, e: Entry)
    requires ValidConfig(c) && UncappedAging(c)
    ensures EffectivePriority(c, s, e) == 255 <==> Age(c, s, e) >= Patience(c, e.d)
  {
    CeilDivLeast(255 - e.d.priority, c.agingIncrement, Age(c, s, e));
  }

  lemma SinceNext(now: Word64, start: Word64)
    requires Since(now, start) < U64_MAX
    ensures Since(Wrap64(now + 1), start) == Since(now, start) + 1
  {
  }

  /** A head of top priority is only overtaken by a channel nearer the cursor. */
  lemma OvertakenFromNearer(c: Config, s: State, i: nat)
    requires ValidConfig(c) && ValidState(c, s) && UncappedAging(c) && i < c.channels && s.ch[i].queue != []
    requires HeadAge(c, s, i) >= Patience(c, s.ch[i].queue[0].d)
    ensures var p := FirstEligible(c, s, 0);
            p.Some? && p.value <= Dist(c.channels, s.cursor, i)
  {
    TopWhenAged(c, s, s.ch[i].queue[0]);
    var best := BestRank(c, s, c.channels);
    BestRankIsBest(c, s, c.channels);
    assert Rank(c, s, s.ch[i].queue[0]) == 255;
    assert Eligible(c, s, At(c.channels, s.cursor, Dist(c.channels, s.cursor, i)));
    FirstEligibleIsFirst(c, s, 0, Dist(c.channels, s.cursor, i));
  }

  lemma CursorCloser(n: nat, cursor: nat, probe: nat, i: nat)
    requires cursor < n && probe < n && i < n && i != At(n, cursor, probe)
    requires probe <= Dist(n, cursor, i)
    ensures var w := At(n, cursor, probe);
            Dist(n, if w + 1 == n then 0 else w + 1, i) < Dist(n, cursor, i)
  {
  }

  /** Each grant to another channel uses up one of the grants left. */
  lemma ServeOvertakes(c: Config, s: State, probe: nat, i: nat)
    requires ValidConfig(c) && ValidState(c, s) && UncappedAging(c) && i < c.channels && s.ch[i].queue != []
    requires FirstEligible(c, s, 0) == Some(probe) && probe < c.channels && i != At(c.channels, s.cursor, probe)
    requires s.ch[At(c.channels, s.cursor, probe)].queue != [] && HeadAge(c, s, i) < U64_MAX
    ensures var s' := Serve(c, s, probe);
            && s'.ch[i].queue == s.ch[i].queue
            && HeadAge(c, s', i) == HeadAge(c, s, i) + 1
            && GrantsLeft(c, s', i) + 1 <= GrantsLeft(c, s, i)
  {
    ServeChannels(c, s, probe, i);
    ServeAges(c, s, probe, i);
    if HeadAge(c, s, i) >= Patience(c, s.ch[i].queue[0].d) {
      OvertakenFromNearer(c, s, i);
      CursorCloser(c.channels, s.cursor, probe, i);
    }
  }

  lemma ServeAges(c: Config, s: State, probe: nat, i: nat)
    requires ValidConfig(c) && ValidState(c, s) && UncappedAging(c) && i < c.channels && s.ch[i].queue != []
    requires probe < c.channels && i != At(c.channels, s.cursor, probe)
    requires s.ch[At(c.channels, s.cursor, probe)].queue != [] && HeadAge(c, s, i) < U64_MAX
    ensures Serve(c, s, probe).ch[i].queue == s.ch[i].queue
    ensures HeadAge(c, Serve(c, s, probe), i) == HeadAge(c, s, i) + 1
  {
    ServeChannels(c, s, probe, i);
    var e := s.ch[i].queue[0];
    SinceNext(s.epoch, if c.scope == FromQueueHead then e.epochEligible else e.epochSubmitted);
  }

  lemma RankOvertakes(c: Config, s: State, i: nat)
    requires ValidConfig(c) && ValidState(c, s) && UncappedAging(c) && i < c.channels && s.ch[i].queue != []
    requires NoneOn(ArbitrateRank(c, s).started, i) && HeadAge(c, s, i) < U64_MAX
    ensures var r := ArbitrateRank(c, s);
            && r.s.ch[i].queue == s.ch[i].queue && |r.started| <= 1
            && HeadAge(c, r.s, i) == HeadAge(c, s, i) + |r.started|
            && GrantsLeft(c, r.s, i) + |r.started| <= GrantsLeft(c, s, i)
  {
    var p := FirstEligible(c, s, 0);
    if p.Some? {
      assert ArbitrateRank(c, s).started[0].channel != i;
      ServeOvertakes(c, s, p.value, i);
    }
  }

  lemma TickAges(c: Config, s: State, i: nat)
    requires ValidConfig(c) && ValidState(c, s) && UncappedAging(c) && i < c.channels && s.ch[i].queue != []
    requires NoneOn(Tick(c, s).started, i) && HeadAge(c, s, i) < U64_MAX
    ensures var r := Tick(c, s);
            && r.s.ch[i].queue == s.ch[i].queue
            && HeadAge(c, r.s, i) == HeadAge(c, s, i) + |r.started|
            && GrantsLeft(c, r.s, i) + |r.started| <= GrantsLeft(c, s, i)
  {
    RetireSame(c, s, i);
    var r := AfterRetire(c, s);
    assert HeadAge(c, r, i) == HeadAge(c, s, i);
    if BusFree(r) {
      assert Tick(c, s).started == ArbitrateRank(c, r).started;
      RankOvertakes(c, r, i);
    }
  }

  lemma OthersKeepAge(c: Config, s: State, e: Event, i: nat)
    requires ValidConfig(c) && ValidState(c, s) && UncappedAging(c) && i < c.channels && !e.Ticked?
    requires s.ch[i].queue != [] && NoneOn(Step(c, s, e).started, i)
    ensures var s' := Step(c, s, e).s;
            && s'.ch[i].queue != [] && s'.ch[i].queue[0] == s.ch[i].queue[0]
            && HeadAge(c, s', i) == HeadAge(c, s, i) && GrantsLeft(c, s', i) == GrantsLeft(c, s, i)
  {
    var r := Step(c, s, e);
    assert r.s.epoch == s.epoch && r.s.cursor == s.cursor;
    assert r.s.ch[i].queue != [] && r.s.ch[i].queue[0] == s.ch[i].queue[0];
  }

  /** While a head is passed over, the grants to others are among the grants left when the run began. */
  lemma {:induction false} AgingWait(c: Config, s: State, es: seq<Event>, i: nat)
    requires ValidConfig(c) && ValidState(c, s) && UncappedAging(c) && i < c.channels && s.ch[i].queue != []
    requires HeadAge(c, s, i) + GrantsLeft(c, s, i) < U64_MAX && PassedOver(c, s, es, i)
    ensures var s' := Run(c, s, es);
            && s'.ch[i].queue != [] && s'.ch[i].queue[0] == s.ch[i].queue[0]
            && HeadAge(c, s', i) == HeadAge(c, s, i) + ArbitrationStarts(c, s, es)
            && GrantsLeft(c, s', i) + ArbitrationStarts(c, s, es) <= GrantsLeft(c, s, i)
  {
    if es != [] {
      var before, last := es[..|es| - 1], es[|es| - 1];
      var mid := Run(c, s, before);
      NoneOnBoth(Started(c, s, before), Step(c, mid, last).started, i);
      AgingWait(c, s, before, i);
      if last.Ticked? {
        TickAges(c, mid, i);
      } else {
        OthersKeepAge(c, mid, last, i);
      }
    }
  }

  // ----- Ages never come near 64-bit wrap-around -----

  ghost predicate QueuedBy(q: seq<Entry>, epoch: Word64)
  {
    forall k :: 0 <= k < |q| ==> q[k].epochSubmitted <= epoch && q[k].epochEligible <= epoch
  }

  ghost predicate EpochsPast(s: State, n: nat)
  {
    s.epoch <= n && forall i :: 0 <= i < |s.ch| ==> QueuedBy(s.ch[i].queue, s.epoch)
  }

  lemma PromoteQueued(q: seq<Entry>, epoch: Word64, later: Word64, now: Word64)
    requires QueuedBy(q, epoch) && epoch <= later
    ensures QueuedBy(Promote(q, later, now), later)
  {
  }

  lemma RankEpochs(c: Config, s: State, n: nat)
    requires ValidConfig(c) && ValidState(c, s) && c.policy != DeficitRoundRobin && EpochsPast(s, n) && n < U64_MAX
    ensures EpochsPast(ArbitrateRank(c, s).s, n + 1)
  {
    var p := FirstEligible(c, s, 0);
    if p.Some? {
      var w := At(c.channels, s.cursor, p.value);
      var s' := Serve(c, s, p.value);
      assert QueuedBy(s.ch[w].queue[1..], s.epoch);
      PromoteQueued(s.ch[w].queue[1..], s.epoch, s'.epoch, s.now);
      forall i | 0 <= i < c.channels
        ensures QueuedBy(s'.ch[i].queue, s'.epoch)
      {
        ServeChannels(c, s, p.value, i);
      }
    }
  }

  lemma RetireEpochs(c: Config, s: State, n: nat)
    requires ValidConfig(c) && ValidState(c, s) && c.bus == SharedSerial && EpochsPast(s, n)
    ensures EpochsPast(AfterRetire(c, s), n)
  {
    RetireSame(c, s, 0);
    forall i | 0 <= i < c.channels
      ensures QueuedBy(AfterRetire(c, s).ch[i].queue, s.epoch)
    {
      RetireSame(c, s, i);
    }
  }

  lemma SubmitEpochs(c: Config, s: State, d: Desc32, n: nat)
    requires ValidConfig(c) && ValidState(c, s) && EpochsPast(s, n)
    ensures EpochsPast(Submit(c, s, d).s, n)
  {
    var s' := Submit(c, s, d).s;
    if Admits(c, s, d) {
      var j := BoundChannel(c, s, d);
      assert s'.ch[j].queue == if c.async then s.ch[j].queue + [Entry(d, s.epoch, s.epoch, s.now, s.now)] else [];
      assert forall i :: 0 <= i < c.channels && i != j ==> s'.ch[i] == s.ch[i];
      assert QueuedBy(s'.ch[j].queue, s.epoch);
    }
  }

  lemma StepEpochs(c: Config, s: State, e: Event, n: nat)
    requires ValidConfig(c) && ValidState(c, s) && UncappedAging(c) && EpochsPast(s, n) && n < U64_MAX
    ensures EpochsPast(Step(c, s, e).s, n + 1)
  {
    match e
    case Ticked =>
      RetireEpochs(c, s, n);
      RankEpochs(c, AfterRetire(c, s), n);
    case Submitted(d) => SubmitEpochs(c, s, d, n);
    case Flushed(i) =>
      assert forall k :: 0 <= k < c.channels && k != i ==> Flush(c, s, i).s.ch[k] == s.ch[k];
  }

  lemma {:induction false} RunEpochs(c: Config, mem: seq<BankMeter>, es: seq<Event>)
    requires ValidConfig(c) && UncappedAging(c) && |es| < U64_MAX
    ensures EpochsPast(Run(c, Init(c, mem), es), |es|)
  {
    if es != [] {
      RunEpochs(c, mem, es[..|es| - 1]);
      StepEpochs(c, Run(c, Init(c, mem), es[..|es| - 1]), es[|es| - 1], |es| - 1);
    }
  }

  /**
   No starvation: in every run, a head of priority p is started after at most ceil((255 - p) / increment) + (n - 1)
   grants to other channels, whatever arrives.
   */
  lemma AgingBoundedWaiting(c: Config, mem: seq<BankMeter>, past: seq<Event>, es: seq<Event>, i: nat)
    requires ValidConfig(c) && UncappedAging(c) && i < c.channels && |past| < U64_MAX - 512
    requires Run(c, Init(c, mem), past).ch[i].queue != []
    requires PassedOver(c, Run(c, Init(c, mem), past), es, i)
    ensures var s := Run(c, Init(c, mem), past);
            ArbitrationStarts(c, s, es) <= Patience(c, s.ch[i].queue[0].d) + (c.channels - 1)
  {
    RunEpochs(c, mem, past);
    var s := Run(c, Init(c, mem), past);
    LeftAtMost(c, s, |past|, i);
    AgingWait(c, s, es, i);
  }

  lemma LeftAtMost(c: Config, s: State, n: nat, i: nat)
    requires ValidConfig(c) && ValidState(c, s) && UncappedAging(c) && i < c.channels && s.ch[i].queue != []
    requires EpochsPast(s, n)
    ensures GrantsLeft(c, s, i) <= Patience(c, s.ch[i].queue[0].d) + (c.channels - 1)
    ensures Patience(c, s.ch[i].queue[0].d) <= 255 && HeadAge(c, s, i) <= n
  {
    assert QueuedBy(s.ch[i].queue, s.epoch);
    CeilDivBounds(255 - s.ch[i].queue[0].d.priority, c.agingIncrement);
  }
}
