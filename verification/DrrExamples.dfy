/** A continuing visit reached in three steps, and the setters that do not keep what they found. */
module DrrExamples {
  import opened Words
  import opened Descriptor
  import opened ServiceCost
  import opened SramSpans
  import opened DrrArbiter
  import opened DmaEngine
  import opened DmaRuns
  import opened DrrFairness
  import opened DrrSetters
  import opened DrrSettings
  import opened TimingOnly

  /** One asynchronous channel on a shared bus, served work-conserving with a quantum of 256 bytes. */
  function OneChannel(): (c: Config)
    ensures ValidConfig(c)
  {
    var cost := CostConfig(16, 64, 64, 0, 0, 0, 0, Aggregate, PerDescriptor, PackedDescriptor, Serialized, SizeOnly,
                           UsefulBytes, Exact, 256, 1);
    Config(1, 0, true, SharedSerial, DeficitRoundRobin, FromSubmission, ByMissedGrants, 1, 0, 1, Explicit, cost,
           seq(8, _ => 1), WorkConserving, IdleReset, Knobs(0, 0, Fixed, 1, 0, 0), [1024])
  }

  /** A load of sixteen bytes. */
  function Small(): Desc32
  {
    Desc(0, Linear, HostToTu, 0, 0, Side(None, 0, 0, 0, true), Side(Some(0), 0, 0, 0, false), None, 16, 1, 1, 1, 16,
         [], false, 0, [], false)
  }

  function SmallRun(): seq<Event> { [Submitted(Small()), Submitted(Small()), Ticked] }

  lemma SmallCost()
    ensures DrrCost(OneChannel().cost, Small()) == 16 && Grant(OneChannel(), 0) == 256
    ensures Conserving(OneChannel(), 16)
  {
  }

  /** A submission waits on the channel. */
  lemma SubmissionWaits(s: State)
    requires ValidState(OneChannel(), s)
    ensures Step(OneChannel(), s, Submitted(Small())).s
         == s.(ch := [s.ch[0].(queue := s.ch[0].queue + [Entry(Small(), s.epoch, s.epoch, s.now, s.now)],
                               submitted := s.ch[0].submitted + 1)])
  {
    var c, d := OneChannel(), Small();
    assert SizeOf(c.sizes, 0) == 1024;
    assert RangeFits(c.sizes, d.src.region, d.src.base, d.totalBytes);
    assert RangeFits(c.sizes, d.dst.region, d.dst.base, d.totalBytes);
    assert Admits(c, s, d) && BoundChannel(c, s, d) == 0;
    assert Step(c, s, Submitted(d)).s == Enqueue(c, s, d, 0).s;
  }

  lemma RunAndOne(c: Config, s: State, es: seq<Event>, e: Event)
    requires ValidConfig(c) && ValidState(c, s)
    ensures Run(c, s, es + [e]) == Step(c, Run(c, s, es), e).s
  {
    assert (es + [e])[..|es|] == es;
  }

  /** Two submissions wait. */
  lemma TwoWait(mem: seq<BankMeter>)
    ensures var c, s := OneChannel(), Init(OneChannel(), mem);
            var e := Entry(Small(), 0, 0, 0, 0);
            Run(c, s, [Submitted(Small()), Submitted(Small())]) == s.(ch := [Channel([e, e], None, 2, 0, 0)])
  {
    var c, s, d := OneChannel(), Init(OneChannel(), mem), Submitted(Small());
    var e := Entry(Small(), 0, 0, 0, 0);
    RunAndOne(c, s, [], d);
    RunAndOne(c, s, [d], d);
    assert [] + [d] == [d] && [d] + [d] == [d, d] && [] + [e] == [e] && [e] + [e] == [e, e];
    SubmissionWaits(s);
    assert Run(c, s, [d]).ch[0] == Channel([e], None, 1, 0, 0);
    SubmissionWaits(Run(c, s, [d]));
  }

  /** The tick grants 256, charges 16, and the visit goes on with 240. */
  lemma VisitContinues(mem: seq<BankMeter>)
    ensures var s := Run(OneChannel(), Init(OneChannel(), mem), SmallRun());
            s.cont && s.contCh == 0 && s.ch[0].credit == 240 && |s.ch[0].queue| == 1
  {
    var c, d := OneChannel(), Submitted(Small());
    TwoWait(mem);
    SmallCost();
    RunAndOne(c, Init(c, mem), [d, d], Ticked);
    assert [d, d] + [Ticked] == SmallRun();
    var s := Run(c, Init(c, mem), [d, d]);
    RetireSame(c, s, 0);
    TickArbitrates(c, s);
    RetireShared(c, s);
    var r := AfterRetire(c, s);
    FirstWins(c, r);
    AwardChannels(c, r, 0, 1);
  }

  /** A single waiting channel that can pay after one grant wins the first round. */
  lemma FirstWins(c: Config, s: State)
    requires ValidConfig(c) && ValidState(c, s) && c.channels == 1 && c.policy == DeficitRoundRobin && !s.cont
    requires s.ch[0].queue != [] && s.ch[0].credit == 0 && HeadCost(c, s.ch[0]) == 16 && Grant(c, 0) == 256
    ensures Arbitrate(Lanes(c, s), s.cursor, s.cont) == Winner(0, 1)
    ensures CanWin(c, s, 0, 1) && CreditAfter(c, s, 0, 1) == 256
  {
    var l := Lanes(c, s)[0];
    BestIsBest(Lanes(c, s), s.cursor, s.cont, 1);
    assert LaneAt(Lanes(c, s), s.cursor, 0) == l;
    NeedIsThreshold(l, false, 1);
  }

  /** A reachable state within the bound, and a change of service after which it is not. */
  lemma ServiceChangeBreaksBound(mem: seq<BankMeter>)
    ensures var c, s := OneChannel(), Run(OneChannel(), Init(OneChannel(), mem), SmallRun());
            var x := ServiceMode(1, seq(8, _ => 1));
            && Conserving(c, 16) && AllCostsWithin(c, SmallRun(), 16) && Bounded(c, s, 16) && Accepts(x)
            && !BoundedCredits(Changed(c, x), Adjusted(c, s, x), 16)
  {
    var c, s := OneChannel(), Run(OneChannel(), Init(OneChannel(), mem), SmallRun());
    SmallCost();
    VisitContinues(mem);
    CreditsBounded(c, mem, SmallRun(), 16);
    ChangeKeepsBound(c, s, ServiceMode(1, seq(8, _ => 1)), 16);
  }

  /** A live engine on which a new round-issue value loses credit, so that it no longer matches one left alone. */
  lemma NewRoundIssueLosesCredit(mem: seq<BankMeter>)
    ensures var c, s := OneChannel(), Run(OneChannel(), Init(OneChannel(), mem), SmallRun());
            && Both(c, c, s, s) && Adjusted(c, s, RoundIssue(1)).ch[0].credit == 0 < s.ch[0].credit
            && !Both(Changed(c, RoundIssue(1)), c, Adjusted(c, s, RoundIssue(1)), s)
  {
    var c, s := OneChannel(), Run(OneChannel(), Init(OneChannel(), mem), SmallRun());
    VisitContinues(mem);
    RoundPricingClears(c, c, s, s, RoundIssue(1));
  }
}
