/**
 Scan widths, round-cost mode, round-issue and select-issue cycles only move the clock: two deficit-round-robin
 engines that differ in them start and complete the same transfers on the same ticks.
 */
module TimingOnly {
  import opened Words
  import opened Cursors
  import opened DrrArbiter
  import opened ServiceCost
  import opened DmaEngine
  import opened DmaRuns

  // ----- Equal up to a clock offset -----

  ghost predicate SameEntry(a: Entry, b: Entry)
  {
    a.d == b.d && a.epochSubmitted == b.epochSubmitted && a.epochEligible == b.epochEligible
  }

  ghost predicate SameQueue(a: seq<Entry>, b: seq<Entry>)
  {
    |a| == |b| && forall k :: 0 <= k < |a| ==> SameEntry(a[k], b[k])
  }

  /** The same transfer with the same time left, or both without a completion time. */
  ghost predicate SameActive(a: Option<Active>, b: Option<Active>, nowA: Word64, nowB: Word64)
  {
    match (a, b)
    case (None, None) => true
    case (Some(x), Some(y)) =>
      x.d == y.d && (x.completesAt - nowA == y.completesAt - nowB || (x.completesAt == 0 && y.completesAt == 0))
    case _ => false
  }

  ghost predicate SameChannel(a: Channel, b: Channel, nowA: Word64, nowB: Word64)
  {
    && SameQueue(a.queue, b.queue) && SameActive(a.active, b.active, nowA, nowB)
    && a.submitted == b.submitted && a.completed == b.completed && a.credit == b.credit
  }

  /** Two states that differ at most by an offset of their clocks. */
  ghost predicate Same(s: State, t: State)
  {
    && |s.ch| == |t.ch| && (forall i :: 0 <= i < |s.ch| ==> SameChannel(s.ch[i], t.ch[i], s.now, t.now))
    && s.cursor == t.cursor && s.cont == t.cont && s.contCh == t.contCh
    && s.epoch == t.epoch && s.nextBinding == t.nextBinding && s.mem == t.mem
  }

  /** The same engine with other timing knobs. */
  ghost predicate KnobsDiffer(c: Config, d: Config)
  {
    d == c.(knobs := d.knobs) && c.bus == SharedSerial && c.policy == DeficitRoundRobin
  }

  ghost predicate Both(c: Config, d: Config, s: State, t: State)
  {
    ValidConfig(c) && ValidConfig(d) && ValidState(c, s) && ValidState(d, t) && KnobsDiffer(c, d) && Same(s, t)
  }

  /** Room on the 64-bit clock for an arbitration in this state: nothing saturates or wraps. */
  ghost predicate ArbitrationFits(c: Config, s: State)
    requires ValidConfig(c) && ValidState(c, s)
  {
    var v := Arbitrate(Lanes(c, s), s.cursor, s.cont);
    v.Winner? ==>
      var w := At(c.channels, s.cursor, v.probe);
      && v.round > 0 && s.ch[w].queue != []
      && s.now + ArbitrationDelay(c, v.probe, v.round) + ServiceTime(c, s.mem, s.ch[w].queue[0].d) <= U64_MAX
  }

  ghost predicate TickFits(c: Config, s: State)
    requires ValidConfig(c) && ValidState(c, s)
  {
    s.now < U64_MAX && (BusFree(AfterRetire(c, s)) ==> ArbitrationFits(c, AfterRetire(c, s)))
  }

  ghost predicate RunFits(c: Config, s: State, es: seq<Event>)
    requires ValidConfig(c) && ValidState(c, s)
  {
    forall k :: 0 <= k < |es| && es[k].Ticked? ==> TickFits(c, Run(c, s, es[..k]))
  }

  // ----- Each operation preserves it -----

  lemma SameLanes(c: Config, d: Config, s: State, t: State)
    requires Both(c, d, s, t)
    ensures Lanes(c, s) == Lanes(d, t)
  {
    forall i | 0 <= i < c.channels
      ensures Lanes(c, s)[i] == Lanes(d, t)[i]
    {
      assert SameChannel(s.ch[i], t.ch[i], s.now, t.now);
      SameHead(s.ch[i].queue, t.ch[i].queue);
    }
  }

  lemma SameHead(a: seq<Entry>, b: seq<Entry>)
    requires SameQueue(a, b)
    ensures a == [] <==> b == []
    ensures a != [] ==> a[0].d == b[0].d && SameQueue(a[1..], b[1..])
  {
    if a != [] {
      assert SameEntry(a[0], b[0]);
      forall k | 0 <= k < |a| - 1
        ensures SameEntry(a[1..][k], b[1..][k])
      {
        assert SameEntry(a[k + 1], b[k + 1]);
      }
    }
  }

  lemma SameCredits(c: Config, d: Config, s: State, t: State, i: nat, visits: nat)
    requires Both(c, d, s, t) && i < c.channels
    ensures CreditAfter(c, s, i, visits) == CreditAfter(d, t, i, visits)
  {
    SameLanes(c, d, s, t);
    assert SameChannel(s.ch[i], t.ch[i], s.now, t.now);
    SameHead(s.ch[i].queue, t.ch[i].queue);
  }

  lemma RetiredSame(a: Channel, b: Channel, nowA: Word64, nowB: Word64)
    requires nowA < U64_MAX && nowB < U64_MAX && SameChannel(a, b, nowA, nowB)
    ensures SameChannel(Retired(nowA + 1, a), Retired(nowB + 1, b), nowA + 1, nowB + 1)
    ensures Retired(nowA + 1, a).active.None? == Retired(nowB + 1, b).active.None?
  {
  }

  lemma RetireChannelSame(c: Config, d: Config, s: State, t: State, i: nat)
    requires Both(c, d, s, t) && s.now < U64_MAX && t.now < U64_MAX && i < c.channels
    ensures var r, u := AfterRetire(c, s), AfterRetire(d, t);
            SameChannel(r.ch[i], u.ch[i], r.now, u.now) && r.ch[i].active.None? == u.ch[i].active.None?
  {
    RetiredChannel(c, s, i);
    RetiredChannel(d, t, i);
    RetiredSame(s.ch[i], t.ch[i], s.now, t.now);
  }

  lemma RetiredChannel(c: Config, s: State, i: nat)
    requires ValidConfig(c) && ValidState(c, s) && c.bus == SharedSerial && s.now < U64_MAX && i < c.channels
    ensures AfterRetire(c, s).now == s.now + 1 && AfterRetire(c, s).ch[i] == Retired(s.now + 1, s.ch[i])
  {
    RetireShared(c, s);
    WrapFits(s.now + 1);
  }

  lemma RetireBusSame(c: Config, d: Config, s: State, t: State)
    requires Both(c, d, s, t) && s.now < U64_MAX && t.now < U64_MAX
    ensures BusFree(AfterRetire(c, s)) == BusFree(AfterRetire(d, t))
  {
    forall i | 0 <= i < c.channels
      ensures AfterRetire(c, s).ch[i].active.None? == AfterRetire(d, t).ch[i].active.None?
    {
      RetireChannelSame(c, d, s, t, i);
    }
  }

  lemma RetireKeepsSame(c: Config, d: Config, s: State, t: State)
    requires Both(c, d, s, t) && s.now < U64_MAX && t.now < U64_MAX
    ensures Both(c, d, AfterRetire(c, s), AfterRetire(d, t))
  {
    RetireShared(c, s);
    RetireShared(d, t);
    var r, u := AfterRetire(c, s), AfterRetire(d, t);
    forall i | 0 <= i < c.channels
      ensures SameChannel(r.ch[i], u.ch[i], r.now, u.now)
    {
      RetireChannelSame(c, d, s, t, i);
    }
  }

  /** A transfer begun on both sides has the same time left and the same effect on the meters. */
  lemma CompletesSame(c: Config, d: Config, nowA: Word64, nowB: Word64, mem: seq<BankMeter>, x: Desc32)
    requires ValidCost(c.cost) && c.cost == d.cost
    requires nowA + ServiceTime(c, mem, x) <= U64_MAX && nowB + ServiceTime(d, mem, x) <= U64_MAX
    ensures SameActive(Some(Active(x, CompletesAt(c, nowA, mem, x))), Some(Active(x, CompletesAt(d, nowB, mem, x))),
                       nowA, nowB)
    ensures MetersAfter(c, mem, x) == MetersAfter(d, mem, x)
  {
    WrapFits(nowA + ServiceTime(c, mem, x));
    WrapFits(nowB + ServiceTime(d, mem, x));
  }

  /** The winner's channel after the award, on both sides. */
  lemma AwardWinnerSame(c: Config, d: Config, s: State, t: State, probe: nat, round: nat)
    requires Both(c, d, s, t) && probe < c.channels && round > 0 && BusFree(s) && BusFree(t)
    requires CanWin(c, s, probe, round) && CanWin(d, t, probe, round)
    requires var w := At(c.channels, s.cursor, probe);
             && s.now + ArbitrationDelay(c, probe, round) + ServiceTime(c, s.mem, s.ch[w].queue[0].d) <= U64_MAX
             && t.now + ArbitrationDelay(d, probe, round) + ServiceTime(d, t.mem, t.ch[w].queue[0].d) <= U64_MAX
    ensures var w := At(c.channels, s.cursor, probe);
            var s', t' := Award(c, s, probe, round), Award(d, t, probe, round);
            SameActive(s'.ch[w].active, t'.ch[w].active, s'.now, t'.now) && s'.mem == t'.mem
  {
    var w := At(c.channels, s.cursor, probe);
    assert SameChannel(s.ch[w], t.ch[w], s.now, t.now);
    SameHead(s.ch[w].queue, t.ch[w].queue);
    AwardStarts(c, s, probe, round);
    AwardStarts(d, t, probe, round);
    CompletesSame(c, d, Award(c, s, probe, round).now, Award(d, t, probe, round).now, s.mem, s.ch[w].queue[0].d);
  }

  /** The rest of the winner's channel: counts as before, the same queue and the same credit left. */
  lemma AwardWinnerCredit(c: Config, d: Config, s: State, t: State, probe: nat, round: nat)
    requires Both(c, d, s, t) && CanWin(c, s, probe, round) && CanWin(d, t, probe, round)
    ensures var w := At(c.channels, s.cursor, probe);
            var a, b := Award(c, s, probe, round).ch[w], Award(d, t, probe, round).ch[w];
            && a.submitted == b.submitted && a.completed == b.completed && a.credit == b.credit
            && SameQueue(a.queue, b.queue)
  {
    var w := At(c.channels, s.cursor, probe);
    assert SameChannel(s.ch[w], t.ch[w], s.now, t.now);
    SameHead(s.ch[w].queue, t.ch[w].queue);
    SameCredits(c, d, s, t, w, round);
    AwardChannels(c, s, probe, round);
    AwardChannels(d, t, probe, round);
  }

  lemma AwardOtherSame(c: Config, d: Config, s: State, t: State, probe: nat, round: nat, i: nat)
    requires Both(c, d, s, t) && probe < c.channels && round > 0 && BusFree(s) && BusFree(t)
    requires CanWin(c, s, probe, round) && CanWin(d, t, probe, round)
    requires i < c.channels && i != At(c.channels, s.cursor, probe)
    ensures var s', t' := Award(c, s, probe, round), Award(d, t, probe, round);
            SameChannel(s'.ch[i], t'.ch[i], s'.now, t'.now)
  {
    AwardChannels(c, s, probe, round);
    AwardChannels(d, t, probe, round);
    assert SameChannel(s.ch[i], t.ch[i], s.now, t.now);
    SameCredits(c, d, s, t, i, Visits(c.channels, s.cursor, probe, round, i));
    assert s.ch[i].active.None? && t.ch[i].active.None?;
  }

  lemma AwardSame(c: Config, d: Config, s: State, t: State, probe: nat, round: nat)
    requires Both(c, d, s, t) && probe < c.channels && round > 0 && BusFree(s) && BusFree(t)
    requires CanWin(c, s, probe, round) && CanWin(d, t, probe, round)
    requires var w := At(c.channels, s.cursor, probe);
             && s.now + ArbitrationDelay(c, probe, round) + ServiceTime(c, s.mem, s.ch[w].queue[0].d) <= U64_MAX
             && t.now + ArbitrationDelay(d, probe, round) + ServiceTime(d, t.mem, t.ch[w].queue[0].d) <= U64_MAX
    ensures Same(Award(c, s, probe, round), Award(d, t, probe, round))
  {
    var s', t' := Award(c, s, probe, round), Award(d, t, probe, round);
    var w := At(c.channels, s.cursor, probe);
    AwardWinnerSame(c, d, s, t, probe, round);
    AwardWinnerCredit(c, d, s, t, probe, round);
    AwardChannels(c, s, probe, round);
    AwardChannels(d, t, probe, round);
    SameHead(s'.ch[w].queue, t'.ch[w].queue);
    forall i | 0 <= i < c.channels && i != w
      ensures SameChannel(s'.ch[i], t'.ch[i], s'.now, t'.now)
    {
      AwardOtherSame(c, d, s, t, probe, round, i);
    }
  }

  lemma NobodySame(c: Config, d: Config, s: State, t: State)
    requires Both(c, d, s, t)
    ensures Same(ScanNobody(c, s), ScanNobody(d, t))
  {
    forall i | 0 <= i < c.channels
      ensures SameChannel(ScanNobody(c, s).ch[i], ScanNobody(d, t).ch[i], s.now, t.now)
    {
      assert SameChannel(s.ch[i], t.ch[i], s.now, t.now);
      SameCredits(c, d, s, t, i, 1);
    }
  }

  lemma ArbitrationSame(c: Config, d: Config, s: State, t: State)
    requires Both(c, d, s, t) && BusFree(s) && BusFree(t) && ArbitrationFits(c, s) && ArbitrationFits(d, t)
    ensures Same(ArbitrateDrr(c, s).s, ArbitrateDrr(d, t).s)
    ensures ArbitrateDrr(c, s).started == ArbitrateDrr(d, t).started
  {
    SameLanes(c, d, s, t);
    WinnerCanPay(c, s);
    WinnerCanPay(d, t);
    match Arbitrate(Lanes(c, s), s.cursor, s.cont)
    case Nobody => NobodySame(c, d, s, t);
    case Winner(probe, round) =>
      var w := At(c.channels, s.cursor, probe);
      assert SameChannel(s.ch[w], t.ch[w], s.now, t.now);
      SameHead(s.ch[w].queue, t.ch[w].queue);
      AwardSame(c, d, s, t, probe, round);
  }

  lemma TickSame(c: Config, d: Config, s: State, t: State)
    requires Both(c, d, s, t) && TickFits(c, s) && TickFits(d, t)
    ensures Same(Tick(c, s).s, Tick(d, t).s)
    ensures Tick(c, s).started == Tick(d, t).started
  {
    RetireKeepsSame(c, d, s, t);
    RetireBusSame(c, d, s, t);
    RetireSame(c, s, 0);
    RetireSame(d, t, 0);
    var r, u := AfterRetire(c, s), AfterRetire(d, t);
    if BusFree(r) {
      ArbitrationSame(c, d, r, u);
    }
  }

  // ----- Submission and flush -----

  lemma {:induction false} SameQueuedLoads(c: Config, a: seq<Entry>, b: seq<Entry>)
    requires ValidConfig(c) && SameQueue(a, b)
    ensures QueuedBytes(a) == QueuedBytes(b) && QueuedCycles(c.cost, a) == QueuedCycles(c.cost, b)
  {
    SameHead(a, b);
    if a != [] {
      SameQueuedLoads(c, a[1..], b[1..]);
    }
  }

  lemma SameActiveLoads(a: Option<Active>, b: Option<Active>, nowA: Word64, nowB: Word64)
    requires SameActive(a, b, nowA, nowB)
    ensures ActiveBytes(a) == ActiveBytes(b) && Remaining(nowA, a) == Remaining(nowB, b) && a.Some? == b.Some?
  {
  }

  lemma SameChannelLoads(c: Config, a: Channel, b: Channel, nowA: Word64, nowB: Word64)
    requires ValidConfig(c) && SameChannel(a, b, nowA, nowB)
    ensures Outstanding(a) == Outstanding(b) && AssignedBytes(a) == AssignedBytes(b)
    ensures ProjectedCycles(c.cost, nowA, a) == ProjectedCycles(c.cost, nowB, b)
  {
    SameQueuedLoads(c, a.queue, b.queue);
    SameActiveLoads(a.active, b.active, nowA, nowB);
  }

  lemma SameLoads(c: Config, d: Config, s: State, t: State)
    requires Both(c, d, s, t)
    ensures Loads(c, s) == Loads(d, t)
  {
    forall i | 0 <= i < c.channels
      ensures Loads(c, s)[i] == Loads(d, t)[i]
    {
      SameChannelLoads(c, s.ch[i], t.ch[i], s.now, t.now);
    }
  }

  lemma {:induction false} SameDrain(c: Config, d: Config, mem: seq<BankMeter>, a: seq<Entry>, b: seq<Entry>)
    requires ValidConfig(c) && ValidConfig(d) && d == c.(knobs := d.knobs) && SameQueue(a, b)
    ensures Drain(c, mem, a) == Drain(d, mem, b)
    decreases |a|
  {
    SameHead(a, b);
    if a != [] {
      SameDrain(c, d, MetersAfter(c, mem, a[0].d), a[1..], b[1..]);
    }
  }

  lemma SameStarts(i: nat, a: seq<Entry>, b: seq<Entry>)
    requires SameQueue(a, b)
    ensures Starts(i, a) == Starts(i, b)
  {
    forall k | 0 <= k < |a|
      ensures Starts(i, a)[k] == Starts(i, b)[k]
    {
      assert SameEntry(a[k], b[k]);
    }
  }

  lemma EnqueueSame(c: Config, d: Config, s: State, t: State, x: Desc32, i: nat)
    requires Both(c, d, s, t) && i < c.channels
    ensures Same(Enqueue(c, s, x, i).s, Enqueue(d, t, x, i).s)
    ensures Enqueue(c, s, x, i).started == Enqueue(d, t, x, i).started
  {
    assert SameChannel(s.ch[i], t.ch[i], s.now, t.now);
    var a := s.ch[i].queue + [Entry(x, s.epoch, s.epoch, s.now, s.now)];
    var b := t.ch[i].queue + [Entry(x, t.epoch, t.epoch, t.now, t.now)];
    assert SameQueue(a, b);
    SameDrain(c, d, s.mem, a, b);
    SameStarts(i, a, b);
    forall k | 0 <= k < c.channels && k != i
      ensures SameChannel(Enqueue(c, s, x, i).s.ch[k], Enqueue(d, t, x, i).s.ch[k], s.now, t.now)
    {
      assert SameChannel(s.ch[k], t.ch[k], s.now, t.now);
    }
  }

  lemma SubmitSame(c: Config, d: Config, s: State, t: State, x: Desc32)
    requires Both(c, d, s, t)
    ensures Same(Submit(c, s, x).s, Submit(d, t, x).s)
    ensures Submit(c, s, x).started == Submit(d, t, x).started
  {
    SameLoads(c, d, s, t);
    assert BoundChannel(c, s, x) == BoundChannel(d, t, x);
    var i := BoundChannel(c, s, x);
    if i < c.channels {
      assert SameChannel(s.ch[i], t.ch[i], s.now, t.now);
    }
    if Admits(c, s, x) {
      EnqueueSame(c, d, s, t, x, i);
    }
  }

  lemma FlushSame(c: Config, d: Config, s: State, t: State, i: nat)
    requires Both(c, d, s, t)
    ensures Same(Flush(c, s, i).s, Flush(d, t, i).s)
    ensures Flush(c, s, i).started == Flush(d, t, i).started
  {
    if i < c.channels {
      assert SameChannel(s.ch[i], t.ch[i], s.now, t.now);
      SameDrain(c, d, s.mem, s.ch[i].queue, t.ch[i].queue);
      SameStarts(i, s.ch[i].queue, t.ch[i].queue);
      forall k | 0 <= k < c.channels && k != i
        ensures SameChannel(Flush(c, s, i).s.ch[k], Flush(d, t, i).s.ch[k], s.now, t.now)
      {
        assert SameChannel(s.ch[k], t.ch[k], s.now, t.now);
      }
    }
  }

  lemma StepSame(c: Config, d: Config, s: State, t: State, e: Event)
    requires Both(c, d, s, t) && (e.Ticked? ==> TickFits(c, s) && TickFits(d, t))
    ensures Same(Step(c, s, e).s, Step(d, t, e).s)
    ensures Step(c, s, e).started == Step(d, t, e).started
  {
    match e
    case Ticked => TickSame(c, d, s, t);
    case Submitted(x) => SubmitSame(c, d, s, t, x);
    case Flushed(i) => FlushSame(c, d, s, t, i);
  }

  lemma FitsPrefix(c: Config, s: State, es: seq<Event>)
    requires ValidConfig(c) && ValidState(c, s) && es != [] && RunFits(c, s, es)
    ensures RunFits(c, s, es[..|es| - 1])
    ensures es[|es| - 1].Ticked? ==> TickFits(c, Run(c, s, es[..|es| - 1]))
  {
    var before := es[..|es| - 1];
    forall k | 0 <= k < |before| && before[k].Ticked?
      ensures TickFits(c, Run(c, s, before[..k]))
    {
      PrefixOfPrefix(es, k);
      assert es[k].Ticked?;
    }
  }

  lemma PrefixOfPrefix(es: seq<Event>, k: nat)
    requires k < |es|
    ensures es[..|es| - 1][..k] == es[..k]
  {
  }

  /**
   Timing only: from the same start and the same submissions, ticks and flushes, engines that differ only in their
   scan-pricing knobs reach, after every event, the same queues, active transfers with the same time left, counts,
   credits, cursor and continuation, and have started the same transfers at the same events.
   */
  lemma {:induction false} KnobsAreTimingOnly(c: Config, d: Config, mem: seq<BankMeter>, es: seq<Event>)
    requires ValidConfig(c) && ValidConfig(d) && KnobsDiffer(c, d)
    requires RunFits(c, Init(c, mem), es) && RunFits(d, Init(d, mem), es)
    ensures Same(Run(c, Init(c, mem), es), Run(d, Init(d, mem), es))
    ensures Started(c, Init(c, mem), es) == Started(d, Init(d, mem), es)
  {
    var s, t := Init(c, mem), Init(d, mem);
    if es != [] {
      var before, last := es[..|es| - 1], es[|es| - 1];
      FitsPrefix(c, s, es);
      FitsPrefix(d, t, es);
      KnobsAreTimingOnly(c, d, mem, before);
      StepSame(c, d, Run(c, s, before), Run(d, t, before), last);
    }
  }
}
