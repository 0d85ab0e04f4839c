/** What every run of the descriptor engine keeps: order, counts, depth, and exclusive use of the shared bus. */
module DmaInvariants {
  import opened Words
  import opened Cursors
  import opened DrrArbiter
  import opened DmaEngine
  import opened DmaRuns
  import opened LiveRuns

  // ----- First in, first out -----

  /** The descriptors of a list of starts that belong to one channel, in order. */
  function On(started: seq<Start>, i: nat): seq<Desc32>
  {
    if started == [] then []
    else
      var last := started[|started| - 1];
      On(started[..|started| - 1], i) + if last.channel == i then [last.d] else []
  }

  function Queued(q: seq<Entry>): (ds: seq<Desc32>)
    ensures |ds| == |q| && forall k :: 0 <= k < |q| ==> ds[k] == q[k].d
  {
    seq(|q|, k requires 0 <= k < |q| => q[k].d)
  }

  /** What a step accepts for a channel. */
  function AcceptedBy(c: Config, s: State, e: Event, i: nat): seq<Desc32>
    requires ValidConfig(c) && ValidState(c, s)
  {
    if e.Submitted? && Admits(c, s, e.d) && BoundChannel(c, s, e.d) == i then [e.d] else []
  }

  /** What an event of a live run accepts for a channel. */
  function TakenIn(v: System, e: SystemEvent, i: nat): seq<Desc32>
    requires ValidSystem(v)
  {
    if e.Operated? then AcceptedBy(v.c, v.s, e.e, i) else []
  }

  function Accepted(v: System, es: seq<SystemEvent>, i: nat): seq<Desc32>
    requires ValidSystem(v)
  {
    if es == [] then [] else Accepted(v, es[..|es| - 1], i) + TakenIn(Live(v, es[..|es| - 1]), es[|es| - 1], i)
  }

  lemma {:induction false} OnConcat(a: seq<Start>, b: seq<Start>, i: nat)
    ensures On(a + b, i) == On(a, i) + On(b, i)
  {
    if b == [] {
      assert a + b == a;
    } else {
      var n, ab := |b| - 1, a + b;
      OnConcat(a, b[..n], i);
      assert ab[..|ab| - 1] == a + b[..n] && ab[|ab| - 1] == b[n];
    }
  }

  lemma {:induction false} OnStarts(q: seq<Entry>, j: nat, i: nat)
    ensures On(Starts(j, q), i) == if i == j then Queued(q) else []
  {
    if q != [] {
      var n := |q| - 1;
      OnStarts(q[..n], j, i);
      assert Starts(j, q)[..n] == Starts(j, q[..n]);
      assert Queued(q) == Queued(q[..n]) + [q[n].d];
    }
  }

  lemma OnOne(st: Start, i: nat)
    ensures On([st], i) == if st.channel == i then [st.d] else []
  {
  }

  lemma Pop(q: seq<Entry>)
    requires q != []
    ensures Queued(q) == [q[0].d] + Queued(q[1..])
  {
  }

  lemma Push(q: seq<Entry>, e: Entry)
    ensures Queued(q + [e]) == Queued(q) + [e.d]
  {
  }

  lemma PromoteKeeps(q: seq<Entry>, epoch: Word64, now: Word64)
    ensures Queued(Promote(q, epoch, now)) == Queued(q)
  {
  }

  /** A queue loses its head exactly when that head is started. */
  ghost predicate Moves(before: seq<Entry>, after: seq<Entry>, started: seq<Start>, i: nat)
  {
    Queued(before) == On(started, i) + Queued(after)
  }

  /** Taking the head of channel w off its queue. */
  lemma PopMoves(before: seq<Entry>, after: seq<Entry>, st: Start, i: nat)
    requires st.channel == i ==> before != [] && before[0].d == st.d && Queued(after) == Queued(before[1..])
    requires st.channel != i ==> after == before
    ensures Moves(before, after, [st], i)
  {
    OnOne(st, i);
    if st.channel == i {
      Pop(before);
    }
  }

  lemma MovesThen(a: seq<Entry>, b: seq<Entry>, z: seq<Entry>, first: seq<Start>, second: seq<Start>, i: nat)
    requires Moves(a, b, first, i) && Moves(b, z, second, i)
    ensures Moves(a, z, first + second, i)
  {
    OnConcat(first, second, i);
  }

  lemma NothingMoves(q: seq<Entry>, i: nat)
    ensures Moves(q, q, [], i)
  {
  }

  lemma {:induction false} RetireMoves(c: Config, s: State, n: nat, i: nat)
    requires ValidConfig(c) && ValidState(c, s) && n <= c.channels && i < c.channels
    ensures Moves(s.ch[i].queue, RetireUpTo(c, s, n).s.ch[i].queue, RetireUpTo(c, s, n).started, i)
  {
    if n == 0 {
      NothingMoves(s.ch[i].queue, i);
    } else {
      RetireMoves(c, s, n - 1, i);
      var more := RetireOneMoves(c, s, n, i);
      var r, r' := RetireUpTo(c, s, n - 1), RetireUpTo(c, s, n);
      MovesThen(s.ch[i].queue, r.s.ch[i].queue, r'.s.ch[i].queue, r.started, more, i);
    }
  }

  lemma RetireOneMoves(c: Config, s: State, n: nat, i: nat) returns (more: seq<Start>)
    requires ValidConfig(c) && ValidState(c, s) && 0 < n <= c.channels && i < c.channels
    ensures var r, r' := RetireUpTo(c, s, n - 1), RetireUpTo(c, s, n);
            r'.started == r.started + more && Moves(r.s.ch[i].queue, r'.s.ch[i].queue, more, i)
  {
    var r, r' := RetireUpTo(c, s, n - 1), RetireUpTo(c, s, n);
    if r'.started == r.started {
      more := [];
      NothingMoves(r.s.ch[i].queue, i);
    } else {
      var st := Start(n - 1, r.s.ch[n - 1].queue[0].d);
      more := [st];
      PopMoves(r.s.ch[i].queue, r'.s.ch[i].queue, st, i);
    }
  }

  lemma DrrMoves(c: Config, s: State, i: nat)
    requires ValidConfig(c) && ValidState(c, s) && i < c.channels && c.policy == DeficitRoundRobin
    ensures Moves(s.ch[i].queue, ArbitrateDrr(c, s).s.ch[i].queue, ArbitrateDrr(c, s).started, i)
  {
    var v := Arbitrate(Lanes(c, s), s.cursor, s.cont);
    if v.Winner? {
      WinnerCanPay(c, s);
      AwardChannels(c, s, v.probe, v.round);
      PopMoves(s.ch[i].queue, ArbitrateDrr(c, s).s.ch[i].queue, ArbitrateDrr(c, s).started[0], i);
    }
  }

  lemma RankMoves(c: Config, s: State, i: nat)
    requires ValidConfig(c) && ValidState(c, s) && i < c.channels && c.policy != DeficitRoundRobin
    ensures Moves(s.ch[i].queue, ArbitrateRank(c, s).s.ch[i].queue, ArbitrateRank(c, s).started, i)
  {
    var r := ArbitrateRank(c, s);
    if r.started != [] {
      PromoteKeeps(s.ch[r.started[0].channel].queue[1..], Wrap64(s.epoch + 1), s.now);
      PopMoves(s.ch[i].queue, r.s.ch[i].queue, r.started[0], i);
    }
  }

  lemma ArbitrationMoves(c: Config, s: State, i: nat)
    requires ValidConfig(c) && ValidState(c, s) && i < c.channels
    ensures Moves(s.ch[i].queue, Arbitration(c, s).s.ch[i].queue, Arbitration(c, s).started, i)
  {
    if c.bus != SharedSerial || !BusFree(s) {
      NothingMoves(s.ch[i].queue, i);
    } else if c.policy == DeficitRoundRobin {
      DrrMoves(c, s, i);
    } else {
      RankMoves(c, s, i);
    }
  }

  lemma TickMoves(c: Config, s: State, i: nat)
    requires ValidConfig(c) && ValidState(c, s) && i < c.channels
    ensures Moves(s.ch[i].queue, Tick(c, s).s.ch[i].queue, Tick(c, s).started, i)
  {
    RetireMoves(c, s.(now := Wrap64(s.now + 1)), c.channels, i);
    var r := Retire(c, s);
    ArbitrationMoves(c, r.s, i);
    var a := Arbitration(c, r.s);
    MovesThen(s.ch[i].queue, r.s.ch[i].queue, a.s.ch[i].queue, r.started, a.started, i);
  }

  lemma SubmitMoves(c: Config, s: State, d: Desc32, i: nat)
    requires ValidConfig(c) && ValidState(c, s) && i < c.channels
    ensures Queued(s.ch[i].queue) + AcceptedBy(c, s, Submitted(d), i)
         == On(Submit(c, s, d).started, i) + Queued(Submit(c, s, d).s.ch[i].queue)
  {
    if Admits(c, s, d) {
      EnqueueMoves(c, s, d, BoundChannel(c, s, d), i);
    }
  }

  lemma EnqueueMoves(c: Config, s: State, d: Desc32, j: nat, i: nat)
    requires ValidConfig(c) && ValidState(c, s) && i < c.channels && j < c.channels
    ensures Queued(s.ch[i].queue) + (if i == j then [d] else [])
         == On(Enqueue(c, s, d, j).started, i) + Queued(Enqueue(c, s, d, j).s.ch[i].queue)
  {
    var e := Entry(d, s.epoch, s.epoch, s.now, s.now);
    if i == j {
      Push(s.ch[j].queue, e);
      OnStarts(s.ch[j].queue + [e], j, i);
      Queues(c, s, d, j);
    } else {
      OnStarts(s.ch[j].queue + [e], j, i);
      assert Enqueue(c, s, d, j).s.ch[i].queue == s.ch[i].queue;
    }
  }

  /** A submission waits, or is started with everything before it. */
  lemma Queues(c: Config, s: State, d: Desc32, j: nat)
    requires ValidConfig(c) && ValidState(c, s) && j < c.channels
    ensures var q := s.ch[j].queue + [Entry(d, s.epoch, s.epoch, s.now, s.now)];
            && Enqueue(c, s, d, j).s.ch[j].queue == (if c.async then q else [])
            && Enqueue(c, s, d, j).started == (if c.async then [] else Starts(j, q))
            && Queued([]) == []
  {
  }

  lemma FlushMoves(c: Config, s: State, j: nat, i: nat)
    requires ValidConfig(c) && ValidState(c, s) && i < c.channels
    ensures Moves(s.ch[i].queue, Flush(c, s, j).s.ch[i].queue, Flush(c, s, j).started, i)
  {
    if j >= c.channels {
      NothingMoves(s.ch[i].queue, i);
    } else {
      OnStarts(s.ch[j].queue, j, i);
      FlushQueues(c, s, j, i);
    }
  }

  lemma FlushQueues(c: Config, s: State, j: nat, i: nat)
    requires ValidConfig(c) && ValidState(c, s) && i < c.channels && j < c.channels
    ensures Flush(c, s, j).started == Starts(j, s.ch[j].queue)
    ensures Queued(Flush(c, s, j).s.ch[i].queue) == if i == j then [] else Queued(s.ch[i].queue)
  {
  }

  lemma StepMoves(c: Config, s: State, e: Event, i: nat)
    requires ValidConfig(c) && ValidState(c, s) && i < c.channels
    ensures Queued(s.ch[i].queue) + AcceptedBy(c, s, e, i)
         == On(Step(c, s, e).started, i) + Queued(Step(c, s, e).s.ch[i].queue)
  {
    match e
    case Ticked => TickMoves(c, s, i);
    case Flushed(j) => FlushMoves(c, s, j, i);
    case Submitted(d) => SubmitMoves(c, s, d, i);
  }

  lemma ChainQueues(accepted: seq<Desc32>, more: seq<Desc32>, on: seq<Desc32>, next: seq<Desc32>,
                    q: seq<Desc32>, q': seq<Desc32>)
    requires accepted == on + q && q + more == next + q'
    ensures accepted + more == on + next + q'
  {
    calc {
      accepted + more;
      on + q + more;
      on + (q + more);
      on + (next + q');
      on + next + q';
    }
  }

  lemma AfterMoves(v: System, e: SystemEvent, i: nat)
    requires ValidSystem(v) && i < v.c.channels
    ensures Queued(v.s.ch[i].queue) + TakenIn(v, e, i)
         == On(StartedBy(v, e), i) + Queued(After(v, e).s.ch[i].queue)
  {
    match e
    case Operated(o) => StepMoves(v.c, v.s, o, i);
    case _ => SameQueue(v, e, i);
  }

  lemma SameQueue(v: System, e: SystemEvent, i: nat)
    requires ValidSystem(v) && i < v.c.channels && !e.Operated?
    ensures After(v, e).s.ch[i].queue == v.s.ch[i].queue
  {
  }

  /**
   First in, first out, nothing lost: on every channel the accepted descriptors are exactly those started, in the
   same order, followed by those still queued, whatever settings change on the way.
   */
  lemma {:induction false} FirstInFirstOut(c: Config, mem: seq<BankMeter>, es: seq<SystemEvent>, i: nat)
    requires ValidConfig(c) && i < c.channels
    ensures var v := Fresh(c, mem);
            Accepted(v, es, i) == On(LiveStarted(v, es), i) + Queued(Live(v, es).s.ch[i].queue)
  {
    var v := Fresh(c, mem);
    if es != [] {
      var before, last := es[..|es| - 1], es[|es| - 1];
      FirstInFirstOut(c, mem, before, i);
      var mid := Live(v, before);
      AfterMoves(mid, last, i);
      OnConcat(LiveStarted(v, before), StartedBy(mid, last), i);
      ChainQueues(Accepted(v, before, i), TakenIn(mid, last, i),
                  On(LiveStarted(v, before), i), On(StartedBy(mid, last), i),
                  Queued(mid.s.ch[i].queue), Queued(After(mid, last).s.ch[i].queue));
    }
  }

  // ----- Counts, depth and exclusive use of the shared bus -----

  /** A channel's counters account for everything outstanding, which stays within the limit. */
  ghost predicate Sound(c: Config, ch: Channel)
  {
    && ch.submitted == ch.completed + Outstanding(ch)
    && (c.maxDepth > 0 ==> Outstanding(ch) <= c.maxDepth)
  }

  ghost predicate AllSound(c: Config, s: State)
  {
    forall i :: 0 <= i < |s.ch| ==> Sound(c, s.ch[i])
  }

  /** On a shared bus at most one descriptor is active. */
  ghost predicate Exclusive(c: Config, s: State)
  {
    c.bus == SharedSerial ==>
      forall i, j :: 0 <= i < j < |s.ch| ==> !(s.ch[i].active.Some? && s.ch[j].active.Some?)
  }

  /** Moving a head onto an idle channel's bus slot, and retiring, keep the books of a channel. */
  lemma RetireOneSound(c: Config, s: State, i: nat)
    requires ValidConfig(c) && ValidState(c, s) && i < c.channels && AllSound(c, s)
    ensures var s1 := s.(ch := s.ch[i := Retired(s.now, s.ch[i])]);
            && AllSound(c, s1)
            && (s1.ch[i].active.None? && s1.ch[i].queue != [] ==> AllSound(c, Begin(c, s1, i)))
  {
    assert Sound(c, s.ch[i]);
    assert Sound(c, Retired(s.now, s.ch[i]));
  }

  lemma {:induction false} RetireSound(c: Config, s: State, n: nat)
    requires ValidConfig(c) && ValidState(c, s) && n <= c.channels && AllSound(c, s)
    ensures AllSound(c, RetireUpTo(c, s, n).s)
  {
    if n > 0 {
      RetireSound(c, s, n - 1);
      RetireOneSound(c, RetireUpTo(c, s, n - 1).s, n - 1);
    }
  }

  lemma ArbitrationSound(c: Config, s: State)
    requires ValidConfig(c) && ValidState(c, s) && AllSound(c, s)
    ensures AllSound(c, Arbitration(c, s).s)
  {
    if c.bus == SharedSerial && BusFree(s) {
      if c.policy == DeficitRoundRobin {
        var v := Arbitrate(Lanes(c, s), s.cursor, s.cont);
        if v.Winner? {
          WinnerCanPay(c, s);
          AwardSound(c, s, v.probe, v.round);
        }
      } else {
        RankSound(c, s);
      }
    }
  }

  lemma AwardSound(c: Config, s: State, probe: nat, round: nat)
    requires ValidConfig(c) && ValidState(c, s) && probe < c.channels && round > 0
    requires c.policy == DeficitRoundRobin && BusFree(s) && AllSound(c, s)
    requires CanWin(c, s, probe, round)
    ensures AllSound(c, Award(c, s, probe, round))
  {
    AwardChannels(c, s, probe, round);
    var s' := Award(c, s, probe, round);
    assert s'.ch[At(c.channels, s.cursor, probe)].active.Some?;
  }

  lemma RankSound(c: Config, s: State)
    requires ValidConfig(c) && ValidState(c, s) && BusFree(s) && AllSound(c, s)
    requires c.policy != DeficitRoundRobin
    ensures AllSound(c, ArbitrateRank(c, s).s)
  {
    var r := ArbitrateRank(c, s);
    if r.started != [] {
      var i := r.started[0].channel;
      assert s.ch[i].active.None?;
    }
  }

  lemma TickSound(c: Config, s: State)
    requires ValidConfig(c) && ValidState(c, s) && AllSound(c, s)
    ensures AllSound(c, Tick(c, s).s)
  {
    RetireSound(c, s.(now := Wrap64(s.now + 1)), c.channels);
    ArbitrationSound(c, Retire(c, s).s);
  }

  lemma SubmitSound(c: Config, s: State, d: Desc32)
    requires ValidConfig(c) && ValidState(c, s) && AllSound(c, s)
    ensures AllSound(c, Submit(c, s, d).s)
  {
  }

  lemma FlushSound(c: Config, s: State, i: nat)
    requires ValidConfig(c) && ValidState(c, s) && AllSound(c, s)
    ensures AllSound(c, Flush(c, s, i).s)
  {
  }

  lemma StepSound(c: Config, s: State, e: Event)
    requires ValidConfig(c) && ValidState(c, s) && AllSound(c, s)
    ensures AllSound(c, Step(c, s, e).s)
  {
    match e
    case Ticked => TickSound(c, s);
    case Flushed(i) => FlushSound(c, s, i);
    case Submitted(d) => SubmitSound(c, s, d);
  }

  lemma ArbitrationExclusive(c: Config, s: State)
    requires ValidConfig(c) && ValidState(c, s) && Exclusive(c, s)
    ensures Exclusive(c, Arbitration(c, s).s)
  {
    if c.bus == SharedSerial && BusFree(s) && c.policy == DeficitRoundRobin {
      var v := Arbitrate(Lanes(c, s), s.cursor, s.cont);
      if v.Winner? {
        WinnerCanPay(c, s);
        AwardExclusive(c, s, v.probe, v.round);
      }
    }
  }

  lemma AwardExclusive(c: Config, s: State, probe: nat, round: nat)
    requires ValidConfig(c) && ValidState(c, s) && probe < c.channels && round > 0
    requires c.policy == DeficitRoundRobin && BusFree(s)
    requires CanWin(c, s, probe, round)
    ensures Exclusive(c, Award(c, s, probe, round))
  {
    AwardChannels(c, s, probe, round);
  }

  lemma StepExclusive(c: Config, s: State, e: Event)
    requires ValidConfig(c) && ValidState(c, s) && Exclusive(c, s)
    ensures Exclusive(c, Step(c, s, e).s)
  {
    if e.Ticked? && c.bus == SharedSerial {
      RetireShared(c, s);
      ArbitrationExclusive(c, Retire(c, s).s);
    }
  }

  lemma AfterSound(v: System, e: SystemEvent)
    requires ValidSystem(v) && AllSound(v.c, v.s) && Exclusive(v.c, v.s)
    ensures AllSound(After(v, e).c, After(v, e).s) && Exclusive(After(v, e).c, After(v, e).s)
  {
    match e
    case Operated(o) =>
      StepSound(v.c, v.s, o);
      StepExclusive(v.c, v.s, o);
    case Configured(x) =>
    case Accessed(region, access) =>
  }

  /**
   In every reachable state, whatever settings change: counts balance, depth is within its limit, and the shared bus
   has one user at most.
   */
  lemma {:induction false} ReachableSound(c: Config, mem: seq<BankMeter>, es: seq<SystemEvent>)
    requires ValidConfig(c)
    ensures var v := Live(Fresh(c, mem), es);
            AllSound(v.c, v.s) && Exclusive(v.c, v.s)
  {
    if es != [] {
      var before := es[..|es| - 1];
      ReachableSound(c, mem, before);
      AfterSound(Live(Fresh(c, mem), before), es[|es| - 1]);
    }
  }

  // ----- A free bus is never left idle -----

  lemma RankServes(c: Config, s: State)
    requires ValidConfig(c) && ValidState(c, s) && c.policy != DeficitRoundRobin
    ensures |ArbitrateRank(c, s).started| == if AnyWaiting(s) then 1 else 0
  {
    if AnyWaiting(s) {
      var best := BestRank(c, s, c.channels);
      BestRankIsBest(c, s, c.channels);
      var i :| 0 <= i < c.channels && s.ch[i].queue != [] && Rank(c, s, s.ch[i].queue[0]) == best;
      FirstEligibleIsFirst(c, s, 0, Dist(c.channels, s.cursor, i));
    }
  }

  lemma DrrServes(c: Config, s: State)
    requires ValidConfig(c) && ValidState(c, s) && c.policy == DeficitRoundRobin
    ensures |ArbitrateDrr(c, s).started| == if AnyWaiting(s) then 1 else 0
  {
    var ls := Lanes(c, s);
    BestIsBest(ls, s.cursor, s.cont, c.channels);
    if AnyWaiting(s) {
      var i :| 0 <= i < c.channels && s.ch[i].queue != [];
      assert LaneAt(ls, s.cursor, Dist(c.channels, s.cursor, i)).waiting;
    } else if Arbitrate(ls, s.cursor, s.cont).Winner? {
      WinnerCanPay(c, s);
    }
  }

  /** Under every policy a tick starts exactly one transfer if the bus is then free and any queue waits, else none. */
  lemma BusNeverIdles(c: Config, s: State)
    requires ValidConfig(c) && ValidState(c, s) && c.bus == SharedSerial
    ensures |Tick(c, s).started| == if BusFree(AfterRetire(c, s)) && AnyWaiting(s) then 1 else 0
  {
    RetireShared(c, s);
    var r := AfterRetire(c, s);
    assert AnyWaiting(r) <==> AnyWaiting(s) by {
      forall i | 0 <= i < c.channels
        ensures r.ch[i].queue == s.ch[i].queue
      {
      }
    }
    if BusFree(r) {
      if c.policy == DeficitRoundRobin {
        DrrServes(c, r);
      } else {
        RankServes(c, r);
      }
    }
  }

  // ----- Service intervals do not overlap -----

  /** Begin and end of one transfer on the shared bus. */
  datatype Interval = Interval(begin: Word64, end: Word64)

  /** The interval a tick's start occupies, read off the state it leaves. */
  function TickInterval(c: Config, s: State): seq<Interval>
    requires ValidConfig(c) && ValidState(c, s)
  {
    var r := Tick(c, s);
    if r.started == [] || r.started[0].channel >= c.channels || r.s.ch[r.started[0].channel].active.None? then []
    else [Interval(r.s.now, r.s.ch[r.started[0].channel].active.value.completesAt)]
  }

  function ServiceLog(v: System, es: seq<SystemEvent>): seq<Interval>
    requires ValidSystem(v)
  {
    if es == [] then []
    else
      var mid := Live(v, es[..|es| - 1]);
      ServiceLog(v, es[..|es| - 1]) + if es[|es| - 1] == Operated(Ticked) then TickInterval(mid.c, mid.s) else []
  }

  /** Nothing is flushed and the 64-bit clock does not run out. */
  ghost predicate Steady(v: System, es: seq<SystemEvent>)
    requires ValidSystem(v)
  {
    forall k :: 0 <= k < |es| ==> Unflushed(es[k]) && Live(v, es[..k]).s.now < U64_MAX
  }

  predicate Unflushed(e: SystemEvent) { e.Operated? ==> !e.e.Flushed? }

  /** Every logged interval is over, or is the one still active. */
  ghost predicate Settled(s: State, log: seq<Interval>)
  {
    forall k :: 0 <= k < |log| ==> log[k].end <= s.now || Ongoing(s, log[k].end)
  }

  predicate EndsAt(ch: Channel, end: Word64)
  {
    ch.active.Some? && ch.active.value.completesAt == end
  }

  ghost predicate Ongoing(s: State, end: Word64)
  {
    exists i :: 0 <= i < |s.ch| && EndsAt(s.ch[i], end)
  }

  ghost predicate Ordered(log: seq<Interval>)
  {
    forall k, l :: 0 <= k < l < |log| ==> log[k].end <= log[l].begin
  }

  /** Retiring with a running clock ends what has left the bus. */
  lemma RetireSettles(c: Config, s: State, log: seq<Interval>)
    requires ValidConfig(c) && ValidState(c, s) && c.bus == SharedSerial && s.now < U64_MAX && Settled(s, log)
    ensures Settled(AfterRetire(c, s), log)
    ensures BusFree(AfterRetire(c, s)) ==> forall k :: 0 <= k < |log| ==> log[k].end <= AfterRetire(c, s).now
  {
    RetireShared(c, s);
    var r := AfterRetire(c, s);
    forall k | 0 <= k < |log|
      ensures log[k].end <= r.now || (Ongoing(r, log[k].end) && !BusFree(r))
    {
      if Ongoing(s, log[k].end) {
        var i :| 0 <= i < |s.ch| && EndsAt(s.ch[i], log[k].end);
        assert r.ch[i] == Retired(r.now, s.ch[i]);
      }
    }
  }

  /** Arbitration only moves the clock forward. */
  lemma ArbitrationForward(c: Config, s: State)
    requires ValidConfig(c) && ValidState(c, s)
    ensures Arbitration(c, s).s.now >= s.now
  {
    if c.bus == SharedSerial && BusFree(s) && c.policy == DeficitRoundRobin {
      WinnerCanPay(c, s);
    }
  }

  /** What arbitration starts is active afterwards; if it starts nothing, active slots are as they were. */
  lemma ArbitrationActive(c: Config, s: State)
    requires ValidConfig(c) && ValidState(c, s)
    ensures var r := Arbitration(c, s);
            if r.started == [] then forall i :: 0 <= i < c.channels ==> r.s.ch[i].active == s.ch[i].active
            else r.started[0].channel < c.channels && r.s.ch[r.started[0].channel].active.Some? && BusFree(s)
  {
    if c.bus == SharedSerial && BusFree(s) && c.policy == DeficitRoundRobin {
      WinnerCanPay(c, s);
    }
  }

  lemma SameActiveSettled(s: State, s': State, log: seq<Interval>)
    requires Settled(s, log) && s.now <= s'.now && |s.ch| == |s'.ch|
    requires forall i :: 0 <= i < |s.ch| ==> s'.ch[i].active == s.ch[i].active
    ensures Settled(s', log)
  {
    forall k | 0 <= k < |log| && Ongoing(s, log[k].end)
      ensures Ongoing(s', log[k].end)
    {
      var i :| 0 <= i < |s.ch| && EndsAt(s.ch[i], log[k].end);
      assert EndsAt(s'.ch[i], log[k].end);
    }
  }

  lemma TickSettles(c: Config, s: State, log: seq<Interval>)
    requires ValidConfig(c) && ValidState(c, s) && c.bus == SharedSerial && s.now < U64_MAX
    requires Settled(s, log) && Ordered(log)
    ensures Settled(Tick(c, s).s, log + TickInterval(c, s)) && Ordered(log + TickInterval(c, s))
  {
    RetireSettles(c, s, log);
    RetireSame(c, s, 0);
    var r := AfterRetire(c, s);
    ArbitrationForward(c, r);
    ArbitrationActive(c, r);
    var s' := Arbitration(c, r).s;
    var more := TickInterval(c, s);
    if Arbitration(c, r).started == [] {
      assert log + more == log;
      SameActiveSettled(r, s', log);
    } else {
      AddInterval(s', log, Arbitration(c, r).started[0].channel);
    }
  }

  lemma AddInterval(s: State, log: seq<Interval>, w: nat)
    requires w < |s.ch| && s.ch[w].active.Some? && Ordered(log)
    requires forall k :: 0 <= k < |log| ==> log[k].end <= s.now
    ensures var more := [Interval(s.now, s.ch[w].active.value.completesAt)];
            Settled(s, log + more) && Ordered(log + more)
  {
    var end := s.ch[w].active.value.completesAt;
    assert EndsAt(s.ch[w], end);
    assert Ongoing(s, end);
  }

  lemma SubmitSettles(c: Config, s: State, d: Desc32, log: seq<Interval>)
    requires ValidConfig(c) && ValidState(c, s) && Settled(s, log)
    ensures Settled(Submit(c, s, d).s, log)
  {
    SameActiveSettled(s, Submit(c, s, d).s, log);
  }

  lemma OthersSettle(v: System, e: SystemEvent, log: seq<Interval>)
    requires ValidSystem(v) && !e.Operated? && Settled(v.s, log)
    ensures Settled(After(v, e).s, log)
  {
    SameActiveSettled(v.s, After(v, e).s, log);
  }

  /**
   On a shared bus the service intervals of a live run are disjoint and in order: each begins after all before it
   ended.
   */
  lemma {:induction false} ServiceDisjoint(c: Config, mem: seq<BankMeter>, es: seq<SystemEvent>)
    requires ValidConfig(c) && c.bus == SharedSerial && Steady(Fresh(c, mem), es)
    ensures Settled(Live(Fresh(c, mem), es).s, ServiceLog(Fresh(c, mem), es))
    ensures Ordered(ServiceLog(Fresh(c, mem), es))
  {
    var v := Fresh(c, mem);
    if es != [] {
      var before, last := es[..|es| - 1], es[|es| - 1];
      assert Unflushed(es[|es| - 1]) && Live(v, es[..|es| - 1]).s.now < U64_MAX;
      SteadyPrefix(v, es);
      ServiceDisjoint(c, mem, before);
      LogStep(Live(v, before), last, ServiceLog(v, before));
    }
  }

  lemma LogStep(v: System, e: SystemEvent, log: seq<Interval>)
    requires ValidSystem(v) && v.c.bus == SharedSerial && v.s.now < U64_MAX && Unflushed(e)
    requires Settled(v.s, log) && Ordered(log)
    ensures var log' := log + if e == Operated(Ticked) then TickInterval(v.c, v.s) else [];
            Settled(After(v, e).s, log') && Ordered(log')
  {
    assert log + [] == log;
    match e
    case Operated(Ticked) => TickSettles(v.c, v.s, log);
    case Operated(Submitted(d)) => SubmitSettles(v.c, v.s, d, log);
    case _ => OthersSettle(v, e, log);
  }

  lemma SteadyPrefix(v: System, es: seq<SystemEvent>)
    requires ValidSystem(v) && es != [] && Steady(v, es)
    ensures Steady(v, es[..|es| - 1])
  {
    var before := es[..|es| - 1];
    forall k | 0 <= k < |before|
      ensures Unflushed(before[k]) && Live(v, before[..k]).s.now < U64_MAX
    {
      assert before[..k] == es[..k];
      assert Unflushed(es[k]) && Live(v, es[..k]).s.now < U64_MAX;
    }
  }
}
