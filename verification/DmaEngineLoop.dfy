/**
 The engine as it runs: one object whose methods scan, top up, charge and start in loops. Each method is proved to
 take the state to the one module DmaEngine names.
 */
module DmaEngineLoop {
  import opened Words
  import opened Cursors
  import opened ServiceCost
  import opened SramSpans
  import opened DrrArbiter
  import opened DmaEngine
  import opened DrrSetters
  import opened SubmitInFields

  /** The state after some complete unsuccessful rounds and some probes of the next one. */
  ghost function Scanned(c: Config, s: State, round: nat, probe: nat): (r: State)
    requires ValidConfig(c) && ValidState(c, s) && probe <= c.channels
    ensures ValidState(c, r)
  {
    s.(now := SatAdd(s.now, RoundsTime(c, round)), ch := ScannedChannels(c, s, round, probe),
       cont := s.cont && round == 0 && probe == 0)
  }

  ghost function RoundsTime(c: Config, rounds: nat): nat
  {
    Mul(rounds, RoundDelay(c))
  }

  ghost function ScannedChannels(c: Config, s: State, round: nat, probe: nat): (r: seq<Channel>)
    requires ValidConfig(c) && ValidState(c, s)
    ensures |r| == c.channels
  {
    seq(c.channels, i requires 0 <= i < c.channels =>
      s.ch[i].(credit := CreditAfter(c, s, i, VisitsSoFar(c, s, round, probe, i))))
  }

  function VisitsSoFar(c: Config, s: State, round: nat, probe: nat, i: nat): nat
    requires ValidConfig(c) && ValidState(c, s) && i < c.channels
  {
    if Dist(c.channels, s.cursor, i) < probe then round + 1 else round
  }

  /** One more visit: a grant, except on the first visit of a continued channel; idle credit may be reset. */
  lemma OneMoreVisit(c: Config, s: State, i: nat, visits: nat)
    requires ValidConfig(c) && ValidState(c, s) && i < c.channels
    ensures var credit := CreditAfter(c, s, i, visits);
            CreditAfter(c, s, i, visits + 1)
              == if s.ch[i].queue == [] then (if c.idle == IdleReset then 0 else credit)
                 else if Held(s.cont, Dist(c.channels, s.cursor, i)) && visits == 0 then credit
                 else SatAdd(credit, Grant(c, i))
  {
    if s.ch[i].queue != [] {
      var l := Lanes(c, s)[i];
      ToppedStep(l, visits);
      if visits > 0 {
        ToppedStep(l, visits - 1);
      }
    }
  }

  lemma NoVisits(c: Config, s: State)
    requires ValidConfig(c) && ValidState(c, s)
    ensures Scanned(c, s, 0, 0) == s
  {
    forall i | 0 <= i < c.channels
      ensures CreditAfter(c, s, i, 0) == s.ch[i].credit
    {
    }
    assert Scanned(c, s, 0, 0).ch == s.ch;
  }

  /** A full round of probes is a round. */
  lemma RoundComplete(c: Config, s: State, round: nat)
    requires ValidConfig(c) && ValidState(c, s)
    ensures var r := Scanned(c, s, round, c.channels);
            r.(now := SatAdd(r.now, RoundDelay(c))) == Scanned(c, s, round + 1, 0)
  {
    AddOneTimes(round, RoundDelay(c));
    assert Scanned(c, s, round, c.channels).ch == Scanned(c, s, round + 1, 0).ch;
  }

  lemma NobodyScanned(c: Config, s: State)
    requires ValidConfig(c) && ValidState(c, s)
    ensures Scanned(c, s, 0, c.channels) == ScanNobody(c, s)
  {
    assert Scanned(c, s, 0, c.channels).ch == ScanNobody(c, s).ch;
  }

  /** The state after one more probe. */
  lemma ScannedNext(c: Config, s: State, round: nat, probe: nat, r: State)
    requires ValidConfig(c) && ValidState(c, s) && probe < c.channels
    requires var i := At(c.channels, s.cursor, probe);
             var before := Scanned(c, s, round, probe);
             r == before.(ch := before.ch[i := before.ch[i].(credit := CreditAfter(c, s, i, round + 1))], cont := false)
    ensures r == Scanned(c, s, round, probe + 1)
  {
    assert r.ch == Scanned(c, s, round, probe + 1).ch;
  }

  /** The state after charging the winner found by the scan. */
  lemma PaidState(c: Config, s: State, probe: nat, round: nat, r: State)
    requires ValidConfig(c) && ValidState(c, s) && CanWin(c, s, probe, round + 1)
    requires var i := At(c.channels, s.cursor, probe);
             var before := Scanned(c, s, round, probe + 1);
             var left := Residue(c, CreditAfter(c, s, i, round + 1), HeadCost(c, s.ch[i]), s.ch[i].queue[1..]);
             r == before.(now := SatAdd(before.now, SelectDelay(c, probe + 1)),
                          ch := before.ch[i := before.ch[i].(credit := left)])
    ensures r == Paid(c, s, probe, round + 1)
  {
    assert r.ch == Paid(c, s, probe, round + 1).ch;
  }

  /** The slot a probe examines, computed with a remainder. */
  method SlotAt(n: nat, cursor: nat, probe: nat) returns (slot: nat)
    requires cursor < n && probe < n
    ensures slot == At(n, cursor, probe)
  {
    AtIsModulo(n, cursor, probe);
    slot := (cursor + probe) % n;
  }

  /** The search of the binding policies: the least value from the cursor on, the earliest among equals. */
  method EarliestLeast(values: seq<nat>, cursor: nat, limit: nat) returns (first: Option<nat>)
    requires cursor < |values|
    ensures first == FirstLeast(values, cursor, limit, |values|)
  {
    var best := limit;
    first := None;
    for probe := 0 to |values|
      invariant first == FirstLeast(values, cursor, limit, probe)
      invariant best == if first.Some? then ValueAt(values, cursor, first.value) else limit
    {
      var slot := SlotAt(|values|, cursor, probe);
      var value := values[slot];
      if value < best {
        best, first := value, Some(probe);
      }
    }
  }

  class Engine {
    var c: Config
    const ch: array<Channel>
    var now: Word64
    var cursor: nat
    var cont: bool
    var contCh: nat
    var epoch: Word64
    var nextBinding: nat
    var mem: seq<BankMeter>

    function View(): State
      reads this, ch
    {
      State(now, ch[..], cursor, cont, contCh, epoch, nextBinding, mem)
    }

    ghost predicate Valid()
      reads this, ch
    {
      ValidConfig(c) && ValidState(c, View())
    }

    constructor (c: Config, mem: seq<BankMeter>)
      requires ValidConfig(c)
      ensures Valid() && fresh(ch) && this.c == c && View() == Init(c, mem)
    {
      this.c := c;
      ch := new Channel[c.channels](_ => Channel([], None, 0, 0, 0));
      now, cursor, cont, contCh, epoch, nextBinding, this.mem := 0, 0, false, 0, 0, 0, mem;
      new;
      assert ch[..] == Init(c, mem).ch;
    }

    // ----- Deficit round robin -----

    /** Visits the channel at a probe: resets or tops up its credit, and tells whether its head is affordable. */
    method Visit(probe: nat, ghost s: State, ghost round: nat) returns (waiting: bool, affordable: bool)
      requires Valid() && probe < c.channels && ValidState(c, s)
      requires View() == Scanned(c, s, round, probe)
      modifies this`cont, ch
      ensures Valid() && View() == Scanned(c, s, round, probe + 1)
      ensures var i := At(c.channels, s.cursor, probe);
              && waiting == (s.ch[i].queue != [])
              && affordable == (waiting && CreditAfter(c, s, i, round + 1) >= HeadCost(c, s.ch[i]))
    {
      var i := SlotAt(c.channels, cursor, probe);
      OneMoreVisit(c, s, i, round);
      var credit := ch[i].credit;
      waiting := ch[i].queue != [];
      if !waiting {
        if c.idle == IdleReset {
          credit := 0;
        }
        if cont && contCh == i {
          cont := false;
        }
      } else {
        var continuing := cont && contCh == i;
        if !continuing {
          credit := SatAdd(credit, Grant(c, i));
        }
        cont := false;
      }
      ch[i] := ch[i].(credit := credit);
      affordable := waiting && credit >= HeadCost(c, ch[i]);
      ScannedNext(c, s, round, probe, View());
    }

    /** Puts the head of a channel on the bus. */
    method BeginHead(i: nat)
      requires Valid() && i < c.channels && ch[i].queue != []
      modifies this`mem, ch
      ensures Valid() && View() == Begin(c, old(View()), i)
    {
      var d := ch[i].queue[0].d;
      var at := CompletesAt(c, now, mem, d);
      mem := MetersAfter(c, mem, d);
      ch[i] := ch[i].(active := Some(Active(d, at)), queue := ch[i].queue[1..]);
      assert ch[..] == Begin(c, old(View()), i).ch;
    }

    /** Charges the affordable head at a probe and lets the scheduler's time pass. */
    method Pay(probe: nat, ghost s: State, ghost round: nat)
      requires Valid() && ValidState(c, s) && CanWin(c, s, probe, round + 1)
      requires View() == Scanned(c, s, round, probe + 1)
      modifies this`now, ch
      ensures Valid() && View() == Paid(c, s, probe, round + 1)
    {
      var i := SlotAt(c.channels, cursor, probe);
      var left := ch[i].credit - HeadCost(c, ch[i]);
      if |ch[i].queue| == 1 && c.idle == IdleReset {
        left := 0;
      }
      ch[i] := ch[i].(credit := left);
      now := SatAdd(now, SelectDelay(c, probe + 1));
      PaidState(c, s, probe, round, View());
    }

    /** Decides whether the visit just served continues. */
    method SettleVisit(i: nat)
      requires Valid() && i < c.channels && c.policy == DeficitRoundRobin
      modifies this`cursor, this`cont, this`contCh, this`epoch
      ensures Valid() && View() == Settle(c, old(View()), i)
    {
      if c.service == WorkConserving && ch[i].queue != [] && ch[i].credit >= HeadCost(c, ch[i]) {
        cursor, cont, contCh := i, true, i;
      } else {
        cursor, cont := NextSlot(c, i), false;
      }
      epoch := Wrap64(epoch + 1);
    }

    /** Charges, starts and settles the affordable head at a probe. */
    method StartAt(probe: nat, ghost s: State, ghost round: nat)
      requires Valid() && ValidState(c, s) && CanWin(c, s, probe, round + 1)
      requires View() == Scanned(c, s, round, probe + 1)
      modifies this`now, this`cursor, this`cont, this`contCh, this`epoch, this`mem, ch
      ensures Valid() && View() == Award(c, s, probe, round + 1)
    {
      var i := SlotAt(c.channels, cursor, probe);
      Pay(probe, s, round);
      BeginHead(i);
      SettleVisit(i);
    }

    /** One visit, and the start it may lead to. */
    method Probe(probe: nat, ghost s: State, ghost round: nat) returns (waiting: bool, selected: bool)
      requires Valid() && c.policy == DeficitRoundRobin && ValidState(c, s) && probe < c.channels
      requires View() == Scanned(c, s, round, probe) && Pending(VerdictOf(c, s), round, probe)
      modifies this`now, this`cursor, this`cont, this`contCh, this`epoch, this`mem, ch
      ensures Valid()
      ensures waiting ==> VerdictOf(c, s).Winner?
      ensures VerdictOf(c, s).Winner? && VerdictOf(c, s).probe == probe ==> waiting
      ensures selected ==> waiting && View() == ArbitrateDrr(c, s).s
      ensures !selected ==> View() == Scanned(c, s, round, probe + 1) && Pending(VerdictOf(c, s), round, probe + 1)
    {
      VisitOutcome(c, s, round, probe);
      waiting, selected := Visit(probe, s, round);
      if selected {
        StartAt(probe, s, round);
      }
    }

    /** One round of visits from the cursor, ending early when a head is affordable. */
    method ScanRound(ghost s: State, ghost round: nat) returns (any: bool, selected: bool)
      requires Valid() && c.policy == DeficitRoundRobin && ValidState(c, s)
      requires View() == Scanned(c, s, round, 0) && Pending(VerdictOf(c, s), round, 0)
      modifies this`now, this`cursor, this`cont, this`contCh, this`epoch, this`mem, ch
      ensures Valid() && any == VerdictOf(c, s).Winner?
      ensures selected ==> View() == ArbitrateDrr(c, s).s
      ensures !selected ==> View() == Scanned(c, s, round, c.channels) && Pending(VerdictOf(c, s), round, c.channels)
    {
      any, selected := false, false;
      var probe := 0;
      ghost var fixed, v := c, VerdictOf(c, s);
      while probe < c.channels && !selected
        invariant Valid() && c == fixed && probe <= c.channels
        invariant !selected ==> View() == Scanned(fixed, s, round, probe) && Pending(v, round, probe)
        invariant selected ==> any && View() == ArbitrateDrr(fixed, s).s
        invariant any ==> v.Winner?
        invariant v.Winner? && v.probe < probe ==> any
      {
        var waiting;
        waiting, selected := Probe(probe, s, round);
        any := any || waiting;
        probe := probe + 1;
      }
    }

    /** Time passes for a round that started nothing. */
    method EndRound(ghost s: State, ghost round: nat)
      requires Valid() && ValidState(c, s) && View() == Scanned(c, s, round, c.channels)
      modifies this`now
      ensures Valid() && View() == Scanned(c, s, round + 1, 0)
    {
      RoundComplete(c, s, round);
      now := SatAdd(now, RoundDelay(c));
    }

    /** Rounds of visits until a head is affordable; it terminates whenever anyone waits. */
    method ArbitrateDrrLoop()
      requires Valid() && c.policy == DeficitRoundRobin
      modifies this`now, this`cursor, this`cont, this`contCh, this`epoch, this`mem, ch
      ensures Valid() && View() == ArbitrateDrr(c, old(View())).s
    {
      ghost var s := View();
      ghost var round := 0;
      NoVisits(c, s);
      var any, selected := true, false;
      while any && !selected
        invariant any && !selected ==> View() == Scanned(c, s, round, 0) && Pending(VerdictOf(c, s), round, 0)
        invariant !any || selected ==> View() == ArbitrateDrr(c, s).s
        invariant VerdictOf(c, s).Nobody? ==> round == 0
        decreases Left(VerdictOf(c, s), round), any && !selected
      {
        any, selected := ScanRound(s, round);
        if !any {
          NobodyScanned(c, s);
        } else if !selected {
          EndRound(s, round);
          round := round + 1;
        }
      }
    }

    // ----- Round robin and priorities -----

    /** The best rank among the waiting heads; round robin does not look. */
    method BestPriority() returns (best: nat)
      requires Valid()
      ensures best == BestRank(c, View(), c.channels)
    {
      Unranked(c, View(), c.channels);
      best := 0;
      if c.policy == StrictPriority || c.policy == AgingPriority {
        for i := 0 to c.channels
          invariant best == BestRank(c, View(), i)
        {
          if ch[i].queue != [] && Rank(c, View(), ch[i].queue[0]) > best {
            best := Rank(c, View(), ch[i].queue[0]);
          }
        }
      }
    }

    /** Starts the head at a probe, lets the next head of its queue begin to age, and moves the cursor past it. */
    method ServeAt(probe: nat)
      requires Valid() && c.policy != DeficitRoundRobin && probe < c.channels
      requires ch[At(c.channels, cursor, probe)].queue != []
      modifies this`cursor, this`epoch, this`mem, ch
      ensures Valid() && View() == Serve(c, old(View()), probe)
    {
      var i := SlotAt(c.channels, cursor, probe);
      BeginHead(i);
      ch[i] := ch[i].(queue := Promote(ch[i].queue, Wrap64(epoch + 1), now));
      cursor, epoch := NextSlot(c, i), Wrap64(epoch + 1);
      assert ch[..] == Serve(c, old(View()), probe).ch;
    }

    /** Serves the head at a probe if it waits and has the best rank. */
    method ServeIfBest(probe: nat, best: nat) returns (served: bool)
      requires Valid() && c.policy != DeficitRoundRobin && probe < c.channels
      requires best == BestRank(c, View(), c.channels)
      modifies this`cursor, this`epoch, this`mem, ch
      ensures Valid() && served == Eligible(c, old(View()), At(c.channels, old(cursor), probe))
      ensures View() == if served then Serve(c, old(View()), probe) else old(View())
    {
      Unranked(c, View(), c.channels);
      var i := SlotAt(c.channels, cursor, probe);
      served := ch[i].queue != [] && (c.policy == RoundRobin || Rank(c, View(), ch[i].queue[0]) == best);
      if served {
        ServeAt(probe);
      }
    }

    /** Serves the first head of best rank from the cursor on. */
    method ArbitrateRankLoop()
      requires Valid() && c.policy != DeficitRoundRobin
      modifies this`cursor, this`epoch, this`mem, ch
      ensures Valid() && View() == ArbitrateRank(c, old(View())).s
    {
      ghost var s := View();
      var best := BestPriority();
      var probe, served := 0, false;
      while probe < c.channels && !served
        invariant Valid() && probe <= c.channels
        invariant !served ==> View() == s && StillFirst(c, s, probe)
        invariant served ==> View() == ArbitrateRank(c, s).s
      {
        FirstOrLater(c, s, probe);
        served := ServeIfBest(probe, best);
        probe := probe + 1;
      }
    }

    // ----- Tick -----

    /** Retires a due transfer of one channel; an independent channel also starts its next one. */
    method RetireChannel(i: nat, ghost s: State, ghost count: nat) returns (retired: bool)
      requires Valid() && ValidState(c, s) && i < c.channels && Retiring(c, s, i, View(), count)
      modifies this`mem, ch
      ensures Valid() && View() == RetireUpTo(c, s, i + 1).s && retired == Due(s.now, s.ch[i])
      ensures Retiring(c, s, i + 1, View(), count + if retired then 1 else 0)
    {
      RetireReaches(c, s, i, i);
      retired := Due(now, ch[i]);
      if retired {
        ch[i] := ch[i].(active := None, completed := ch[i].completed + 1);
      }
      assert ch[..] == RetireUpTo(c, s, i).s.ch[i := ch[i]];
      if c.bus == Independent && ch[i].active.None? && ch[i].queue != [] {
        BeginHead(i);
      }
    }

    /** Whether no transfer is on the bus. */
    method BusIdle() returns (idle: bool)
      requires Valid()
      ensures idle == BusFree(View())
    {
      idle := true;
      for i := 0 to c.channels
        invariant idle <==> forall k :: 0 <= k < i ==> ch[k].active.None?
      {
        idle := idle && ch[i].active.None?;
      }
    }

    /** The clock advances and due transfers retire and are counted. */
    method RetireAll() returns (completed: nat)
      requires Valid()
      modifies this`now, this`mem, ch
      ensures Valid() && View() == Retire(c, old(View())).s
      ensures completed == DueCount(c, Clocked(old(View())), c.channels)
    {
      now := Wrap64(now + 1);
      completed := RetireDue(View());
    }

    /** The loop over the channels of one tick. */
    method RetireDue(ghost s: State) returns (completed: nat)
      requires Valid() && s == View()
      modifies this`mem, ch
      ensures Valid() && View() == RetireUpTo(c, s, c.channels).s && completed == DueCount(c, s, c.channels)
    {
      completed := 0;
      var i := 0;
      NoneRetired(c, s);
      while i < c.channels
        invariant Valid() && Retiring(c, s, i, View(), completed)
      {
        var retired := RetireChannel(i, s, completed);
        i, completed := i + 1, completed + if retired then 1 else 0;
      }
    }

    /** A free shared bus is arbitrated. */
    method ArbitrateBus()
      requires Valid()
      modifies this`now, this`cursor, this`cont, this`contCh, this`epoch, this`mem, ch
      ensures Valid() && View() == Arbitration(c, old(View())).s
    {
      if c.bus == SharedSerial {
        var idle := BusIdle();
        if idle {
          if c.policy == DeficitRoundRobin {
            ArbitrateDrrLoop();
          } else {
            ArbitrateRankLoop();
          }
        }
      }
    }

    /** One tick, returning how many transfers it retired. */
    method TickOnce() returns (completed: nat)
      requires Valid()
      modifies this`now, this`cursor, this`cont, this`contCh, this`epoch, this`mem, ch
      ensures Valid() && View() == Tick(c, old(View())).s
      ensures completed == DueCount(c, Clocked(old(View())), c.channels)
    {
      completed := RetireAll();
      ArbitrateBus();
    }

    // ----- Submission and flush -----

    /** The channel a submission is bound to. */
    method ChooseChannel(d: Desc32) returns (id: nat)
      requires Valid()
      ensures id == BoundChannel(c, View(), d)
    {
      id := d.channel;
      if c.binding == Rotating {
        id := nextBinding;
      } else if c.binding != Explicit {
        var first := EarliestLeast(Loads(c, View()), nextBinding, LoadLimit(c.binding));
        if first.Some? {
          id := SlotAt(c.channels, nextBinding, first.value);
        }
      }
    }

    /** Executes the queue of a channel on the spot, head first. */
    method DrainQueue(i: nat)
      requires Valid() && i < c.channels
      modifies this`mem, ch
      ensures Valid() && mem == Drain(c, old(mem), old(ch[i].queue))
      ensures ch[i] == old(ch[i]).(queue := [], completed := old(ch[i].completed + |ch[i].queue|))
      ensures forall k :: 0 <= k < c.channels && k != i ==> ch[k] == old(ch[k])
    {
      while ch[i].queue != []
        invariant Valid()
        invariant Drain(c, mem, ch[i].queue) == Drain(c, old(mem), old(ch[i].queue))
        invariant ch[i] == old(ch[i]).(queue := ch[i].queue, completed := ch[i].completed)
        invariant ch[i].completed + |ch[i].queue| == old(ch[i].completed + |ch[i].queue|)
        invariant forall k :: 0 <= k < c.channels && k != i ==> ch[k] == old(ch[k])
        decreases |ch[i].queue|
      {
        mem := MetersAfter(c, mem, ch[i].queue[0].d);
        ch[i] := ch[i].(queue := ch[i].queue[1..], completed := ch[i].completed + 1);
      }
    }

    /** Queues a descriptor on a channel that has room; in synchronous mode everything queued there is executed. */
    method Accept(d: Desc32, id: nat)
      requires Valid() && id < c.channels
      modifies this`nextBinding, this`mem, ch
      ensures Valid() && View() == Enqueue(c, old(View()), d, id).s
    {
      if c.binding != Explicit {
        nextBinding := NextSlot(c, id);
      }
      ch[id] := ch[id].(queue := ch[id].queue + [Entry(d, epoch, epoch, now, now)], submitted := ch[id].submitted + 1);
      if !c.async {
        DrainQueue(id);
      }
      assert ch[..] == Enqueue(c, old(View()), d, id).s.ch;
    }

    /** Every rejection comes before any change. */
    method SubmitOne(d: Desc32) returns (accepted: bool)
      requires Valid()
      modifies this`nextBinding, this`mem, ch
      ensures Valid() && View() == Submit(c, old(View()), d).s && accepted == Admits(c, old(View()), d)
      ensures Proper(c, d) ==> AnsweredRightly(c, old(View()), d, accepted)
    {
      if Proper(c, d) {
        AdmitsRightly(c, View(), d);
      }
      if !SpansValid(c.sizes, d) || (BoundsExternal(c.cost.boundary) && d.external.None?) {
        return false;
      }
      var id := ChooseChannel(d);
      if id >= c.channels || (c.maxDepth > 0 && Outstanding(ch[id]) >= c.maxDepth) {
        return false;
      }
      Accept(d, id);
      accepted := true;
    }

    // ----- Setters -----

    /** Takes every channel's credit and ends the visit in progress. */
    method ForfeitAll()
      requires Valid()
      modifies this`cont, ch
      ensures Valid() && !cont
      ensures forall i :: 0 <= i < c.channels ==> ch[i] == old(ch[i]).(credit := 0)
    {
      for i := 0 to c.channels
        invariant cont == old(cont)
        invariant forall k :: 0 <= k < i ==> ch[k] == old(ch[k]).(credit := 0)
        invariant forall k :: i <= k < c.channels ==> ch[k] == old(ch[k])
      {
        ch[i] := ch[i].(credit := 0);
      }
      cont := false;
    }

    /** Service mode and weights; a vector of zeros means equal weights, and one with some zeros is refused. */
    method SetService(mode: nat, weights: seq<nat>) returns (ok: bool)
      requires Valid()
      modifies this`c, this`cont
      ensures Valid() && Changes(old(c), old(View()), ServiceMode(mode, weights), ok)
    {
      ChangeIsValid(c, View(), ServiceMode(mode, weights));
      if mode > 1 || |weights| != 8 {
        return false;
      }
      var allZero := true;
      for i := 0 to 8
        invariant allZero <==> forall k :: 0 <= k < i ==> weights[k] == 0
      {
        allZero := allZero && weights[i] == 0;
      }
      for i := 0 to 8
        invariant allZero || forall k :: 0 <= k < i ==> 0 < weights[k] < 256
      {
        if !allZero && (weights[i] == 0 || weights[i] >= 256) {
          return false;
        }
      }
      var next := c.weights;
      for i := 0 to 8
        invariant |next| == 8 && forall k :: 0 <= k < i ==> next[k] == if allZero then 1 else weights[k]
      {
        next := next[i := if allZero then 1 else weights[i]];
      }
      assert next == if allZero then seq(8, _ => 1) else weights;
      c := c.(service := if mode == 0 then Interleaved else WorkConserving, weights := next);
      cont := false;
      assert ch[..] == Adjusted(old(c), old(View()), ServiceMode(mode, weights)).ch;
      ok := true;
    }

    /** Idle policy; switching to reset takes the credit of idle channels. */
    method SetIdlePolicy(mode: nat) returns (ok: bool)
      requires Valid()
      modifies this`c, ch
      ensures Valid() && Changes(old(c), old(View()), IdleMode(mode), ok)
    {
      ChangeIsValid(c, View(), IdleMode(mode));
      if mode > 1 {
        return false;
      }
      c := c.(idle := if mode == 0 then IdleReset else RetainResidual);
      if mode == 0 {
        for i := 0 to c.channels
          invariant c == old(c).(idle := IdleReset)
          invariant forall k :: 0 <= k < i ==>
                      ch[k] == if old(ch[k]).queue == [] && old(ch[k]).active.None? then old(ch[k]).(credit := 0)
                               else old(ch[k])
          invariant forall k :: i <= k < c.channels ==> ch[k] == old(ch[k])
        {
          if ch[i].queue == [] && ch[i].active.None? {
            ch[i] := ch[i].(credit := 0);
          }
        }
      }
      assert ch[..] == Adjusted(old(c), old(View()), IdleMode(mode)).ch;
      ok := true;
    }

    /** Rounding of charges; a new value takes all credits. */
    method SetCostGranularity(mode: nat) returns (ok: bool)
      requires Valid()
      modifies this`c, this`cont, ch
      ensures Valid() && Changes(old(c), old(View()), CostGranularity(mode), ok)
    {
      ChangeIsValid(c, View(), CostGranularity(mode));
      if mode > 1 {
        return false;
      }
      var next := if mode == 0 then Exact else QuantumRounded;
      if c.cost.granularity != next {
        ForfeitAll();
      }
      c := c.(cost := c.cost.(granularity := next));
      assert ch[..] == Adjusted(old(c), old(View()), CostGranularity(mode)).ch;
      ok := true;
    }

    /** Cycles of an unsuccessful round; a new value takes all credits. */
    method SetRoundIssue(cycles: nat) returns (ok: bool)
      requires Valid()
      modifies this`c, this`cont, ch
      ensures Valid() && Changes(old(c), old(View()), RoundIssue(cycles), ok)
    {
      ChangeIsValid(c, View(), RoundIssue(cycles));
      if cycles > 1024 {
        return false;
      }
      if c.knobs.roundIssue != cycles {
        ForfeitAll();
      }
      c := c.(knobs := c.knobs.(roundIssue := cycles));
      assert ch[..] == Adjusted(old(c), old(View()), RoundIssue(cycles)).ch;
      ok := true;
    }

    /** Pricing of rounds; a new value takes all credits. */
    method SetRoundCostMode(mode: nat) returns (ok: bool)
      requires Valid()
      modifies this`c, this`cont, ch
      ensures Valid() && Changes(old(c), old(View()), RoundCostMode(mode), ok)
    {
      ChangeIsValid(c, View(), RoundCostMode(mode));
      if mode > 2 {
        return false;
      }
      var next := if mode == 0 then Fixed else if mode == 1 then PerChannel else PerVisitedChannel;
      if c.knobs.roundCost != next {
        ForfeitAll();
      }
      c := c.(knobs := c.knobs.(roundCost := next));
      assert ch[..] == Adjusted(old(c), old(View()), RoundCostMode(mode)).ch;
      ok := true;
    }

    /** Cycles of a selection. */
    method SetSelectIssue(cycles: nat) returns (ok: bool)
      requires Valid()
      modifies this`c
      ensures Valid() && Changes(old(c), old(View()), SelectIssue(cycles), ok)
    {
      ChangeIsValid(c, View(), SelectIssue(cycles));
      if cycles > 1024 {
        return false;
      }
      c := c.(knobs := c.knobs.(selectIssue := cycles));
      assert ch[..] == Adjusted(old(c), old(View()), SelectIssue(cycles)).ch;
      ok := true;
    }

    /** Queue positions examined together; zero counts as one. */
    method SetScanWidth(width: nat) returns (ok: bool)
      requires Valid()
      modifies this`c
      ensures Valid() && Changes(old(c), old(View()), ScanWidth(width), ok)
    {
      ChangeIsValid(c, View(), ScanWidth(width));
      if width > 8 {
        return false;
      }
      c := c.(knobs := c.knobs.(scanWidth := if width == 0 then 1 else width));
      assert ch[..] == Adjusted(old(c), old(View()), ScanWidth(width)).ch;
      ok := true;
    }

    /** The same for rounds and for selections; zero falls back to the common width. */
    method SetStageScanWidths(round: nat, select: nat) returns (ok: bool)
      requires Valid()
      modifies this`c
      ensures Valid() && Changes(old(c), old(View()), StageWidths(round, select), ok)
    {
      ChangeIsValid(c, View(), StageWidths(round, select));
      if round > 8 || select > 8 {
        return false;
      }
      c := c.(knobs := c.knobs.(roundWidth := round, selectWidth := select));
      assert ch[..] == Adjusted(old(c), old(View()), StageWidths(round, select)).ch;
      ok := true;
    }

    /** What a setter has done: refused, or installed the setting and cleared what the setting clears. */
    ghost predicate Changes(before: Config, s: State, x: Setting, ok: bool)
      requires ValidConfig(before) && ValidState(before, s)
      reads this, ch
    {
      ok == Accepts(x) && c == Changed(before, x) && View() == Adjusted(before, s, x)
    }

    /** Changes a deficit-round-robin setting, or refuses arguments out of range. */
    method Change(x: Setting) returns (ok: bool)
      requires Valid()
      modifies this`c, this`cont, ch
      ensures Valid() && Changes(old(c), old(View()), x, ok)
    {
      match x
      case ServiceMode(mode, weights) => ok := SetService(mode, weights);
      case IdleMode(mode) => ok := SetIdlePolicy(mode);
      case CostGranularity(mode) => ok := SetCostGranularity(mode);
      case RoundIssue(cycles) => ok := SetRoundIssue(cycles);
      case RoundCostMode(mode) => ok := SetRoundCostMode(mode);
      case SelectIssue(cycles) => ok := SetSelectIssue(cycles);
      case ScanWidth(width) => ok := SetScanWidth(width);
      case StageWidths(round, select) => ok := SetStageScanWidths(round, select);
    }

    /** Executes what a channel has queued and retires its active transfer. */
    method FlushChannel(i: nat)
      requires Valid()
      modifies this`mem, ch
      ensures Valid() && View() == Flush(c, old(View()), i).s
    {
      if i >= c.channels {
        return;
      }
      DrainQueue(i);
      if ch[i].active.Some? {
        ch[i] := ch[i].(active := None, completed := ch[i].completed + 1);
      }
      assert ch[..] == Flush(c, old(View()), i).s.ch;
    }
  }

  /** Policies without ranks rank every head zero. */
  lemma {:induction false} Unranked(c: Config, s: State, m: nat)
    requires ValidConfig(c) && ValidState(c, s) && m <= c.channels
    ensures c.policy != StrictPriority && c.policy != AgingPriority ==> BestRank(c, s, m) == 0
  {
    if m > 0 {
      Unranked(c, s, m - 1);
    }
  }

  /** No probe before this one is eligible. */
  ghost predicate StillFirst(c: Config, s: State, probe: nat)
    requires ValidConfig(c) && ValidState(c, s) && probe <= c.channels
  {
    FirstEligible(c, s, 0) == FirstEligible(c, s, probe)
  }

  /** The first eligible probe is this one, or a later one. */
  lemma FirstOrLater(c: Config, s: State, probe: nat)
    requires ValidConfig(c) && ValidState(c, s) && c.policy != DeficitRoundRobin && probe < c.channels
    requires StillFirst(c, s, probe)
    ensures if Eligible(c, s, At(c.channels, s.cursor, probe)) then ArbitrateRank(c, s).s == Serve(c, s, probe)
            else StillFirst(c, s, probe + 1)
    ensures probe + 1 == c.channels && !Eligible(c, s, At(c.channels, s.cursor, probe)) ==> ArbitrateRank(c, s).s == s
  {
  }

  /** The state at the moment a tick starts retiring. */
  function Clocked(s: State): State
  {
    s.(now := Wrap64(s.now + 1))
  }

  /** Transfers due on the first n channels. */
  function DueCount(c: Config, s: State, n: nat): nat
    requires ValidConfig(c) && ValidState(c, s) && n <= c.channels
  {
    if n == 0 then 0 else DueCount(c, s, n - 1) + if Due(s.now, s.ch[n - 1]) then 1 else 0
  }

  /** Where the retiring loop stands before a channel. */
  ghost predicate Retiring(c: Config, s: State, n: nat, now: State, completed: nat)
    requires ValidConfig(c) && ValidState(c, s)
  {
    n <= c.channels && now == RetireUpTo(c, s, n).s && completed == DueCount(c, s, n)
  }

  lemma NoneRetired(c: Config, s: State)
    requires ValidConfig(c) && ValidState(c, s)
    ensures Retiring(c, s, 0, s, 0)
  {
  }

  /** Retiring the first n channels leaves the rest alone, and the clock. */
  lemma {:induction false} RetireReaches(c: Config, s: State, n: nat, i: nat)
    requires ValidConfig(c) && ValidState(c, s) && n <= i < c.channels
    ensures RetireUpTo(c, s, n).s.ch[i] == s.ch[i] && RetireUpTo(c, s, n).s.now == s.now
  {
    if n > 0 {
      RetireReaches(c, s, n - 1, i);
    }
  }

  /** Rounds before the winning one, of those not yet made. */
  function Left(v: Verdict, round: nat): int
  {
    if v.Winner? then v.round - round else 0
  }

  function VerdictOf(c: Config, s: State): Verdict
    requires ValidConfig(c) && ValidState(c, s)
  {
    Arbitrate(Lanes(c, s), s.cursor, s.cont)
  }

  /** The winner is not among the visits made so far. */
  predicate Pending(v: Verdict, round: nat, probe: nat)
  {
    v.Winner? ==> v.round > round + 1 || (v.round == round + 1 && v.probe >= probe)
  }

  /** A pending winner is this visit exactly if this visit's head is affordable. */
  lemma VisitAgainstVerdict(c: Config, s: State, round: nat, probe: nat)
    requires ValidConfig(c) && ValidState(c, s) && probe < c.channels && c.policy == DeficitRoundRobin
    requires Pending(VerdictOf(c, s), round, probe)
    ensures var v := VerdictOf(c, s);
            var i := At(c.channels, s.cursor, probe);
            var affordable := s.ch[i].queue != [] && CreditAfter(c, s, i, round + 1) >= HeadCost(c, s.ch[i]);
            && (s.ch[i].queue != [] ==> v.Winner?)
            && (v.Winner? && v.probe == probe ==> s.ch[i].queue != [])
            && (affordable ==> v == Winner(probe, round + 1))
            && (!affordable ==> Pending(v, round, probe + 1))
  {
    LaneAgainstVerdict(Lanes(c, s), s.cursor, s.cont, round, probe);
  }

  /** The same on lanes alone. */
  lemma LaneAgainstVerdict(ls: seq<Lane>, cursor: nat, cont: bool, round: nat, probe: nat)
    requires ValidLanes(ls, cursor) && probe < |ls| && Pending(Arbitrate(ls, cursor, cont), round, probe)
    ensures var v, l := Arbitrate(ls, cursor, cont), LaneAt(ls, cursor, probe);
            var affordable := l.waiting && Visited(l, round + 1, Held(cont, probe)) >= l.cost;
            && (l.waiting ==> v.Winner?)
            && (v.Winner? && v.probe == probe ==> l.waiting)
            && (affordable ==> v == Winner(probe, round + 1))
            && (!affordable ==> Pending(v, round, probe + 1))
  {
    BestIsBest(ls, cursor, cont, |ls|);
    var l := LaneAt(ls, cursor, probe);
    if l.waiting {
      NeedIsThreshold(l, Held(cont, probe), round + 1);
    }
  }

  lemma VerdictAwards(c: Config, s: State, probe: nat, round: nat)
    requires ValidConfig(c) && ValidState(c, s) && c.policy == DeficitRoundRobin
    requires VerdictOf(c, s) == Winner(probe, round)
    ensures CanWin(c, s, probe, round) && ArbitrateDrr(c, s).s == Award(c, s, probe, round)
  {
    WinnerCanPay(c, s);
  }

  lemma VisitOutcome(c: Config, s: State, round: nat, probe: nat)
    requires ValidConfig(c) && ValidState(c, s) && probe < c.channels && c.policy == DeficitRoundRobin
    requires Pending(VerdictOf(c, s), round, probe)
    ensures var v := VerdictOf(c, s);
            var i := At(c.channels, s.cursor, probe);
            var waiting := s.ch[i].queue != [];
            && (waiting ==> v.Winner?)
            && (v.Winner? && v.probe == probe ==> waiting)
            && (if waiting && CreditAfter(c, s, i, round + 1) >= HeadCost(c, s.ch[i])
                then CanWin(c, s, probe, round + 1) && ArbitrateDrr(c, s).s == Award(c, s, probe, round + 1)
                else Pending(v, round, probe + 1))
  {
    VisitAgainstVerdict(c, s, round, probe);
    var i := At(c.channels, s.cursor, probe);
    if s.ch[i].queue != [] && CreditAfter(c, s, i, round + 1) >= HeadCost(c, s.ch[i]) {
      VerdictAwards(c, s, probe, round + 1);
    }
  }
}
