/** Runs of the descriptor engine: any interleaving of submissions, ticks and flushes. */
module DmaRuns {
  import opened Words
  import opened Cursors
  import opened DrrArbiter
  import opened DmaEngine

  datatype Event = Submitted(d: Desc32) | Ticked | Flushed(channel: nat)

  function Step(c: Config, s: State, e: Event): (r: Outcome)
    requires ValidConfig(c) && ValidState(c, s)
    ensures ValidState(c, r.s)
  {
    match e
    case Submitted(d) => Submit(c, s, d)
    case Ticked => Tick(c, s)
    case Flushed(i) => Flush(c, s, i)
  }

  function Run(c: Config, s: State, es: seq<Event>): (r: State)
    requires ValidConfig(c) && ValidState(c, s)
    ensures ValidState(c, r)
  {
    if es == [] then s else Step(c, Run(c, s, es[..|es| - 1]), es[|es| - 1]).s
  }

  /** Everything started during a run, in order. */
  function Started(c: Config, s: State, es: seq<Event>): seq<Start>
    requires ValidConfig(c) && ValidState(c, s)
  {
    if es == [] then []
    else Started(c, s, es[..|es| - 1]) + Step(c, Run(c, s, es[..|es| - 1]), es[|es| - 1]).started
  }

  /** The state a tick's arbitration sees on a shared bus: clock advanced, due transfers retired. */
  function AfterRetire(c: Config, s: State): (r: State)
    requires ValidConfig(c) && ValidState(c, s)
    ensures ValidState(c, r)
  {
    Retire(c, s).s
  }

  /** Retiring on a shared bus changes the clock and the active slots only. */
  lemma RetireShared(c: Config, s: State)
    requires ValidConfig(c) && ValidState(c, s) && c.bus == SharedSerial
    ensures var r := Retire(c, s);
            && r.started == []
            && r.s == s.(now := Wrap64(s.now + 1), ch := r.s.ch)
            && forall i :: 0 <= i < c.channels ==> r.s.ch[i] == Retired(Wrap64(s.now + 1), s.ch[i])
  {
    RetireSharedUpTo(c, s.(now := Wrap64(s.now + 1)), c.channels);
  }

  /** What arbitration reads is as it was before the tick. */
  lemma RetireSame(c: Config, s: State, i: nat)
    requires ValidConfig(c) && ValidState(c, s) && c.bus == SharedSerial && i < c.channels
    ensures var r := AfterRetire(c, s);
            && r.cursor == s.cursor && r.cont == s.cont && r.contCh == s.contCh && r.epoch == s.epoch
            && r.ch[i].queue == s.ch[i].queue && r.ch[i].credit == s.ch[i].credit
            && Retire(c, s).started == []
  {
    RetireShared(c, s);
  }

  /** On a shared bus a tick is its arbitration, after the clock and the active slots have moved on. */
  lemma TickArbitrates(c: Config, s: State)
    requires ValidConfig(c) && ValidState(c, s) && c.bus == SharedSerial && c.policy == DeficitRoundRobin
    ensures var r := AfterRetire(c, s);
            Tick(c, s) == if BusFree(r) then ArbitrateDrr(c, r) else Outcome(r, [])
  {
    RetireShared(c, s);
    var a := Arbitration(c, AfterRetire(c, s));
    assert [] + a.started == a.started;
  }

  lemma {:induction false} RetireSharedUpTo(c: Config, s: State, n: nat)
    requires ValidConfig(c) && ValidState(c, s) && c.bus == SharedSerial && n <= c.channels
    ensures var r := RetireUpTo(c, s, n);
            && r.started == []
            && r.s == s.(ch := r.s.ch)
            && (forall i :: 0 <= i < n ==> r.s.ch[i] == Retired(s.now, s.ch[i]))
            && (forall i :: n <= i < c.channels ==> r.s.ch[i] == s.ch[i])
  {
    if n > 0 {
      RetireSharedUpTo(c, s, n - 1);
    }
  }

  /** What winning an arbitration does to each channel. */
  lemma AwardChannels(c: Config, s: State, probe: nat, round: nat)
    requires ValidConfig(c) && ValidState(c, s) && probe < c.channels && round > 0
    requires c.policy == DeficitRoundRobin
    requires CanWin(c, s, probe, round)
    ensures var s' := Award(c, s, probe, round);
            var w := At(c.channels, s.cursor, probe);
            && (forall i :: 0 <= i < c.channels && i != w ==>
                  s'.ch[i] == s.ch[i].(credit := CreditAfter(c, s, i, Visits(c.channels, s.cursor, probe, round, i))))
            && s'.ch[w].queue == s.ch[w].queue[1..]
            && s'.ch[w].submitted == s.ch[w].submitted && s'.ch[w].completed == s.ch[w].completed
            && s'.ch[w].credit == Residue(c, CreditAfter(c, s, w, round), HeadCost(c, s.ch[w]), s.ch[w].queue[1..])
            && s'.cont == Continues(c, s'.ch[w].credit, s'.ch[w].queue)
            && s'.cursor == if s'.cont then w else NextSlot(c, w)
  {
  }

  /** When the awarded transfer completes, and what the clock and the meters are then. */
  lemma AwardStarts(c: Config, s: State, probe: nat, round: nat)
    requires ValidConfig(c) && ValidState(c, s) && CanWin(c, s, probe, round)
    ensures var s' := Award(c, s, probe, round);
            var w := At(c.channels, s.cursor, probe);
            var d := s.ch[w].queue[0].d;
            && s'.now == SatAdd(s.now, ArbitrationDelay(c, probe, round))
            && s'.mem == MetersAfter(c, s.mem, d)
            && s'.ch[w].active == Some(Active(d, CompletesAt(c, s'.now, s.mem, d)))
  {
  }

  /** What serving a ranked head does to each channel. */
  lemma ServeChannels(c: Config, s: State, probe: nat, i: nat)
    requires ValidConfig(c) && ValidState(c, s) && c.policy != DeficitRoundRobin && probe < c.channels
    requires s.ch[At(c.channels, s.cursor, probe)].queue != [] && i < c.channels
    ensures var s' := Serve(c, s, probe);
            var w := At(c.channels, s.cursor, probe);
            && s'.cursor == NextSlot(c, w) && s'.epoch == Wrap64(s.epoch + 1)
            && (i != w ==> s'.ch[i] == s.ch[i])
            && s'.ch[w].queue == Promote(s.ch[w].queue[1..], s'.epoch, s.now)
  {
  }

  /** Whether a tick in this state ends with a deficit-round-robin winner. */
  predicate DrrWins(c: Config, s: State)
    requires ValidConfig(c) && ValidState(c, s)
  {
    && c.bus == SharedSerial && c.policy == DeficitRoundRobin
    && BusFree(AfterRetire(c, s)) && DrrVerdict(c, s).Winner?
  }

  function DrrVerdict(c: Config, s: State): Verdict
    requires ValidConfig(c) && ValidState(c, s)
  {
    Arbitrate(Lanes(c, AfterRetire(c, s)), s.cursor, s.cont)
  }

  /** The channel a winning tick serves. */
  function DrrWinner(c: Config, s: State): (w: nat)
    requires ValidConfig(c) && ValidState(c, s) && DrrWins(c, s)
    ensures w < c.channels
  {
    At(c.channels, s.cursor, DrrVerdict(c, s).probe)
  }
}
