/**
 Submission told in the fields of the configuration, the channels and the descriptor alone: which channel a transfer
 is bound to, when it is accepted, and what the engine holds afterwards.
 */
module SubmitInFields {
  import opened Words
  import opened Cursors
  import opened Descriptor
  import opened ServiceCost
  import opened CopiesInFields
  import opened DmaEngine
  import opened EngineInFields

  // ----- What the binding policies compare -----

  function Sizes(q: seq<Entry>): seq<nat>
  {
    seq(|q|, k requires 0 <= k < |q| => q[k].d.totalBytes)
  }

  function Times(c: CostConfig, q: seq<Entry>): seq<nat>
    requires ValidCost(c)
  {
    seq(|q|, k requires 0 <= k < |q| => TransferCycles(c, q[k].d))
  }

  function Bytes(ch: Channel): nat
  {
    (Total(Sizes(ch.queue)) + if ch.active.Some? then ch.active.value.d.totalBytes else 0) % U64
  }

  function Cycles(c: CostConfig, now: Word64, ch: Channel): nat
    requires ValidCost(c)
  {
    var left := if ch.active.Some? then Max(0, ch.active.value.completesAt - now) else 0;
    (Total(Times(c, ch.queue)) + left) % U64
  }

  /** Transfers, bytes, or cycles a channel still has before it: its queue and what is active. */
  function Burden(c: Config, s: State, i: nat): nat
    requires ValidConfig(c) && i < |s.ch|
  {
    match c.binding
    case LeastBytes => Bytes(s.ch[i])
    case LeastProjectedCycles => Cycles(c.cost, s.now, s.ch[i])
    case _ => |s.ch[i].queue| + if s.ch[i].active.Some? then 1 else 0
  }

  /** A burden this large is never chosen. */
  function Unbearable(b: Binding): nat
  {
    match b
    case LeastOutstanding => 0xFFFF_FFFF
    case _ => 0xFFFF_FFFF_FFFF_FFFF
  }

  /** Channel i has the least burden, and the turn that follows the last binding decides between equals. */
  ghost predicate LeastBurdened(c: Config, s: State, i: nat)
    requires ValidConfig(c) && ValidState(c, s)
  {
    && i < c.channels && Burden(c, s, i) < Unbearable(c.binding)
    && forall j: nat :: j < c.channels && j != i ==>
         || Burden(c, s, i) < Burden(c, s, j)
         || (Burden(c, s, i) == Burden(c, s, j) && Nearer(s.nextBinding, i, j))
  }

  /** The channel a submission goes to. A least-burden policy that finds no bearable channel keeps the caller's. */
  ghost predicate BindsTo(c: Config, s: State, d: Desc32, i: nat)
    requires ValidConfig(c) && ValidState(c, s)
  {
    match c.binding
    case Explicit => i == d.channel
    case Rotating => i == s.nextBinding
    case _ =>
      LeastBurdened(c, s, i)
      || (i == d.channel && forall j: nat :: j < c.channels ==> Burden(c, s, j) >= Unbearable(c.binding))
  }

  lemma {:induction false} TotalBytes(q: seq<Entry>)
    ensures QueuedBytes(q) == Total(Sizes(q))
  {
    if q != [] {
      TotalBytes(q[1..]);
      TotalFromFront(Sizes(q));
      assert Sizes(q)[1..] == Sizes(q[1..]);
    }
  }

  lemma {:induction false} TotalCycles(c: CostConfig, q: seq<Entry>)
    requires ValidCost(c)
    ensures QueuedCycles(c, q) == Total(Times(c, q))
  {
    if q != [] {
      TotalCycles(c, q[1..]);
      TotalFromFront(Times(c, q));
      assert Times(c, q)[1..] == Times(c, q[1..]);
    }
  }

  lemma {:induction false} TotalFromFront(ns: seq<nat>)
    requires ns != []
    ensures Total(ns) == ns[0] + Total(ns[1..])
  {
    var n := |ns| - 1;
    if n > 0 {
      TotalFromFront(ns[..n]);
      assert ns[..n][1..] == ns[1..][..n - 1];
    }
  }

  lemma LoadIsBurden(c: Config, s: State, i: nat)
    requires ValidConfig(c) && ValidState(c, s) && i < c.channels
    requires c.binding != Explicit && c.binding != Rotating
    ensures Loads(c, s)[i] == Burden(c, s, i)
  {
    BytesAgree(s.ch[i]);
    CyclesAgree(c.cost, s.now, s.ch[i]);
  }

  lemma BytesAgree(ch: Channel)
    ensures AssignedBytes(ch) == Bytes(ch)
  {
    TotalBytes(ch.queue);
  }

  lemma CyclesAgree(c: CostConfig, now: Word64, ch: Channel)
    requires ValidCost(c)
    ensures ProjectedCycles(c, now, ch) == Cycles(c, now, ch)
  {
    TotalCycles(c, ch.queue);
  }

  /** The search sees a channel's burden at its turn. */
  lemma SeenBurden(c: Config, s: State, j: nat)
    requires ValidConfig(c) && ValidState(c, s) && c.binding != Explicit && c.binding != Rotating && j < c.channels
    ensures ValueAt(Loads(c, s), s.nextBinding, Dist(c.channels, s.nextBinding, j)) == Burden(c, s, j)
  {
    LoadIsBurden(c, s, j);
  }

  lemma FoundIsLeast(c: Config, s: State, p: nat)
    requires ValidConfig(c) && ValidState(c, s) && c.binding != Explicit && c.binding != Rotating && p < c.channels
    requires FirstLeast(Loads(c, s), s.nextBinding, LoadLimit(c.binding), c.channels) == Some(p)
    ensures LeastBurdened(c, s, At(c.channels, s.nextBinding, p))
  {
    var i := At(c.channels, s.nextBinding, p);
    FirstLeastIsFirst(Loads(c, s), s.nextBinding, LoadLimit(c.binding), c.channels);
    SeenBurden(c, s, i);
    forall j: nat | j < c.channels && j != i
      ensures Burden(c, s, i) < Burden(c, s, j)
           || (Burden(c, s, i) == Burden(c, s, j) && Nearer(s.nextBinding, i, j))
    {
      NearerIsEarlier(c.channels, s.nextBinding, i, j);
      SeenBurden(c, s, j);
    }
  }

  lemma NoneBearable(c: Config, s: State)
    requires ValidConfig(c) && ValidState(c, s) && c.binding != Explicit && c.binding != Rotating
    requires FirstLeast(Loads(c, s), s.nextBinding, LoadLimit(c.binding), c.channels).None?
    ensures forall j: nat :: j < c.channels ==> Burden(c, s, j) >= Unbearable(c.binding)
  {
    FirstLeastIsFirst(Loads(c, s), s.nextBinding, LoadLimit(c.binding), c.channels);
    forall j: nat | j < c.channels
      ensures Burden(c, s, j) >= Unbearable(c.binding)
    {
      SeenBurden(c, s, j);
    }
  }

  /** The search for the least load finds the least burdened channel. */
  lemma ChoiceIsLeast(c: Config, s: State, d: Desc32)
    requires ValidConfig(c) && ValidState(c, s) && c.binding != Explicit && c.binding != Rotating
    ensures BindsTo(c, s, d, BoundChannel(c, s, d))
  {
    var r := FirstLeast(Loads(c, s), s.nextBinding, LoadLimit(c.binding), c.channels);
    if r.Some? {
      FoundIsLeast(c, s, r.value);
    } else {
      NoneBearable(c, s);
    }
  }

  lemma Binding(c: Config, s: State, d: Desc32)
    requires ValidConfig(c) && ValidState(c, s)
    ensures BindsTo(c, s, d, BoundChannel(c, s, d))
  {
    if c.binding != Explicit && c.binding != Rotating {
      ChoiceIsLeast(c, s, d);
    }
  }

  /** The rules name one channel. */
  lemma OneBinding(c: Config, s: State, d: Desc32, i: nat, j: nat)
    requires ValidConfig(c) && ValidState(c, s) && BindsTo(c, s, d, i) && BindsTo(c, s, d, j)
    ensures i == j
  {
  }

  // ----- Acceptance and its effects -----

  /** Modes that bound the bus address need one. */
  predicate NeedsAddress(b: Boundary)
  {
    b in {External4K, Both4K, ExternalAddress, BothAddress}
  }

  /** The descriptor's bytes exist, a needed bus address is given, and the channel exists and has room. */
  ghost predicate MayJoin(c: Config, s: State, d: Desc32, i: nat)
    requires ValidConfig(c) && ValidState(c, s)
  {
    && Acceptable(c.sizes, d) && (NeedsAddress(c.cost.boundary) ==> d.external.Some?)
    && i < c.channels
    && (c.maxDepth == 0 || |s.ch[i].queue| + (if s.ch[i].active.Some? then 1 else 0) < c.maxDepth)
  }

  /** The descriptor waits last in its queue, or, without asynchronous mode, it and all before it have been executed. */
  ghost predicate Joined(c: Config, s: State, d: Desc32, i: nat, r: Outcome)
    requires ValidConfig(c) && ValidState(c, s) && i < c.channels
  {
    var before, q := s.ch[i], s.ch[i].queue + [Entry(d, s.epoch, s.epoch, s.now, s.now)];
    && |r.s.ch| == c.channels && (forall j :: 0 <= j < c.channels && j != i ==> r.s.ch[j] == s.ch[j])
    && r.s.ch[i].active == before.active && r.s.ch[i].credit == before.credit
    && r.s.ch[i].submitted == before.submitted + 1
    && r.s.now == s.now && r.s.cursor == s.cursor && r.s.cont == s.cont && r.s.epoch == s.epoch
    && r.s.nextBinding == (if c.binding == Explicit then s.nextBinding else (i + 1) % c.channels)
    && if c.async then
         r.s.ch[i].queue == q && r.s.ch[i].completed == before.completed && r.started == [] && r.s.mem == s.mem
       else
         && r.s.ch[i].queue == [] && r.s.ch[i].completed == before.completed + |q|
         && |r.started| == |q| && forall k :: 0 <= k < |q| ==> r.started[k] == Start(i, q[k].d)
  }

  /** Region sizes are 32-bit, and the descriptor is as a constructor left it. */
  ghost predicate Proper(c: Config, d: Desc32)
  {
    Built(d) && forall k :: 0 <= k < |c.sizes| ==> c.sizes[k] < U32
  }

  /**
   A built descriptor goes to the channel the binding policy names, is accepted exactly if that channel may be
   joined, and then joins it; otherwise nothing changes.
   */
  lemma Submission(c: Config, s: State, d: Desc32) returns (i: nat)
    requires ValidConfig(c) && ValidState(c, s) && Proper(c, d)
    ensures BindsTo(c, s, d, i)
    ensures Admits(c, s, d) <==> MayJoin(c, s, d, i)
    ensures if MayJoin(c, s, d, i) then Joined(c, s, d, i, Submit(c, s, d)) else Submit(c, s, d) == Outcome(s, [])
  {
    i := BoundChannel(c, s, d);
    Binding(c, s, d);
    AdmissionInFields(c.sizes, d);
    if i < c.channels {
      NextSlotIsModulo(c, i);
    }
  }

  /** Accepted or not, as the channel named by the binding policy may be joined or not. */
  ghost predicate AnsweredRightly(c: Config, s: State, d: Desc32, accepted: bool)
    requires ValidConfig(c) && ValidState(c, s)
  {
    forall i: nat :: BindsTo(c, s, d, i) ==> (accepted <==> MayJoin(c, s, d, i))
  }

  lemma AdmitsRightly(c: Config, s: State, d: Desc32)
    requires ValidConfig(c) && ValidState(c, s) && Proper(c, d)
    ensures AnsweredRightly(c, s, d, Admits(c, s, d))
  {
    var j := Submission(c, s, d);
    forall i: nat | BindsTo(c, s, d, i)
      ensures i == j
    {
      OneBinding(c, s, d, i, j);
    }
  }
}
