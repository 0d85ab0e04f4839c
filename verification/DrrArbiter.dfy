/**
 Closed form of one deficit-round-robin arbitration over the shared bus.

 The engine keeps scanning all queues from the cursor, topping up credits, until one head is
 affordable. Here the same decision is a minimum over "visits needed", which the engine's loop is
 proved to compute.
 */
module DrrArbiter {
  import opened Words
  import opened Cursors

  /** What arbitration sees of one channel. */
  datatype Lane = Lane(waiting: bool, cost: nat, credit: nat, grant: nat)

  /** The arbitration ends with a probe of some round, or nobody waits. */
  datatype Verdict = Nobody | Winner(probe: nat, round: nat)

  ghost predicate ValidLane(l: Lane)
  {
    l.cost <= U64_MAX && l.credit <= U64_MAX && 0 < l.grant <= U64_MAX
  }

  ghost predicate ValidLanes(ls: seq<Lane>, cursor: nat)
  {
    cursor < |ls| && forall i :: 0 <= i < |ls| ==> ValidLane(ls[i])
  }

  /** Whether the visit of this probe continues the previous one, so that its first visit grants nothing. */
  predicate Held(cont: bool, probe: nat) { cont && probe == 0 }

  /** Credit of a waiting lane after a number of grants, stopping at the 64-bit maximum. */
  function Topped(l: Lane, grants: nat): nat
  {
    if l.credit + grants * l.grant > U64_MAX then U64_MAX else l.credit + grants * l.grant
  }

  /** Credit of a waiting lane after a number of visits. */
  function Visited(l: Lane, visits: nat, held: bool): nat
  {
    Topped(l, if held && visits > 0 then visits - 1 else visits)
  }

  /** The visit in which the head of a waiting lane becomes affordable. */
  function Need(l: Lane, held: bool): (visits: nat)
    requires l.grant > 0
    ensures visits > 0
  {
    if l.cost <= l.credit then 1
    else
      CeilDivPositive(l.cost - l.credit, l.grant);
      (if held then 1 else 0) + CeilDiv(l.cost - l.credit, l.grant)
  }

  lemma CeilDivPositive(value: nat, divisor: nat)
    requires value > 0 && divisor > 0
    ensures CeilDiv(value, divisor) > 0
  {
    CeilDivLeast(value, divisor, 0);
  }

  /** A head is affordable from visit Need on and not before, saturation included. */
  lemma NeedIsThreshold(l: Lane, held: bool, visits: nat)
    requires ValidLane(l) && visits > 0
    ensures Visited(l, visits, held) >= l.cost <==> visits >= Need(l, held)
  {
    var grants := if held then visits - 1 else visits;
    if l.cost > l.credit {
      CeilDivLeast(l.cost - l.credit, l.grant, grants);
    }
  }

  lemma ToppedStep(l: Lane, grants: nat)
    requires ValidLane(l)
    ensures Topped(l, 0) == l.credit
    ensures SatAdd(Topped(l, grants), l.grant) == Topped(l, grants + 1)
  {
    assert (grants + 1) * l.grant == grants * l.grant + l.grant;
  }

  function LaneAt(ls: seq<Lane>, cursor: nat, probe: nat): Lane
    requires cursor < |ls| && probe < |ls|
  {
    ls[At(|ls|, cursor, probe)]
  }

  /** The best of the first m probes: fewest visits needed, earliest probe among equals. */
  function Best(ls: seq<Lane>, cursor: nat, cont: bool, m: nat): (v: Verdict)
    requires cursor < |ls| && m <= |ls|
    requires forall i :: 0 <= i < |ls| ==> ls[i].grant > 0
    ensures v.Winner? ==> v.probe < m && v.round > 0
  {
    if m == 0 then Nobody
    else
      var v := Best(ls, cursor, cont, m - 1);
      var l := LaneAt(ls, cursor, m - 1);
      if !l.waiting then v
      else if v.Winner? && v.round <= Need(l, Held(cont, m - 1)) then v
      else Winner(m - 1, Need(l, Held(cont, m - 1)))
  }

  /** What it means to be the best of the first m probes. */
  ghost predicate IsBest(ls: seq<Lane>, cursor: nat, cont: bool, m: nat, v: Verdict)
    requires cursor < |ls| && m <= |ls|
    requires forall i :: 0 <= i < |ls| ==> ls[i].grant > 0
  {
    match v
    case Nobody => forall p :: 0 <= p < m ==> !LaneAt(ls, cursor, p).waiting
    case Winner(probe, round) =>
      && probe < m && LaneAt(ls, cursor, probe).waiting
      && round == Need(LaneAt(ls, cursor, probe), Held(cont, probe))
      && (forall p :: 0 <= p < m && LaneAt(ls, cursor, p).waiting ==>
            round <= Need(LaneAt(ls, cursor, p), Held(cont, p)))
      && (forall p :: 0 <= p < probe && LaneAt(ls, cursor, p).waiting ==>
            round < Need(LaneAt(ls, cursor, p), Held(cont, p)))
  }

  lemma {:induction false} BestIsBest(ls: seq<Lane>, cursor: nat, cont: bool, m: nat)
    requires cursor < |ls| && m <= |ls|
    requires forall i :: 0 <= i < |ls| ==> ls[i].grant > 0
    ensures IsBest(ls, cursor, cont, m, Best(ls, cursor, cont, m))
  {
    if m > 0 {
      BestIsBest(ls, cursor, cont, m - 1);
    }
  }

  function Arbitrate(ls: seq<Lane>, cursor: nat, cont: bool): (v: Verdict)
    requires cursor < |ls|
    requires forall i :: 0 <= i < |ls| ==> ls[i].grant > 0
    ensures v.Winner? ==> v.probe < |ls| && v.round > 0
  {
    Best(ls, cursor, cont, |ls|)
  }

  /** The verdict is the only one that meets the description. */
  lemma VerdictUnique(ls: seq<Lane>, cursor: nat, cont: bool, v: Verdict)
    requires ValidLanes(ls, cursor)
    ensures IsBest(ls, cursor, cont, |ls|, v) <==> v == Arbitrate(ls, cursor, cont)
  {
    BestIsBest(ls, cursor, cont, |ls|);
    var a := Arbitrate(ls, cursor, cont);
    if IsBest(ls, cursor, cont, |ls|, v) && v.Winner? {
      assert LaneAt(ls, cursor, v.probe).waiting;
      assert a.probe <= v.probe;
    }
  }

  /**
   A lane whose credit starts below its limit is never topped up past it: no visit up to the affordable one
   saturates, and before the affordable one the credit stays below the charge.
   */
  lemma VisitedBelow(l: Lane, held: bool, visits: nat, m: nat)
    requires ValidLane(l) && l.cost <= m && m + l.grant <= U64_MAX
    requires l.credit < m + if held then l.grant else 0
    requires visits <= Need(l, held)
    ensures Visited(l, visits, held) == l.credit + (if held && visits > 0 then visits - 1 else visits) * l.grant
    ensures Visited(l, visits, held) < m + l.grant
    ensures 0 < visits < Need(l, held) ==> Visited(l, visits, held) < l.cost
  {
    if visits > 0 {
      NeedIsThreshold(l, held, visits);
    }
    if visits >= 2 {
      NeedIsThreshold(l, held, visits - 1);
      ToppedStep(l, if held then visits - 2 else visits - 1);
    }
  }
}
