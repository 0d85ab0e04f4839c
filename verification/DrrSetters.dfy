/** The setters of deficit round robin on a live engine: which changes are accepted and what each does to credits. */
module DrrSetters {
  import opened ServiceCost
  import opened DmaEngine

  /** The setters and their unchecked arguments. */
  datatype Setting =
    | ServiceMode(mode: nat, weights: seq<nat>)
    | IdleMode(mode: nat)
    | CostGranularity(mode: nat)
    | RoundIssue(cycles: nat)
    | RoundCostMode(mode: nat)
    | SelectIssue(cycles: nat)
    | ScanWidth(width: nat)
    | StageWidths(round: nat, select: nat)

  predicate AllZero(weights: seq<nat>) { forall i :: 0 <= i < |weights| ==> weights[i] == 0 }

  predicate AllPositive(weights: seq<nat>) { forall i :: 0 <= i < |weights| ==> 0 < weights[i] < 256 }

  /** Arguments in range. A weight vector is all zero, meaning equal weights, or positive throughout. */
  predicate Accepts(x: Setting)
  {
    match x
    case ServiceMode(mode, weights) => mode <= 1 && |weights| == 8 && (AllZero(weights) || AllPositive(weights))
    case IdleMode(mode) => mode <= 1
    case CostGranularity(mode) => mode <= 1
    case RoundIssue(cycles) => cycles <= 1024
    case RoundCostMode(mode) => mode <= 2
    case SelectIssue(cycles) => cycles <= 1024
    case ScanWidth(width) => width <= 8
    case StageWidths(round, select) => round <= 8 && select <= 8
  }

  function ServiceOf(mode: nat): Service { if mode == 0 then Interleaved else WorkConserving }
  function IdleOf(mode: nat): IdlePolicy { if mode == 0 then IdleReset else RetainResidual }
  function GranularityOf(mode: nat): Granularity { if mode == 0 then Exact else QuantumRounded }
  function RoundCostOf(mode: nat): RoundCost
  {
    if mode == 0 then Fixed else if mode == 1 then PerChannel else PerVisitedChannel
  }

  /** The configuration after a change; a refused change leaves it alone. */
  function Changed(c: Config, x: Setting): Config
  {
    if !Accepts(x) then c
    else
      match x
      case ServiceMode(mode, weights) =>
        c.(service := ServiceOf(mode), weights := if AllZero(weights) then seq(8, _ => 1) else weights)
      case IdleMode(mode) => c.(idle := IdleOf(mode))
      case CostGranularity(mode) => c.(cost := c.cost.(granularity := GranularityOf(mode)))
      case RoundIssue(cycles) => c.(knobs := c.knobs.(roundIssue := cycles))
      case RoundCostMode(mode) => c.(knobs := c.knobs.(roundCost := RoundCostOf(mode)))
      case SelectIssue(cycles) => c.(knobs := c.knobs.(selectIssue := cycles))
      case ScanWidth(width) => c.(knobs := c.knobs.(scanWidth := if width > 0 then width else 1))
      case StageWidths(round, select) => c.(knobs := c.knobs.(roundWidth := round, selectWidth := select))
  }

  /** Whether a change clears every credit: new charging or pricing, but not a repeated value. */
  predicate ClearsCredits(c: Config, x: Setting)
  {
    Accepts(x) &&
    match x
    case CostGranularity(mode) => c.cost.granularity != GranularityOf(mode)
    case RoundIssue(cycles) => c.knobs.roundIssue != cycles
    case RoundCostMode(mode) => c.knobs.roundCost != RoundCostOf(mode)
    case _ => false
  }

  /** Whether a change ends the visit in progress. */
  predicate EndsVisit(c: Config, x: Setting)
  {
    ClearsCredits(c, x) || (Accepts(x) && x.ServiceMode?)
  }

  /** Whether a change clears the credit of one channel: all, or idle ones when idle reset is switched on. */
  predicate Clears(c: Config, x: Setting, ch: Channel)
  {
    ClearsCredits(c, x) || (Accepts(x) && x.IdleMode? && x.mode == 0 && ch.queue == [] && ch.active.None?)
  }

  function Adjusted(c: Config, s: State, x: Setting): (r: State)
    requires ValidState(c, s)
    ensures ValidState(c, r)
    ensures forall i :: 0 <= i < c.channels ==>
              r.ch[i] == s.ch[i].(credit := if Clears(c, x, s.ch[i]) then 0 else s.ch[i].credit)
  {
    s.(ch := seq(c.channels, i requires 0 <= i < c.channels =>
               s.ch[i].(credit := if Clears(c, x, s.ch[i]) then 0 else s.ch[i].credit)),
       cont := s.cont && !EndsVisit(c, x))
  }

  /** Every change, accepted or not, leaves a valid engine. */
  lemma ChangeIsValid(c: Config, s: State, x: Setting)
    requires ValidConfig(c) && ValidState(c, s)
    ensures ValidConfig(Changed(c, x)) && ValidState(Changed(c, x), Adjusted(c, s, x))
    ensures !Accepts(x) ==> Changed(c, x) == c && Adjusted(c, s, x) == s
  {
    if !Accepts(x) {
      assert Adjusted(c, s, x).ch == s.ch;
    }
  }
}
