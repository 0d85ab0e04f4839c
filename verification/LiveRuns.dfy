/**
 Runs of a live system: operations of the engine, changes of its settings, and other accesses to the memory it shares.
 */
module LiveRuns {
  import opened DmaEngine
  import opened DmaRuns
  import opened DrrSetters
  import Sram

  /** The engine with the settings in force. */
  datatype System = System(c: Config, s: State)

  datatype SystemEvent =
    | Operated(e: Event)
    | Configured(x: Setting)
    | Accessed(region: nat, access: Sram.Event)

  ghost predicate ValidSystem(v: System) { ValidConfig(v.c) && ValidState(v.c, v.s) }

  /** What no setter touches. */
  predicate SameEngine(c: Config, c': Config)
  {
    c'.channels == c.channels && c'.maxDepth == c.maxDepth && c'.bus == c.bus && c'.policy == c.policy
  }

  function After(v: System, e: SystemEvent): (r: System)
    requires ValidSystem(v)
    ensures ValidSystem(r) && SameEngine(v.c, r.c)
  {
    match e
    case Operated(e) => v.(s := Step(v.c, v.s, e).s)
    case Configured(x) => ChangeIsValid(v.c, v.s, x); System(Changed(v.c, x), Adjusted(v.c, v.s, x))
    case Accessed(region, access) =>
      if region >= |v.s.mem| then v
      else v.(s := v.s.(mem := v.s.mem[region := Sram.Step(v.s.mem[region], access)]))
  }

  /** What an event takes from a queue to be executed. */
  function StartedBy(v: System, e: SystemEvent): seq<Start>
    requires ValidSystem(v)
  {
    if e.Operated? then Step(v.c, v.s, e.e).started else []
  }

  /** An engine that has just been initialised. */
  function Fresh(c: Config, mem: seq<BankMeter>): (v: System)
    requires ValidConfig(c)
    ensures ValidSystem(v)
  {
    System(c, Init(c, mem))
  }

  function Live(v: System, es: seq<SystemEvent>): (r: System)
    requires ValidSystem(v)
    ensures ValidSystem(r) && SameEngine(v.c, r.c)
  {
    if es == [] then v else After(Live(v, es[..|es| - 1]), es[|es| - 1])
  }

  function LiveStarted(v: System, es: seq<SystemEvent>): seq<Start>
    requires ValidSystem(v)
  {
    if es == [] then []
    else LiveStarted(v, es[..|es| - 1]) + StartedBy(Live(v, es[..|es| - 1]), es[|es| - 1])
  }
}
