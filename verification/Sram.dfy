/**
 Banked SRAM with a per-bank word budget that refills once per window.
 */
module Sram {
  import opened Words

  datatype Bank = Bank(available: nat, lastRefill: nat, readsServed: nat, writesServed: nat,
                       readStalls: nat, writeStalls: nat, used: nat)

  datatype Metering = SizeOnly | AddressSpan

  datatype Geometry = Geometry(banks: nat, width: nat, grant: nat, penalty: nat, window: nat)

  datatype Meter = Meter(g: Geometry, bank: seq<Bank>, cycle: nat, stallCycles: nat,
                         modeling: bool, metering: Metering)

  ghost predicate ValidGeometry(g: Geometry)
  {
    g.banks > 0 && g.width > 0
  }

  ghost predicate ValidMeter(m: Meter)
  {
    ValidGeometry(m.g) && |m.bank| == m.g.banks
  }

  /** The refill window in force; zero counts as one. */
  function Window(g: Geometry): (w: nat)
    ensures w > 0
  {
    if g.window > 0 then g.window else 1
  }

  function Fresh(g: Geometry): Meter
  {
    Meter(g, seq(g.banks, _ => Bank(g.grant, 0, 0, 0, 0, 0, 0)), 0, 0, true, SizeOnly)
  }

  /** One word asked of a bank: served from its budget, or counted as a stall. */
  function Ask(b: Bank, write: bool): Bank
  {
    if b.available > 0 then
      if write then b.(available := b.available - 1, writesServed := b.writesServed + 1)
      else b.(available := b.available - 1, readsServed := b.readsServed + 1)
    else if write then b.(writeStalls := b.writeStalls + 1)
    else b.(readStalls := b.readStalls + 1)
  }

  function Consume(m: Meter, i: nat, write: bool): (Meter, nat)
    requires i < |m.bank|
  {
    if !m.modeling then (m, 0)
    else
      var b := m.bank[i];
      var stall := if b.available > 0 then 0 else m.g.penalty;
      (m.(bank := m.bank[i := Ask(b, write).(used := b.used + 1)], stallCycles := m.stallCycles + stall), stall)
  }

  /** Consecutive words from word `first` on, wrapping around the banks. */
  function ConsumeRun(m: Meter, first: nat, words: nat, write: bool): (r: (Meter, nat))
    requires ValidMeter(m)
    ensures ValidMeter(r.0) && r.0.g == m.g && r.0.cycle == m.cycle
    ensures r.0.modeling == m.modeling && r.0.metering == m.metering
  {
    if words == 0 then (m, 0)
    else
      var (m1, s1) := ConsumeRun(m, first, words - 1, write);
      var (m2, s2) := Consume(m1, (first + words - 1) % m.g.banks, write);
      (m2, s1 + s2)
  }

  /** Words an access counts as. */
  function WordCount(m: Meter, address: nat, bytes: nat): nat
    requires ValidMeter(m)
  {
    if bytes == 0 then 0
    else if m.metering == AddressSpan then
      DivMonotone(address, address + bytes - 1, m.g.width);
      Div(address + bytes - 1, m.g.width) - Div(address, m.g.width) + 1
    else 1 + (bytes - 1) / m.g.width
  }

  function Access(m: Meter, address: nat, bytes: nat, write: bool): (Meter, nat)
    requires ValidMeter(m)
  {
    ConsumeRun(m, address / m.g.width, WordCount(m, address, bytes), write)
  }

  function RefillBank(m: Meter, b: Bank): Bank
  {
    if m.cycle - b.lastRefill >= Window(m.g) then b.(available := m.g.grant, lastRefill := m.cycle) else b
  }

  function Refill(m: Meter): (r: Meter)
    ensures ValidMeter(m) ==> ValidMeter(r)
  {
    if !m.modeling then m
    else m.(bank := seq(|m.bank|, i requires 0 <= i < |m.bank| => RefillBank(m, m.bank[i])))
  }

  function Advance(m: Meter, cycles: nat): (r: Meter)
    ensures ValidMeter(m) ==> ValidMeter(r)
  {
    Refill(m.(cycle := m.cycle + cycles))
  }

  // ----- Budget over every run -----

  datatype Event =
    | Touch(address: nat, bytes: nat, write: bool)
    | Elapse(cycles: nat)
    | SetModeling(on: bool)
    | SetMetering(mode: Metering)

  function Step(m: Meter, e: Event): (r: Meter)
    requires ValidMeter(m)
    ensures ValidMeter(r) && r.g == m.g
  {
    match e
    case Touch(a, n, w) => Access(m, a, n, w).0
    case Elapse(c) => Advance(m, c)
    case SetModeling(on) => m.(modeling := on)
    case SetMetering(mode) => m.(metering := mode)
  }

  function Run(m: Meter, es: seq<Event>): (r: Meter)
    requires ValidMeter(m)
    ensures ValidMeter(r) && r.g == m.g
  {
    if es == [] then m else Step(Run(m, es[..|es| - 1]), es[|es| - 1])
  }

  function Served(b: Bank): nat { b.readsServed + b.writesServed }

  /** Words granted to a bank in the refill windows begun by a cycle. */
  function Granted(g: Geometry, cycle: nat): nat { Mul(1 + Div(cycle, Window(g)), g.grant) }

  lemma GrantedMonotone(g: Geometry, from: nat, to: nat)
    requires from <= to
    ensures Granted(g, from) <= Granted(g, to)
  {
    DivMonotone(from, to, Window(g));
    MulMonotone(1 + Div(from, Window(g)), 1 + Div(to, Window(g)), g.grant);
  }

  /** A whole window later there is another grant. */
  lemma GrantedGrows(g: Geometry, from: nat, to: nat)
    requires from + Window(g) <= to
    ensures Granted(g, from) + g.grant <= Granted(g, to)
  {
    var q, w := Div(from, Window(g)), Window(g);
    DivModParts(from, w);
    AddOneTimes(q, w);
    DivBelow(to, w, q + 1);
    AddOneTimes(1 + q, g.grant);
    MulMonotone(2 + q, 1 + Div(to, w), g.grant);
  }

  /** What a bank has served and may still serve was granted in the windows up to its last refill. */
  ghost predicate WithinBudget(g: Geometry, cycle: nat, b: Bank)
  {
    && b.lastRefill <= cycle
    && Served(b) + b.available <= Granted(g, b.lastRefill)
  }

  ghost predicate AllWithinBudget(m: Meter)
  {
    forall i :: 0 <= i < |m.bank| ==> WithinBudget(m.g, m.cycle, m.bank[i])
  }

  lemma {:induction false} AccessKeepsBudget(m: Meter, first: nat, words: nat, write: bool)
    requires ValidMeter(m) && AllWithinBudget(m)
    ensures AllWithinBudget(ConsumeRun(m, first, words, write).0)
  {
    if words > 0 {
      AccessKeepsBudget(m, first, words - 1, write);
    }
  }

  lemma RefillKeepsBudget(m: Meter, b: Bank)
    requires ValidMeter(m) && WithinBudget(m.g, m.cycle, b)
    ensures WithinBudget(m.g, m.cycle, RefillBank(m, b))
  {
    if m.cycle - b.lastRefill >= Window(m.g) {
      GrantedGrows(m.g, b.lastRefill, m.cycle);
    }
  }

  /** A bank within budget has served at most the grants up to now. */
  lemma BudgetCapsServed(m: Meter, i: nat)
    requires AllWithinBudget(m) && i < |m.bank|
    ensures Served(m.bank[i]) <= Granted(m.g, m.cycle)
  {
    GrantedMonotone(m.g, m.bank[i].lastRefill, m.cycle);
  }

  lemma StepKeepsBudget(m: Meter, e: Event)
    requires ValidMeter(m) && AllWithinBudget(m)
    ensures AllWithinBudget(Step(m, e))
  {
    match e
    case Touch(a, n, w) => AccessKeepsBudget(m, a / m.g.width, WordCount(m, a, n), w);
    case Elapse(c) =>
      var later := m.(cycle := m.cycle + c);
      forall i | 0 <= i < |m.bank|
        ensures WithinBudget(m.g, later.cycle, RefillBank(later, m.bank[i]))
      {
        RefillKeepsBudget(later, m.bank[i]);
      }
    case _ =>
  }

  /** In every run each bank serves at most one grant per refill window begun. */
  lemma {:induction false} BudgetHolds(g: Geometry, es: seq<Event>, i: nat)
    requires ValidGeometry(g) && i < g.banks
    ensures AllWithinBudget(Run(Fresh(g), es))
    ensures var m := Run(Fresh(g), es);
            Served(m.bank[i]) <= Granted(g, m.cycle)
  {
    if es == [] {
      DivModUnique(0, Window(g), 0);
    } else {
      BudgetHolds(g, es[..|es| - 1], i);
      StepKeepsBudget(Run(Fresh(g), es[..|es| - 1]), es[|es| - 1]);
    }
    BudgetCapsServed(Run(Fresh(g), es), i);
  }

  // ----- Stalls of one access -----

  /** Words of a run that land on a bank. */
  function Hits(banks: nat, first: nat, words: nat, i: nat): nat
    requires banks > 0
  {
    if words == 0 then 0
    else Hits(banks, first, words - 1, i) + if (first + words - 1) % banks == i then 1 else 0
  }

  function Excess(hits: nat, available: nat): nat
  {
    if hits > available then hits - available else 0
  }

  /** Words that found their bank's budget spent, over the first n banks. */
  function Overdrawn(m: Meter, first: nat, words: nat, n: nat): nat
    requires ValidMeter(m) && n <= m.g.banks
  {
    if n == 0 then 0
    else Overdrawn(m, first, words, n - 1) + Excess(Hits(m.g.banks, first, words, n - 1), m.bank[n - 1].available)
  }

  /** One more word changes one bank's excess, and only if the budget is spent. */
  lemma {:induction false} OneMoreWord(m: Meter, first: nat, words: nat, n: nat)
    requires ValidMeter(m) && n <= m.g.banks && words > 0
    ensures var i := (first + words - 1) % m.g.banks;
            Overdrawn(m, first, words, n) == Overdrawn(m, first, words - 1, n) +
              if i < n && Hits(m.g.banks, first, words - 1, i) >= m.bank[i].available then 1 else 0
  {
    if n > 0 {
      OneMoreWord(m, first, words, n - 1);
    }
  }

  /** A bank after `hits` words were read from it or written to it. */
  ghost predicate AfterHits(b: Bank, b': Bank, hits: nat, write: bool)
  {
    var served, stalled := Min(hits, b.available), Excess(hits, b.available);
    && b'.available == b.available - served && b'.lastRefill == b.lastRefill && b'.used == b.used + hits
    && b'.readsServed == b.readsServed + (if write then 0 else served)
    && b'.writesServed == b.writesServed + (if write then served else 0)
    && b'.readStalls == b.readStalls + (if write then 0 else stalled)
    && b'.writeStalls == b.writeStalls + (if write then stalled else 0)
  }

  /** Each bank loses its hits from its budget and counts a stall for each hit beyond it. */
  lemma {:induction false} BanksAfterRun(m: Meter, first: nat, words: nat, write: bool, i: nat)
    requires ValidMeter(m) && m.modeling && i < m.g.banks
    ensures AfterHits(m.bank[i], ConsumeRun(m, first, words, write).0.bank[i], Hits(m.g.banks, first, words, i), write)
  {
    if words > 0 {
      BanksAfterRun(m, first, words - 1, write, i);
    }
  }

  /** The stall of an access is the penalty times the sum over banks of hits beyond the budget. */
  lemma {:induction false} StallsAreExcess(m: Meter, first: nat, words: nat, write: bool)
    requires ValidMeter(m) && m.modeling
    ensures var (m', stall) := ConsumeRun(m, first, words, write);
            && stall == m.g.penalty * Overdrawn(m, first, words, m.g.banks)
            && m'.stallCycles == m.stallCycles + stall
  {
    if words == 0 {
      NoWordsNoExcess(m, first, m.g.banks);
    } else {
      StallsAreExcess(m, first, words - 1, write);
      OneMoreWord(m, first, words, m.g.banks);
      var before := Overdrawn(m, first, words - 1, m.g.banks);
      var k := (first + words - 1) % m.g.banks;
      BanksAfterRun(m, first, words - 1, write, k);
      OneMorePenalty(m.g.penalty, before);
    }
  }

  lemma OneMorePenalty(penalty: nat, n: nat)
    ensures penalty * (n + 1) == penalty * n + penalty
  {
  }

  lemma {:induction false} NoWordsNoExcess(m: Meter, first: nat, n: nat)
    requires ValidMeter(m) && n <= m.g.banks
    ensures Overdrawn(m, first, 0, n) == 0
  {
    if n > 0 {
      NoWordsNoExcess(m, first, n - 1);
    }
  }

  // ----- Word metering -----

  /** Address-span metering counts exactly the aligned words the byte range meets. */
  lemma SpanCountsWordsMet(m: Meter, address: nat, bytes: nat, k: nat)
    requires ValidMeter(m) && m.metering == AddressSpan && bytes > 0
    ensures address / m.g.width <= k < address / m.g.width + WordCount(m, address, bytes)
       <==> k * m.g.width < address + bytes && address < (k + 1) * m.g.width
  {
    var w := m.g.width;
    DivMonotone(address, address + bytes - 1, w);
    DivBelow(address, w, k + 1);
    DivBelow(address + bytes - 1, w, k);
  }

  /** Size-only metering sees the same number of words, or one fewer. */
  lemma SpanAgainstSize(m: Meter, address: nat, bytes: nat)
    requires ValidMeter(m) && bytes > 0
    ensures var span := WordCount(m.(metering := AddressSpan), address, bytes);
            var size := WordCount(m.(metering := SizeOnly), address, bytes);
            && (span == size || span == size + 1)
            && (span == size <==> address % m.g.width + (bytes - 1) % m.g.width < m.g.width)
  {
    SpanQuotient(address, bytes - 1, m.g.width);
  }

  lemma SpanQuotient(x: nat, y: nat, w: nat)
    requires w > 0
    ensures (x + y) / w == x / w + y / w + if x % w + y % w < w then 0 else 1
  {
    DivModParts(x, w);
    DivModParts(y, w);
    SumQuotient(Div(x, w), Rem(x, w), Div(y, w), Rem(y, w), w, x + y);
  }

  lemma SumQuotient(q: nat, r: nat, p: nat, s: nat, w: nat, sum: nat)
    requires r < w && s < w && sum == q * w + r + (p * w + s)
    ensures sum / w == q + p + if r + s < w then 0 else 1
  {
    Distribute(q, p, w);
    AddOneTimes(q + p, w);
    if r + s < w {
      DivModUnique(q + p, w, r + s);
    } else {
      DivModUnique(q + p + 1, w, r + s - w);
    }
  }
}
