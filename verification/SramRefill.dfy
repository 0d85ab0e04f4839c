/** What a passed refill window gives back, and how many consecutive words can then be moved without a stall. */
module SramRefill {
  import opened Words
  import opened Cursors
  import opened Sram

  /** The window has passed since the bank was last refilled; a window of zero cycles counts as one. */
  predicate WindowPassed(g: Geometry, b: Bank, cycle: nat)
  {
    cycle >= b.lastRefill + if g.window == 0 then 1 else g.window
  }

  /** Letting time pass restores the whole grant of the banks whose window has passed, and touches nothing else. */
  lemma RefillRestores(m: Meter, cycles: nat, i: nat)
    requires ValidMeter(m) && m.modeling && i < m.g.banks
    ensures var m', now := Advance(m, cycles), m.cycle + cycles;
            && m'.cycle == now && m'.stallCycles == m.stallCycles && m'.g == m.g && m'.modeling
            && m'.bank[i] == if WindowPassed(m.g, m.bank[i], now)
                             then m.bank[i].(available := m.g.grant, lastRefill := now) else m.bank[i]
  {
  }

  /** Consecutive words reach a bank when their number, counted from the bank's turn, is a multiple of the banks. */
  lemma TurnOfBank(banks: nat, first: nat, x: nat, i: nat)
    requires i < banks
    ensures (first + x) % banks == i <==> x % banks == Dist(banks, first % banks, i)
  {
    var p, q := Div(first, banks), Div(x, banks);
    var f, r := Rem(first, banks), Rem(x, banks);
    DivModParts(first, banks);
    DivModParts(x, banks);
    SumTurn(first + x, p, f, q, r, banks);
  }

  lemma SumTurn(sum: nat, p: nat, f: nat, q: nat, r: nat, banks: nat)
    requires f < banks && r < banks && sum == p * banks + f + q * banks + r
    ensures sum % banks == if f + r < banks then f + r else f + r - banks
  {
    Distribute(p, q, banks);
    AddOneTimes(p + q, banks);
    if f + r < banks {
      DivModUnique(p + q, banks, f + r);
    } else {
      DivModUnique(p + q + 1, banks, f + r - banks);
    }
  }

  /** Consecutive words spread evenly: every full round hits each bank once, and the rest the banks next in turn. */
  lemma {:induction false} EvenHits(banks: nat, first: nat, words: nat, i: nat)
    requires i < banks
    ensures Hits(banks, first, words, i)
         == Div(words, banks) + if Dist(banks, first % banks, i) < Rem(words, banks) then 1 else 0
  {
    if words == 0 {
      DivModUnique(0, banks, 0);
    } else {
      EvenHits(banks, first, words - 1, i);
      TurnOfBank(banks, first, words - 1, i);
      OneMore(words - 1, banks);
    }
  }

  lemma OneMore(x: nat, d: nat)
    requires d > 0
    ensures if Rem(x, d) + 1 < d then Div(x + 1, d) == Div(x, d) && Rem(x + 1, d) == Rem(x, d) + 1
            else Div(x + 1, d) == Div(x, d) + 1 && Rem(x + 1, d) == 0
  {
    DivModParts(x, d);
    if Rem(x, d) + 1 < d {
      DivModUnique(Div(x, d), d, Rem(x, d) + 1);
    } else {
      AddOneTimes(Div(x, d), d);
      DivModUnique(Div(x, d) + 1, d, 0);
    }
  }

  /** The words overdraw no bank exactly if no bank is asked for more than it has. */
  lemma {:induction false} OverdrawnExactly(m: Meter, first: nat, words: nat, n: nat)
    requires ValidMeter(m) && n <= m.g.banks
    ensures Overdrawn(m, first, words, n) == 0
       <==> forall i: nat :: i < n ==> Hits(m.g.banks, first, words, i) <= m.bank[i].available
  {
    if n > 0 {
      OverdrawnExactly(m, first, words, n - 1);
    }
  }

  /** No bank is hit more than `grant` times exactly if there are at most `grant` words per bank. */
  lemma RoundsExactly(banks: nat, first: nat, words: nat, grant: nat)
    requires banks > 0
    ensures words <= grant * banks <==> forall i: nat :: i < banks ==> Hits(banks, first, words, i) <= grant
  {
    DivModParts(words, banks);
    forall i: nat | i < banks
      ensures Hits(banks, first, words, i)
           == Div(words, banks) + if Dist(banks, first % banks, i) < Rem(words, banks) then 1 else 0
    {
      EvenHits(banks, first, words, i);
    }
    assert Hits(banks, first, words, first % banks) == Div(words, banks) + if 0 < Rem(words, banks) then 1 else 0;
    RoundsArithmetic(words, Div(words, banks), Rem(words, banks), banks, grant);
  }

  lemma RoundsArithmetic(words: nat, q: nat, r: nat, banks: nat, grant: nat)
    requires r < banks && words == q * banks + r
    ensures words <= grant * banks <==> q + (if 0 < r then 1 else 0) <= grant
  {
    if q < grant {
      MulMonotone(q + 1, grant, banks);
      AddOneTimes(q, banks);
    } else {
      MulMonotone(grant, q, banks);
      if q > grant {
        MulMonotone(grant + 1, q, banks);
        AddOneTimes(grant, banks);
      }
    }
  }

  ghost predicate AllPassed(m: Meter, cycle: nat)
  {
    forall i :: 0 <= i < |m.bank| ==> WindowPassed(m.g, m.bank[i], cycle)
  }

  /**
   Once every bank's window has passed, consecutive words from anywhere move without a stall exactly as long as there
   are no more of them than the banks' grants together, or a stall costs nothing.
   */
  lemma StallFreeExactly(m: Meter, cycles: nat, first: nat, words: nat, write: bool)
    requires ValidMeter(m) && m.modeling && AllPassed(m, m.cycle + cycles)
    ensures ConsumeRun(Advance(m, cycles), first, words, write).1 == 0
       <==> words <= m.g.grant * m.g.banks || m.g.penalty == 0
  {
    var m' := Advance(m, cycles);
    forall i | 0 <= i < m.g.banks
      ensures m'.bank[i].available == m.g.grant
    {
      RefillRestores(m, cycles, i);
    }
    OverdrawnExactly(m', first, words, m.g.banks);
    RoundsExactly(m.g.banks, first, words, m.g.grant);
    StallsAreExcess(m', first, words, write);
    ZeroProduct(m.g.penalty, Overdrawn(m', first, words, m.g.banks));
  }

  lemma ZeroProduct(a: nat, b: nat)
    ensures a * b == 0 <==> a == 0 || b == 0
  {
  }
}
