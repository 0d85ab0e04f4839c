/** What survives a change of settings on a live engine of the credit bound and of the timing-only guarantee. */
module DrrSettings {
  import opened DmaEngine
  import opened DrrFairness
  import opened DrrSetters
  import opened TimingOnly

  /**
   The credit bound across a change. Every change but one keeps it. Changing service or weights ends the visit in
   progress without clearing its credit, and keeps the bound exactly if that credit is already below the largest cost.
   */
  lemma ChangeKeepsBound(c: Config, s: State, x: Setting, m: nat)
    requires ValidConfig(c) && ValidState(c, s) && Bounded(c, s, m) && m > 0
    ensures ValidConfig(Changed(c, x)) && ValidState(Changed(c, x), Adjusted(c, s, x))
    ensures BoundedCredits(Changed(c, x), Adjusted(c, s, x), m)
            <==> (Accepts(x) && x.ServiceMode? && s.cont ==> s.ch[s.contCh].credit < m)
  {
    ChangeIsValid(c, s, x);
    var d, r := Changed(c, x), Adjusted(c, s, x);
    if Accepts(x) && x.ServiceMode? && s.cont {
      assert r.ch[s.contCh].credit == s.ch[s.contCh].credit;
      assert BoundedCredits(d, r, m) ==> r.ch[s.contCh].credit < CreditLimit(d, r, m, s.contCh);
    } else if !(Accepts(x) && x.ServiceMode?) {
      SameGrants(c, x);
    }
    forall i | 0 <= i < c.channels && !(s.cont && i == s.contCh)
      ensures r.ch[i].credit < m
    {
      assert s.ch[i].credit < CreditLimit(c, s, m, i);
    }
  }

  /** Only a change of service touches weights. */
  lemma SameGrants(c: Config, x: Setting)
    requires ValidConfig(c) && !(Accepts(x) && x.ServiceMode?)
    ensures ValidConfig(Changed(c, x)) && forall i :: 0 <= i < c.channels ==> Grant(Changed(c, x), i) == Grant(c, i)
  {
  }

  /** The settings that price the scan without clearing credits. */
  predicate PricesOnly(x: Setting) { x.SelectIssue? || x.ScanWidth? || x.StageWidths? }

  /** On a live engine these stay timing only: the engine still matches one that never changed them. */
  lemma PricingKeepsSame(c: Config, d: Config, s: State, t: State, x: Setting)
    requires Both(c, d, s, t) && PricesOnly(x)
    ensures Both(Changed(c, x), d, Adjusted(c, s, x), t)
  {
    ChangeIsValid(c, s, x);
    assert Adjusted(c, s, x).ch == s.ch;
  }

  /** Changing the round-issue or round-cost setting to a new value is not: it clears credits on one side only. */
  lemma RoundPricingClears(c: Config, d: Config, s: State, t: State, x: Setting)
    requires Both(c, d, s, t) && (x.RoundIssue? || x.RoundCostMode?) && Accepts(x)
    ensures Both(Changed(c, x), d, Adjusted(c, s, x), t)
            <==> !ClearsCredits(c, x) || (!s.cont && forall i :: 0 <= i < c.channels ==> s.ch[i].credit == 0)
  {
    ChangeIsValid(c, s, x);
    var r := Adjusted(c, s, x);
    forall i | 0 <= i < c.channels
      ensures SameChannel(r.ch[i], t.ch[i], r.now, t.now) <==> r.ch[i].credit == s.ch[i].credit
    {
      assert SameChannel(s.ch[i], t.ch[i], s.now, t.now);
    }
  }
}
