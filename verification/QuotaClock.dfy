/** The clock of a binding at one instant: it has an effect once. */
module QuotaClock {
  import opened Clock
  import opened QuotaSpec

  /** The clock has nothing more to do at `now`, whatever is charged. */
  ghost predicate Settled(policies: map<string, Policy>, b: Binding, now: int, decay: Decay) {
    forall used :: Tick(policies, b.(used := used), now, decay) == b.(used := used)
  }

  /** Applying the clock twice at one instant is applying it once. */
  lemma TickSettles(policies: map<string, Policy>, b: Binding, now: int, decay: Decay)
    ensures Settled(policies, Tick(policies, b, now, decay), now, decay)
    ensures b.used >= 0 ==> Tick(policies, b, now, decay).used >= 0
  {
    hide EffectiveLimit;
    if b.policy in policies && policies[b.policy].algorithm == FixedWindow {
      var p := policies[b.policy];
      var elapsed := now - b.windowStart;
    }
  }

  lemma SameLimit(policies: map<string, Policy>, b: Binding, used: int)
    ensures EffectiveLimit(policies, b.(used := used)) == EffectiveLimit(policies, b)
  {
  }

  function Plus(b: Binding, tokens: int): Binding {
    b.(used := b.used + tokens)
  }
}
