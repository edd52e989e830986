/** What a tick does to the waiting list: tokens leave it exactly as they are charged, and nobody is
    left waiting who could have been served. */
module QuotaQueue {
  import opened QuotaSpec
  import opened QuotaClock
  import opened QuotaLedger

  /** Tokens that a caller is waiting for. */
  function Wanted(waits: seq<WaitItem>, c: string): int {
    if waits == [] then 0 else (if waits[0].caller == c then waits[0].tokens else 0) + Wanted(waits[1..], c)
  }

  ghost predicate AllAlive(waits: seq<WaitItem>, now: int) {
    forall i | 0 <= i < |waits| :: waits[i].timeoutAt > now
  }

  /** Nobody in the list could be served from `b`. */
  ghost predicate NoneFits(policies: map<string, Policy>, b: Binding, waits: seq<WaitItem>, c: string) {
    forall w | w in waits && w.caller == c :: Remaining(policies, b) < w.tokens
  }

  /** `a` is what is left of `b`, in order. */
  ghost predicate LeftOf(a: seq<WaitItem>, b: seq<WaitItem>)
    decreases |b|
  {
    a == b || (b != [] && (LeftOf(a, b[1..]) || (a != [] && a[0] == b[0] && LeftOf(a[1..], b[1..]))))
  }

  lemma RemainingFalls(policies: map<string, Policy>, b: Binding, tokens: int)
    requires tokens >= 0
    ensures Remaining(policies, Plus(b, tokens)) <= Remaining(policies, b)
  {
    SameLimit(policies, b, b.used + tokens);
  }

  lemma StaysSettled(policies: map<string, Policy>, b: Binding, tokens: int, now: int, decay: Decay)
    requires Settled(policies, b, now, decay)
    ensures Settled(policies, Plus(b, tokens), now, decay) && Tick(policies, b, now, decay) == b
  {
    hide Tick;
    assert Tick(policies, b.(used := b.used), now, decay) == b.(used := b.used);
    forall used ensures Tick(policies, Plus(b, tokens).(used := used), now, decay) == Plus(b, tokens).(used := used) {
      assert Plus(b, tokens).(used := used) == b.(used := used);
    }
  }

  /** Going through the waiting requests of a caller whose clock has run: its used tokens rise by
      exactly what leaves the list, and what stays does not fit. */
  lemma {:induction false} GrantsConserve(policies: map<string, Policy>, bindings: map<string, Binding>, waits: seq<WaitItem>,
                                          c: string, now: int, decay: Decay)
    requires c in bindings && bindings[c].policy in policies && Settled(policies, bindings[c], now, decay)
    requires AllPositive(waits) && AllAlive(waits, now)
    ensures var (after, rest) := GrantWaits(policies, bindings, waits, now, decay);
            && Wanted(rest, c) <= Wanted(waits, c)
            && c in after && after[c] == Plus(bindings[c], Wanted(waits, c) - Wanted(rest, c))
            && NoneFits(policies, after[c], rest, c)
    decreases |waits|
  {
    hide Tick, Settled, Remaining;
    if waits != [] {
      var w := waits[0];
      if w.caller !in bindings || bindings[w.caller].policy !in policies {
        GrantsConserve(policies, bindings, waits[1..], c, now, decay);
      } else {
        var next := bindings[w.caller := Charge(policies, bindings[w.caller], w.tokens, now, decay)];
        StaysSettled(policies, bindings[c], 0, now, decay);
        StaysSettled(policies, bindings[c], w.tokens, now, decay);
        assert Plus(bindings[c], 0) == bindings[c];
        GrantsConserve(policies, next, waits[1..], c, now, decay);
        var (after, rest) := GrantWaits(policies, next, waits[1..], now, decay);
        if !Grants(policies, bindings[w.caller], w.tokens, now, decay) {
          PassedOver(policies, bindings[c], w, waits[1..], rest, after, c);
        }
      }
    }
  }

  /** A request that did not fit at its turn does not fit later in the same tick. */
  lemma PassedOver(policies: map<string, Policy>, b: Binding, w: WaitItem, waits: seq<WaitItem>, rest: seq<WaitItem>,
                   after: map<string, Binding>, c: string)
    requires c in after && Wanted(rest, c) <= Wanted(waits, c) && after[c] == Plus(b, Wanted(waits, c) - Wanted(rest, c))
    requires NoneFits(policies, after[c], rest, c) && (w.caller == c ==> Remaining(policies, b) < w.tokens)
    ensures NoneFits(policies, after[c], [w] + rest, c)
    ensures Wanted([w] + rest, c) == (if w.caller == c then w.tokens else 0) + Wanted(rest, c)
  {
    RemainingFalls(policies, b, Wanted(waits, c) - Wanted(rest, c));
    hide Remaining;
    assert ([w] + rest)[1..] == rest;
  }

  lemma {:induction false} GrantsInOrder(policies: map<string, Policy>, bindings: map<string, Binding>, waits: seq<WaitItem>,
                                         now: int, decay: Decay)
    ensures LeftOf(GrantWaits(policies, bindings, waits, now, decay).1, waits)
    decreases |waits|
  {
    hide Charge, Grants;
    if waits != [] {
      var w := waits[0];
      if w.timeoutAt <= now || w.caller !in bindings || bindings[w.caller].policy !in policies {
        GrantsInOrder(policies, bindings, waits[1..], now, decay);
      } else {
        var next := bindings[w.caller := Charge(policies, bindings[w.caller], w.tokens, now, decay)];
        GrantsInOrder(policies, next, waits[1..], now, decay);
        var rest := GrantWaits(policies, next, waits[1..], now, decay).1;
        assert ([w] + rest)[1..] == rest;
      }
    }
  }

  /** Only requests of known callers whose time has not come go on waiting. */
  lemma {:induction false} StillWaiting(policies: map<string, Policy>, bindings: map<string, Binding>, waits: seq<WaitItem>,
                                        now: int, decay: Decay)
    ensures forall w | w in GrantWaits(policies, bindings, waits, now, decay).1 ::
              w in waits && w.timeoutAt > now && w.caller in bindings && bindings[w.caller].policy in policies
    decreases |waits|
  {
    hide Grants, Charge;
    if waits != [] {
      var w := waits[0];
      if w.timeoutAt <= now || w.caller !in bindings || bindings[w.caller].policy !in policies {
        StillWaiting(policies, bindings, waits[1..], now, decay);
      } else {
        SamePolicy(policies, bindings[w.caller], w.tokens, now, decay);
        StillWaiting(policies, bindings[w.caller := Charge(policies, bindings[w.caller], w.tokens, now, decay)], waits[1..], now, decay);
      }
    }
  }

  lemma SamePolicy(policies: map<string, Policy>, b: Binding, tokens: int, now: int, decay: Decay)
    ensures Charge(policies, b, tokens, now, decay).policy == b.policy
  {
    hide Remaining, EffectiveLimit;
  }

  lemma {:induction false} AliveMeans(waits: seq<WaitItem>, now: int)
    ensures AllAlive(AliveWaits(waits, now), now) && LeftOf(AliveWaits(waits, now), waits)
    decreases |waits|
  {
    if waits != [] {
      AliveMeans(waits[1..], now);
      var alive, rest := AliveWaits(waits, now), AliveWaits(waits[1..], now);
      if waits[0].timeoutAt > now {
        assert alive[1..] == rest && alive[0] == waits[0];
      } else {
        assert alive == rest;
      }
      assert LeftOf(alive, waits);
    }
  }

  /** Exactly the requests whose time has come leave. */
  lemma {:induction false} AliveExact(waits: seq<WaitItem>, now: int, w: WaitItem)
    ensures w in AliveWaits(waits, now) <==> w in waits && w.timeoutAt > now
    decreases |waits|
  {
    if waits != [] {
      AliveExact(waits[1..], now, w);
      assert waits == [waits[0]] + waits[1..];
      assert w in waits <==> w == waits[0] || w in waits[1..];
    }
  }

  lemma {:induction false} LeftTransitive(a: seq<WaitItem>, b: seq<WaitItem>, c: seq<WaitItem>)
    requires LeftOf(a, b) && LeftOf(b, c)
    ensures LeftOf(a, c)
    decreases |c|
  {
    if a != b && b != c {
      if LeftOf(b, c[1..]) {
        LeftTransitive(a, b, c[1..]);
      } else if LeftOf(a, b[1..]) {
        LeftTransitive(a, b[1..], c[1..]);
      } else {
        LeftTransitive(a[1..], b[1..], c[1..]);
      }
    }
  }

  lemma {:induction false} ProcessKeepsWaits(q: Quota, order: seq<nat>, now: int)
    ensures ProcessAll(q, order, now).waits == q.waits && ProcessAll(q, order, now).policies == q.policies
    decreases |order|
  {
    hide Unreserve, Reserve;
    if order != [] {
      ProcessKeepsWaits(ProcessOne(q, order[0], now), order[1..], now);
    }
  }

  /** A tick keeps the waiting list in order, drops what has timed out, charges each caller exactly
      for its requests that leave the list, and leaves nobody waiting who could be served. */
  lemma TickServes(q: Quota, order: seq<nat>, c: string, now: int, decay: Decay)
    requires AllPositive(q.waits)
    ensures var before := BeforeGrants(q, order, now, decay);
            var after := RefillTick(q, order, now, decay);
            && LeftOf(after.waits, q.waits)
            && before.waits == AliveWaits(q.waits, now)
            && (c in before.bindings && before.bindings[c].policy in q.policies ==>
                  && c in after.bindings
                  && after.bindings[c] == Plus(before.bindings[c], Wanted(before.waits, c) - Wanted(after.waits, c))
                  && NoneFits(q.policies, after.bindings[c], after.waits, c))
  {
    AliveMeans(q.waits, now);
    AliveKeepsPositive(q.waits, now);
    hide Tick, ProcessAll, GrantWaits, AliveWaits, LeftOf, NoneFits, Settled, AllPositive, AllAlive, Wanted;
    var q1 := q.(waits := AliveWaits(q.waits, now));
    ProcessKeepsWaits(q1, order, now);
    var processed := ProcessAll(q1, order, now);
    var before := BeforeGrants(q, order, now, decay);
    GrantsInOrder(q.policies, before.bindings, before.waits, now, decay);
    LeftTransitive(GrantWaits(q.policies, before.bindings, before.waits, now, decay).1, AliveWaits(q.waits, now), q.waits);
    if c in before.bindings && before.bindings[c].policy in q.policies {
      TickSettles(q.policies, processed.bindings[c], now, decay);
      GrantsConserve(q.policies, before.bindings, before.waits, c, now, decay);
    }
  }
}
