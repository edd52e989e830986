/** The token side of a transaction: every grant is charged, or every caller is as the clock alone
    would have left it. */
module TxTokens {
  import opened QuotaSpec
  import opened QuotaClock
  import opened TxSpec

  ghost predicate UsedNonNegative(q: Quota) {
    forall c | c in q.bindings :: q.bindings[c].used >= 0
  }

  // ---------------------------------------------------------------- charging

  /** Tokens that a list of requests asks for one caller. */
  function TokensFor(items: seq<TokenItem>, c: string): int {
    if items == [] then 0 else (if items[0].caller == c then items[0].tokens else 0) + TokensFor(items[1..], c)
  }

  ghost function Callers(items: seq<TokenItem>): set<string> {
    set i | i in items :: i.caller
  }

  lemma {:induction false} TokensForAppend(items: seq<TokenItem>, last: TokenItem, c: string)
    ensures TokensFor(items + [last], c) == TokensFor(items, c) + (if last.caller == c then last.tokens else 0)
    ensures Callers(items + [last]) == Callers(items) + {last.caller}
  {
    if items == [] {
      assert items + [last] == [last];
      assert [last][1..] == [];
    } else {
      assert (items + [last])[1..] == items[1..] + [last];
      TokensForAppend(items[1..], last, c);
    }
    assert forall i :: i in items + [last] <==> i in items || i == last;
  }

  ghost predicate Positive(items: seq<TokenItem>) {
    forall i | 0 <= i < |items| :: items[i].tokens > 0
  }

  lemma {:induction false} TokensNonNegative(items: seq<TokenItem>, c: string)
    requires Positive(items)
    ensures TokensFor(items, c) >= 0
    ensures c !in Callers(items) ==> TokensFor(items, c) == 0
  {
    if items != [] {
      TokensNonNegative(items[1..], c);
      assert items[0] in items && forall i :: i in items[1..] ==> i in items;
    }
  }

  /** `t` is `q` with the clock applied to the touched callers and the tokens of `done` charged. */
  ghost predicate ChargedFor(q: Quota, t: Quota, done: seq<TokenItem>, touched: set<string>, now: int, decay: Decay) {
    && t == q.(bindings := t.bindings) && t.bindings.Keys == q.bindings.Keys
    && Callers(done) <= touched && Positive(done)
    && forall c | c in q.bindings ::
         t.bindings[c] == if c in touched then Plus(Tick(q.policies, q.bindings[c], now, decay), TokensFor(done, c))
                          else q.bindings[c]
  }

  /** Room for the tokens of a request after those of `done`. */
  predicate Allows(q: Quota, done: seq<TokenItem>, item: TokenItem, now: int, decay: Decay) {
    && item.tokens > 0 && item.caller in q.bindings && q.bindings[item.caller].policy in q.policies
    && var b := Tick(q.policies, q.bindings[item.caller], now, decay);
       b.used + TokensFor(done, item.caller) + item.tokens <= EffectiveLimit(q.policies, b)
  }

  /** The charged caller's clock is already settled. */
  lemma TouchedTick(q: Quota, t: Quota, done: seq<TokenItem>, touched: set<string>, c: string, now: int, decay: Decay)
    requires ChargedFor(q, t, done, touched, now, decay) && c in q.bindings
    ensures Tick(t.policies, t.bindings[c], now, decay) == Plus(Tick(q.policies, q.bindings[c], now, decay), TokensFor(done, c))
  {
    TickSettles(q.policies, q.bindings[c], now, decay);
    hide Tick;
    var b := Tick(q.policies, q.bindings[c], now, decay);
    if c in touched {
      assert Tick(q.policies, b.(used := b.used + TokensFor(done, c)), now, decay) == b.(used := b.used + TokensFor(done, c));
    } else {
      NotTouched(done, touched, c);
    }
  }

  lemma NotTouched(done: seq<TokenItem>, touched: set<string>, c: string)
    requires Callers(done) <= touched && c !in touched && Positive(done)
    ensures TokensFor(done, c) == 0
  {
    TokensNonNegative(done, c);
  }

  /** One request on top of those already granted. */
  lemma OneGrant(q: Quota, t: Quota, done: seq<TokenItem>, touched: set<string>, item: TokenItem, now: int, decay: Decay)
    requires ChargedFor(q, t, done, touched, now, decay)
    ensures var a := RequestAnswer(t, item.caller, item.tokens, false, now, decay);
            var u := Request(t, item.caller, item.tokens, false, 0, now, decay);
            && (a == Allowed <==> Allows(q, done, item, now, decay))
            && (a == Allowed ==> ChargedFor(q, u, done + [item], touched + {item.caller}, now, decay))
            && (a != Allowed ==> u == t || ChargedFor(q, u, done, touched + {item.caller}, now, decay))
  {
    var c := item.caller;
    if item.tokens > 0 && c in q.bindings && q.bindings[c].policy in q.policies {
      TouchedTick(q, t, done, touched, c, now, decay);
      var b := Tick(q.policies, q.bindings[c], now, decay);
      var charged := Plus(b, TokensFor(done, c));
      hide Tick, EffectiveLimit;
      SameLimit(q.policies, b, charged.used);
      TickedCaller(q, t, done, touched, c, now, decay);
      if Remaining(t.policies, charged) >= item.tokens {
        GrantedCaller(q, t, done, touched, item, now, decay);
      }
    }
  }

  lemma TickedCaller(q: Quota, t: Quota, done: seq<TokenItem>, touched: set<string>, c: string, now: int, decay: Decay)
    requires ChargedFor(q, t, done, touched, now, decay) && c in q.bindings
    ensures ChargedFor(q, TickCaller(t, c, now, decay), done, touched + {c}, now, decay)
  {
    TouchedTick(q, t, done, touched, c, now, decay);
    hide Tick;
  }

  lemma GrantedCaller(q: Quota, t: Quota, done: seq<TokenItem>, touched: set<string>, item: TokenItem, now: int, decay: Decay)
    requires ChargedFor(q, t, done, touched, now, decay) && item.caller in q.bindings && item.tokens > 0
    ensures var b := Tick(t.policies, t.bindings[item.caller], now, decay);
            ChargedFor(q, t.(bindings := t.bindings[item.caller := Plus(b, item.tokens)]), done + [item],
                       touched + {item.caller}, now, decay)
  {
    TouchedTick(q, t, done, touched, item.caller, now, decay);
    hide Tick, TokensFor, Callers;
    forall c ensures TokensFor(done + [item], c) == TokensFor(done, c) + (if item.caller == c then item.tokens else 0)
              ensures Callers(done + [item]) == Callers(done) + {item.caller}
    {
      TokensForAppend(done, item, c);
    }
    TokensForAppend(done, item, "");
  }

  /** Every request is well formed and each caller has room for all that is asked of it. */
  ghost predicate TokensFit(q: Quota, done: seq<TokenItem>, items: seq<TokenItem>, now: int, decay: Decay) {
    && (forall i | 0 <= i < |items| ::
          items[i].tokens > 0 && items[i].caller in q.bindings && q.bindings[items[i].caller].policy in q.policies)
    && forall c | c in Callers(items) && c in q.bindings ::
         var b := Tick(q.policies, q.bindings[c], now, decay);
         b.used + TokensFor(done, c) + TokensFor(items, c) <= EffectiveLimit(q.policies, b)
  }

  lemma FitHead(q: Quota, done: seq<TokenItem>, items: seq<TokenItem>, now: int, decay: Decay)
    requires items != []
    ensures TokensFit(q, done, items, now, decay)
            <==> Allows(q, done, items[0], now, decay) && TokensFit(q, done + [items[0]], items[1..], now, decay)
  {
    hide Tick, EffectiveLimit, Callers;
    var head, tail := items[0], items[1..];
    CallersHead(items);
    forall c ensures TokensFor(done + [head], c) == TokensFor(done, c) + (if head.caller == c then head.tokens else 0) {
      TokensForAppend(done, head, c);
    }
    if TokensFit(q, done, items, now, decay) {
      FitHeadForth(q, done, items, now, decay);
    }
    if Allows(q, done, head, now, decay) && TokensFit(q, done + [head], tail, now, decay) {
      FitHeadBack(q, done, items, now, decay);
    }
  }

  lemma CallersHead(items: seq<TokenItem>)
    requires items != []
    ensures Callers(items) == {items[0].caller} + Callers(items[1..])
  {
    assert forall i :: i in items <==> i == items[0] || i in items[1..];
  }

  lemma FitHeadForth(q: Quota, done: seq<TokenItem>, items: seq<TokenItem>, now: int, decay: Decay)
    requires items != [] && TokensFit(q, done, items, now, decay)
    ensures Allows(q, done, items[0], now, decay) && TokensFit(q, done + [items[0]], items[1..], now, decay)
  {
    hide Tick, EffectiveLimit, Callers;
    var head, tail := items[0], items[1..];
    CallersHead(items);
    assert Positive(tail);
    TokensNonNegative(tail, head.caller);
    forall c | c in Callers(tail) && c in q.bindings
      ensures var b := Tick(q.policies, q.bindings[c], now, decay);
              b.used + TokensFor(done + [head], c) + TokensFor(tail, c) <= EffectiveLimit(q.policies, b)
    {
      TokensForAppend(done, head, c);
    }
  }

  lemma FitHeadBack(q: Quota, done: seq<TokenItem>, items: seq<TokenItem>, now: int, decay: Decay)
    requires items != [] && Allows(q, done, items[0], now, decay) && TokensFit(q, done + [items[0]], items[1..], now, decay)
    ensures TokensFit(q, done, items, now, decay)
  {
    hide Tick, EffectiveLimit, Callers;
    var head, tail := items[0], items[1..];
    CallersHead(items);
    assert Positive(tail);
    forall i | 0 <= i < |items|
      ensures items[i].tokens > 0 && items[i].caller in q.bindings && q.bindings[items[i].caller].policy in q.policies
    {
      assert i > 0 ==> items[i] == tail[i - 1];
    }
    forall c | c in Callers(items) && c in q.bindings
      ensures var b := Tick(q.policies, q.bindings[c], now, decay);
              b.used + TokensFor(done, c) + TokensFor(items, c) <= EffectiveLimit(q.policies, b)
    {
      TokensForAppend(done, head, c);
      if c !in Callers(tail) {
        TokensNonNegative(tail, c);
      }
    }
  }

  /** What charging `n` of the requests, on top of those of `done`, has led to. */
  ghost predicate Granted(q: Quota, u: Quota, done: seq<TokenItem>, items: seq<TokenItem>, n: nat, now: int, decay: Decay) {
    && n <= |items|
    && (exists touched :: ChargedFor(q, u, done + items[..n], touched, now, decay))
    && (n == |items| ==> ChargedFor(q, u, done + items, Callers(done + items), now, decay))
    && (n == |items| <==> TokensFit(q, done, items, now, decay))
  }

  lemma {:induction false} TakeTokensCharges(q: Quota, t: Quota, done: seq<TokenItem>, items: seq<TokenItem>, now: int, decay: Decay)
    requires ChargedFor(q, t, done, Callers(done), now, decay)
    ensures var (u, n) := TakeTokens(t, items, now, decay);
            Granted(q, u, done, items, n, now, decay)
    decreases |items|
  {
    hide ChargedFor, TokensFit, Allows, Request, RequestAnswer, Callers;
    if items == [] {
      assert done + items == done && done + items[..0] == done;
      assert TokensFit(q, done, items, now, decay) by {
        FitNothing(q, done, now, decay);
      }
    } else {
      var head, tail := items[0], items[1..];
      OneGrant(q, t, done, Callers(done), head, now, decay);
      FitHead(q, done, items, now, decay);
      TokensForAppend(done, head, "");
      var t' := Request(t, head.caller, head.tokens, false, 0, now, decay);
      if RequestAnswer(t, head.caller, head.tokens, false, now, decay) != Allowed {
        assert done + items[..0] == done;
      } else {
        TakeTokensCharges(q, t', done + [head], tail, now, decay);
        var (u, n) := TakeTokens(t', tail, now, decay);
        assert done + [head] + tail[..n] == done + items[..n + 1];
        assert done + [head] + tail == done + items;
      }
    }
  }

  lemma FitNothing(q: Quota, done: seq<TokenItem>, now: int, decay: Decay)
    ensures TokensFit(q, done, [], now, decay)
  {
  }

  // ---------------------------------------------------------------- giving back

  /** Returning the last grant takes exactly it off again. */
  lemma OneReturn(q: Quota, t: Quota, done: seq<TokenItem>, touched: set<string>, now: int, decay: Decay)
    requires UsedNonNegative(q) && done != [] && ChargedFor(q, t, done, touched, now, decay)
    ensures var last := done[|done| - 1];
            ChargedFor(q, ReturnTokens(t, last.caller, last.tokens, now, decay), done[..|done| - 1], touched, now, decay)
  {
    var last, rest := done[|done| - 1], done[..|done| - 1];
    assert done == rest + [last];
    assert last in done;
    assert Positive(rest);
    forall c ensures TokensFor(done, c) == TokensFor(rest, c) + (if last.caller == c then last.tokens else 0) {
      TokensForAppend(rest, last, c);
    }
    assert Callers(rest) <= touched by {
      TokensForAppend(rest, last, "");
    }
    if last.caller in q.bindings {
      TouchedTick(q, t, done, touched, last.caller, now, decay);
      TickSettles(q.policies, q.bindings[last.caller], now, decay);
      TokensNonNegative(rest, last.caller);
    }
    hide Tick, Callers, TokensFor, Settled;
  }

  lemma {:induction false} ReturnBackUndoes(q: Quota, t: Quota, done: seq<TokenItem>, touched: set<string>, now: int, decay: Decay)
    requires UsedNonNegative(q) && ChargedFor(q, t, done, touched, now, decay)
    ensures ChargedFor(q, ReturnBack(t, done, now, decay), [], touched, now, decay)
    decreases |done|
  {
    hide ChargedFor, ReturnTokens, UsedNonNegative;
    if done != [] {
      OneReturn(q, t, done, touched, now, decay);
      var last := done[|done| - 1];
      ReturnBackUndoes(q, ReturnTokens(t, last.caller, last.tokens, now, decay), done[..|done| - 1], touched, now, decay);
    }
  }

  /** Nothing but the clock has been at the callers; applied everywhere, it tells no difference. */
  ghost predicate OnlyClock(q: Quota, t: Quota, now: int, decay: Decay) {
    && t == q.(bindings := t.bindings) && t.bindings.Keys == q.bindings.Keys
    && (forall c | c in q.bindings ::
          t.bindings[c] == q.bindings[c] || t.bindings[c] == Tick(q.policies, q.bindings[c], now, decay))
    && TickAll(t, now, decay) == TickAll(q, now, decay)
  }

  lemma ClockOnly(q: Quota, t: Quota, touched: set<string>, now: int, decay: Decay)
    requires ChargedFor(q, t, [], touched, now, decay)
    ensures OnlyClock(q, t, now, decay)
  {
    hide Tick;
    forall c | c in q.bindings
      ensures t.bindings[c] == q.bindings[c] || t.bindings[c] == Tick(q.policies, q.bindings[c], now, decay)
      ensures Tick(t.policies, t.bindings[c], now, decay) == Tick(q.policies, q.bindings[c], now, decay)
    {
      TouchedTick(q, t, [], touched, c, now, decay);
    }
    assert TickAll(t, now, decay).bindings == TickAll(q, now, decay).bindings;
  }

  lemma NothingCharged(q: Quota, now: int, decay: Decay)
    ensures ChargedFor(q, q, [], {}, now, decay) && Callers([]) == {}
  {
  }

  /** Rolling back whatever was granted. */
  lemma TokensUndone(q: Quota, items: seq<TokenItem>, now: int, decay: Decay)
    requires UsedNonNegative(q)
    ensures var (u, n) := TakeTokens(q, items, now, decay);
            n <= |items| && OnlyClock(q, ReturnBack(u, items[..n], now, decay), now, decay)
  {
    hide ChargedFor, OnlyClock, UsedNonNegative, TakeTokens, ReturnBack, TokensFit, Callers;
    NothingCharged(q, now, decay);
    TakeTokensCharges(q, q, [], items, now, decay);
    var (u, n) := TakeTokens(q, items, now, decay);
    assert [] + items[..n] == items[..n];
    var touched :| ChargedFor(q, u, items[..n], touched, now, decay);
    ReturnBackUndoes(q, u, items[..n], touched, now, decay);
    ClockOnly(q, ReturnBack(u, items[..n], now, decay), touched, now, decay);
  }
}
