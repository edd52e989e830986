/** What creating a transaction does to the lock table and to the quotas, after `CreateTx` of
    internal/orchestration/manager.go: take every lock, then every token grant; on the first
    failure give everything back. */
module TxSpec {
  import opened LockSpec
  import QuotaSpec

  datatype LockItem = LockItem(name: string, leaseSec: int)
  datatype TokenItem = TokenItem(caller: string, tokens: int)

  function NamesOf(items: seq<LockItem>): (r: seq<string>)
    ensures |r| == |items|
    ensures forall i | 0 <= i < |r| :: r[i] == items[i].name
  {
    seq(|items|, i requires 0 <= i < |items| => items[i].name)
  }

  /** Requests the locks in order, none reentrantly, until one is not acquired at once; says how many
      were. The `i`-th request finds `envs(from + i)` around it. */
  ghost function TakeLocks(s: State, items: seq<LockItem>, holder: string, envs: nat -> Env, from: nat): (State, nat)
    decreases |items|
  {
    if items == [] then (s, 0)
    else
      var t := Acquire(s, items[0].name, holder, items[0].leaseSec, false, envs(from));
      if AcquireOutcome(s, items[0].name, holder, items[0].leaseSec, false, envs(from)) != Acquired then (t, 0)
      else
        var (u, n) := TakeLocks(t, items[1..], holder, envs, from + 1);
        (u, n + 1)
  }

  /** Requests the tokens in order, none queued, until one is not allowed; says how many were. */
  function TakeTokens(q: QuotaSpec.Quota, items: seq<TokenItem>, now: int, decay: QuotaSpec.Decay): (QuotaSpec.Quota, nat)
    decreases |items|
  {
    if items == [] then (q, 0)
    else
      var t := QuotaSpec.Request(q, items[0].caller, items[0].tokens, false, 0, now, decay);
      if QuotaSpec.RequestAnswer(q, items[0].caller, items[0].tokens, false, now, decay) != QuotaSpec.Allowed then (t, 0)
      else
        var (u, n) := TakeTokens(t, items[1..], now, decay);
        (u, n + 1)
  }

  /** Returns the tokens from the last grant to the first. */
  function ReturnBack(q: QuotaSpec.Quota, items: seq<TokenItem>, now: int, decay: QuotaSpec.Decay): QuotaSpec.Quota
    decreases |items|
  {
    if items == [] then q
    else
      var last := items[|items| - 1];
      ReturnBack(QuotaSpec.ReturnTokens(q, last.caller, last.tokens, now, decay), items[..|items| - 1], now, decay)
  }

  datatype TxResult = TxResult(state: State, quota: QuotaSpec.Quota, committed: bool)

  /** `items` is the list of locks sorted by name; `undo` is what the rollback finds around it. */
  ghost function CreateTx(s: State, q: QuotaSpec.Quota, holder: string, items: seq<LockItem>, tokens: seq<TokenItem>,
                          envs: nat -> Env, undo: Env, now: int, decay: QuotaSpec.Decay): (r: TxResult)
  {
    LocksTaken(s, items, holder, envs, 0);
    TokensTaken(q, tokens, now, decay);
    var (s1, n) := TakeLocks(s, items, holder, envs, 0);
    if n < |items| then
      TxResult(CancelWaits(ReleaseBack(s1, NamesOf(items[..n]), holder, undo), holder), q, false)
    else
      var (q1, k) := TakeTokens(q, tokens, now, decay);
      if k < |tokens| then
        TxResult(CancelWaits(ReleaseBack(s1, NamesOf(items), holder, undo), holder), ReturnBack(q1, tokens[..k], now, decay), false)
      else TxResult(s1, q1, true)
  }

  lemma {:induction false} LocksTaken(s: State, items: seq<LockItem>, holder: string, envs: nat -> Env, from: nat)
    ensures TakeLocks(s, items, holder, envs, from).1 <= |items|
    decreases |items|
  {
    hide Acquire, AcquireOutcome;
    if items != [] {
      LocksTaken(Acquire(s, items[0].name, holder, items[0].leaseSec, false, envs(from)), items[1..], holder, envs, from + 1);
    }
  }

  lemma {:induction false} TokensTaken(q: QuotaSpec.Quota, items: seq<TokenItem>, now: int, decay: QuotaSpec.Decay)
    ensures TakeTokens(q, items, now, decay).1 <= |items|
    decreases |items|
  {
    hide QuotaSpec.Request, QuotaSpec.RequestAnswer;
    if items != [] {
      TokensTaken(QuotaSpec.Request(q, items[0].caller, items[0].tokens, false, 0, now, decay), items[1..], now, decay);
    }
  }
}
