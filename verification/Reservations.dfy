/** The reservation conflict check of internal/ratelimit/manager.go: interval ends become
    events, an exchange sort puts them in time order, and a running sum looks for a moment
    above the policy's limit. */
module Reservations {
  import opened Sums

  datatype ResStatus = Pending | Active | Completed | Cancelled
  datatype Reservation = Reservation(policy: string, caller: string, tokens: int,
                                     startAt: int, endAt: int, status: ResStatus)

  datatype Event = Event(time: int, delta: int)

  predicate Live(r: Reservation) {
    r.status == Pending || r.status == Active
  }

  /** Reservations as they are created: a positive amount over a non-empty interval. */
  ghost predicate ProperIntervals(res: map<nat, Reservation>) {
    forall id | id in res :: res[id].tokens > 0 && res[id].startAt < res[id].endAt
  }

  // ---------------------------------------------------------------- load

  /** Tokens that an interval occupies at `t`, its end excluded or included. */
  function HalfOpen(tokens: int, startAt: int, endAt: int, t: int): int {
    if startAt <= t < endAt then tokens else 0
  }

  function Closed(tokens: int, startAt: int, endAt: int, t: int): int {
    if startAt <= t <= endAt then tokens else 0
  }

  predicate Counts(r: Reservation, policy: string) {
    r.policy == policy && Live(r)
  }

  function HalfShare(r: Reservation, policy: string, t: int): int {
    if Counts(r, policy) then HalfOpen(r.tokens, r.startAt, r.endAt, t) else 0
  }

  function ClosedShare(r: Reservation, policy: string, t: int): int {
    if Counts(r, policy) then Closed(r.tokens, r.startAt, r.endAt, t) else 0
  }

  ghost function HalfShares(res: map<nat, Reservation>, policy: string, t: int): map<nat, int> {
    map id | id in res :: HalfShare(res[id], policy, t)
  }

  ghost function ClosedShares(res: map<nat, Reservation>, policy: string, t: int): map<nat, int> {
    map id | id in res :: ClosedShare(res[id], policy, t)
  }

  /** What the live reservations of a policy occupy at `t`. */
  ghost function Load(res: map<nat, Reservation>, policy: string, t: int): int {
    Sum(HalfShares(res, policy, t))
  }

  ghost function ClosedLoad(res: map<nat, Reservation>, policy: string, t: int): int {
    Sum(ClosedShares(res, policy, t))
  }

  /** At no moment would the live reservations and a new one pass the limit. */
  ghost predicate Fits(res: map<nat, Reservation>, policy: string, max: int, tokens: int, startAt: int, endAt: int) {
    forall t :: Load(res, policy, t) + HalfOpen(tokens, startAt, endAt, t) <= max
  }

  /** At some moment they would, counting intervals with both their ends. */
  ghost predicate Overfull(res: map<nat, Reservation>, policy: string, max: int, tokens: int, startAt: int, endAt: int) {
    exists t :: ClosedLoad(res, policy, t) + Closed(tokens, startAt, endAt, t) > max
  }

  // ---------------------------------------------------------------- exchange sort

  ghost predicate Sorted(s: seq<Event>) {
    forall i, j | 0 <= i < j < |s| :: s[i].time <= s[j].time
  }

  function Swap(s: seq<Event>, i: nat, j: nat): (r: seq<Event>)
    requires i < |s| && j < |s|
    ensures |r| == |s| && r[i] == s[j] && r[j] == s[i]
    ensures forall k | 0 <= k < |s| && k != i && k != j :: r[k] == s[k]
  {
    s[i := s[j]][j := s[i]]
  }

  lemma SwapKeeps(s: seq<Event>, i: nat, j: nat)
    requires i < |s| && j < |s|
    ensures multiset(Swap(s, i, j)) == multiset(s)
  {
    var half := s[i := s[j]];
    assert multiset(half) == multiset(s) - multiset{s[i]} + multiset{s[j]};
    assert multiset(Swap(s, i, j)) == multiset(half) - multiset{half[j]} + multiset{s[i]};
  }

  /** The first `n` comparisons of the inner loop: the head is exchanged with each earlier event. */
  function Pass(s: seq<Event>, n: nat): (r: seq<Event>)
    requires n < |s|
    ensures |r| == |s|
    ensures forall k | n < k < |s| :: r[k] == s[k]
  {
    if n == 0 then s
    else
      var r := Pass(s, n - 1);
      if r[0].time > r[n].time then Swap(r, 0, n) else r
  }

  function ExchangeSort(s: seq<Event>): (r: seq<Event>)
    ensures |r| == |s|
    decreases |s|
  {
    if s == [] then []
    else
      var p := Pass(s, |s| - 1);
      [p[0]] + ExchangeSort(p[1..])
  }

  lemma {:induction false} PassProperties(s: seq<Event>, n: nat)
    requires n < |s|
    ensures multiset(Pass(s, n)) == multiset(s)
    ensures forall k | 0 <= k <= n :: Pass(s, n)[0].time <= Pass(s, n)[k].time
  {
    hide Swap;
    if n > 0 {
      PassProperties(s, n - 1);
      SwapKeeps(Pass(s, n - 1), 0, n);
    }
  }

  lemma {:induction false} ExchangeSortSorts(s: seq<Event>)
    ensures Sorted(ExchangeSort(s)) && multiset(ExchangeSort(s)) == multiset(s)
    decreases |s|
  {
    hide Pass;
    if s != [] {
      var p := Pass(s, |s| - 1);
      PassProperties(s, |s| - 1);
      ExchangeSortSorts(p[1..]);
      var rest := ExchangeSort(p[1..]);
      assert p == [p[0]] + p[1..];
      hide Sorted;
      SameElements(rest, p[1..]);
      forall k | 0 <= k < |rest| ensures p[0].time <= rest[k].time {
        assert rest[k] in p[1..];
      }
      SortedCons(p[0], rest);
    }
  }

  lemma SortedCons(first: Event, rest: seq<Event>)
    requires Sorted(rest) && forall k | 0 <= k < |rest| :: first.time <= rest[k].time
    ensures Sorted([first] + rest)
  {
  }

  lemma SameElements(a: seq<Event>, b: seq<Event>)
    requires multiset(a) == multiset(b)
    ensures forall e | e in a :: e in b
  {
    forall e | e in a ensures e in b {
      assert e in multiset(a);
    }
  }

  method ExchangeSortInPlace(a: array<Event>)
    modifies a
    ensures a[..] == ExchangeSort(old(a[..]))
  {
    hide Pass, ExchangeSort;
    var n := a.Length;
    assert a[..0] == [] && a[0..] == a[..];
    var i := 0;
    while i < n
      invariant 0 <= i <= n
      invariant a[..i] + ExchangeSort(a[i..]) == ExchangeSort(old(a[..]))
    {
      SortStep(a[..i], a[i..]);
      InnerLoop(a, i);
      assert a[..i + 1] == a[..i] + [a[i]];
      assert a[i..][1..] == a[i + 1..];
      i := i + 1;
    }
    assert a[..n] == a[..] && a[n..] == [];
    SortNone();
  }

  /** The inner loop: the earliest of the events from `i` on comes to `i`. */
  method InnerLoop(a: array<Event>, i: nat)
    requires i < a.Length
    modifies a
    ensures a[..i] == old(a[..i])
    ensures a[i..] == Pass(old(a[i..]), a.Length - i - 1)
  {
    hide Pass, Swap;
    ghost var before := a[i..];
    PassNone(before);
    var j := i + 1;
    while j < a.Length
      invariant i + 1 <= j <= a.Length
      invariant a[..i] == old(a[..i])
      invariant a[i..] == Pass(before, j - i - 1)
    {
      ghost var s := a[..];
      assert s[i..] == a[i..] && s[..i] == a[..i];
      SwapStep(s, i, j, before);
      if a[i].time > a[j].time {
        a[i], a[j] := a[j], a[i];
        assert a[..] == Swap(s, i, j);
      }
      assert a[..][i..] == a[i..] && a[..][..i] == a[..i];
      j := j + 1;
    }
  }

  lemma SortStep(front: seq<Event>, s: seq<Event>)
    requires s != []
    ensures var p := Pass(s, |s| - 1);
            front + ExchangeSort(s) == (front + [p[0]]) + ExchangeSort(p[1..])
  {
    hide Pass;
    var p := Pass(s, |s| - 1);
    Regroup(front, [p[0]], ExchangeSort(p[1..]));
  }

  lemma Regroup(a: seq<Event>, b: seq<Event>, c: seq<Event>)
    ensures a + (b + c) == (a + b) + c
  {
  }

  lemma SortNone()
    ensures ExchangeSort([]) == []
  {
  }

  lemma SwapStep(s: seq<Event>, i: nat, j: nat, before: seq<Event>)
    requires i < j < |s| && |before| == |s| - i
    requires s[i..] == Pass(before, j - i - 1)
    ensures var t := if s[i].time > s[j].time then Swap(s, i, j) else s;
            t[i..] == Pass(before, j - i) && t[..i] == s[..i]
  {
    assert s[i..][0] == s[i] && s[i..][j - i] == s[j];
    assert Swap(s, i, j)[i..] == Swap(s[i..], 0, j - i);
  }

  lemma PassNone(s: seq<Event>)
    ensures s != [] ==> Pass(s, 0) == s
  {
  }

  // ---------------------------------------------------------------- sweep

  function PrefixSum(s: seq<Event>, k: nat): int
    requires k <= |s|
  {
    SumBy(s[..k], (e: Event) => e.delta)
  }

  predicate Exceeds(s: seq<Event>, max: int) {
    exists k: nat :: 1 <= k <= |s| && PrefixSum(s, k) > max
  }

  method Sweep(s: seq<Event>, max: int) returns (conflict: bool)
    ensures conflict <==> Exceeds(s, max)
  {
    var current := 0;
    for i := 0 to |s|
      invariant current == PrefixSum(s, i)
      invariant forall k: nat | 1 <= k <= i :: PrefixSum(s, k) <= max
    {
      PrefixNext(s, i);
      current := current + s[i].delta;
      if current > max {
        return true;
      }
    }
    conflict := false;
  }

  lemma PrefixNext(s: seq<Event>, i: nat)
    requires i < |s|
    ensures PrefixSum(s, i + 1) == PrefixSum(s, i) + s[i].delta
  {
    assert s[..i + 1] == s[..i] + [s[i]];
    SumByAppend(s[..i], [s[i]], (e: Event) => e.delta);
  }

  // ---------------------------------------------------------------- events

  function HalfAt(t: int): Event -> int {
    (e: Event) => if e.time <= t then e.delta else 0
  }

  function ClosedAt(t: int): Event -> int {
    (e: Event) => if e.time < t || (e.time == t && e.delta > 0) then e.delta else 0
  }

  function Ends(tokens: int, startAt: int, endAt: int): seq<Event> {
    [Event(startAt, tokens), Event(endAt, -tokens)]
  }

  lemma EndsSums(tokens: int, startAt: int, endAt: int, t: int)
    requires tokens > 0 && startAt < endAt
    ensures SumBy(Ends(tokens, startAt, endAt), HalfAt(t)) == HalfOpen(tokens, startAt, endAt, t)
    ensures SumBy(Ends(tokens, startAt, endAt), ClosedAt(t)) == Closed(tokens, startAt, endAt, t)
  {
    var a, b := Event(startAt, tokens), Event(endAt, -tokens);
    assert Ends(tokens, startAt, endAt)[1..] == [b];
    assert SumBy([b], HalfAt(t)) == HalfAt(t)(b);
    assert SumBy([b], ClosedAt(t)) == ClosedAt(t)(b);
  }

  /** The events stand for these reservations and a new one. */
  ghost predicate Represents(ev: seq<Event>, res: map<nat, Reservation>, policy: string, tokens: int, startAt: int, endAt: int) {
    forall t ::
      && SumBy(ev, HalfAt(t)) == Load(res, policy, t) + HalfOpen(tokens, startAt, endAt, t)
      && SumBy(ev, ClosedAt(t)) == ClosedLoad(res, policy, t) + Closed(tokens, startAt, endAt, t)
  }

  /** `seen` and one reservation more. */
  lemma LoadGrows(res: map<nat, Reservation>, seen: set<nat>, id: nat, policy: string, t: int)
    requires id in res && id !in seen && seen <= res.Keys
    ensures Load(Only(res, seen + {id}), policy, t) == Load(Only(res, seen), policy, t) + HalfShare(res[id], policy, t)
    ensures ClosedLoad(Only(res, seen + {id}), policy, t)
            == ClosedLoad(Only(res, seen), policy, t) + ClosedShare(res[id], policy, t)
  {
    var m, n := HalfShares(Only(res, seen), policy, t), ClosedShares(Only(res, seen), policy, t);
    assert HalfShares(Only(res, seen + {id}), policy, t) == m[id := HalfShare(res[id], policy, t)];
    assert ClosedShares(Only(res, seen + {id}), policy, t) == n[id := ClosedShare(res[id], policy, t)];
    SumUpdate(m, id, HalfShare(res[id], policy, t));
    SumUpdate(n, id, ClosedShare(res[id], policy, t));
  }

  ghost function Only(res: map<nat, Reservation>, ids: set<nat>): map<nat, Reservation>
    requires ids <= res.Keys
  {
    map id | id in ids :: res[id]
  }

  lemma AddEnds(ev: seq<Event>, res: map<nat, Reservation>, seen: set<nat>, id: nat, policy: string,
                tokens: int, startAt: int, endAt: int)
    requires ProperIntervals(res) && id in res && id !in seen && seen <= res.Keys
    requires Represents(ev, Only(res, seen), policy, tokens, startAt, endAt)
    ensures var r := res[id];
            Represents(if Counts(r, policy) then ev + Ends(r.tokens, r.startAt, r.endAt) else ev,
                       Only(res, seen + {id}), policy, tokens, startAt, endAt)
  {
    var r := res[id];
    var more := Ends(r.tokens, r.startAt, r.endAt);
    var after := if Counts(r, policy) then ev + more else ev;
    hide Load, ClosedLoad, Only, Ends, SumBy, HalfOpen, Closed;
    forall t
      ensures SumBy(after, HalfAt(t)) == Load(Only(res, seen + {id}), policy, t) + HalfOpen(tokens, startAt, endAt, t)
      ensures SumBy(after, ClosedAt(t)) == ClosedLoad(Only(res, seen + {id}), policy, t) + Closed(tokens, startAt, endAt, t)
    {
      LoadGrows(res, seen, id, policy, t);
      if Counts(r, policy) {
        SumByAppend(ev, more, HalfAt(t));
        SumByAppend(ev, more, ClosedAt(t));
        EndsSums(r.tokens, r.startAt, r.endAt, t);
      }
    }
  }

  lemma NewAlone(tokens: int, startAt: int, endAt: int, policy: string)
    requires tokens > 0 && startAt < endAt
    ensures Represents(Ends(tokens, startAt, endAt), map[], policy, tokens, startAt, endAt)
  {
    forall t
      ensures SumBy(Ends(tokens, startAt, endAt), HalfAt(t)) == Load(map[], policy, t) + HalfOpen(tokens, startAt, endAt, t)
      ensures SumBy(Ends(tokens, startAt, endAt), ClosedAt(t)) == ClosedLoad(map[], policy, t) + Closed(tokens, startAt, endAt, t)
    {
      EndsSums(tokens, startAt, endAt, t);
      assert HalfShares(map[], policy, t) == map[] && ClosedShares(map[], policy, t) == map[];
    }
  }

  /** The ends of the live reservations of a policy, in the order in which the map is iterated. */
  function EventList(res: map<nat, Reservation>, order: seq<nat>, policy: string): seq<Event> {
    if order == [] then []
    else
      var id := order[0];
      (if id in res && Counts(res[id], policy) then Ends(res[id].tokens, res[id].startAt, res[id].endAt) else [])
      + EventList(res, order[1..], policy)
  }

  /** All the events of a check: the new reservation first. */
  function CheckEvents(res: map<nat, Reservation>, order: seq<nat>, policy: string, tokens: int, startAt: int, endAt: int)
    : seq<Event>
  {
    Ends(tokens, startAt, endAt) + EventList(res, order, policy)
  }

  /** The answer of the check for one order of iteration. */
  predicate ConflictIn(res: map<nat, Reservation>, order: seq<nat>, policy: string, max: int, tokens: int, startAt: int, endAt: int) {
    Exceeds(ExchangeSort(CheckEvents(res, order, policy, tokens, startAt, endAt)), max)
  }

  /** Every key exactly once. */
  ghost predicate IsOrder(order: seq<nat>, ids: set<nat>) {
    && (forall i, j | 0 <= i < j < |order| :: order[i] != order[j])
    && (set id | id in order) == ids
  }

  lemma {:induction false} EventListAppend(res: map<nat, Reservation>, order: seq<nat>, id: nat, policy: string)
    requires id in res
    ensures EventList(res, order + [id], policy)
            == EventList(res, order, policy)
               + (if Counts(res[id], policy) then Ends(res[id].tokens, res[id].startAt, res[id].endAt) else [])
    decreases |order|
  {
    hide Ends, Counts;
    if order == [] {
      assert order + [id] == [id];
      assert EventList(res, [id][1..], policy) == [];
    } else {
      assert (order + [id])[1..] == order[1..] + [id];
      EventListAppend(res, order[1..], id, policy);
    }
  }

  /** Part of an order, and the keys it has come to. */
  lemma {:induction false} PartListed(res: map<nat, Reservation>, order: seq<nat>, seen: set<nat>, policy: string,
                                      tokens: int, startAt: int, endAt: int)
    requires ProperIntervals(res) && tokens > 0 && startAt < endAt && IsOrder(order, seen) && seen <= res.Keys
    ensures Represents(CheckEvents(res, order, policy, tokens, startAt, endAt), Only(res, seen), policy, tokens, startAt, endAt)
    decreases |order|
  {
    hide Represents, Only, Ends, ProperIntervals, Counts;
    if order == [] {
      assert seen == {};
      OnlyNone(res);
      NewAlone(tokens, startAt, endAt, policy);
      assert Ends(tokens, startAt, endAt) + [] == Ends(tokens, startAt, endAt);
    } else {
      var front, id := order[..|order| - 1], order[|order| - 1];
      assert order == front + [id];
      OrderFront(order, seen);
      var before := CheckEvents(res, front, policy, tokens, startAt, endAt);
      PartListed(res, front, seen - {id}, policy, tokens, startAt, endAt);
      EventListAppend(res, front, id, policy);
      AddEnds(before, res, seen - {id}, id, policy, tokens, startAt, endAt);
      assert seen - {id} + {id} == seen;
      var more := if Counts(res[id], policy) then Ends(res[id].tokens, res[id].startAt, res[id].endAt) else [];
      Regroup(Ends(tokens, startAt, endAt), EventList(res, front, policy), more);
      assert CheckEvents(res, order, policy, tokens, startAt, endAt) == before + more;
      assert before + [] == before;
    }
  }

  lemma OrderFront(order: seq<nat>, ids: set<nat>)
    requires order != [] && IsOrder(order, ids)
    ensures var id := order[|order| - 1];
            id in ids && IsOrder(order[..|order| - 1], ids - {id})
  {
    var front, id := order[..|order| - 1], order[|order| - 1];
    assert order == front + [id];
    forall x ensures x in front <==> x in ids && x != id {
      assert x in ids <==> x in order;
    }
  }

  /** The events of a check stand for the live reservations of the policy and the new one. */
  lemma EventsRepresent(res: map<nat, Reservation>, order: seq<nat>, policy: string, tokens: int, startAt: int, endAt: int)
    requires ProperIntervals(res) && tokens > 0 && startAt < endAt && IsOrder(order, res.Keys)
    ensures Represents(CheckEvents(res, order, policy, tokens, startAt, endAt), res, policy, tokens, startAt, endAt)
  {
    hide Represents, Only;
    PartListed(res, order, res.Keys, policy, tokens, startAt, endAt);
    OnlyAll(res, res.Keys);
  }

  /** The events of a check, the existing reservations in any order. */
  method EventsOf(res: map<nat, Reservation>, policy: string, tokens: int, startAt: int, endAt: int)
    returns (ev: seq<Event>, ghost order: seq<nat>)
    ensures IsOrder(order, res.Keys) && ev == CheckEvents(res, order, policy, tokens, startAt, endAt)
  {
    hide Ends;
    ev := [Event(startAt, tokens), Event(endAt, -tokens)];
    EndsAre(tokens, startAt, endAt);
    order := [];
    assert ev == Ends(tokens, startAt, endAt) + [];
    var todo := res.Keys;
    while todo != {}
      invariant todo <= res.Keys && IsOrder(order, res.Keys - todo)
      invariant ev == CheckEvents(res, order, policy, tokens, startAt, endAt)
      decreases todo
    {
      var id :| id in todo;
      EventListAppend(res, order, id, policy);
      OrderGrows(order, res.Keys - todo, id);
      todo := todo - {id};
      assert res.Keys - todo == res.Keys - (todo + {id}) + {id};
      var r := res[id];
      if r.policy == policy && (r.status == Pending || r.status == Active) {
        EndsAre(r.tokens, r.startAt, r.endAt);
        Regroup(Ends(tokens, startAt, endAt), EventList(res, order, policy), Ends(r.tokens, r.startAt, r.endAt));
        ev := ev + [Event(r.startAt, r.tokens), Event(r.endAt, -r.tokens)];
      } else {
        assert EventList(res, order, policy) + [] == EventList(res, order, policy);
      }
      order := order + [id];
    }
    assert res.Keys - todo == res.Keys;
  }

  lemma OrderGrows(order: seq<nat>, ids: set<nat>, id: nat)
    requires IsOrder(order, ids) && id !in ids
    ensures IsOrder(order + [id], ids + {id})
  {
    forall x ensures x in order + [id] <==> x in ids + {id} {
      assert x in ids <==> x in order;
    }
    assert id !in order;
  }

  lemma EndsAre(tokens: int, startAt: int, endAt: int)
    ensures Ends(tokens, startAt, endAt) == [Event(startAt, tokens), Event(endAt, -tokens)]
  {
  }

  lemma OnlyNone(res: map<nat, Reservation>)
    ensures Only(res, {}) == map[]
  {
  }

  lemma OnlyAll(res: map<nat, Reservation>, ids: set<nat>)
    requires ids == res.Keys
    ensures Only(res, ids) == res
  {
  }

  // ---------------------------------------------------------------- what the sweep means

  /** In time order, the events up to `t` are a prefix. */
  lemma PrefixUpTo(s: seq<Event>, t: int) returns (k: nat)
    requires Sorted(s)
    ensures k <= |s| && PrefixSum(s, k) == SumBy(s, HalfAt(t))
  {
    hide SumBy;
    k := SplitAt(s, t);
    var front, back := s[..k], s[k..];
    assert s == front + back;
    SumByAppend(front, back, HalfAt(t));
    SameSum(front, (e: Event) => e.delta, HalfAt(t));
    SumByNothing(back, HalfAt(t));
  }

  lemma SplitAt(s: seq<Event>, t: int) returns (k: nat)
    requires Sorted(s)
    ensures k <= |s| && (forall e | e in s[..k] :: e.time <= t) && (forall e | e in s[k..] :: e.time > t)
  {
    k := |s|;
    while k > 0 && s[k - 1].time > t
      invariant 0 <= k <= |s|
      invariant forall i | k <= i < |s| :: s[i].time > t
    {
      k := k - 1;
    }
  }

  lemma {:induction false} SameSum(s: seq<Event>, f: Event -> int, g: Event -> int)
    requires forall e | e in s :: f(e) == g(e)
    ensures SumBy(s, f) == SumBy(s, g)
  {
    SumByMonotone(s, f, g);
    SumByMonotone(s, g, f);
  }

  lemma {:induction false} SumByNothing(s: seq<Event>, f: Event -> int)
    requires forall e | e in s :: f(e) == 0
    ensures SumBy(s, f) == 0
  {
    if s != [] {
      assert s[0] in s;
      SumByNothing(s[1..], f);
    }
  }

  /** Every prefix of a sorted list sums to at most the closed load at its last event. */
  lemma PrefixBelowClosed(s: seq<Event>, k: nat)
    requires Sorted(s) && 1 <= k <= |s|
    ensures PrefixSum(s, k) <= SumBy(s, ClosedAt(s[k - 1].time))
  {
    hide SumBy, Sorted;
    var t := s[k - 1].time;
    var front, back := s[..k], s[k..];
    assert s == front + back;
    SumByAppend(front, back, ClosedAt(t));
    SortedSplit(s, k);
    SumByMonotone(front, (e: Event) => e.delta, ClosedAt(t));
    SumByNothing(back, (e: Event) => 0);
    SumByMonotone(back, (e: Event) => 0, ClosedAt(t));
  }

  lemma SortedSplit(s: seq<Event>, k: nat)
    requires Sorted(s) && 1 <= k <= |s|
    ensures forall e | e in s[..k] :: e.time <= s[k - 1].time
    ensures forall e | e in s[k..] :: e.time >= s[k - 1].time
  {
  }

  /** Whatever the order of simultaneous events: no excess in the sweep means the new
      reservation fits at every moment, and an excess means an overfull moment if intervals
      are counted with both their ends. */
  lemma SweepMeaning(ev: seq<Event>, sorted: seq<Event>, res: map<nat, Reservation>, policy: string, max: int,
                     tokens: int, startAt: int, endAt: int)
    requires Represents(ev, res, policy, tokens, startAt, endAt) && max >= 0
    requires Sorted(sorted) && multiset(sorted) == multiset(ev)
    ensures !Exceeds(sorted, max) ==> Fits(res, policy, max, tokens, startAt, endAt)
    ensures Exceeds(sorted, max) ==> Overfull(res, policy, max, tokens, startAt, endAt)
  {
    hide Load, ClosedLoad, HalfOpen, Closed, SumBy, Sorted;
    if !Exceeds(sorted, max) {
      forall t ensures Load(res, policy, t) + HalfOpen(tokens, startAt, endAt, t) <= max {
        var k := PrefixUpTo(sorted, t);
        SumByPermuted(sorted, ev, HalfAt(t));
        EmptyPrefix(sorted);
      }
    } else {
      var k: nat :| 1 <= k <= |sorted| && PrefixSum(sorted, k) > max;
      PrefixBelowClosed(sorted, k);
      SumByPermuted(sorted, ev, ClosedAt(sorted[k - 1].time));
    }
  }

  lemma EmptyPrefix(s: seq<Event>)
    ensures PrefixSum(s, 0) == 0
  {
  }

  /** The answer for any order of iteration: no conflict means the reservation fits, a conflict that
      some moment is overfull. */
  lemma ConflictMeaning(res: map<nat, Reservation>, order: seq<nat>, policy: string, max: int, tokens: int, startAt: int, endAt: int)
    requires ProperIntervals(res) && tokens > 0 && startAt < endAt && max >= 0 && IsOrder(order, res.Keys)
    ensures !ConflictIn(res, order, policy, max, tokens, startAt, endAt) ==> Fits(res, policy, max, tokens, startAt, endAt)
    ensures ConflictIn(res, order, policy, max, tokens, startAt, endAt) ==> Overfull(res, policy, max, tokens, startAt, endAt)
  {
    hide Fits, Overfull, Represents, ProperIntervals, Sorted, Exceeds, ExchangeSort, CheckEvents;
    var events := CheckEvents(res, order, policy, tokens, startAt, endAt);
    EventsRepresent(res, order, policy, tokens, startAt, endAt);
    ExchangeSortSorts(events);
    SweepMeaning(events, ExchangeSort(events), res, policy, max, tokens, startAt, endAt);
  }

  method CheckConflict(res: map<nat, Reservation>, policy: string, max: int, tokens: int, startAt: int, endAt: int)
    returns (conflict: bool, ghost order: seq<nat>)
    ensures IsOrder(order, res.Keys)
    ensures conflict <==> ConflictIn(res, order, policy, max, tokens, startAt, endAt)
    ensures ProperIntervals(res) && 0 < tokens <= max && startAt < endAt && !conflict ==>
              Fits(res, policy, max, tokens, startAt, endAt)
    ensures ProperIntervals(res) && 0 < tokens <= max && startAt < endAt && conflict ==>
              Overfull(res, policy, max, tokens, startAt, endAt)
  {
    hide Fits, Overfull, ProperIntervals, Exceeds, CheckEvents, IsOrder;
    var events, o := EventsOf(res, policy, tokens, startAt, endAt);
    order := o;
    var a := new Event[|events|](i requires 0 <= i < |events| => events[i]);
    assert a[..] == events;
    ExchangeSortInPlace(a);
    conflict := Sweep(a[..], max);
    if ProperIntervals(res) && 0 < tokens <= max && startAt < endAt {
      ConflictMeaning(res, order, policy, max, tokens, startAt, endAt);
    }
  }

  // ---------------------------------------------------------------- touching intervals

  /** Nothing of this policy ends at the moment something else starts. */
  ghost predicate NoneTouch(res: map<nat, Reservation>, policy: string, startAt: int, endAt: int) {
    && (forall id | id in res && Counts(res[id], policy) :: res[id].startAt != endAt && res[id].endAt != startAt)
    && (forall i, j | i in res && j in res && Counts(res[i], policy) && Counts(res[j], policy) ::
          res[i].endAt != res[j].startAt)
  }

  /** If no two intervals touch, the check reports a conflict exactly when the limit would
      be passed at some moment. */
  lemma ExactWhenNoneTouch(res: map<nat, Reservation>, policy: string, max: int, tokens: int, startAt: int, endAt: int)
    requires ProperIntervals(res) && tokens > 0 && startAt < endAt && NoneTouch(res, policy, startAt, endAt)
    ensures Overfull(res, policy, max, tokens, startAt, endAt) <==> !Fits(res, policy, max, tokens, startAt, endAt)
  {
    if Overfull(res, policy, max, tokens, startAt, endAt) {
      var t :| ClosedLoad(res, policy, t) + Closed(tokens, startAt, endAt, t) > max;
      ClosedIsHalfOpen(res, policy, tokens, startAt, endAt, t);
    }
    if !Fits(res, policy, max, tokens, startAt, endAt) {
      var t :| Load(res, policy, t) + HalfOpen(tokens, startAt, endAt, t) > max;
      SumMonotone(HalfShares(res, policy, t), ClosedShares(res, policy, t));
      assert ClosedLoad(res, policy, t) + Closed(tokens, startAt, endAt, t) > max;
    }
  }

  /** At a moment where nothing ends the two loads agree; where something ends, nothing
      starts, and the closed load is the load just before. */
  lemma ClosedIsHalfOpen(res: map<nat, Reservation>, policy: string, tokens: int, startAt: int, endAt: int, t: int)
    requires ProperIntervals(res) && startAt < endAt && NoneTouch(res, policy, startAt, endAt)
    ensures exists u :: ClosedLoad(res, policy, t) + Closed(tokens, startAt, endAt, t)
                        == Load(res, policy, u) + HalfOpen(tokens, startAt, endAt, u)
  {
    var ending := endAt == t || exists id :: id in res && Counts(res[id], policy) && res[id].endAt == t;
    var u := if ending then t - 1 else t;
    forall id | id in res ensures ClosedShare(res[id], policy, t) == HalfShare(res[id], policy, u) {
    }
    assert ClosedShares(res, policy, t) == HalfShares(res, policy, u);
    assert Closed(tokens, startAt, endAt, t) == HalfOpen(tokens, startAt, endAt, u);
    assert ClosedLoad(res, policy, t) + Closed(tokens, startAt, endAt, t)
        == Load(res, policy, u) + HalfOpen(tokens, startAt, endAt, u);
  }

  /** Touching intervals can be refused although they fit: a reservation of the whole limit
      over [0, 10) and another over [10, 20). The sort puts the new start before the old end. */
  lemma TouchingRefused()
    ensures var earlier := Reservation("p", "c", 5, 0, 10, Pending);
            var res := map[0 as nat := earlier];
            && Fits(res, "p", 5, 5, 10, 20)
            && IsOrder([0], res.Keys) && ConflictIn(res, [0], "p", 5, 5, 10, 20)
  {
    var earlier := Reservation("p", "c", 5, 0, 10, Pending);
    var res := map[0 as nat := earlier];
    forall t ensures Load(res, "p", t) + HalfOpen(5, 10, 20, t) <= 5 {
      SumTakeOut(HalfShares(res, "p", t), 0);
      assert HalfShares(res, "p", t) - {0} == map[];
    }
    assert CheckEvents(res, [0], "p", 5, 10, 20) == Ends(5, 10, 20) + Ends(5, 0, 10) by {
      assert EventList(res, [0][1..], "p") == [];
    }
    SortTouching();
    var s := ExchangeSort(Ends(5, 10, 20) + Ends(5, 0, 10));
    EmptyPrefix(s);
    PrefixNext(s, 0);
    PrefixNext(s, 1);
    assert PrefixSum(s, 2) == 10;
  }

  lemma SortTouching()
    ensures ExchangeSort(Ends(5, 10, 20) + Ends(5, 0, 10))
            == [Event(0, 5), Event(10, 5), Event(10, -5), Event(20, -5)]
  {
    var a, b, c, d := Event(10, 5), Event(20, -5), Event(0, 5), Event(10, -5);
    var s := [a, b, c, d];
    assert Ends(5, 10, 20) + Ends(5, 0, 10) == s;
    assert Pass(s, 1) == s;
    assert Pass(s, 2) == [c, b, a, d];
    assert Pass(s, 3) == [c, b, a, d];
    assert [c, b, a, d][1..] == [b, a, d];
    SortLastThree(a, b, d);
  }

  lemma SortLastThree(a: Event, b: Event, d: Event)
    requires a == Event(10, 5) && b == Event(20, -5) && d == Event(10, -5)
    ensures ExchangeSort([b, a, d]) == [a, d, b]
  {
    var s := [b, a, d];
    assert Pass(s, 1) == [a, b, d];
    assert Pass(s, 2) == [a, b, d];
    assert [a, b, d][1..] == [b, d];
    SortLastTwo(b, d);
  }

  lemma SortLastTwo(b: Event, d: Event)
    requires b.time > d.time
    ensures ExchangeSort([b, d]) == [d, b]
  {
    assert Pass([b, d], 1) == [d, b];
    assert [d, b][1..] == [b] && [b][1..] == [];
    assert ExchangeSort([b]) == [b];
  }
}
