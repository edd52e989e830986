/** Which answers the conflict check can give when several intervals start or end at one moment: the
    events of that moment may come in any order, and the two extreme orders decide. */
module TieOrders {
  import opened Sums
  import opened Reservations

  /** A time order of the events, simultaneous ones in any order. */
  ghost predicate IsTieOrder(s: seq<Event>, ev: seq<Event>) {
    Sorted(s) && multiset(s) == multiset(ev)
  }

  /** At each moment the starts come before the ends, or the other way round. */
  function Rank(e: Event, startsFirst: bool): int {
    2 * e.time + (if (e.delta > 0) == startsFirst then 0 else 1)
  }

  ghost predicate Ranked(s: seq<Event>, startsFirst: bool) {
    forall i, j | 0 <= i < j < |s| :: Rank(s[i], startsFirst) <= Rank(s[j], startsFirst)
  }

  function InsertRanked(e: Event, s: seq<Event>, startsFirst: bool): seq<Event> {
    if s == [] || Rank(e, startsFirst) <= Rank(s[0], startsFirst) then [e] + s
    else [s[0]] + InsertRanked(e, s[1..], startsFirst)
  }

  function SortRanked(s: seq<Event>, startsFirst: bool): seq<Event> {
    if s == [] then [] else InsertRanked(s[0], SortRanked(s[1..], startsFirst), startsFirst)
  }

  lemma {:induction false} InsertElements(e: Event, s: seq<Event>, startsFirst: bool)
    ensures multiset(InsertRanked(e, s, startsFirst)) == multiset(s) + multiset{e}
    decreases |s|
  {
    hide Rank;
    if s != [] && Rank(e, startsFirst) > Rank(s[0], startsFirst) {
      InsertElements(e, s[1..], startsFirst);
      assert s == [s[0]] + s[1..];
    }
  }

  lemma {:induction false} InsertKeepsRanks(e: Event, s: seq<Event>, startsFirst: bool)
    requires Ranked(s, startsFirst)
    ensures Ranked(InsertRanked(e, s, startsFirst), startsFirst)
    decreases |s|
  {
    hide Rank;
    if s != [] && Rank(e, startsFirst) <= Rank(s[0], startsFirst) {
      PrependRanked(e, s, startsFirst);
    } else if s != [] {
      InsertKeepsRanks(e, s[1..], startsFirst);
      InsertElements(e, s[1..], startsFirst);
      var rest := InsertRanked(e, s[1..], startsFirst);
      forall x | x in rest ensures Rank(s[0], startsFirst) <= Rank(x, startsFirst) {
        assert x in multiset(rest);
        assert x == e || x in s[1..];
      }
      hide Ranked;
      AllAfter(s[0], rest, startsFirst);
    }
  }

  lemma PrependRanked(e: Event, s: seq<Event>, startsFirst: bool)
    requires Ranked(s, startsFirst) && s != [] && Rank(e, startsFirst) <= Rank(s[0], startsFirst)
    ensures Ranked([e] + s, startsFirst)
  {
    hide Rank;
    forall x | x in s ensures Rank(e, startsFirst) <= Rank(x, startsFirst) {
      var k :| 0 <= k < |s| && s[k] == x;
      assert k == 0 || Rank(s[0], startsFirst) <= Rank(s[k], startsFirst);
    }
    AllAfter(e, s, startsFirst);
  }

  lemma AllAfter(e: Event, s: seq<Event>, startsFirst: bool)
    requires Ranked(s, startsFirst) && forall x | x in s :: Rank(e, startsFirst) <= Rank(x, startsFirst)
    ensures Ranked([e] + s, startsFirst)
  {
    hide Rank;
    var all := [e] + s;
    forall i, j | 0 <= i < j < |all| ensures Rank(all[i], startsFirst) <= Rank(all[j], startsFirst) {
      assert all[j] == s[j - 1] && s[j - 1] in s;
    }
  }

  lemma {:induction false} SortRankedSorts(s: seq<Event>, startsFirst: bool)
    ensures Ranked(SortRanked(s, startsFirst), startsFirst) && IsTieOrder(SortRanked(s, startsFirst), s)
    decreases |s|
  {
    hide InsertRanked;
    if s != [] {
      SortRankedSorts(s[1..], startsFirst);
      InsertKeepsRanks(s[0], SortRanked(s[1..], startsFirst), startsFirst);
      InsertElements(s[0], SortRanked(s[1..], startsFirst), startsFirst);
      assert s == [s[0]] + s[1..];
    }
    RankedIsSorted(SortRanked(s, startsFirst), startsFirst);
  }

  lemma RankedIsSorted(s: seq<Event>, startsFirst: bool)
    requires Ranked(s, startsFirst)
    ensures Sorted(s)
  {
    forall i, j | 0 <= i < j < |s| ensures s[i].time <= s[j].time {
      assert Rank(s[i], startsFirst) <= Rank(s[j], startsFirst);
    }
  }

  // ---------------------------------------------------------------- starts first

  /** In rank order, the events up to a rank are a prefix. */
  lemma SplitAtRank(s: seq<Event>, startsFirst: bool, rank: int) returns (k: nat)
    requires Ranked(s, startsFirst)
    ensures k <= |s|
    ensures forall e | e in s[..k] :: Rank(e, startsFirst) <= rank
    ensures forall e | e in s[k..] :: Rank(e, startsFirst) > rank
  {
    hide Rank;
    k := |s|;
    while k > 0 && Rank(s[k - 1], startsFirst) > rank
      invariant 0 <= k <= |s|
      invariant forall i | k <= i < |s| :: Rank(s[i], startsFirst) > rank
    {
      k := k - 1;
    }
  }

  lemma RankClosed(e: Event, t: int)
    ensures ClosedAt(t)(e) == if Rank(e, true) <= 2 * t then e.delta else 0
  {
  }

  /** With the starts first, the events up to the starts of `t` are a prefix, and they sum to the
      closed load at `t`. */
  lemma PrefixIsClosed(s: seq<Event>, t: int) returns (k: nat)
    requires Ranked(s, true)
    ensures k <= |s| && PrefixSum(s, k) == SumBy(s, ClosedAt(t))
  {
    hide SumBy, Ranked, Rank, ClosedAt;
    k := SplitAtRank(s, true, 2 * t);
    var front, back := s[..k], s[k..];
    assert s == front + back;
    SumByAppend(front, back, ClosedAt(t));
    forall e | e in front ensures e.delta == ClosedAt(t)(e) {
      RankClosed(e, t);
    }
    forall e | e in back ensures ClosedAt(t)(e) == 0 {
      RankClosed(e, t);
    }
    SameSum(front, (e: Event) => e.delta, ClosedAt(t));
    SumByNothing(back, ClosedAt(t));
  }

  lemma StartsFirstExceeds(ev: seq<Event>, max: int, t: int)
    requires SumBy(ev, ClosedAt(t)) > max >= 0
    ensures Exceeds(SortRanked(ev, true), max)
  {
    hide SumBy, SortRanked;
    var s := SortRanked(ev, true);
    SortRankedSorts(ev, true);
    var k := PrefixIsClosed(s, t);
    SumByPermuted(s, ev, ClosedAt(t));
    EmptyPrefix(s);
    assert k > 0;
  }

  // ---------------------------------------------------------------- ends first

  /** The moment whose load bounds a prefix that ends with this event. */
  function BoundAt(last: Event): int {
    if last.delta > 0 then last.time else last.time - 1
  }

  lemma RankHalf(e: Event, last: Event)
    ensures Rank(e, false) <= Rank(last, false) ==> e.delta <= HalfAt(BoundAt(last))(e)
    ensures Rank(e, false) >= Rank(last, false) ==> 0 <= HalfAt(BoundAt(last))(e)
  {
  }

  lemma RankedSplit(s: seq<Event>, startsFirst: bool, k: nat)
    requires Ranked(s, startsFirst) && 1 <= k <= |s|
    ensures forall e | e in s[..k] :: Rank(e, startsFirst) <= Rank(s[k - 1], startsFirst)
    ensures forall e | e in s[k..] :: Rank(e, startsFirst) >= Rank(s[k - 1], startsFirst)
  {
    hide Rank;
  }

  /** With the ends first, every prefix sums to at most the load at its last event, or just before. */
  lemma PrefixBelowLoad(s: seq<Event>, k: nat)
    requires Ranked(s, false) && 1 <= k <= |s|
    ensures PrefixSum(s, k) <= SumBy(s, HalfAt(BoundAt(s[k - 1])))
  {
    hide SumBy, Ranked, Rank, HalfAt, BoundAt;
    var last, u := s[k - 1], BoundAt(s[k - 1]);
    var front, back := s[..k], s[k..];
    assert s == front + back;
    RankedSplit(s, false, k);
    forall e | e in front ensures e.delta <= HalfAt(u)(e) {
      RankHalf(e, last);
    }
    forall e | e in back ensures 0 <= HalfAt(u)(e) {
      RankHalf(e, last);
    }
    SumByAppend(front, back, HalfAt(u));
    SumByMonotone(front, (e: Event) => e.delta, HalfAt(u));
    SumByNothing(back, (e: Event) => 0);
    SumByMonotone(back, (e: Event) => 0, HalfAt(u));
  }

  lemma EndsFirstFits(ev: seq<Event>, max: int)
    requires forall t :: SumBy(ev, HalfAt(t)) <= max
    ensures !Exceeds(SortRanked(ev, false), max)
  {
    hide SumBy, SortRanked;
    var s := SortRanked(ev, false);
    SortRankedSorts(ev, false);
    forall k: nat | 1 <= k <= |s| ensures PrefixSum(s, k) <= max {
      PrefixBelowLoad(s, k);
      SumByPermuted(s, ev, HalfAt(BoundAt(s[k - 1])));
    }
  }

  // ---------------------------------------------------------------- both answers

  /** Some tie order is refused. */
  ghost predicate SomeRefuses(ev: seq<Event>, max: int) {
    exists s :: IsTieOrder(s, ev) && Exceeds(s, max)
  }

  /** Some tie order is let through. */
  ghost predicate SomeAccepts(ev: seq<Event>, max: int) {
    exists s :: IsTieOrder(s, ev) && !Exceeds(s, max)
  }

  /** The sweep says of every tie order what is true of the reservation. */
  ghost predicate AllRight(ev: seq<Event>, max: int, fits: bool) {
    forall s | IsTieOrder(s, ev) :: Exceeds(s, max) <==> !fits
  }

  /** For the events of a check: some tie order is refused exactly if some moment is overfull with
      intervals counted with both their ends; some is let through exactly if the reservation fits. So
      the answer is right for every tie order exactly if no moment is overfull unless the reservation
      does not fit. */
  lemma TieOrdersExact(res: map<nat, Reservation>, order: seq<nat>, policy: string, max: int, tokens: int, startAt: int, endAt: int)
    requires ProperIntervals(res) && tokens > 0 && startAt < endAt && max >= 0 && IsOrder(order, res.Keys)
    ensures var ev := CheckEvents(res, order, policy, tokens, startAt, endAt);
            var fits := Fits(res, policy, max, tokens, startAt, endAt);
            var overfull := Overfull(res, policy, max, tokens, startAt, endAt);
            && (SomeRefuses(ev, max) <==> overfull)
            && (SomeAccepts(ev, max) <==> fits)
            && (AllRight(ev, max, fits) <==> (overfull <==> !fits))
  {
    hide ProperIntervals, IsOrder, CheckEvents, Sorted, Exceeds, Load, ClosedLoad, HalfOpen, Closed, SumBy, SortRanked;
    var ev := CheckEvents(res, order, policy, tokens, startAt, endAt);
    EventsRepresent(res, order, policy, tokens, startAt, endAt);
    forall s | IsTieOrder(s, ev)
      ensures !Exceeds(s, max) ==> Fits(res, policy, max, tokens, startAt, endAt)
      ensures Exceeds(s, max) ==> Overfull(res, policy, max, tokens, startAt, endAt)
    {
      SweepMeaning(ev, s, res, policy, max, tokens, startAt, endAt);
    }
    SortRankedSorts(ev, true);
    SortRankedSorts(ev, false);
    if Overfull(res, policy, max, tokens, startAt, endAt) {
      var t :| ClosedLoad(res, policy, t) + Closed(tokens, startAt, endAt, t) > max;
      StartsFirstExceeds(ev, max, t);
    }
    if Fits(res, policy, max, tokens, startAt, endAt) {
      EndsFirstFits(ev, max);
    }
  }

  /** The exchange sort moves nothing in a list that is in time order: every tie order is one that it
      leaves behind for some order of its input. */
  lemma {:induction false} SortedStays(s: seq<Event>)
    requires Sorted(s)
    ensures ExchangeSort(s) == s
    decreases |s|
  {
    hide Pass;
    if s != [] {
      PassStays(s, |s| - 1);
      SortedStays(s[1..]);
      assert s == [s[0]] + s[1..];
    }
  }

  lemma {:induction false} PassStays(s: seq<Event>, n: nat)
    requires Sorted(s) && n < |s|
    ensures Pass(s, n) == s
  {
    if n > 0 {
      PassStays(s, n - 1);
    }
  }
}
