/** How many tokens a fixed window lets through: in any time interval of one window length at
    most twice the limit. */
module FixedWindow {
  import opened Clock

  // ---------------------------------------------------------------- one window after another

  /** The start of the current window and the tokens used in it. */
  datatype Usage = Usage(start: int, used: int)

  function Roll(u: Usage, now: int, window: int): Usage
    requires window > 0
  {
    if now - u.start < window * SECOND then u
    else Usage(u.start + ((now - u.start) / SECOND / window) * window * SECOND, 0)
  }

  /** One step at `now` that grants `granted` tokens: either nothing happens to the caller, or the
      window is rolled forward and the tokens are charged within the limit. */
  predicate Follows(u: Usage, after: Usage, now: int, granted: int, window: int, limit: int)
    requires window > 0
  {
    && granted >= 0
    && ((after == u && granted == 0)
        || (after == Roll(u, now, window).(used := Roll(u, now, window).used + granted) && after.used <= limit))
  }

  datatype Grant = Grant(now: int, tokens: int, after: Usage)

  ghost predicate IsRun(u: Usage, t: int, run: seq<Grant>, window: int, limit: int)
    requires window > 0
    decreases |run|
  {
    run == [] || (&& t <= run[0].now && Follows(u, run[0].after, run[0].now, run[0].tokens, window, limit)
                  && IsRun(run[0].after, run[0].now, run[1..], window, limit))
  }

  /** Tokens granted from `from` on and before `to`. */
  function Total(run: seq<Grant>, from: int, to: int): int {
    if run == [] then 0
    else (if from <= run[0].now < to then run[0].tokens else 0) + Total(run[1..], from, to)
  }

  lemma RollGrid(u: Usage, now: int, window: int) returns (n: nat)
    requires window > 0 && u.start <= now
    ensures Roll(u, now, window).start == u.start + n * (window * SECOND)
    ensures Roll(u, now, window).start <= now < Roll(u, now, window).start + window * SECOND
    ensures n == 0 ==> Roll(u, now, window) == u
    ensures n > 0 ==> Roll(u, now, window).used == 0
  {
    var elapsed := now - u.start;
    var seconds := elapsed / SECOND;
    n := seconds / window;
    Divided(seconds, window);
    assert n * window <= seconds < n * window + window;
    assert n * window * SECOND <= seconds * SECOND <= elapsed < (n * window + window) * SECOND;
    assert n * (window * SECOND) == n * window * SECOND;
    if elapsed < window * SECOND {
      n := 0;
    } else {
      assert n > 0 by {
        assert seconds >= window;
      }
    }
  }

  lemma Divided(a: int, d: int)
    requires a >= 0 && d > 0
    ensures 0 <= (a / d) * d <= a < (a / d) * d + d
  {
  }

  /** Steps at one instant compose into one. */
  lemma FollowsTwice(u: Usage, v: Usage, w: Usage, now: int, g: int, h: int, window: int, limit: int)
    requires window > 0 && u.start <= now
    requires Follows(u, v, now, g, window, limit) && Follows(v, w, now, h, window, limit)
    ensures Follows(u, w, now, g + h, window, limit)
  {
    var n := RollGrid(u, now, window);
  }

  lemma FollowsBounds(u: Usage, v: Usage, now: int, g: int, window: int, limit: int)
    requires window > 0 && u.start <= now && 0 <= u.used <= limit && Follows(u, v, now, g, window, limit)
    ensures u.start <= v.start <= now && 0 <= v.used <= limit
  {
    var n := RollGrid(u, now, window);
    assert n * (window * SECOND) >= 0;
  }

  lemma {:induction false} NothingBefore(u: Usage, t: int, run: seq<Grant>, window: int, limit: int, from: int, to: int)
    requires window > 0 && IsRun(u, t, run, window, limit) && to <= t
    ensures Total(run, from, to) == 0
    decreases |run|
  {
    hide Follows;
    if run != [] {
      NothingBefore(run[0].after, run[0].now, run[1..], window, limit, from, to);
    }
  }

  /** In one window of the grid at most the limit is granted, less what was already used in it. */
  lemma {:induction false} OneWindow(u: Usage, t: int, run: seq<Grant>, window: int, limit: int, k: nat)
    requires window > 0 && IsRun(u, t, run, window, limit) && u.start <= t && 0 <= u.used <= limit
    ensures var s := u.start + k * (window * SECOND);
            Total(run, s, s + window * SECOND) <= limit - (if k == 0 then u.used else 0)
    decreases |run|
  {
    hide Roll;
    if run != [] {
      var e := run[0];
      var w := window * SECOND;
      var s := u.start + k * w;
      FollowsBounds(u, e.after, e.now, e.tokens, window, limit);
      if e.after == u && e.tokens == 0 {
        OneWindow(u, e.now, run[1..], window, limit, k);
      } else {
        var n := RollGrid(u, e.now, window);
        Apart(u.start, n, k, w);
        if k >= n {
          OneWindow(e.after, e.now, run[1..], window, limit, k - n);
        } else {
          NothingBefore(e.after, e.now, run[1..], window, limit, s, s + w);
        }
      }
    }
  }

  /** Windows of the grid do not overlap. */
  lemma Apart(start: int, n: nat, k: nat, w: int)
    requires w > 0
    ensures k >= n ==> start + n * w + (k - n) * w == start + k * w
    ensures k > n ==> start + n * w + w <= start + k * w
    ensures k < n ==> start + k * w + w <= start + n * w
  {
    Distribute(k, n, w);
    Distribute(n, k, w);
    if k > n {
      AtLeastOnce(k - n, w);
    } else if k < n {
      AtLeastOnce(n - k, w);
    }
  }

  lemma Distribute(a: int, b: int, w: int)
    ensures (a - b) * w == a * w - b * w
  {
  }

  lemma AtLeastOnce(a: int, w: int)
    requires a >= 1 && w > 0
    ensures a * w >= w
  {
  }

  lemma {:induction false} TotalSplits(run: seq<Grant>, from: int, mid: int, to: int)
    requires from <= mid <= to
    ensures Total(run, from, to) == Total(run, from, mid) + Total(run, mid, to)
  {
    if run != [] {
      TotalSplits(run[1..], from, mid, to);
    }
  }

  lemma {:induction false} TotalWidens(u: Usage, t: int, run: seq<Grant>, window: int, limit: int,
                                       from: int, to: int, wideFrom: int, wideTo: int)
    requires window > 0 && IsRun(u, t, run, window, limit) && wideFrom <= from && to <= wideTo
    ensures 0 <= Total(run, from, to) <= Total(run, wideFrom, wideTo)
    decreases |run|
  {
    if run != [] {
      TotalWidens(run[0].after, run[0].now, run[1..], window, limit, from, to, wideFrom, wideTo);
    }
  }

  /** At most twice the limit in any closed interval of one window length. */
  lemma TwiceTheLimit(u: Usage, t: int, run: seq<Grant>, window: int, limit: int, from: int)
    requires window > 0 && IsRun(u, t, run, window, limit) && u.start <= t && 0 <= u.used <= limit
    ensures Total(run, from, from + window * SECOND + 1) <= 2 * limit
  {
    hide IsRun, Total;
    var w := window * SECOND;
    var to := from + w + 1;
    if to <= u.start {
      NothingBefore(u, t, run, window, limit, from, to);
    } else if from < u.start {
      TotalSplits(run, from, u.start, to);
      NothingBefore(u, t, run, window, limit, from, u.start);
      OneWindow(u, t, run, window, limit, 0);
      TotalWidens(u, t, run, window, limit, u.start, to, u.start, u.start + w);
    } else {
      var k := (from - u.start) / w;
      Divided(from - u.start, w);
      var s := u.start + k * w;
      assert s + w == u.start + (k + 1) * w;
      OneWindow(u, t, run, window, limit, k);
      OneWindow(u, t, run, window, limit, k + 1);
      TotalSplits(run, s, s + w, s + w + w);
      TotalWidens(u, t, run, window, limit, from, to, s, s + w + w);
    }
  }

  /** The bound is reached: two bursts on either side of a window's end. */
  lemma TwiceIsReached(window: int, limit: int) returns (run: seq<Grant>)
    requires window > 0 && limit >= 0
    ensures IsRun(Usage(0, 0), 0, run, window, limit)
    ensures Total(run, window * SECOND - 1, window * SECOND + 1) == 2 * limit
  {
    var w := window * SECOND;
    var first := Grant(w - 1, limit, Usage(0, limit));
    var second := Grant(w, limit, Usage(w, limit));
    run := [first, second];
    assert w / SECOND == window;
    assert window / window == 1;
    assert Roll(Usage(0, limit), w, window) == Usage(w, 0);
    assert run[1..] == [second] && run[1..][1..] == [];
    assert Total([second], w - 1, w + 1) == limit + Total([second][1..], w - 1, w + 1);
  }
}
