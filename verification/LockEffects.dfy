/** What renewing and shortening a lease and dropping late waiters do, seen from outside. */
module LockEffects {
  import opened Clock
  import opened Fencing
  import opened LockTables
  import opened LockSpec
  import opened LockInvariants

  /** The end of the active lease of a held lock. */
  function ExpiryOf(s: State, name: string): int
    requires |ActiveLeases(s.leases, name)| == 1
  {
    ActiveLeases(s.leases, name)[0].expiresAt
  }

  /** Only the lease and the timer of `name` have changed, to one and the same new end. */
  ghost predicate MovedTo(s: State, t: State, name: string, expiry: int) {
    && t == s.(leases := t.leases, timers := t.timers)
    && |ActiveLeases(s.leases, name)| == 1
    && ActiveLeases(t.leases, name) == [ActiveLeases(s.leases, name)[0].(expiresAt := expiry)]
    && t.timers == s.timers[name := expiry]
    && forall n | n != name :: ActiveLeases(t.leases, n) == ActiveLeases(s.leases, n)
  }

  lemma NewExpiryMoves(s: State, name: string, expiry: int)
    requires |ActiveLeases(s.leases, name)| == 1
    ensures MovedTo(s, s.(leases := SetExpiry(s.leases, name, expiry), timers := s.timers[name := expiry]), name, expiry)
  {
    var leases := SetExpiry(s.leases, name, expiry);
    forall n ensures n != name ==> ActiveLeases(leases, n) == ActiveLeases(s.leases, n)
              ensures |ActiveLeases(leases, name)| == 1
              ensures ActiveLeases(leases, name)[0] == ActiveLeases(s.leases, name)[0].(expiresAt := expiry)
    {
      ActiveAfterSetExpiry(s.leases, name, expiry, n);
    }
  }

  /** A held lock has one active lease, its holder's; any other lock has none. */
  lemma OneLease(s: State, name: string)
    requires Inv(s)
    ensures IsHeld(s, name) ==> |ActiveLeases(s.leases, name)| == 1 && ActiveLeases(s.leases, name)[0].holder == s.locks[name].holder
    ensures !IsHeld(s, name) ==> ActiveLeases(s.leases, name) == []
  {
    assert LockOk(s, name);
  }

  /** A held lock is renewed exactly if its holder asks before the lease has ended; the lease and the
      timer then move by the seconds asked for, or by the cooldown once that would pass it. */
  lemma RenewExact(s: State, name: string, holder: string, addSec: int, now: int)
    requires Inv(s)
    ensures Renewable(s, name, holder, now)
            <==> IsHeld(s, name) && s.locks[name].holder == holder
                 && ActiveLeases(s.leases, name) != [] && ActiveLeases(s.leases, name)[0].expiresAt >= now
    ensures !Renewable(s, name, holder, now) ==> Renew(s, name, holder, addSec, now) == s
    ensures Renewable(s, name, holder, now) ==>
              && |ActiveLeases(s.leases, name)| == 1
              && var capped := name in s.accelerated && s.accelerated[name] > 0
                               && ExpiryOf(s, name) + addSec * SECOND > now + s.accelerated[name] * SECOND;
                 MovedTo(s, Renew(s, name, holder, addSec, now), name,
                         ExpiryOf(s, name) + (if capped then s.accelerated[name] else addSec) * SECOND)
  {
    hide Inv, MovedTo, ActiveLeases, SetExpiry;
    OneLease(s, name);
    if Renewable(s, name, holder, now) {
      NewExpiryMoves(s, name, ExpiryOf(s, name) + RenewSeconds(s, name, ExpiryOf(s, name), addSec, now) * SECOND);
    }
  }

  /** Shortening never makes a lease longer. */
  lemma ShortenExact(s: State, name: string, leaseSec: int, now: int)
    requires Inv(s)
    ensures !IsHeld(s, name) || leaseSec <= 0 ==> Shorten(s, name, leaseSec, now) == s
    ensures IsHeld(s, name) && leaseSec > 0 ==>
              && |ActiveLeases(s.leases, name)| == 1
              && var until := now + leaseSec * SECOND;
                 MovedTo(s, Shorten(s, name, leaseSec, now), name, if until < ExpiryOf(s, name) then until else ExpiryOf(s, name))
  {
    hide Inv, MovedTo, ActiveLeases, SetExpiry;
    OneLease(s, name);
    if IsHeld(s, name) && leaseSec > 0 {
      var until := now + leaseSec * SECOND;
      NewExpiryMoves(s, name, if until < ExpiryOf(s, name) then until else ExpiryOf(s, name));
    }
  }

  /** Exactly the entries whose time is over leave the queues. */
  lemma TimeoutsExact(s: State, now: int, r: WaitItem)
    requires QueueOk(s)
    ensures r in DropTimedOut(s, now).queue <==> r in s.queue && r.timeoutAt >= now
  {
    WithoutMember(s.queue, TimedOut(s.queue, now));
    if r in s.queue && r.id in TimedOut(s.queue, now) {
      var late :| late in s.queue && late.timeoutAt < now && late.id == r.id;
      IdUnique(s.queue, s.nextId, late, r);
    }
  }

  /** A cooldown is meant to end the lease within its seconds from now. A renewal meets that exactly if what was
      asked for does, or if the lease was just about to end: it adds the whole cooldown to what is left. */
  lemma CooldownBound(s: State, name: string, holder: string, addSec: int, now: int)
    requires Inv(s) && Renewable(s, name, holder, now) && name in s.accelerated && s.accelerated[name] > 0
    ensures var t := Renew(s, name, holder, addSec, now);
            && |ActiveLeases(s.leases, name)| == 1 && |ActiveLeases(t.leases, name)| == 1
            && (ExpiryOf(t, name) <= now + s.accelerated[name] * SECOND
                <==> ExpiryOf(s, name) + addSec * SECOND <= now + s.accelerated[name] * SECOND || ExpiryOf(s, name) == now)
  {
    hide Inv, ActiveLeases, SetExpiry, Renewable, Renew;
    RenewExact(s, name, holder, addSec, now);
  }

  /** A lease of 10 seconds, a cooldown of 5: a renewal at once makes the lease end after 15. */
  lemma CooldownOverrun()
    ensures var s := SetAccelerated(Hold(Initial(Store(map[], map[])), "L", "a", false, 10, 0), "L", true, 5);
            var t := Renew(s, "L", "a", 60, 0);
            Inv(s) && |ActiveLeases(t.leases, "L")| == 1 && ExpiryOf(t, "L") == 15 * SECOND
  {
    var start := Initial(Store(map[], map[]));
    InitialOk(Store(map[], map[]));
    TakeFreeKeeps(start, "L", "a", false, 10, 0);
    HoldOwn(start, "L", "a", false, 10, 0);
    var held := Hold(start, "L", "a", false, 10, 0);
    SetAcceleratedKeeps(held, "L", true, 5);
    hide Inv, LockOk;
    RenewExact(SetAccelerated(held, "L", true, 5), "L", "a", 60, 0);
  }
}
