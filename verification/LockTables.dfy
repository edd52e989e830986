/** The rows behind the lock manager: the `locks`, `leases` and `wait_queue` tables of
    internal/storage/sqlite.go. A table is a sequence in id order; a query is a function
    on the sequence. */
module LockTables {
  import opened Fencing

  datatype Status = Free | Held | Expired
  datatype Lock = Lock(status: Status, holder: string, reentrant: bool, count: int)

  datatype Lease = Lease(lockName: string, holder: string, leaseSec: int,
                         acquiredAt: int, expiresAt: int, active: bool, token: Token)

  datatype WaitItem = WaitItem(id: nat, lockName: string, holder: string, reentrant: bool,
                               leaseSec: int, enqueuedAt: int, timeoutAt: int)

  // ---------------------------------------------------------------- leases

  /** The active leases of a lock, oldest first. */
  function ActiveLeases(leases: seq<Lease>, name: string): seq<Lease> {
    if leases == [] then []
    else
      var first := leases[0];
      (if first.active && first.lockName == name then [first] else [])
      + ActiveLeases(leases[1..], name)
  }

  /** `UPDATE leases SET active = 0 WHERE lock_name = name AND active = 1`. */
  function Deactivate(leases: seq<Lease>, name: string): (r: seq<Lease>)
    ensures |r| == |leases|
    ensures forall i | 0 <= i < |r| :: r[i] == leases[i].(active := leases[i].active && leases[i].lockName != name)
  {
    seq(|leases|, i requires 0 <= i < |leases| =>
      leases[i].(active := leases[i].active && leases[i].lockName != name))
  }

  /** `UPDATE leases SET expires_at = t WHERE lock_name = name AND active = 1`. */
  function SetExpiry(leases: seq<Lease>, name: string, t: int): (r: seq<Lease>)
    ensures |r| == |leases|
    ensures forall i | 0 <= i < |r| ::
              r[i] == (if leases[i].active && leases[i].lockName == name
                       then leases[i].(expiresAt := t) else leases[i])
  {
    seq(|leases|, i requires 0 <= i < |leases| =>
      if leases[i].active && leases[i].lockName == name then leases[i].(expiresAt := t) else leases[i])
  }

  lemma {:induction false} ActiveAppend(a: seq<Lease>, b: seq<Lease>, name: string)
    ensures ActiveLeases(a + b, name) == ActiveLeases(a, name) + ActiveLeases(b, name)
  {
    if a == [] {
      assert a + b == b;
    } else {
      assert (a + b)[1..] == a[1..] + b;
      ActiveAppend(a[1..], b, name);
    }
  }

  lemma {:induction false} ActiveAfterDeactivate(leases: seq<Lease>, name: string, other: string)
    ensures ActiveLeases(Deactivate(leases, name), other)
            == if other == name then [] else ActiveLeases(leases, other)
  {
    if leases != [] {
      assert Deactivate(leases, name)[1..] == Deactivate(leases[1..], name);
      ActiveAfterDeactivate(leases[1..], name, other);
    }
  }

  /** A changed expiry moves no lease to another lock or holder. */
  lemma {:induction false} ActiveAfterSetExpiry(leases: seq<Lease>, name: string, t: int, other: string)
    ensures other != name ==> ActiveLeases(SetExpiry(leases, name, t), other) == ActiveLeases(leases, other)
    ensures |ActiveLeases(SetExpiry(leases, name, t), other)| == |ActiveLeases(leases, other)|
    ensures |ActiveLeases(SetExpiry(leases, name, t), name)| == |ActiveLeases(leases, name)|
    ensures forall i | 0 <= i < |ActiveLeases(leases, name)| ::
              ActiveLeases(SetExpiry(leases, name, t), name)[i] == ActiveLeases(leases, name)[i].(expiresAt := t)
  {
    if leases != [] {
      assert SetExpiry(leases, name, t)[1..] == SetExpiry(leases[1..], name, t);
      ActiveAfterSetExpiry(leases[1..], name, t, other);
    }
  }

  lemma {:induction false} ActiveMember(leases: seq<Lease>, name: string, l: Lease)
    ensures l in ActiveLeases(leases, name) <==> l in leases && l.active && l.lockName == name
  {
    if leases != [] {
      ActiveMember(leases[1..], name, l);
      assert leases == [leases[0]] + leases[1..];
    }
  }

  // ---------------------------------------------------------------- wait queue

  /** `SELECT ... FROM wait_queue WHERE lock_name = name ORDER BY id`. */
  function Rows(table: seq<WaitItem>, name: string): seq<WaitItem> {
    if table == [] then []
    else (if table[0].lockName == name then [table[0]] else []) + Rows(table[1..], name)
  }

  /** `DELETE FROM wait_queue WHERE id IN ids`. */
  function Without(table: seq<WaitItem>, ids: set<nat>): seq<WaitItem> {
    if table == [] then []
    else (if table[0].id in ids then [] else [table[0]]) + Without(table[1..], ids)
  }

  /** The rows of one holder, and of everybody else, in order. */
  function OfHolder(table: seq<WaitItem>, holder: string): seq<WaitItem> {
    if table == [] then []
    else (if table[0].holder == holder then [table[0]] else []) + OfHolder(table[1..], holder)
  }

  function NotOfHolder(table: seq<WaitItem>, holder: string): seq<WaitItem> {
    if table == [] then []
    else (if table[0].holder == holder then [] else [table[0]]) + NotOfHolder(table[1..], holder)
  }

  function Ids(table: seq<WaitItem>): set<nat> {
    set r | r in table :: r.id
  }

  /** The rows inserted again, one by one, get fresh ids from `from` on. */
  function Renumber(rows: seq<WaitItem>, from: nat): (r: seq<WaitItem>)
    ensures |r| == |rows|
    ensures forall i | 0 <= i < |r| :: r[i] == rows[i].(id := from + i)
  {
    seq(|rows|, i requires 0 <= i < |rows| => rows[i].(id := from + i))
  }

  /** Ids grow along the table and stay below the next one. */
  ghost predicate IdsOk(table: seq<WaitItem>, nextId: nat) {
    && (forall i, j | 0 <= i < j < |table| :: table[i].id < table[j].id)
    && (forall r | r in table :: r.id < nextId)
  }

  lemma {:induction false} RowsAppend(a: seq<WaitItem>, b: seq<WaitItem>, name: string)
    ensures Rows(a + b, name) == Rows(a, name) + Rows(b, name)
  {
    if a == [] {
      assert a + b == b;
    } else {
      assert (a + b)[1..] == a[1..] + b;
      RowsAppend(a[1..], b, name);
    }
  }

  lemma {:induction false} RowsMember(table: seq<WaitItem>, name: string)
    ensures forall r :: r in Rows(table, name) <==> r in table && r.lockName == name
  {
    if table != [] {
      RowsMember(table[1..], name);
      assert table == [table[0]] + table[1..];
    }
  }

  lemma RowsNamed(table: seq<WaitItem>, name: string)
    ensures forall i | 0 <= i < |Rows(table, name)| :: Rows(table, name)[i].lockName == name
  {
    var q := Rows(table, name);
    RowsMember(table, name);
    hide Rows;
    forall i | 0 <= i < |q| ensures q[i].lockName == name {
      assert q[i] in q;
    }
  }

  lemma {:induction false} RowsNone(table: seq<WaitItem>, name: string)
    requires forall r | r in table :: r.lockName != name
    ensures Rows(table, name) == []
  {
    if table != [] {
      assert table[0] in table;
      RowsNone(table[1..], name);
    }
  }

  /** Rows of one lock that all carry its name. */
  lemma {:induction false} RowsSame(rows: seq<WaitItem>, name: string, other: string)
    requires forall r | r in rows :: r.lockName == name
    ensures Rows(rows, other) == if other == name then rows else []
  {
    if rows != [] {
      assert rows[0] in rows;
      RowsSame(rows[1..], name, other);
      assert rows == [rows[0]] + rows[1..];
    }
  }

  lemma {:induction false} WithoutMember(table: seq<WaitItem>, ids: set<nat>)
    ensures forall r :: r in Without(table, ids) <==> r in table && r.id !in ids
  {
    if table != [] {
      WithoutMember(table[1..], ids);
      assert table == [table[0]] + table[1..];
    }
  }

  lemma {:induction false} WithoutAppend(a: seq<WaitItem>, b: seq<WaitItem>, ids: set<nat>)
    ensures Without(a + b, ids) == Without(a, ids) + Without(b, ids)
  {
    if a == [] {
      assert a + b == b;
    } else {
      assert (a + b)[1..] == a[1..] + b;
      WithoutAppend(a[1..], b, ids);
    }
  }

  lemma {:induction false} WithoutTwice(table: seq<WaitItem>, a: set<nat>, b: set<nat>)
    ensures Without(Without(table, a), b) == Without(table, a + b)
  {
    if table != [] {
      WithoutTwice(table[1..], a, b);
      WithoutAppend(if table[0].id in a then [] else [table[0]], Without(table[1..], a), b);
    }
  }

  /** Deleting ids that do not occur changes nothing. */
  lemma {:induction false} WithoutNone(table: seq<WaitItem>, ids: set<nat>)
    requires forall r | r in table :: r.id !in ids
    ensures Without(table, ids) == table
  {
    if table != [] {
      assert table[0] in table;
      WithoutNone(table[1..], ids);
      assert table == [table[0]] + table[1..];
    }
  }

  lemma {:induction false} WithoutAll(table: seq<WaitItem>, ids: set<nat>)
    requires forall r | r in table :: r.id in ids
    ensures Without(table, ids) == []
  {
    if table != [] {
      assert table[0] in table;
      WithoutAll(table[1..], ids);
    }
  }

  lemma {:induction false} RowsWithout(table: seq<WaitItem>, ids: set<nat>, name: string)
    ensures Rows(Without(table, ids), name) == Without(Rows(table, name), ids)
  {
    if table != [] {
      RowsWithout(table[1..], ids, name);
      var head := if table[0].id in ids then [] else [table[0]];
      RowsAppend(head, Without(table[1..], ids), name);
      WithoutAppend(if table[0].lockName == name then [table[0]] else [], Rows(table[1..], name), ids);
    }
  }

  lemma {:induction false} IdsOkRows(table: seq<WaitItem>, nextId: nat, name: string)
    requires IdsOk(table, nextId)
    ensures IdsOk(Rows(table, name), nextId)
  {
    RowsMember(table, name);
    if table != [] {
      IdsOkTail(table, nextId);
      IdsOkRows(table[1..], nextId, name);
      RowsMember(table[1..], name);
    }
  }

  lemma {:induction false} IdsOkWithout(table: seq<WaitItem>, nextId: nat, ids: set<nat>)
    requires IdsOk(table, nextId)
    ensures IdsOk(Without(table, ids), nextId)
  {
    WithoutMember(table, ids);
    if table != [] {
      IdsOkTail(table, nextId);
      IdsOkWithout(table[1..], nextId, ids);
      WithoutMember(table[1..], ids);
    }
  }

  lemma IdsOkTail(table: seq<WaitItem>, nextId: nat)
    requires IdsOk(table, nextId) && table != []
    ensures IdsOk(table[1..], nextId)
    ensures forall r | r in table[1..] :: table[0].id < r.id
  {
  }

  lemma IdsOkAppend(table: seq<WaitItem>, rows: seq<WaitItem>, nextId: nat)
    requires IdsOk(table, nextId)
    ensures IdsOk(table + Renumber(rows, nextId), nextId + |rows|)
  {
  }

  /** A row is found by its id. */
  lemma IdUnique(table: seq<WaitItem>, nextId: nat, a: WaitItem, b: WaitItem)
    requires IdsOk(table, nextId) && a in table && b in table && a.id == b.id
    ensures a == b
  {
  }

  /** Deleting the first rows of a queue by id leaves exactly the rest of it. */
  lemma {:induction false} WithoutPrefix(rows: seq<WaitItem>, nextId: nat, k: nat)
    requires IdsOk(rows, nextId) && k <= |rows|
    ensures Without(rows, Ids(rows[..k])) == rows[k..]
  {
    hide Without;
    var front, back := rows[..k], rows[k..];
    assert rows == front + back;
    WithoutAppend(front, back, Ids(front));
    WithoutAll(front, Ids(front));
    IdsApart(rows, nextId, k);
    WithoutNone(back, Ids(front));
  }

  lemma IdsApart(rows: seq<WaitItem>, nextId: nat, k: nat)
    requires IdsOk(rows, nextId) && k <= |rows|
    ensures forall r | r in rows[k..] :: r.id !in Ids(rows[..k])
  {
    forall r, f | r in rows[k..] && f in rows[..k] ensures r.id != f.id {
      var j :| k <= j < |rows| && rows[j] == r;
      var i :| 0 <= i < k && rows[i] == f;
    }
  }

  /** ... and touches no other queue. */
  lemma {:induction false} WithoutOther(table: seq<WaitItem>, nextId: nat, rows: seq<WaitItem>, name: string, other: string)
    requires IdsOk(table, nextId) && name != other
    requires forall r | r in rows :: r in table && r.lockName == name
    ensures Rows(Without(table, Ids(rows)), other) == Rows(table, other)
  {
    RowsWithout(table, Ids(rows), other);
    RowsMember(table, other);
    forall r | r in Rows(table, other) ensures r.id !in Ids(rows) {
      if r.id in Ids(rows) {
        var q :| q in rows && q.id == r.id;
        IdUnique(table, nextId, q, r);
      }
    }
    WithoutNone(Rows(table, other), Ids(rows));
  }

  lemma {:induction false} HolderSplitMembers(table: seq<WaitItem>, holder: string)
    ensures forall r :: r in OfHolder(table, holder) <==> r in table && r.holder == holder
    ensures forall r :: r in NotOfHolder(table, holder) <==> r in table && r.holder != holder
    ensures |OfHolder(table, holder)| + |NotOfHolder(table, holder)| == |table|
  {
    if table != [] {
      HolderSplitMembers(table[1..], holder);
      assert table == [table[0]] + table[1..];
    }
  }
}
