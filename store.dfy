/** An abstract Entity Framework session (a `DbContext` with its database
    connection), the store boundary the unit of work and the repositories
    share. It keeps three parts apart:
    - the committed (durable) rows, which a fresh session would read;
    - the changes flushed inside the currently open database transaction;
    - the change tracker's list of pending (staged, unflushed) changes.
    Whether a store step succeeds is not decided here: every step takes a
    caller-supplied outcome, so each error path of the callers can be stated. */
module Store {
  import opened Wrappers

  /** The errors a store step can raise. */
  datatype StoreError =
    | StoreFailure(code: int)      // connectivity, timeout, constraint violation: store-defined
    | TransactionConflict          // commit refused because of a concurrent modification
    | ObjectDisposed               // any step on a context that has been disposed
    | InvalidTransactionState      // a second transaction on one connection, or finishing one that is no longer current

  type StepOutcome = Outcome<StoreError>

  /** One entry of the change tracker: an entity marked for insert, update or delete. */
  datatype Change<E> = Added(entity: E) | Modified(entity: E) | Deleted(entity: E)

  /** An entity's identity as the change tracker sees it: its entity type
      (the `DbSet` it belongs to) and its primary key within that type. */
  datatype Identity = Identity(entityType: nat, id: int)

  /** The handle of a database transaction (`IDbContextTransaction`); `id` tells transactions apart. */
  datatype TxHandle = TxHandle(id: nat)

  /** The whole state of a context, as one value. */
  datatype Snapshot<E> = Snapshot(
    committed: seq<E>,
    openTx: Option<nat>,
    txWrites: seq<Change<E>>,
    pending: seq<Change<E>>,
    nextTx: nat,
    disposed: bool)

  /** The elements of `s` that satisfy `q`: nothing else is added, none of them is dropped. */
  function Filter<E>(q: E -> bool, s: seq<E>): (r: seq<E>)
    ensures forall i :: 0 <= i < |r| ==> q(r[i])
    ensures multiset(r) <= multiset(s)
    ensures forall i :: 0 <= i < |s| && q(s[i]) ==> multiset(r)[s[i]] == multiset(s)[s[i]]
  {
    if s == [] then []
    else
      assert s == [s[0]] + s[1..];
      (if q(s[0]) then [s[0]] else []) + Filter(q, s[1..])
  }

  /** The rows whose identity is `k` replaced by `e`, every other row kept in place. */
  function Replace<E>(key: E -> Identity, rows: seq<E>, k: Identity, e: E): (r: seq<E>)
    ensures |r| == |rows|
  {
    if rows == [] then []
    else [if key(rows[0]) == k then e else rows[0]] + Replace(key, rows[1..], k, e)
  }

  /** The rows after one change is written: an insert appends, an update
      replaces the rows with the entity's identity, a delete removes them.
      Identities carry the entity type, so a change to an entity of one type
      never touches the rows of another type. */
  function Apply<E>(key: E -> Identity, rows: seq<E>, c: Change<E>): seq<E>
  {
    match c
    case Added(e) => rows + [e]
    case Modified(e) => Replace(key, rows, key(e), e)
    case Deleted(e) => Filter(Other(key, key(e)), rows)
  }

  /** The test keeping the rows whose identity is not `k`. */
  function Other<E>(key: E -> Identity, k: Identity): E -> bool
  {
    x => key(x) != k
  }

  /** The test selecting the rows of one entity type: the `DbSet` of that type. */
  function OfType<E>(key: E -> Identity, t: nat): E -> bool
  {
    x => key(x).entityType == t
  }

  lemma {:induction false} FilterConcat<E>(q: E -> bool, a: seq<E>, b: seq<E>)
    ensures Filter(q, a + b) == Filter(q, a) + Filter(q, b)
  {
    if a == [] {
      assert a + b == b;
    } else {
      assert (a + b)[0] == a[0];
      assert (a + b)[1..] == a[1..] + b;
      FilterConcat(q, a[1..], b);
    }
  }

  /** Replacing the rows of an identity of another type leaves the rows of type `t` as they were. */
  lemma {:induction false} ReplaceKeepsOtherTypes<E>(key: E -> Identity, rows: seq<E>, e: E, t: nat)
    requires key(e).entityType != t
    ensures Filter(OfType(key, t), Replace(key, rows, key(e), e)) == Filter(OfType(key, t), rows)
  {
    if rows != [] {
      ReplaceKeepsOtherTypes(key, rows[1..], e, t);
      var r := Replace(key, rows, key(e), e);
      assert r[1..] == Replace(key, rows[1..], key(e), e);
      assert r == [r[0]] + r[1..];
    }
  }

  /** Removing the rows of an identity of another type leaves the rows of type `t` as they were. */
  lemma {:induction false} RemoveKeepsOtherTypes<E>(key: E -> Identity, rows: seq<E>, e: E, t: nat)
    requires key(e).entityType != t
    ensures Filter(OfType(key, t), Filter(Other(key, key(e)), rows)) == Filter(OfType(key, t), rows)
  {
    if rows != [] {
      var q, d := OfType(key, t), Other(key, key(e));
      var tail := Filter(d, rows[1..]);
      RemoveKeepsOtherTypes(key, rows[1..], e, t);
      if d(rows[0]) {
        assert Filter(d, rows) == [rows[0]] + tail;
        assert ([rows[0]] + tail)[1..] == tail;
      } else {
        assert Filter(d, rows) == tail;
        assert !q(rows[0]);
      }
    }
  }

  /** Writing a change to an entity of another type leaves the rows of type `t` as they were. */
  lemma ApplyKeepsOtherTypes<E>(key: E -> Identity, rows: seq<E>, c: Change<E>, t: nat)
    requires key(c.entity).entityType != t
    ensures Filter(OfType(key, t), Apply(key, rows, c)) == Filter(OfType(key, t), rows)
  {
    match c
    case Added(e) =>
      FilterConcat(OfType(key, t), rows, [e]);
      assert Filter(OfType(key, t), [e]) == [];
    case Modified(e) =>
      ReplaceKeepsOtherTypes(key, rows, e, t);
    case Deleted(e) =>
      RemoveKeepsOtherTypes(key, rows, e, t);
  }

  /** Writing changes that all concern other entity types leaves the rows of type `t` as they were. */
  lemma {:induction false} ApplyAllKeepsOtherTypes<E>(key: E -> Identity, rows: seq<E>, cs: seq<Change<E>>, t: nat)
    requires forall i :: 0 <= i < |cs| ==> key(cs[i].entity).entityType != t
    ensures Filter(OfType(key, t), ApplyAll(key, rows, cs)) == Filter(OfType(key, t), rows)
    decreases |cs|
  {
    if cs != [] {
      ApplyKeepsOtherTypes(key, rows, cs[0], t);
      ApplyAllKeepsOtherTypes(key, Apply(key, rows, cs[0]), cs[1..], t);
    }
  }

  /** The rows after a list of changes is written, in order. */
  function ApplyAll<E>(key: E -> Identity, rows: seq<E>, cs: seq<Change<E>>): seq<E>
    decreases |cs|
  {
    if cs == [] then rows else ApplyAll(key, Apply(key, rows, cs[0]), cs[1..])
  }

  /** Writing two lists of changes one after the other is writing their concatenation:
      the flushes of one transaction, committed together, have the effect of one big flush. */
  lemma {:induction false} ApplyAllConcat<E>(key: E -> Identity, rows: seq<E>, a: seq<Change<E>>, b: seq<Change<E>>)
    ensures ApplyAll(key, rows, a + b) == ApplyAll(key, ApplyAll(key, rows, a), b)
    decreases |a|
  {
    if a == [] {
      assert a + b == b;
    } else {
      assert (a + b)[0] == a[0];
      assert (a + b)[1..] == a[1..] + b;
      ApplyAllConcat(key, Apply(key, rows, a[0]), a[1..], b);
    }
  }

  /** Writing only inserts appends the inserted entities, in order. */
  lemma {:induction false} ApplyAllInserts<E>(key: E -> Identity, rows: seq<E>, es: seq<E>)
    ensures ApplyAll(key, rows, seq(|es|, i requires 0 <= i < |es| => Added(es[i]))) == rows + es
    decreases |es|
  {
    var cs := seq(|es|, i requires 0 <= i < |es| => Added(es[i]));
    if es == [] {
      assert cs == [];
    } else {
      var tail := seq(|es| - 1, i requires 0 <= i < |es| - 1 => Added(es[1..][i]));
      assert cs[1..] == tail;
      ApplyAllInserts(key, rows + [es[0]], es[1..]);
      assert rows + [es[0]] + es[1..] == rows + es;
    }
  }

  /** A session: one `DbContext` over one database connection. The rows of every
      entity type live in one sequence; `key` gives an entity's identity, its
      entity type together with its primary key, so rows of different types
      never share an identity. */
  class DbContext<E> {
    const key: E -> Identity
    var committed: seq<E>
    var openTx: Option<nat>            // the transaction open on the connection, if any
    var txWrites: seq<Change<E>>       // changes flushed inside `openTx`, not yet committed
    var pending: seq<Change<E>>        // the change tracker's staged changes
    var nextTx: nat                    // the id the next transaction gets
    var disposed: bool

    /** A connection without a transaction has no uncommitted writes. */
    ghost predicate Valid()
      reads this
    {
      (openTx.None? ==> txWrites == []) && (openTx.Some? ==> openTx.value < nextTx)
    }

    function State(): Snapshot<E>
      reads this
    {
      Snapshot(committed, openTx, txWrites, pending, nextTx, disposed)
    }

    /** What a query in this session reads: the committed rows with the open
        transaction's own writes on top. Staged changes are not visible. */
    function Visible(): seq<E>
      reads this
    {
      ApplyAll(key, committed, txWrites)
    }

    /** The outcome a step really has: on a disposed context every step fails. */
    function Attempt(o: StepOutcome): StepOutcome
      reads this
    {
      if disposed then Fail(ObjectDisposed) else o
    }

    constructor (key: E -> Identity, rows: seq<E>)
      ensures Valid() && this.key == key
      ensures State() == Snapshot(rows, None, [], [], 0, false)
    {
      this.key := key;
      committed, openTx, txWrites, pending, nextTx, disposed := rows, None, [], [], 0, false;
    }

    /** `Database.BeginTransactionAsync`: opens a transaction on the connection. */
    method BeginTransaction(o: StepOutcome) returns (r: Result<TxHandle, StoreError>)
      requires Valid()
      modifies this
      ensures Valid()
      ensures old(Attempt(o)).Fail? ==> r == Err(old(Attempt(o)).error) && State() == old(State())
      ensures old(Attempt(o)).Pass? && old(openTx).Some? ==> r == Err(InvalidTransactionState) && State() == old(State())
      ensures old(Attempt(o)).Pass? && old(openTx).None? ==>
        && r == Ok(TxHandle(old(nextTx)))
        && State() == old(State()).(openTx := Some(old(nextTx)), nextTx := old(nextTx) + 1)
    {
      var a := Attempt(o);
      if a.Fail? {
        r := Err(a.error);
      } else if openTx.Some? {
        r := Err(InvalidTransactionState);
      } else {
        r := Ok(TxHandle(nextTx));
        openTx := Some(nextTx);
        nextTx := nextTx + 1;
      }
    }

    /** `DbContext.SaveChangesAsync`: flushes every pending change, atomically.
        Inside an open transaction the writes join it; without one they are
        durable at once. Returns the number of changes written. */
    method SaveChanges(o: StepOutcome) returns (r: Result<nat, StoreError>)
      requires Valid()
      modifies this
      ensures Valid()
      ensures old(Attempt(o)).Fail? ==> r == Err(old(Attempt(o)).error) && State() == old(State())
      ensures old(Attempt(o)).Pass? ==> r == Ok(|old(pending)|)
      ensures old(Attempt(o)).Pass? && old(openTx).Some? ==>
        State() == old(State()).(txWrites := old(txWrites) + old(pending), pending := [])
      ensures old(Attempt(o)).Pass? && old(openTx).None? ==>
        State() == old(State()).(committed := ApplyAll(key, old(committed), old(pending)), pending := [])
    {
      var a := Attempt(o);
      if a.Fail? {
        r := Err(a.error);
        return;
      }
      r := Ok(|pending|);
      if openTx.Some? {
        txWrites := txWrites + pending;
      } else {
        committed := ApplyAll(key, committed, pending);
      }
      pending := [];
    }

    /** `IDbContextTransaction.CommitAsync`: makes the transaction's writes durable. */
    method Commit(h: TxHandle, o: StepOutcome) returns (r: StepOutcome)
      requires Valid()
      modifies this
      ensures Valid()
      ensures old(Attempt(o)).Fail? ==> r == old(Attempt(o)) && State() == old(State())
      ensures old(Attempt(o)).Pass? && old(openTx) != Some(h.id) ==> r == Fail(InvalidTransactionState) && State() == old(State())
      ensures old(Attempt(o)).Pass? && old(openTx) == Some(h.id) ==>
        && r == Pass
        && State() == old(State()).(committed := ApplyAll(key, old(committed), old(txWrites)), txWrites := [], openTx := None)
    {
      r := Attempt(o);
      if r.Fail? {
        return;
      }
      if openTx != Some(h.id) {
        r := Fail(InvalidTransactionState);
        return;
      }
      committed := ApplyAll(key, committed, txWrites);
      txWrites := [];
      openTx := None;
    }

    /** `IDbContextTransaction.RollbackAsync`: discards the transaction's writes. */
    method Rollback(h: TxHandle, o: StepOutcome) returns (r: StepOutcome)
      requires Valid()
      modifies this
      ensures Valid()
      ensures old(Attempt(o)).Fail? ==> r == old(Attempt(o)) && State() == old(State())
      ensures old(Attempt(o)).Pass? && old(openTx) != Some(h.id) ==> r == Fail(InvalidTransactionState) && State() == old(State())
      ensures old(Attempt(o)).Pass? && old(openTx) == Some(h.id) ==>
        r == Pass && State() == old(State()).(txWrites := [], openTx := None)
    {
      r := Attempt(o);
      if r.Fail? {
        return;
      }
      if openTx != Some(h.id) {
        r := Fail(InvalidTransactionState);
        return;
      }
      txWrites := [];
      openTx := None;
    }

    /** `IDbContextTransaction.DisposeAsync`: releases the transaction; one still
        open is rolled back, one already committed or rolled back is left alone. */
    method ReleaseTransaction(h: TxHandle)
      requires Valid()
      modifies this
      ensures Valid()
      ensures old(openTx) == Some(h.id) ==> State() == old(State()).(txWrites := [], openTx := None)
      ensures old(openTx) != Some(h.id) ==> State() == old(State())
    {
      if openTx == Some(h.id) {
        txWrites := [];
        openTx := None;
      }
    }

    /** The change tracker's `Add`, `Update` and `Remove`: stage one change. */
    method Stage(c: Change<E>) returns (r: StepOutcome)
      requires Valid()
      modifies this
      ensures Valid()
      ensures r == old(Attempt(Pass))
      ensures old(disposed) ==> State() == old(State())
      ensures !old(disposed) ==> State() == old(State()).(pending := old(pending) + [c])
    {
      r := Attempt(Pass);
      if r.Pass? {
        pending := pending + [c];
      }
    }

    /** `DbContext.Dispose`: closes the session; it may be called again. */
    method Dispose()
      requires Valid()
      modifies this
      ensures Valid()
      ensures State() == old(State()).(disposed := true)
    {
      disposed := true;
    }
  }
}
