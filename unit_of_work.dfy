/** The unit of work (`UnitOfWork<TContext>`): it owns one session and keeps
    at most one explicit transaction on it. The transaction handle is the
    state machine: `None` is Idle, `Some(h)` is Active. Each operation takes
    the outcome of every store step it may perform, so the contracts cover
    every exit path of the try/catch/finally blocks. */
module Infrastructure {
  import opened Wrappers
  import opened Store

  /** The error a caller sees from `catch { rollback; throw; }`: the original
      failure, unless the rollback itself fails, whose error then propagates instead. */
  function Raised(primary: StoreError, rollback: StepOutcome): StoreError
  {
    if rollback.Fail? then rollback.error else primary
  }

  class UnitOfWork<E> {
    const context: DbContext<E>
    var transaction: Option<TxHandle>

    /** The held handle is exactly the transaction open on the session. */
    ghost predicate Valid()
      reads this, context
    {
      && context.Valid()
      && match transaction
         case None => context.openTx.None?
         case Some(h) => context.openTx == Some(h.id)
    }

    /** As `Valid`, except that the held transaction may already have been
        committed or rolled back by the store and only awaits release. */
    ghost predicate Settling()
      reads this, context
    {
      && context.Valid()
      && match transaction
         case None => context.openTx.None?
         case Some(h) => context.openTx.None? || context.openTx == Some(h.id)
    }

    predicate Active()
      reads this
    {
      transaction.Some?
    }

    /** Binds the unit of work to a session of its own, Idle. */
    constructor (context: DbContext<E>)
      requires context.Valid() && context.openTx.None?
      ensures Valid() && this.context == context && transaction == None
    {
      this.context := context;
      transaction := None;
    }

    /** Flushes the pending changes. Active: into the open transaction, which
        stays open and uncommitted; a failure propagates with no rollback.
        Idle: inside a local transaction that is committed at once; on a
        failing flush or commit it is rolled back and the failure re-raised.
        Either way the held handle is the same afterwards. */
    method SaveChangesAsync(begin: StepOutcome, flush: StepOutcome, commit: StepOutcome, rollback: StepOutcome)
      returns (r: Result<nat, StoreError>)
      requires Valid()
      modifies this, context
      ensures Valid() && transaction == old(transaction)
      // Active: a flush into the open transaction only
      ensures old(transaction).Some? && old(context.Attempt(flush)).Fail? ==>
        r == Err(old(context.Attempt(flush)).error) && context.State() == old(context.State())
      ensures old(transaction).Some? && old(context.Attempt(flush)).Pass? ==>
        && r == Ok(|old(context.pending)|)
        && context.State() == old(context.State()).(txWrites := old(context.txWrites) + old(context.pending), pending := [])
      // Idle: the local transaction cannot be opened
      ensures old(transaction).None? && old(context.Attempt(begin)).Fail? ==>
        r == Err(old(context.Attempt(begin)).error) && context.State() == old(context.State())
      // Idle: a local transaction was started, used and released
      ensures old(transaction).None? && old(context.Attempt(begin)).Pass? ==>
        && context.openTx.None? && context.txWrites == []
        && context.nextTx == old(context.nextTx) + 1 && context.disposed == old(context.disposed)
        && (flush.Pass? && commit.Pass? ==>
              && r == Ok(|old(context.pending)|)
              && context.committed == ApplyAll(context.key, old(context.committed), old(context.pending))
              && context.pending == [])
        && (flush.Fail? ==>
              && r == Err(Raised(flush.error, rollback))
              && context.committed == old(context.committed) && context.pending == old(context.pending))
        && (flush.Pass? && commit.Fail? ==>
              && r == Err(Raised(commit.error, rollback))
              && context.committed == old(context.committed) && context.pending == [])
    {
      if transaction.Some? {
        r := context.SaveChanges(flush);
        return;
      }
      var started := context.BeginTransaction(begin);
      if started.Err? {
        r := Err(started.error);
        return;
      }
      var local := started.value;
      ghost var staged := context.pending;
      var flushed := context.SaveChanges(flush);
      assert flushed.Ok? ==> context.txWrites == [] + staged == staged;
      var failure: Option<StoreError> := None;
      if flushed.Err? {
        failure := Some(flushed.error);
      } else {
        var committed := context.Commit(local, commit);
        if committed.Fail? {
          failure := Some(committed.error);
        }
      }
      if failure.Some? {
        var rolledBack := context.Rollback(local, rollback);
        r := Err(if rolledBack.Fail? then rolledBack.error else failure.value);
      } else {
        r := flushed;
      }
      context.ReleaseTransaction(local);
    }

    /** Idle: opens a transaction and holds it. Active: does nothing, keeping the same handle. */
    method BeginTransactionAsync(begin: StepOutcome) returns (r: StepOutcome)
      requires Valid()
      modifies this, context
      ensures Valid()
      ensures old(transaction).Some? ==>
        r == Pass && transaction == old(transaction) && context.State() == old(context.State())
      ensures old(transaction).None? && old(context.Attempt(begin)).Fail? ==>
        r == old(context.Attempt(begin)) && transaction.None? && context.State() == old(context.State())
      ensures old(transaction).None? && old(context.Attempt(begin)).Pass? ==>
        && r == Pass && transaction == Some(TxHandle(old(context.nextTx)))
        && context.State() == old(context.State()).(openTx := Some(old(context.nextTx)), nextTx := old(context.nextTx) + 1)
    {
      r := Pass;
      if transaction.None? {
        var started := context.BeginTransaction(begin);
        if started.Ok? {
          transaction := Some(started.value);
        } else {
          r := Fail(started.error);
        }
      }
    }

    /** Flushes, then commits the held transaction if there is one. A failing
        flush or commit triggers the rollback before the failure is re-raised;
        on every exit the transaction is released and the unit of work is Idle. */
    method CommitTransactionAsync(flush: StepOutcome, commit: StepOutcome, rollback: StepOutcome)
      returns (r: StepOutcome)
      requires Valid()
      modifies this, context
      ensures Valid() && transaction.None?
      ensures context.openTx.None? && context.txWrites == []
      ensures context.nextTx == old(context.nextTx) && context.disposed == old(context.disposed)
      // the flush fails: whatever the transaction wrote is discarded, nothing becomes durable
      ensures old(context.Attempt(flush)).Fail? ==>
        && context.committed == old(context.committed) && context.pending == old(context.pending)
        && r == Fail(if old(transaction).Some?
                     then Raised(old(context.Attempt(flush)).error, old(context.Attempt(rollback)))
                     else old(context.Attempt(flush)).error)
      // Idle: the flush alone is the whole commit
      ensures old(context.Attempt(flush)).Pass? && old(transaction).None? ==>
        && r == Pass && context.pending == []
        && context.committed == ApplyAll(context.key, old(context.committed), old(context.pending))
      // Active: everything the transaction wrote becomes durable, or none of it
      ensures old(context.Attempt(flush)).Pass? && old(transaction).Some? ==>
        && context.pending == []
        && (commit.Pass? ==>
              && r == Pass
              && context.committed == ApplyAll(context.key, old(context.committed), old(context.txWrites) + old(context.pending)))
        && (commit.Fail? ==>
              r == Fail(Raised(commit.error, rollback)) && context.committed == old(context.committed))
    {
      var failure: Option<StoreError> := None;
      var flushed := context.SaveChanges(flush);
      if flushed.Err? {
        failure := Some(flushed.error);
      } else if transaction.Some? {
        var committed := context.Commit(transaction.value, commit);
        if committed.Fail? {
          failure := Some(committed.error);
        }
      }
      r := Pass;
      if failure.Some? {
        var rolledBack := RollbackTransactionAsync(rollback);
        r := if rolledBack.Fail? then rolledBack else Fail(failure.value);
      }
      DisposeTransaction();
    }

    /** Idle: does nothing. Active: rolls the transaction back and releases it;
        when the rollback itself fails the error propagates and the transaction
        is still held. */
    method RollbackTransactionAsync(rollback: StepOutcome) returns (r: StepOutcome)
      requires Valid()
      modifies this, context
      ensures Valid()
      ensures old(transaction).None? ==>
        r == Pass && transaction.None? && context.State() == old(context.State())
      ensures old(transaction).Some? && old(context.Attempt(rollback)).Fail? ==>
        r == old(context.Attempt(rollback)) && transaction == old(transaction) && context.State() == old(context.State())
      ensures old(transaction).Some? && old(context.Attempt(rollback)).Pass? ==>
        r == Pass && transaction.None? && context.State() == old(context.State()).(txWrites := [], openTx := None)
    {
      r := Pass;
      if transaction.Some? {
        r := context.Rollback(transaction.value, rollback);
        if r.Pass? {
          DisposeTransaction();
        }
      }
    }

    /** Releases the held transaction, if any, and forgets it; a second call does nothing. */
    method DisposeTransaction()
      requires Settling()
      modifies this, context
      ensures Valid() && transaction.None?
      ensures old(transaction).None? ==> context.State() == old(context.State())
      ensures old(transaction).Some? ==> context.State() == old(context.State()).(txWrites := [], openTx := None)
    {
      if transaction.Some? {
        context.ReleaseTransaction(transaction.value);
        transaction := None;
      }
    }

    /** Disposes the session whatever the transaction state; the handle is left as it is. */
    method Dispose()
      requires Valid()
      modifies context
      ensures Valid() && transaction == old(transaction)
      ensures context.State() == old(context.State()).(disposed := true)
    {
      context.Dispose();
    }
  }
}
