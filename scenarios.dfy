/** Client code over fresh sessions: call sequences a caller of the unit of
    work and the repositories performs, with what a fresh read of the store
    (the committed rows) shows afterwards. Each store step's outcome is a
    parameter, so each scenario covers its failures too. */
module Scenarios {
  import opened Wrappers
  import opened Store
  import opened Infrastructure
  import opened Repositories

  /** Begin, insert `a` through one repository and `b` through another on the
      same session, commit: both rows become durable, or on failure neither. */
  method CommitSpansRepositories<E>(key: E -> Identity, rows: seq<E>, ta: nat, tb: nat, a: E, b: E,
                                    flush: StepOutcome, commit: StepOutcome, rollback: StepOutcome)
    returns (r: StepOutcome, durable: seq<E>, active: bool)
    ensures !active
    ensures r.Pass? <==> flush.Pass? && commit.Pass?
    ensures r.Pass? ==> durable == rows + [a, b]
    ensures r.Fail? ==> durable == rows
  {
    var context := new DbContext(key, rows);
    var uow := new UnitOfWork(context);
    var first := new EfRepository(context, ta);
    var second := new EfRepository(context, tb);
    var _ := uow.BeginTransactionAsync(Pass);
    var _ := first.AddAsync(a);
    var _ := second.AddAsync(b);
    assert context.pending == seq(2, i requires 0 <= i < 2 => Added([a, b][i]));
    ApplyAllInserts(key, rows, [a, b]);
    assert context.txWrites + context.pending == context.pending;
    r := uow.CommitTransactionAsync(flush, commit, rollback);
    durable := context.committed;
    active := uow.Active();
  }

  /** Begin, update `e`, and the commit is refused with a conflict: the conflict
      reaches the caller, the durable rows are as before, the unit of work is Idle. */
  method ConflictOnCommit<E>(key: E -> Identity, rows: seq<E>, t: nat, e: E)
    returns (r: StepOutcome, durable: seq<E>, active: bool)
    ensures r == Fail(TransactionConflict)
    ensures durable == rows && !active
  {
    var context := new DbContext(key, rows);
    var uow := new UnitOfWork(context);
    var repository := new EfRepository(context, t);
    var _ := uow.BeginTransactionAsync(Pass);
    var _ := repository.Update(e);
    r := uow.CommitTransactionAsync(Pass, Fail(TransactionConflict), Pass);
    durable := context.committed;
    active := uow.Active();
  }

  /** On an Idle unit of work, insert `e` and save: the local transaction makes
      the row durable and reports one change, or on failure leaves nothing
      behind; no transaction stays open either way. */
  method AutoPromotedSave<E>(key: E -> Identity, rows: seq<E>, t: nat, e: E,
                             begin: StepOutcome, flush: StepOutcome, commit: StepOutcome, rollback: StepOutcome)
    returns (r: Result<nat, StoreError>, durable: seq<E>, active: bool)
    ensures !active
    ensures r.Ok? <==> begin.Pass? && flush.Pass? && commit.Pass?
    ensures r.Ok? ==> r.value == 1 && durable == rows + [e]
    ensures r.Err? ==> durable == rows
  {
    var context := new DbContext(key, rows);
    var uow := new UnitOfWork(context);
    var repository := new EfRepository(context, t);
    var _ := repository.AddAsync(e);
    assert context.pending == [Added(e)];
    r := uow.SaveChangesAsync(begin, flush, commit, rollback);
    durable := context.committed;
    active := uow.Active() || context.openTx.Some?;
  }

  /** Saving while a transaction is Active flushes into it but commits nothing:
      the row is visible inside the session and not durable. A rollback then
      discards it from the session too; a failing rollback leaves it there,
      still uncommitted. */
  method SaveInsideTransaction<E>(key: E -> Identity, rows: seq<E>, t: nat, e: E, rollback: StepOutcome)
    returns (count: Result<nat, StoreError>, seen: seq<E>, durableAfterSave: seq<E>,
             r: StepOutcome, seenAfter: seq<E>, durable: seq<E>)
    ensures count == Ok(1) && seen == rows + [e] && durableAfterSave == rows
    ensures r == rollback && durable == rows
    ensures rollback.Pass? ==> seenAfter == rows
    ensures rollback.Fail? ==> seenAfter == rows + [e]
  {
    var context := new DbContext(key, rows);
    var uow := new UnitOfWork(context);
    var repository := new EfRepository(context, t);
    var _ := uow.BeginTransactionAsync(Pass);
    var _ := repository.AddAsync(e);
    assert context.pending == [Added(e)];
    count := uow.SaveChangesAsync(Pass, Pass, Pass, Pass);
    assert context.txWrites == seq(1, i requires 0 <= i < 1 => Added([e][i]));
    ApplyAllInserts(key, rows, [e]);
    seen := context.Visible();
    durableAfterSave := context.committed;
    r := uow.RollbackTransactionAsync(rollback);
    seenAfter := context.Visible();
    durable := context.committed;
  }

  /** Beginning twice is beginning once: the same handle, one transaction opened. */
  method BeginTwice<E>(key: E -> Identity, rows: seq<E>, begin: StepOutcome)
    returns (first: Option<TxHandle>, second: Option<TxHandle>, begun: nat)
    ensures begin.Pass? ==> first.Some? && second == first && begun == 1
    ensures begin.Fail? ==> first.None? && second.None? && begun == 0
  {
    var context := new DbContext(key, rows);
    var uow := new UnitOfWork(context);
    var _ := uow.BeginTransactionAsync(begin);
    first := uow.transaction;
    var _ := uow.BeginTransactionAsync(begin);
    second := uow.transaction;
    begun := context.nextTx;
  }

  /** Rolling back an Idle unit of work is a no-op and raises nothing, even on a disposed session. */
  method RollbackWhenIdle<E>(key: E -> Identity, rows: seq<E>, disposeFirst: bool, rollback: StepOutcome)
    returns (r: StepOutcome, durable: seq<E>, active: bool)
    ensures r == Pass && durable == rows && !active
  {
    var context := new DbContext(key, rows);
    var uow := new UnitOfWork(context);
    if disposeFirst {
      uow.Dispose();
    }
    r := uow.RollbackTransactionAsync(rollback);
    durable := context.committed;
    active := uow.Active();
  }

  /** A caller that never commits nor rolls back and only disposes the unit of
      work: the session is closed, and what the open transaction flushed never
      becomes durable, as every later step on the session fails. */
  method DisposeWithTransactionOpen<E>(key: E -> Identity, rows: seq<E>, t: nat, e: E,
                                       flush: StepOutcome, commit: StepOutcome, rollback: StepOutcome)
    returns (r: StepOutcome, disposed: bool, durable: seq<E>)
    ensures disposed && durable == rows
    ensures r == Fail(ObjectDisposed)
  {
    var context := new DbContext(key, rows);
    var uow := new UnitOfWork(context);
    var repository := new EfRepository(context, t);
    var _ := uow.BeginTransactionAsync(Pass);
    var _ := repository.AddAsync(e);
    var _ := uow.SaveChangesAsync(Pass, Pass, Pass, Pass);
    uow.Dispose();
    r := uow.CommitTransactionAsync(flush, commit, rollback);
    disposed := context.disposed;
    durable := context.committed;
  }

  /** Releasing the transaction twice: the second release changes nothing. */
  method DisposeTransactionTwice<E>(key: E -> Identity, rows: seq<E>) returns (once: Snapshot<E>, twice: Snapshot<E>)
    ensures once == twice && once.openTx.None?
  {
    var context := new DbContext(key, rows);
    var uow := new UnitOfWork(context);
    var _ := uow.BeginTransactionAsync(Pass);
    uow.DisposeTransaction();
    once := context.State();
    uow.DisposeTransaction();
    twice := context.State();
  }

  /** A repository's save flushes what every repository on the session staged. */
  method RepositorySaveFlushesSession<E>(key: E -> Identity, rows: seq<E>, ta: nat, tb: nat, a: E, b: E,
                                         flush: StepOutcome)
    returns (r: Result<nat, StoreError>, durable: seq<E>, pending: seq<Change<E>>)
    ensures flush.Pass? ==> r == Ok(2) && durable == rows + [a, b] && pending == []
    ensures flush.Fail? ==> r == Err(flush.error) && durable == rows && pending == [Added(a), Added(b)]
  {
    var context := new DbContext(key, rows);
    var first := new EfRepository(context, ta);
    var second := new EfRepository(context, tb);
    var _ := first.AddAsync(a);
    var _ := second.AddAsync(b);
    assert context.pending == seq(2, i requires 0 <= i < 2 => Added([a, b][i]));
    ApplyAllInserts(key, rows, [a, b]);
    r := first.SaveChangesAsync(flush);
    durable := context.committed;
    pending := context.pending;
  }

  /** Stages one change through the repository method of its kind. */
  method StageThrough<E>(repository: EfRepository<E>, c: Change<E>)
    requires repository.context.Valid() && !repository.context.disposed
    modifies repository.context
    ensures repository.context.Valid()
    ensures repository.context.State() == old(repository.context.State()).(pending := old(repository.context.pending) + [c])
  {
    match c
    case Added(e) => var _ := repository.AddAsync(e);
    case Modified(e) => var _ := repository.Update(e);
    case Deleted(e) => var _ := repository.Delete(e);
  }

  /** Begin, then stage and save `c1`, stage and save `c2`, then commit. */
  method SaveTwiceThenCommit<E>(key: E -> Identity, rows: seq<E>, t: nat, c1: Change<E>, c2: Change<E>)
    returns (durable: seq<E>)
    ensures durable == ApplyAll(key, rows, [c1] + [c2])
  {
    var context := new DbContext(key, rows);
    var uow := new UnitOfWork(context);
    var repository := new EfRepository(context, t);
    var _ := uow.BeginTransactionAsync(Pass);
    StageThrough(repository, c1);
    var _ := uow.SaveChangesAsync(Pass, Pass, Pass, Pass);
    assert context.txWrites == [c1] && context.pending == [];
    StageThrough(repository, c2);
    var _ := uow.SaveChangesAsync(Pass, Pass, Pass, Pass);
    assert context.txWrites == [c1] + [c2] && context.pending == [];
    var _ := uow.CommitTransactionAsync(Pass, Pass, Pass);
    assert [c1] + [c2] + [] == [c1] + [c2];
    durable := context.committed;
  }

  /** On an Idle unit of work: stage and save `c1`, then stage and save `c2`. */
  method SaveTwiceIdle<E>(key: E -> Identity, rows: seq<E>, t: nat, c1: Change<E>, c2: Change<E>)
    returns (durable: seq<E>)
    ensures durable == ApplyAll(key, ApplyAll(key, rows, [c1]), [c2])
  {
    var context := new DbContext(key, rows);
    var uow := new UnitOfWork(context);
    var repository := new EfRepository(context, t);
    StageThrough(repository, c1);
    assert context.pending == [c1];
    var _ := uow.SaveChangesAsync(Pass, Pass, Pass, Pass);
    StageThrough(repository, c2);
    assert context.pending == [c2];
    var _ := uow.SaveChangesAsync(Pass, Pass, Pass, Pass);
    durable := context.committed;
  }

  /** Two saves inside one explicit transaction, then a commit, make the same
      rows durable as two Idle saves, each committed on its own. */
  method OneTransactionMatchesSeparateSaves<E>(key: E -> Identity, rows: seq<E>, t: nat, c1: Change<E>, c2: Change<E>)
    returns (inOne: seq<E>, separately: seq<E>)
    ensures inOne == separately
    ensures inOne == ApplyAll(key, rows, [c1, c2])
  {
    inOne := SaveTwiceThenCommit(key, rows, t, c1, c2);
    separately := SaveTwiceIdle(key, rows, t, c1, c2);
    ApplyAllConcat(key, rows, [c1], [c2]);
    assert [c1] + [c2] == [c1, c2];
  }

  /** Deleting or updating an entity through one repository and flushing leaves
      the rows of every other entity type as they were, even rows with the same primary key. */
  method ChangeStaysInItsSet<E>(key: E -> Identity, rows: seq<E>, ta: nat, tb: nat, a: E, update: bool, flush: StepOutcome)
    returns (r: Result<nat, StoreError>, before: seq<E>, after: seq<E>)
    requires key(a).entityType == ta && ta != tb
    ensures r.Ok? <==> flush.Pass?
    ensures before == after
  {
    var context := new DbContext(key, rows);
    var first := new EfRepository(context, ta);
    var second := new EfRepository(context, tb);
    before := second.Entities();
    if update {
      var _ := first.Update(a);
    } else {
      var _ := first.Delete(a);
    }
    ghost var changes := context.pending;
    assert forall i :: 0 <= i < |changes| ==> key(changes[i].entity).entityType != tb;
    ApplyAllKeepsOtherTypes(key, rows, changes, tb);
    r := first.SaveChangesAsync(flush);
    after := second.Entities();
  }
}
