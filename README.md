# XCoreNet.Base data-access core, modelled in Dafny

This project models the data-access core of XCoreNet.Base:

- `UnitOfWork<TContext>`: a unit of work that owns one Entity Framework session
  (`DbContext`) and holds at most one explicit transaction on it. The nullable
  field `_transaction` is the state machine: Idle (null) or Active. Its
  operations are `SaveChangesAsync` (auto-wrapped in a local transaction when
  Idle), an idempotent `BeginTransactionAsync`, `CommitTransactionAsync`
  (flush, commit, rollback-then-rethrow, release in `finally`),
  `RollbackTransactionAsync`, `DisposeTransaction` and `Dispose`.
- `EfRepository<T>`: a generic repository over the same session. Its queries
  read the session. Its mutations only stage changes on the session's shared
  change tracker. Its save flushes the whole session.
- `HashingService.CreateSHA256`: the lowercase-hex (`x2`) formatting of a
  SHA-256 digest.

## Layout

| file | module | contents |
|---|---|---|
| wrappers.dfy | `Wrappers` | `Option`, `Result`, `Outcome`: nullable references and exceptions as values |
| store.dfy | `Store` | the abstract session `DbContext`: committed rows, writes flushed into the open transaction, the pending change list; `Filter`, `ApplyAll` |
| unit_of_work.dfy | `Infrastructure` | class `UnitOfWork` |
| repositories.dfy | `Repositories` | class `EfRepository`, `FirstMatch` (`FirstOrDefault`) |
| security.dfy | `Security` | the hex encoder, its decoder and `CreateSha256` |
| scenarios.dfy | `Scenarios` | client methods: call sequences over fresh sessions and what a fresh read then shows |

## How the store is modelled

The EF session is the class `Store.DbContext`. It is an abstract store, not EF itself.

- `committed` holds the durable rows, which a fresh session would read.
- `txWrites` holds the changes flushed inside the open transaction `openTx`.
- `pending` is the change tracker's list of staged `Added`, `Modified` and `Deleted` entries.
- All entity types share one row sequence. `key` gives an entity's identity: its entity
  type together with its primary key (`Identity(entityType, id)`), so rows of different
  types never share an identity. An update or delete therefore touches only rows of the
  changed entity's own type (`Store.ApplyAllKeepsOtherTypes`).
  A repository for `T` is bound to one entity type; its `DbSet<T>` is the rows of that type.
- Each store step (begin, flush, commit, rollback, query) takes a `StepOutcome`
  from the caller, `Pass` or `Fail(error)`. This makes every exception path explicit.
- On a disposed context every step fails with `ObjectDisposed` (`DbContext.Attempt`).
- A flush is atomic: it writes all pending changes or none.
  - With a transaction open, the writes join that transaction.
  - Without one, they are durable at once. This stands in for EF's implicit transaction.
  - A successful flush empties the pending list. This holds even when a later commit fails,
    because EF accepts the changes once `SaveChanges` succeeds.
- A failed commit or rollback changes nothing in the store.
- Releasing a transaction that is still open discards its writes.
- A query sees the committed rows plus the open transaction's writes (`Visible`). It does not see staged changes.

`catch { rollback; throw; }` re-raises the original failure. If the rollback
itself throws, C# propagates the rollback's exception instead. `Infrastructure.Raised` states this rule.

## Behaviour of the code a caller may not expect

- A failing rollback inside `catch` surfaces only the rollback's error, not both errors.
- `RollbackTransactionAsync`: if the rollback itself fails, `DisposeTransaction` is skipped.
  The unit of work then stays Active, holding the handle
  (UnitOfWork.cs:67-71). Inside `CommitTransactionAsync` the `finally` still releases it.
- In the auto-wrapped `SaveChangesAsync`, a commit failure after a successful flush
  leaves the durable rows unchanged. The staged changes are gone from the pending list too,
  because the flush had already accepted them.
- `Dispose` disposes the context on every call. Disposal is modelled as a flag, so
  disposing twice is the same as disposing once.
- Queries see changes flushed into the open transaction. They do not see changes
  that are only staged.

## Model

| member | source | states |
|---|---|---|
| `Infrastructure.UnitOfWork.constructor` | XCoreNet.Base/Infrastructure/UnitOfWork.cs:12-15 | the unit of work is bound to the given session and starts Idle |
| `Infrastructure.UnitOfWork.SaveChangesAsync` | XCoreNet.Base/Infrastructure/UnitOfWork.cs:17-36 | Active: flushes into the open transaction, commits nothing, keeps the same handle; a flush failure propagates with no rollback and changes nothing. Idle: a local transaction either makes all pending changes durable and returns their count, or rolls back. On rollback the durable rows are unchanged, the error is the flush's or commit's (the rollback's if it fails), and the unit of work is still Idle with no transaction left open |
| `Infrastructure.UnitOfWork.BeginTransactionAsync` | XCoreNet.Base/Infrastructure/UnitOfWork.cs:38-42 | Idle: opens a fresh transaction and holds its handle (on failure stays Idle, store unchanged); Active: nothing changes, same handle |
| `Infrastructure.UnitOfWork.CommitTransactionAsync` | XCoreNet.Base/Infrastructure/UnitOfWork.cs:44-63 | always flushes first. When Active it commits: all of the transaction's writes plus the flushed changes become durable, or none do. A failing flush or commit is re-raised after the rollback. On every exit the handle is released and nothing stays open |
| `Infrastructure.UnitOfWork.RollbackTransactionAsync` | XCoreNet.Base/Infrastructure/UnitOfWork.cs:65-72 | Idle: a no-op that raises nothing. Active: a successful rollback discards the transaction's writes and returns to Idle. A failing rollback propagates its error and leaves the transaction held |
| `Infrastructure.UnitOfWork.DisposeTransaction` | XCoreNet.Base/Infrastructure/UnitOfWork.cs:74-81 | releases the held transaction (discarding writes not committed) and clears the handle; with no handle it changes nothing, so a second call is a no-op |
| `Infrastructure.UnitOfWork.Dispose` | XCoreNet.Base/Infrastructure/UnitOfWork.cs:83-86 | disposes the session whatever the transaction state and leaves the handle as it is |
| `Repositories.EfRepository.constructor` | XCoreNet.Base/Infrastructure/Repositories/EfRepository.cs:12-16 | binds the repository to the given session and entity set; the session is unchanged |
| `Repositories.FirstMatch` | XCoreNet.Base/Infrastructure/Repositories/EfRepository.cs:18 | none exactly when no element satisfies the predicate; otherwise an element at some index that satisfies it, with no earlier element satisfying it |
| `Repositories.UniqueMatch` | XCoreNet.Base/Infrastructure/Repositories/EfRepository.cs:18 | when exactly one element satisfies the predicate, that element is returned |
| `Repositories.FirstMatchOfFilter` | XCoreNet.Base/Infrastructure/Repositories/EfRepository.cs:18 | the first match within the entity set is the first row of the whole session that is of type T and satisfies the predicate |
| `Repositories.EfRepository.GetAsync` | XCoreNet.Base/Infrastructure/Repositories/EfRepository.cs:18 | a failing query raises its error; otherwise the result is the first visible entity of type T satisfying the predicate, or none |
| `Repositories.EfRepository.GetAllAsync` | XCoreNet.Base/Infrastructure/Repositories/EfRepository.cs:19 | a failing query raises its error. Otherwise: only entities of type T, drawn from the visible rows, and each visible T entity occurs exactly as often as in the session |
| `Repositories.EfRepository.AddAsync` | XCoreNet.Base/Infrastructure/Repositories/EfRepository.cs:20 | appends `Added(e)` to the pending list; committed rows, transaction writes and handle untouched |
| `Repositories.EfRepository.Update` | XCoreNet.Base/Infrastructure/Repositories/EfRepository.cs:21 | appends `Modified(e)` to the pending list; nothing else in the store changes |
| `Repositories.EfRepository.Delete` | XCoreNet.Base/Infrastructure/Repositories/EfRepository.cs:22 | appends `Deleted(e)` to the pending list; nothing else in the store changes |
| `Repositories.EfRepository.SaveChangesAsync` | XCoreNet.Base/Infrastructure/Repositories/EfRepository.cs:23 | flushes the session's whole pending list, whichever repository staged it, and returns its length. The writes join an open transaction or become durable. The pending list is empty afterwards; on failure nothing changes |
| `Security.CreateSha256` | XCoreNet.Base/Infrastructure/Security/HashingService.cs:8-21 | the loop builds exactly the lowercase hex text of the digest: 64 characters, all in 0-9a-f, decoding back to the digest |
| `Security.HexDigit` | XCoreNet.Base/Infrastructure/Security/HashingService.cs:17 | every digit `x2` writes is in 0-9a-f |
| `Security.LowerHex` | XCoreNet.Base/Infrastructure/Security/HashingService.cs:15-19 | the output is exactly twice as long as the byte input |
| `Security.LowerHexAt` | XCoreNet.Base/Infrastructure/Security/HashingService.cs:16-17 | characters 2i and 2i+1 are the high and low nibble of byte i, in byte order, no separators |
| `Security.LowerHexIsLowercase` | XCoreNet.Base/Infrastructure/Security/HashingService.cs:17 | every output character is a lowercase hex digit |
| `Security.LowerHexSnoc` | XCoreNet.Base/Infrastructure/Security/HashingService.cs:15-17 | one more byte appends exactly its two digits: the loop step keeps "the builder holds the hex of the bytes so far" |
| `Security.DecodeLowerHex` | XCoreNet.Base/Infrastructure/Security/HashingService.cs:15-19 | decoding the hex text pairwise yields exactly the bytes encoded |
| `Security.DecodeHexOnlyLowerHex` | XCoreNet.Base/Infrastructure/Security/HashingService.cs:15-19 | any text that decodes to some bytes is exactly their hex text: the encoding is injective |
| `Scenarios.CommitSpansRepositories` | XCoreNet.Base/Infrastructure/UnitOfWork.cs:44-63 | begin, insert through two repositories, commit: on success both rows are durable, on any failure neither; Idle afterwards |
| `Scenarios.ConflictOnCommit` | XCoreNet.Base/Infrastructure/UnitOfWork.cs:54-58 | a conflicting commit is re-raised unchanged, the durable rows are as before and the unit of work is Idle |
| `Scenarios.AutoPromotedSave` | XCoreNet.Base/Infrastructure/UnitOfWork.cs:24-35 | Idle save of one insert returns 1 and makes it durable, or on failure leaves the durable rows as before; no transaction stays open |
| `Scenarios.SaveInsideTransaction` | XCoreNet.Base/Infrastructure/UnitOfWork.cs:19-22 | a save while Active is visible inside the session but not durable; a passing rollback removes it from the session too, a failing one leaves it visible and still uncommitted |
| `Scenarios.SaveTwiceThenCommit` | XCoreNet.Base/Infrastructure/UnitOfWork.cs:17-63 | two saves inside one explicit transaction and a commit make durable the two changes written in order |
| `Scenarios.SaveTwiceIdle` | XCoreNet.Base/Infrastructure/UnitOfWork.cs:24-30 | two Idle saves commit each change on its own, the second on top of the first |
| `Scenarios.OneTransactionMatchesSeparateSaves` | XCoreNet.Base/Infrastructure/UnitOfWork.cs:17-63 | for any two changes, saving both inside one transaction and committing leaves the same durable rows as two Idle saves |
| `Scenarios.ChangeStaysInItsSet` | XCoreNet.Base/Infrastructure/Repositories/EfRepository.cs:21-22 | an update or delete through one repository, flushed, leaves the entity set of every other type exactly as it was, even rows with the same primary key |
| `Store.ApplyKeepsOtherTypes` | XCoreNet.Base/Infrastructure/Repositories/EfRepository.cs:20-22 | writing an insert, update or delete of an entity of one type leaves the rows of every other type as they were |
| `Store.ApplyAllKeepsOtherTypes` | XCoreNet.Base/Infrastructure/Repositories/EfRepository.cs:20-22 | writing any list of changes to entities of other types leaves the rows of a type as they were |
| `Scenarios.BeginTwice` | XCoreNet.Base/Infrastructure/UnitOfWork.cs:38-42 | two begins open one transaction and hold the same handle |
| `Scenarios.RollbackWhenIdle` | XCoreNet.Base/Infrastructure/UnitOfWork.cs:65-72 | rollback while Idle raises nothing and changes nothing, even on a disposed session |
| `Scenarios.DisposeWithTransactionOpen` | XCoreNet.Base/Infrastructure/UnitOfWork.cs:83-86 | disposing with a transaction open closes the session; the flushed writes never become durable |
| `Scenarios.DisposeTransactionTwice` | XCoreNet.Base/Infrastructure/UnitOfWork.cs:74-81 | a second release leaves the store exactly as the first left it |
| `Scenarios.RepositorySaveFlushesSession` | XCoreNet.Base/Infrastructure/Repositories/EfRepository.cs:23 | one repository's save flushes the inserts staged through another repository on the same session |

## Left out

- async/await and concurrency: every operation is a sequential call. Thrown exceptions are `Result`/`Outcome` values.
- SHA-256 (FIPS 180-4) and UTF-8 encoding are library calls. `CreateSha256` takes them as parameters, and the digest type fixes its length at 32 bytes.
- Entity Framework internals stay behind the abstract store:
  - expression-tree query translation: predicates are Dafny functions;
  - change-tracker identity resolution: staging an untracked entity, an add followed by a delete detaching the entity, duplicate entries of one entity counted once;
  - queries returning tracked instances with unsaved edits.

  The flush count is the number of entries in the pending list.
- Store errors beyond their identity: the kind of a store failure is opaque and caller-supplied.
- Releasing a transaction and disposing a context never fail in the model.
- `Infrastructure.UnitOfWork.constructor`: requires a session with no transaction open. The session is exclusively owned and fresh per scope. A context whose transaction was opened by other code is not modelled.
- `Infrastructure.UnitOfWork.Dispose`: the `?.` null check on the context is not modelled, because the context is never null here.
- Repositories: the static type `T` of the arguments to `AddAsync`, `Update` and `Delete` is not enforced; an entity's type is the `entityType` of its identity, and a repository is bound to one entity type.
- XCoreNet.Base/DependencyInjection/ServiceCollectionExtensions.cs (registration, logging setup) and XCoreNet.Base/Utilities/HttpHelper.cs (client IP lookup) are not part of this model. They are wiring with no state of their own.
