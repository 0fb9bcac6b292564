/** The generic repository (`EfRepository<T>`). Entity Framework keeps the
    rows of every entity type in one session; a repository for type T sees
    the `DbSet<T>`, modelled here as the session's rows whose identity has
    the entity type `entityType`. Queries read the session; every mutation only stages a
    change on the session's shared change tracker. */
module Repositories {
  import opened Wrappers
  import opened Store

  /** `FirstOrDefault`: the first element satisfying `p`, or none. */
  function FirstMatch<E>(s: seq<E>, p: E -> bool): (r: Option<E>)
    ensures r.None? <==> forall i :: 0 <= i < |s| ==> !p(s[i])
    ensures r.Some? ==> exists i :: 0 <= i < |s| && s[i] == r.value && p(s[i]) && forall j :: 0 <= j < i ==> !p(s[j])
  {
    if s == [] then None
    else if p(s[0]) then Some(s[0])
    else
      var r := FirstMatch(s[1..], p);
      assert r.Some? ==> exists i :: 1 <= i < |s| && s[i] == r.value && p(s[i]) && forall j :: 1 <= j < i ==> !p(s[j]);
      r
  }

  /** The predicate that holds of an element passing both `q` and `p`. */
  function Both<E>(q: E -> bool, p: E -> bool): E -> bool
  {
    x => q(x) && p(x)
  }

  /** When exactly one element satisfies `p`, the query returns that element. */
  lemma UniqueMatch<E>(s: seq<E>, p: E -> bool, k: nat)
    requires k < |s| && p(s[k])
    requires forall j :: 0 <= j < |s| && j != k ==> !p(s[j])
    ensures FirstMatch(s, p) == Some(s[k])
  {
  }

  /** The first match among the elements that pass a filter is the first element
      passing both the filter and the predicate: querying the `DbSet<T>` with `p`
      finds the first row of type T satisfying `p`. */
  lemma {:induction false} FirstMatchOfFilter<E>(q: E -> bool, s: seq<E>, p: E -> bool)
    ensures FirstMatch(Filter(q, s), p) == FirstMatch(s, Both(q, p))
  {
    if s != [] {
      FirstMatchOfFilter(q, s[1..], p);
      var rest := Filter(q, s[1..]);
      if q(s[0]) {
        assert Filter(q, s) == [s[0]] + rest;
        assert ([s[0]] + rest)[1..] == rest;
      } else {
        assert Filter(q, s) == rest;
      }
    }
  }

  class EfRepository<E> {
    const context: DbContext<E>
    const entityType: nat

    /** Binds the repository to a session and to the entity set `Set<T>()`; the session itself is not touched. */
    constructor (context: DbContext<E>, entityType: nat)
      ensures this.context == context && this.entityType == entityType
      ensures unchanged(context)
    {
      this.context := context;
      this.entityType := entityType;
    }

    /** Whether an entity belongs to this repository's `DbSet<T>`. */
    function IsEntity(x: E): bool
    {
      context.key(x).entityType == entityType
    }

    /** The `DbSet<T>`: the rows of type T the session can see. */
    function Entities(): seq<E>
      reads context
    {
      Filter(OfType(context.key, entityType), context.Visible())
    }

    /** `GetAsync(predicate)`: the first visible entity of type T satisfying
        `p`, or none when no such entity exists. The query itself may fail. */
    function GetAsync(p: E -> bool, query: StepOutcome): (r: Result<Option<E>, StoreError>)
      reads context
      ensures context.Attempt(query).Fail? ==> r == Err(context.Attempt(query).error)
      ensures context.Attempt(query).Pass? ==> r.Ok?
      ensures r.Ok? ==> r.value == FirstMatch(context.Visible(), Both(OfType(context.key, entityType), p))
    {
      var a := context.Attempt(query);
      if a.Fail? then Err(a.error)
      else
        FirstMatchOfFilter(OfType(context.key, entityType), context.Visible(), p);
        Ok(FirstMatch(Entities(), p))
    }

    /** `GetAllAsync`: every visible entity of type T, each as often as the session holds it, and nothing else. */
    function GetAllAsync(query: StepOutcome): (r: Result<seq<E>, StoreError>)
      reads context
      ensures context.Attempt(query).Fail? ==> r == Err(context.Attempt(query).error)
      ensures context.Attempt(query).Pass? ==> r.Ok?
      ensures r.Ok? ==> forall i :: 0 <= i < |r.value| ==> IsEntity(r.value[i])
      ensures r.Ok? ==> multiset(r.value) <= multiset(context.Visible())
      ensures r.Ok? ==> forall i :: 0 <= i < |context.Visible()| && IsEntity(context.Visible()[i]) ==>
        multiset(r.value)[context.Visible()[i]] == multiset(context.Visible())[context.Visible()[i]]
    {
      var a := context.Attempt(query);
      if a.Fail? then Err(a.error) else Ok(Entities())
    }

    /** `AddAsync`: stages an insert; nothing is written to the store. */
    method AddAsync(entity: E) returns (r: StepOutcome)
      requires context.Valid()
      modifies context
      ensures context.Valid()
      ensures r == old(context.Attempt(Pass))
      ensures old(context.disposed) ==> context.State() == old(context.State())
      ensures !old(context.disposed) ==> context.State() == old(context.State()).(pending := old(context.pending) + [Added(entity)])
    {
      r := context.Stage(Added(entity));
    }

    /** `Update`: stages a modification; nothing is written to the store. */
    method Update(entity: E) returns (r: StepOutcome)
      requires context.Valid()
      modifies context
      ensures context.Valid()
      ensures r == old(context.Attempt(Pass))
      ensures old(context.disposed) ==> context.State() == old(context.State())
      ensures !old(context.disposed) ==> context.State() == old(context.State()).(pending := old(context.pending) + [Modified(entity)])
    {
      r := context.Stage(Modified(entity));
    }

    /** `Delete`: stages a removal; nothing is written to the store. */
    method Delete(entity: E) returns (r: StepOutcome)
      requires context.Valid()
      modifies context
      ensures context.Valid()
      ensures r == old(context.Attempt(Pass))
      ensures old(context.disposed) ==> context.State() == old(context.State())
      ensures !old(context.disposed) ==> context.State() == old(context.State()).(pending := old(context.pending) + [Deleted(entity)])
    {
      r := context.Stage(Deleted(entity));
    }

    /** `SaveChangesAsync`: flushes the pending changes of the whole session,
        staged through any repository, not only those of type T. */
    method SaveChangesAsync(flush: StepOutcome) returns (r: Result<nat, StoreError>)
      requires context.Valid()
      modifies context
      ensures context.Valid()
      ensures old(context.Attempt(flush)).Fail? ==> r == Err(old(context.Attempt(flush)).error) && context.State() == old(context.State())
      ensures old(context.Attempt(flush)).Pass? ==> r == Ok(|old(context.pending)|) && context.pending == []
      ensures old(context.Attempt(flush)).Pass? && old(context.openTx).Some? ==>
        context.State() == old(context.State()).(txWrites := old(context.txWrites) + old(context.pending), pending := [])
      ensures old(context.Attempt(flush)).Pass? && old(context.openTx).None? ==>
        context.State() == old(context.State()).(committed := ApplyAll(context.key, old(context.committed), old(context.pending)), pending := [])
    {
      r := context.SaveChanges(flush);
    }
  }
}
