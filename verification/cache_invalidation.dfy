/**
 * Removing a query's result from the cache (`invalidate_db_cache`). The
 * caller that wins the reset deletes the query's cache record, drops its
 * table, and, when cascading, invalidates every cached query recorded as
 * depending on it; other callers wait for a reset in progress or fail.
 */
module CacheInvalidation {
  import opened QueryStates

  /** A row of `cache.cached`; the scoring and bookkeeping columns are not modelled. */
  datatype CacheRecord = CacheRecord(queryClass: string, schema: string, tableName: string)

  /**
   * The cache as invalidation sees it: the records of `cache.cached` by
   * query id (the md5), the `cache.dependencies` pairs `(query_id,
   * depends_on)`, the ids whose table `cache.x<md5>` exists, and each
   * query's state (a query without an entry is known).
   */
  datatype Cache = Cache(
    cached: map<string, CacheRecord>,
    dependencies: set<(string, string)>,
    tables: set<string>,
    states: map<string, QueryState>)

  function StateOf(c: Cache, id: string): (r: QueryState)
    ensures id !in c.states ==> r == Known
    ensures id in c.states ==> r == c.states[id]
  {
    if id in c.states then c.states[id] else Known
  }

  /** The queries a reset could take over: the termination measure of the cascade. */
  ghost function Resettables(c: Cache): set<string> {
    set id | id in c.states && Resettable(c.states[id])
  }

  /** The cached queries recorded as depending on `id`. */
  function Dependents(c: Cache, id: string): (r: set<string>)
    ensures forall q :: q in r <==> q in c.cached && (q, id) in c.dependencies
  {
    set q | q in c.cached && (q, id) in c.dependencies
  }

  /** How a call ends: it returns, it blocks on a reset running elsewhere, or it raises `QueryResetFailedException`. */
  datatype Outcome = Invalidated | WaitsForReset | ResetFailed

  /**
   * Between two caches only resets happened: every query keeps its state,
   * or was resettable and is now resetting or known.
   */
  ghost predicate OnlyResets(c: Cache, r: Cache) {
    forall q :: StateOf(r, q) == StateOf(c, q) || (Resettable(StateOf(c, q)) && StateOf(r, q) in {Resetting, Known})
  }

  /** What disappeared from the cache belongs to queries this call reset. */
  ghost predicate RemovedOnlyReset(c: Cache, r: Cache) {
    (forall q :: q in c.cached && q !in r.cached ==> Resettable(StateOf(c, q)) && StateOf(r, q) != StateOf(c, q)) &&
    (forall q :: q in c.tables && q !in r.tables ==> Resettable(StateOf(c, q)) && StateOf(r, q) != StateOf(c, q))
  }

  /** Invalidation only deletes: nothing is added, kept records are unchanged, dependency rows stay. */
  ghost predicate OnlyDeletes(c: Cache, r: Cache) {
    r.dependencies == c.dependencies &&
    r.cached.Keys <= c.cached.Keys &&
    (forall q :: q in r.cached ==> r.cached[q] == c.cached[q]) &&
    r.tables <= c.tables
  }

  /** Invalidation steps compose: two in a row only delete and reset, and remove only what they reset. */
  lemma ComposeSteps(c: Cache, m: Cache, r: Cache)
    requires OnlyDeletes(c, m) && OnlyResets(c, m) && RemovedOnlyReset(c, m)
    requires OnlyDeletes(m, r) && OnlyResets(m, r) && RemovedOnlyReset(m, r)
    ensures OnlyDeletes(c, r) && OnlyResets(c, r) && RemovedOnlyReset(c, r)
  {
    forall q ensures StateOf(r, q) == StateOf(c, q) || (Resettable(StateOf(c, q)) && StateOf(r, q) in {Resetting, Known}) {
      if StateOf(m, q) != StateOf(c, q) {
        assert !Resettable(StateOf(m, q));
      }
    }
  }

  /** Finishing the reset of a query this call took over keeps the account of the steps. */
  lemma FinishKeepsSteps(c: Cache, m: Cache, id: string)
    requires OnlyDeletes(c, m) && OnlyResets(c, m) && RemovedOnlyReset(c, m)
    requires Resettable(StateOf(c, id)) && StateOf(m, id) == Resetting
    ensures OnlyDeletes(c, FinishReset(m, id)) && OnlyResets(c, FinishReset(m, id)) && RemovedOnlyReset(c, FinishReset(m, id))
  {
    var r := FinishReset(m, id);
    forall q ensures StateOf(r, q) == StateOf(c, q) || (Resettable(StateOf(c, q)) && StateOf(r, q) in {Resetting, Known}) {
      if q != id {
        assert StateOf(r, q) == StateOf(m, q);
      }
    }
  }

  lemma OnlyResetsShrinksResettables(c: Cache, r: Cache)
    requires OnlyResets(c, r)
    ensures Resettables(r) <= Resettables(c)
  {
    forall q | q in Resettables(r) ensures q in Resettables(c) {
      assert StateOf(r, q) == StateOf(c, q);
    }
  }

  /** The dependents visited in some order the database chooses: any one of them. */
  ghost function Pick(ds: set<string>): (d: string)
    requires ds != {}
    ensures d in ds
  {
    var d :| d in ds; d
  }

  /**
   * The owner's first steps: the state machine marks the query resetting,
   * its record is deleted, and with `drop` its table too.
   */
  function StartReset(c: Cache, id: string, drop: bool): (r: Cache)
    ensures r.cached.Keys == c.cached.Keys - {id} && forall q :: q in r.cached ==> r.cached[q] == c.cached[q]
    ensures r.tables == if drop then c.tables - {id} else c.tables
    ensures r.dependencies == c.dependencies
    ensures StateOf(r, id) == Resetting
    ensures forall q :: q != id ==> StateOf(r, q) == StateOf(c, q)
  {
    Cache(c.cached - {id}, c.dependencies, if drop then c.tables - {id} else c.tables, c.states[id := Resetting])
  }

  lemma StartResetTakesOver(c: Cache, id: string, drop: bool)
    requires Resettable(StateOf(c, id))
    ensures Resettables(StartReset(c, id, drop)) == Resettables(c) - {id}
  {
    var r := StartReset(c, id, drop);
    forall q ensures q in Resettables(r) <==> q in Resettables(c) - {id} {
      if q != id {
        assert StateOf(r, q) == StateOf(c, q);
      }
    }
  }

  /** `finish_resetting`: the reset completes and the query is known again. */
  function FinishReset(c: Cache, id: string): (r: Cache)
    requires StateOf(c, id) == Resetting
    ensures r.cached == c.cached && r.tables == c.tables && r.dependencies == c.dependencies
    ensures StateOf(r, id) == Known
    ensures forall q :: q != id ==> StateOf(r, q) == StateOf(c, q)
  {
    c.(states := c.states[id := TriggerEvent(StateOf(c, id), QueryEvent.FinishReset).0])
  }

  /**
   * `invalidate_db_cache(cascade, drop)`. The caller whose `reset` takes the
   * transition does the work; any other caller waits while a reset is in
   * progress, returns when the query is known, and fails otherwise.
   */
  ghost function Invalidate(c: Cache, id: string, cascade: bool, drop: bool): (r: (Cache, Outcome))
    ensures OnlyDeletes(c, r.0) && OnlyResets(c, r.0) && RemovedOnlyReset(c, r.0)
    ensures Resettables(r.0) <= Resettables(c)
    ensures StateOf(c, id) == Known ==> r == (c, Invalidated)
    ensures StateOf(c, id) == Resetting ==> r == (c, WaitsForReset)
    ensures StateOf(c, id) in {Queued, Executing} ==> r == (c, ResetFailed)
    ensures r.1 == Invalidated <==> StateOf(r.0, id) == Known
    decreases Resettables(c), 2
  {
    var st := StateOf(c, id);
    if TriggerEvent(st, Reset).1 then OwnerReset(c, id, cascade, drop)
    else if st == Resetting then (c, WaitsForReset)
    else if st == Known then (c, Invalidated)
    else (c, ResetFailed)
  }

  /**
   * The owner fetches the dependents, deletes the record, drops the table
   * when `drop` is set, cascades with the defaults when `cascade` is set,
   * and finishes the reset; a failing dependent leaves it resetting.
   */
  ghost function OwnerReset(c: Cache, id: string, cascade: bool, drop: bool): (r: (Cache, Outcome))
    requires Resettable(StateOf(c, id))
    ensures OnlyDeletes(c, r.0) && OnlyResets(c, r.0) && RemovedOnlyReset(c, r.0)
    ensures Resettables(r.0) <= Resettables(c)
    ensures r.1 == Invalidated <==> StateOf(r.0, id) == Known
    ensures r.1 != Invalidated ==> StateOf(r.0, id) == Resetting
    decreases Resettables(c), 1
  {
    var ds := Dependents(c, id);
    var deleted := StartReset(c, id, drop);
    StartResetTakesOver(c, id, drop);
    var (after, outcome) := if cascade then CascadeAll(deleted, ds) else (deleted, Invalidated);
    assert StateOf(after, id) == Resetting;
    assert OnlyDeletes(c, deleted) && OnlyResets(c, deleted) && RemovedOnlyReset(c, deleted);
    ComposeSteps(c, deleted, after);
    OnlyResetsShrinksResettables(c, after);
    if outcome == Invalidated then
      var r := FinishReset(after, id);
      FinishKeepsSteps(c, after, id);
      OnlyResetsShrinksResettables(c, r);
      (r, Invalidated)
    else
      (after, outcome)
  }

  /** `dep.invalidate_db_cache()` for each dependent in turn, stopping at the first that does not return. */
  ghost function CascadeAll(c: Cache, ds: set<string>): (r: (Cache, Outcome))
    ensures OnlyDeletes(c, r.0) && OnlyResets(c, r.0) && RemovedOnlyReset(c, r.0)
    ensures Resettables(r.0) <= Resettables(c)
    decreases Resettables(c), 3, ds
  {
    if ds == {} then (c, Invalidated)
    else
      var d := Pick(ds);
      var (c', outcome) := Invalidate(c, d, true, true);
      if outcome != Invalidated then (c', outcome)
      else
        var r := CascadeAll(c', ds - {d});
        OnlyResetsShrinksResettables(c, r.0);
        r
  }

  /** Without a cascade, an invalidation removes only the query's own record and, with `drop`, its own table. */
  lemma WithoutCascadeOnlyItself(c: Cache, id: string, drop: bool)
    ensures var (r, outcome) := Invalidate(c, id, false, drop);
            && r.cached.Keys == c.cached.Keys - (if Resettable(StateOf(c, id)) then {id} else {})
            && r.tables == c.tables - (if Resettable(StateOf(c, id)) && drop then {id} else {})
            && (Resettable(StateOf(c, id)) ==> outcome == Invalidated)
  {
    if Resettable(StateOf(c, id)) {
      var deleted := StartReset(c, id, drop);
      assert OwnerReset(c, id, false, drop) == (FinishReset(deleted, id), Invalidated);
    }
  }

  /** With `drop` unset the query's own table stays, whatever the cascade removes. */
  lemma WithoutDropTableStays(c: Cache, id: string, cascade: bool)
    requires id in c.tables
    ensures id in Invalidate(c, id, cascade, false).0.tables
  {
    if Resettable(StateOf(c, id)) {
      var deleted := StartReset(c, id, false);
      var after := if cascade then CascadeAll(deleted, Dependents(c, id)).0 else deleted;
      assert id in after.tables;
    }
  }

  /** Every cached query is completed: the cache and the state machine agree. */
  ghost predicate Consistent(c: Cache) {
    forall q :: q in c.cached ==> StateOf(c, q) == Completed
  }

  /** No query is recorded as depending on itself, as a query's md5 covers those of its dependencies. */
  ghost predicate NoSelfDependency(c: Cache) {
    forall q :: (q, q) !in c.dependencies
  }

  /** No record left in `r` depends on a record of `c` that `r` lost. */
  ghost predicate NoDangling(c: Cache, r: Cache) {
    forall a, b :: (a, b) in c.dependencies && a in r.cached && b in c.cached ==> b in r.cached
  }

  /** The result of a successful cascade from `c`: consistent, nothing dangling, every removed query known. */
  ghost predicate CleanlyInvalidated(c: Cache, r: (Cache, Outcome)) {
    r.1 == Invalidated && Consistent(r.0) && NoDangling(c, r.0) &&
    (forall q :: q in c.cached && q !in r.0.cached ==> StateOf(r.0, q) == Known)
  }

  /**
   * A cascading invalidation of a query that is known or finished, in a
   * consistent cache, returns normally, removes the query's record and
   * leaves no cached query depending on a removed one.
   */
  lemma {:induction false} CascadeLeavesNoDangling(c: Cache, id: string, drop: bool)
    requires Consistent(c) && NoSelfDependency(c)
    requires StateOf(c, id) == Known || Resettable(StateOf(c, id))
    ensures CleanlyInvalidated(c, Invalidate(c, id, true, drop))
    ensures id !in Invalidate(c, id, true, drop).0.cached
    decreases Resettables(c), 2
  {
    if Resettable(StateOf(c, id)) {
      OwnerResetLeavesNoDangling(c, id, drop);
    }
  }

  lemma {:induction false} OwnerResetLeavesNoDangling(c: Cache, id: string, drop: bool)
    requires Consistent(c) && NoSelfDependency(c)
    requires Resettable(StateOf(c, id))
    ensures CleanlyInvalidated(c, OwnerReset(c, id, true, drop))
    ensures id !in OwnerReset(c, id, true, drop).0.cached
    decreases Resettables(c), 1
  {
    var ds := Dependents(c, id);
    var deleted := StartReset(c, id, drop);
    StartResetTakesOver(c, id, drop);
    assert Consistent(deleted) by {
      forall q | q in deleted.cached ensures StateOf(deleted, q) == Completed {
        assert q != id;
      }
    }
    assert forall e :: e in ds ==> e in deleted.cached;
    CascadeAllLeavesNoDangling(deleted, ds);
    var after := CascadeAll(deleted, ds).0;
    assert OwnerReset(c, id, true, drop) == (FinishReset(after, id), Invalidated);
    CleanAfterFinish(c, deleted, after, id);
  }

  /**
   * The owner's part: once the dependents are cleanly invalidated from the
   * cache without the query's record, finishing the reset leaves the
   * original cache cleanly invalidated.
   */
  lemma CleanAfterFinish(c: Cache, deleted: Cache, after: Cache, id: string)
    requires deleted.cached.Keys == c.cached.Keys - {id} && deleted.dependencies == c.dependencies
    requires StateOf(after, id) == Resetting
    requires OnlyDeletes(deleted, after) && CleanlyInvalidated(deleted, (after, Invalidated))
    requires forall e :: e in Dependents(c, id) ==> e !in after.cached
    ensures CleanlyInvalidated(c, (FinishReset(after, id), Invalidated))
  {
    var r := FinishReset(after, id);
    forall a, b | (a, b) in c.dependencies && a in r.cached && b in c.cached
      ensures b in r.cached
    {
      assert a in deleted.cached;
      assert a !in Dependents(c, id);
      assert b in deleted.cached;
    }
    forall q | q in r.cached ensures StateOf(r, q) == Completed {
      assert q in deleted.cached;
    }
    forall q | q in c.cached && q !in r.cached ensures StateOf(r, q) == Known {
      if q != id {
        assert q in deleted.cached;
      }
    }
  }

  lemma {:induction false} CascadeAllLeavesNoDangling(c: Cache, ds: set<string>)
    requires Consistent(c) && NoSelfDependency(c)
    requires forall e :: e in ds ==> e in c.cached || StateOf(c, e) == Known
    ensures CleanlyInvalidated(c, CascadeAll(c, ds))
    ensures forall e :: e in ds ==> e !in CascadeAll(c, ds).0.cached
    decreases Resettables(c), 3, ds
  {
    if ds != {} {
      var d := Pick(ds);
      CascadeLeavesNoDangling(c, d, true);
      var c' := Invalidate(c, d, true, true).0;
      forall e | e in ds - {d} ensures e in c'.cached || StateOf(c', e) == Known {
        if e !in c'.cached && e !in c.cached {
          assert StateOf(c', e) == StateOf(c, e);
        }
      }
      OnlyResetsShrinksResettables(c, c');
      CascadeAllLeavesNoDangling(c', ds - {d});
      assert CascadeAll(c, ds) == CascadeAll(c', ds - {d});
    }
  }

  /** `U` holds every query recorded as depending on one of its members. */
  ghost predicate ClosedUnderDependents(c: Cache, u: set<string>) {
    forall a, b :: (a, b) in c.dependencies && b in u ==> a in u
  }

  /** Records, tables and states of queries outside `u` are as they were. */
  ghost predicate UntouchedOutside(c: Cache, r: Cache, u: set<string>) {
    (forall q :: q in c.cached && q !in r.cached ==> q in u) &&
    (forall q :: q in c.tables && q !in r.tables ==> q in u) &&
    (forall q :: q !in u ==> StateOf(r, q) == StateOf(c, q))
  }

  /**
   * An invalidation never reaches beyond the query and what depends on it,
   * directly or not: nothing outside a set closed under dependents that
   * holds `id` is touched.
   */
  lemma {:induction false} InvalidationStaysWithinDependents(c: Cache, id: string, cascade: bool, drop: bool, u: set<string>)
    requires id in u && ClosedUnderDependents(c, u)
    ensures UntouchedOutside(c, Invalidate(c, id, cascade, drop).0, u)
    decreases Resettables(c), 2
  {
    if Resettable(StateOf(c, id)) {
      OwnerResetStaysWithinDependents(c, id, cascade, drop, u);
    }
  }

  lemma {:induction false} OwnerResetStaysWithinDependents(c: Cache, id: string, cascade: bool, drop: bool, u: set<string>)
    requires id in u && ClosedUnderDependents(c, u)
    requires Resettable(StateOf(c, id))
    ensures UntouchedOutside(c, OwnerReset(c, id, cascade, drop).0, u)
    decreases Resettables(c), 1
  {
    var ds := Dependents(c, id);
    var deleted := StartReset(c, id, drop);
    StartResetTakesOver(c, id, drop);
    if cascade {
      CascadeAllStaysWithinDependents(deleted, ds, u);
    }
  }

  lemma {:induction false} CascadeAllStaysWithinDependents(c: Cache, ds: set<string>, u: set<string>)
    requires ds <= u && ClosedUnderDependents(c, u)
    ensures UntouchedOutside(c, CascadeAll(c, ds).0, u)
    decreases Resettables(c), 3, ds
  {
    if ds != {} {
      var d := Pick(ds);
      InvalidationStaysWithinDependents(c, d, true, true, u);
      var (c', outcome) := Invalidate(c, d, true, true);
      if outcome == Invalidated {
        OnlyResetsShrinksResettables(c, c');
        CascadeAllStaysWithinDependents(c', ds - {d}, u);
      }
    }
  }

  /** A second caller that finds the query resetting waits (the test's blocking `_sleep`). */
  lemma SecondResetWaits(c: Cache, id: string)
    requires StateOf(c, id) == Known
    ensures var c' := c.(states := c.states[id := RunEvents(Known, [Queue, Execute, Finish, Reset])]);
            Invalidate(c', id, true, true) == (c', WaitsForReset)
  {
    assert [Queue, Execute, Finish, Reset][1..] == [Execute, Finish, Reset];
    assert [Execute, Finish, Reset][1..] == [Finish, Reset];
    assert [Finish, Reset][1..] == [Reset];
  }

  /** A running query cannot be reset: the invalidation raises `QueryResetFailedException`. */
  lemma ExecutingQueryResetFails(c: Cache, id: string)
    requires StateOf(c, id) == Known
    ensures var c' := c.(states := c.states[id := RunEvents(Known, [Queue, Execute])]);
            Invalidate(c', id, true, true) == (c', ResetFailed)
  {
    assert [Queue, Execute][1..] == [Execute];
  }

  /**
   * Two completed queries, `b` recorded as depending on `a`: invalidating
   * `a` removes both records and both tables and leaves both known.
   */
  lemma CascadeExample(a: string, b: string, rec: CacheRecord)
    requires a != b
    ensures var c := Cache(map[a := rec, b := rec], {(b, a)}, {a, b}, map[a := Completed, b := Completed]);
            var (r, outcome) := Invalidate(c, a, true, true);
            && outcome == Invalidated
            && r.cached == map[] && r.tables == {}
            && StateOf(r, a) == Known && StateOf(r, b) == Known
  {
    var c := Cache(map[a := rec, b := rec], {(b, a)}, {a, b}, map[a := Completed, b := Completed]);
    assert Dependents(c, a) == {b};
    var deleted := StartReset(c, a, true);
    assert Dependents(deleted, b) == {};
    var deleted' := StartReset(deleted, b, true);
    assert CascadeAll(deleted', {}) == (deleted', Invalidated);
    var afterB := FinishReset(deleted', b);
    assert OwnerReset(deleted, b, true, true) == (afterB, Invalidated);
    assert Pick({b}) == b;
    assert CascadeAll(afterB, {}) == (afterB, Invalidated);
    assert CascadeAll(deleted, {b}) == (afterB, Invalidated);
    assert OwnerReset(c, a, true, true) == (FinishReset(afterB, a), Invalidated);
  }
}
