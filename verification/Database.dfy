/** The database layer's row operations, on the caches it owns (internal/db/bundb). */
module Database {
  import opened Caches
  import opened Cascade
  import opened Coherence
  import opened Records
  import opened Runs
  import opened Wrappers

  class Database {
    var rows: set<Entry>
    const caches: Caches

    ghost function State(): Sys
      reads this, caches
    {
      Sys(rows, caches.Snap())
    }

    /** IDs are always sure to be cleared, whatever the deletion of the index does. */
    ghost predicate Valid()
      reads caches
    {
      ID_KEYS <= caches.Sure()
    }

    constructor (rows: set<Entry>, complete: bool)
      ensures Valid() && State() == Sys(rows, Snapshot({}, map[])) && fresh(caches)
    {
      this.rows := rows;
      caches := new Caches(complete);
    }

    /** A list of IDs by key; `selected` is the outcome of its query, if it has to be made. */
    method GetIDs(key: ListKey, selected: Result<seq<ID>>, ghost order: Order, ghost judge: Judge)
        returns (ids: Result<seq<ID>>)
      requires Valid() && (selected.Success? ==> order(key.cache, Select(rows, key), selected.value))
      modifies caches
      ensures Valid()
      ensures ids.Failure? <==> selected.Failure? && key !in old(caches.lists)
      ensures ids.Failure? ==> State() == old(State())
      ensures ids.Success? ==>
                && Enabled(order, old(State()), LoadList(key, ids.value), State())
                && State() == Apply(judge, old(State()), LoadList(key, ids.value))
      ensures ids.Success? && Agreement(order, old(State())) ==> order(key.cache, Select(old(rows), key), ids.value)
    {
      ids := caches.Load(key.cache, key.key, selected);
    }

    /** Put or Update of a row; `ok` is the outcome of the statement. */
    method Put(row: Entry, ok: bool, ghost judge: Judge) returns (ghost sure: iset<Target>)
      requires Valid()
      modifies this, caches
      ensures Valid() && ID_KEYS <= sure && (caches.complete ==> sure == ALL_KEYS)
      ensures Step(sure, judge, old(State()), if ok then StoreRow(row) else StoreFails(row), State())
      ensures ok ==> forall r :: r in rows <==> r == row || (r in old(rows) && !HasIDOf(r, row))
      ensures !ok ==> rows == old(rows)
    {
      hide Clears, Insert, SureKeys, HookCalls, Upsert;
      if ok {
        RowsAfterPut(rows, row);
        rows := Upsert(rows, row);
        CompleteIsSure(caches.complete, Insert(caches.entries, row), Relisted(caches.unlisted, row));
        StoringKeepsIDs(caches.complete, caches.entries, caches.unlisted, row);
        sure := SureKeys(caches.complete, Insert(caches.entries, row), Relisted(caches.unlisted, row));
      } else {
        CompleteIsSure(caches.complete, caches.entries, caches.unlisted);
        sure := caches.Sure();
      }
      caches.Store(row, ok);
    }

    /** Delete of a row: it is loaded into its cache, deleted, and then invalidated by its ID. */
    method Delete(row: Entry, ghost judge: Judge) returns (ghost sure: iset<Target>)
      requires Valid() && WellFormed(row)
      modifies this, caches
      ensures Valid() && ID_KEYS <= sure && (caches.complete ==> sure == ALL_KEYS)
      ensures Step(sure, judge, old(State()), DeleteRow(row), State())
      ensures forall r :: r in rows <==> r in old(rows) && !HasIDOf(r, row)
    {
      hide Clears, Insert, SureKeys, HookCalls;
      IDHitsVersions(row);
      CompleteIsSure(caches.complete, caches.entries, caches.unlisted);
      CompleteIsSure(caches.complete, Insert(caches.entries, row), Relisted(caches.unlisted, row));
      IDsAreKeys(row);
      AllListed(caches.complete, caches.entries, caches.unlisted, Target(KindOf(row), ByID, [row.id]));
      StoringKeepsIDs(caches.complete, caches.entries, caches.unlisted, row);
      var _ := caches.LoadOne(KindOf(row), ByID, [row.id], Success(row));
      rows := Without(rows, row);
      sure := caches.Sure();
      caches.Invalidate(KindOf(row), ByID, [row.id], sure);
    }

    /** Delete of a fave or a poll vote: it is not loaded, and its list is dropped by hand. */
    method DeleteFave(row: Entry, ghost judge: Judge) returns (ghost sure: iset<Target>)
      requires Valid() && row.StatusFave?
      modifies this, caches
      ensures Valid() && ID_KEYS <= sure && (caches.complete ==> sure == ALL_KEYS)
      ensures Step(sure, judge, old(State()), DeleteReturning(row), State())
      ensures forall r :: r in rows <==> r in old(rows) && !(r.StatusFave? && r.id == row.id)
    {
      hide Clears, SureKeys, Without, HookCalls, After, One, Keys, ReturnedCalls;
      RowsAfterDelete(rows, row);
      rows := Without(rows, row);
      CompleteIsSure(caches.complete, caches.entries, caches.unlisted);
      ghost var start := caches.Snap();
      sure := caches.Sure();
      caches.Invalidate(KStatusFave, ByID, [row.id], sure);
      ghost var mid := caches.Snap();
      caches.InvalidateLists(StatusFaveIDs, [row.statusID]);
      FaveCalls(row);
      DroppingListsClears(sure, mid, Keys(StatusFaveIDs, [row.statusID]));
      ClearsCompose(sure, start, One(KStatusFave, ByID, [row.id]), mid, Keys(StatusFaveIDs, [row.statusID]), caches.Snap());
    }
  }

  lemma RowsAfterPut(rows: set<Entry>, row: Entry)
    ensures forall r :: r in Upsert(rows, row) <==> r == row || (r in rows && !HasIDOf(r, row))
  {
  }

  lemma RowsAfterDelete(rows: set<Entry>, row: Entry)
    ensures forall r :: r in Without(rows, row) <==> r in rows && !HasIDOf(r, row)
    ensures row.StatusFave? ==> forall r :: HasIDOf(r, row) <==> r.StatusFave? && r.id == row.id
  {
  }

  lemma FaveCalls(row: Entry)
    requires row.StatusFave?
    ensures ReturnedCalls(row) == One(KStatusFave, ByID, [row.id]).Plus(Keys(StatusFaveIDs, [row.statusID]))
    ensures Keys(StatusFaveIDs, [row.statusID]).targets == {}
  {
  }

  lemma CompleteIsSure(complete: bool, entries: set<Entry>, unlisted: Unlisted)
    ensures complete ==> SureKeys(complete, entries, unlisted) == ALL_KEYS
  {
  }

  lemma IDsAreKeys(row: Entry)
    ensures HasID(row) ==> Target(KindOf(row), ByID, [row.id]) in ID_KEYS
  {
  }

  lemma AllListed(complete: bool, entries: set<Entry>, unlisted: Unlisted, t: Target)
    requires t in SureKeys(complete, entries, unlisted)
    ensures forall x :: x in entries && Hits(x, t) ==> complete || (x, t.index) !in unlisted
  {
  }

  lemma IDHitsVersions(row: Entry)
    requires WellFormed(row)
    ensures forall x :: Hits(x, Target(KindOf(row), ByID, [row.id])) <==> SameRow(x, row)
    ensures KeyOf(row, ByID) == [row.id]
  {
  }
}
