/** What the cleaning passes achieve, over all stores. */
module CleanerTheorems {
  import opened Batches
  import opened CleanerModel
  import opened Wrappers

  /** Two rows handled in this order, where fixing the first, as the stores are now, takes a file
      the second still has both of. Only the cache-state pass looks at files. */
  ghost predicate Disturbs(c: Context, p: Pass, w: World, q: ID, r: ID) {
    p.FixCacheStates? && Acts(c, p, w, q) && r in w.rows && Resolvable(c, w.rows[r])
    && HasFiles(w.storage, w.rows[r]) && !(FilesOf(w.rows[q]) !! FilesOf(w.rows[r]))
  }

  ghost predicate Undisturbed(c: Context, p: Pass, w: World, ids: seq<ID>) {
    forall i, j :: 0 <= i < j < |ids| ==> !Disturbs(c, p, w, ids[i], ids[j])
  }

  /** The stores after acting on exactly the given rows. */
  function FilesOfAll(w: World, ids: set<ID>): set<Path> {
    set id, f | id in ids && id in w.rows && f in FilesOf(w.rows[id]) :: f
  }

  function ActedOn(p: Pass, w: World, ids: set<ID>): World {
    World(if p.PruneUnused? then w.rows - ids
          else map id | id in w.rows :: if id in ids then w.rows[id].(cached := false) else w.rows[id],
          w.storage - FilesOfAll(w, ids))
  }

  /** Unless one row's fix takes another's file, the rows acted on are those flagged beforehand. */
  lemma {:induction false} SweptIsActedOn(c: Context, p: Pass, w: World, ids: seq<ID>)
    requires Distinct(ids) && Undisturbed(c, p, w, ids)
    ensures SweptIDs(c, p, w, ids) == FlaggedIDs(c, p, w, ids)
    ensures Swept(c, p, w, ids) == ActedOn(p, w, FlaggedIDs(c, p, w, ids))
  {
    hide Acts, Act;
    if ids == [] {
    } else {
      var rest, id := ids[..|ids| - 1], ids[|ids| - 1];
      assert id !in rest;
      SweptIsActedOn(c, p, w, rest);
      var flagged := FlaggedIDs(c, p, w, rest);
      FlaggedGrows(c, p, w, rest, id);
      assert ids == rest + [id];
      forall q | q in flagged
        ensures !Disturbs(c, p, w, q, id)
      {
        var i :| 0 <= i < |rest| && rest[i] == q;
        assert ids[i] == q && ids[|rest|] == id;
      }
      SameVerdict(c, p, w, flagged, id);
      OneMore(c, p, w, flagged, id);
    }
  }

  lemma FlaggedGrows(c: Context, p: Pass, w: World, rest: seq<ID>, id: ID)
    ensures FlaggedIDs(c, p, w, rest + [id]) == FlaggedIDs(c, p, w, rest) + if Acts(c, p, w, id) then {id} else {}
    ensures id !in rest ==> id !in FlaggedIDs(c, p, w, rest)
    ensures forall q :: q in FlaggedIDs(c, p, w, rest) ==> q in rest && Acts(c, p, w, q)
  {
    hide Acts;
  }

  /** Acting on rows that do not disturb another leaves the verdict on it as it was. */
  lemma SameVerdict(c: Context, p: Pass, w: World, flagged: set<ID>, id: ID)
    requires id !in flagged && forall q :: q in flagged ==> Acts(c, p, w, q) && !Disturbs(c, p, w, q, id)
    ensures Acts(c, p, ActedOn(p, w, flagged), id) == Acts(c, p, w, id)
  {
    var w' := ActedOn(p, w, flagged);
    if id in w.rows {
      assert id in w'.rows && w'.rows[id] == w.rows[id];
      if p.FixCacheStates? && Resolvable(c, w.rows[id]) && HasFiles(w.storage, w.rows[id]) {
        forall f | f in FilesOf(w.rows[id])
          ensures f in w'.storage
        {
          assert forall q :: q in flagged ==> f !in FilesOf(w.rows[q]);
        }
      }
    }
  }

  lemma OneMore(c: Context, p: Pass, w: World, done: set<ID>, id: ID)
    requires id !in done
    ensures Act(c, p, ActedOn(p, w, done), id) ==
            ActedOn(p, w, done + if Acts(c, p, ActedOn(p, w, done), id) then {id} else {})
  {
    var w' := ActedOn(p, w, done);
    if Acts(c, p, w', id) {
      hide Flagged;
      assert w'.rows[id] == w.rows[id];
      assert FilesOfAll(w, done + {id}) == FilesOfAll(w, done) + FilesOf(w.rows[id]);
      if p.PruneUnused? {
        assert w.rows - done - {id} == w.rows - (done + {id});
      }
    } else {
      assert done + {} == done;
    }
  }

  /** Whatever the rows share, a pass ends with its actions on the rows it acted on, and no others. */
  lemma {:induction false} SweptActs(c: Context, p: Pass, w: World, ids: seq<ID>)
    requires Distinct(ids)
    ensures Swept(c, p, w, ids) == ActedOn(p, w, SweptIDs(c, p, w, ids))
  {
    hide Acts, Act;
    if ids != [] {
      var rest, id := ids[..|ids| - 1], ids[|ids| - 1];
      SweptActs(c, p, w, rest);
      SweptIDsAreVisited(c, p, w, rest);
      OneMore(c, p, w, SweptIDs(c, p, w, rest), id);
    }
  }

  /** A row the pass visits and does not act on was found in order when its turn came, after some
      of the rows acted on. */
  lemma {:induction false} FoundInOrder(c: Context, p: Pass, w: World, ids: seq<ID>, id: ID) returns (before: set<ID>)
    requires Distinct(ids) && id in ids && id !in SweptIDs(c, p, w, ids)
    ensures before <= SweptIDs(c, p, w, ids) && !Acts(c, p, ActedOn(p, w, before), id)
  {
    hide Acts, Act;
    var rest, last := ids[..|ids| - 1], ids[|ids| - 1];
    if last == id {
      SweptActs(c, p, w, rest);
      before := SweptIDs(c, p, w, rest);
    } else {
      assert ids == rest + [last];
      before := FoundInOrder(c, p, w, rest, id);
    }
  }

  /** The rows a run acts on are the rows a dry run reports, if and only if no fixed row takes a
      file that a row handled later still has both of. */
  lemma {:induction false} DryRunAgreesIff(c: Context, p: Pass, w: World, ids: seq<ID>)
    requires Distinct(ids)
    ensures SweptIDs(c, p, w, ids) == FlaggedIDs(c, p, w, ids) <==> Undisturbed(c, p, w, ids)
  {
    hide Acts, Act, Disturbs, FlaggedIDs, SweptIDs;
    if Undisturbed(c, p, w, ids) {
      SweptIsActedOn(c, p, w, ids);
    } else {
      var rest, id := ids[..|ids| - 1], ids[|ids| - 1];
      assert ids == rest + [id] && id !in rest;
      DryRunAgreesIff(c, p, w, rest);
      LastVerdict(c, p, w, rest, id);
      if Undisturbed(c, p, w, rest) {
        SweptIsActedOn(c, p, w, rest);
        var i :| 0 <= i < |rest| && Disturbs(c, p, w, ids[i], id);
        VerdictFlips(c, p, w, rest, ids[i], id);
      }
    }
  }

  /** Later rows cannot make up for a difference: the sets agree when they agree on the rows
      before and the last row gets the same verdict. */
  lemma LastVerdict(c: Context, p: Pass, w: World, rest: seq<ID>, id: ID)
    requires id !in rest
    ensures SweptIDs(c, p, w, rest + [id]) == FlaggedIDs(c, p, w, rest + [id]) <==>
            SweptIDs(c, p, w, rest) == FlaggedIDs(c, p, w, rest) &&
            Acts(c, p, Swept(c, p, w, rest), id) == Acts(c, p, w, id)
  {
    hide Acts, Act, FlaggedIDs;
    assert (rest + [id])[..|rest|] == rest;
    FlaggedGrows(c, p, w, rest, id);
    SweptIDsAreVisited(c, p, w, rest);
  }

  lemma VerdictFlips(c: Context, p: Pass, w: World, rest: seq<ID>, q: ID, id: ID)
    requires id !in rest && q in rest && Disturbs(c, p, w, q, id)
    ensures Acts(c, p, ActedOn(p, w, FlaggedIDs(c, p, w, rest)), id) != Acts(c, p, w, id)
  {
    var flagged := FlaggedIDs(c, p, w, rest);
    assert q in flagged;
    var f :| f in FilesOf(w.rows[q]) && f in FilesOf(w.rows[id]);
    assert f in FilesOfAll(w, flagged);
  }

  /** A pass paged by ID visits each selected row exactly once, by descending ID, although it
      deletes or updates the rows it is paging over. */
  lemma MaxIDPassVisitsAll(p: Pass, rows: map<ID, Row>)
    requires !p.UncacheRemote?
    ensures forall id :: id in Plan(p, rows) <==> id in rows && Selects(p, rows[id])
    ensures forall id :: id in Plan(p, rows) <==>
              id in rows && (rows[id].Attachment? <==> p.table.Attachments?)
              && (rows[id].remote || (p.PruneUnused? && p.table.Attachments?))
    ensures forall i, j :: 0 <= i < j < |Plan(p, rows)| ==> Plan(p, rows)[i] > Plan(p, rows)[j]
  {
    var t := Candidates(p, rows);
    DistinctKeysVisitAll(t);
    VisitsInOrder(t);
    forall i, j | 0 <= i < j < |Plan(p, rows)|
      ensures Plan(p, rows)[i] > Plan(p, rows)[j]
    {
      assert Precedes(t, Plan(p, rows)[i], Plan(p, rows)[j]);
    }
  }

  lemma PlanIsDistinct(p: Pass, rows: map<ID, Row>)
    ensures Distinct(Plan(p, rows))
    ensures forall id :: id in Plan(p, rows) ==> id in rows && Selects(p, rows[id])
  {
    VisitsInOrder(Candidates(p, rows));
  }

  /** The stores and the count after a pass whose rows do not disturb each other. */
  lemma PassResult(c: Context, p: Pass, w: World)
    requires Undisturbed(c, p, w, Plan(p, w.rows))
    ensures var flagged := FlaggedIDs(c, p, w, Plan(p, w.rows));
            && Swept(c, p, w, Plan(p, w.rows)) == ActedOn(p, w, flagged)
            && SweptIDs(c, p, w, Plan(p, w.rows)) == flagged
  {
    PlanIsDistinct(p, w.rows);
    SweptIsActedOn(c, p, w, Plan(p, w.rows));
  }

  /** An error-free prune leaves exactly the rows in use (and those it does not select), untouched,
      removes exactly the files of the rows it drops, and counts those rows. */
  lemma PruneUnusedExactly(c: Context, table: Table, now: int, w: World)
    ensures var p := PruneUnused(table, now);
            var w' := Swept(c, p, w, Plan(p, w.rows));
            && (forall id :: id in w'.rows <==>
                 id in w.rows && ((w.rows[id].Attachment? <==> table.Attachments?) && (table.Attachments? || w.rows[id].remote) ==>
                                    InUse(c, now, id, w.rows[id])))
            && (forall id :: id in w'.rows ==> w'.rows[id] == w.rows[id])
            && (forall f :: f in w'.storage <==>
                 f in w.storage && forall id :: id in w.rows.Keys - w'.rows.Keys ==> f != w.rows[id].file && f != w.rows[id].thumbnail)
            && SweptIDs(c, p, w, Plan(p, w.rows)) == w.rows.Keys - w'.rows.Keys
  {
    hide Plan, Swept, SweptIDs, FlaggedIDs, InUse, Undisturbed, Selects, FilesOfAll, FilesOf;
    var p := PruneUnused(table, now);
    NothingDisturbs(c, p, w, Plan(p, w.rows));
    PassResult(c, p, w);
    MaxIDPassVisitsAll(p, w.rows);
    PruneFlags(c, table, now, w, Plan(p, w.rows));
    var flagged := FlaggedIDs(c, p, w, Plan(p, w.rows));
    assert flagged == w.rows.Keys - Swept(c, p, w, Plan(p, w.rows)).rows.Keys;
    forall f
      ensures f in FilesOfAll(w, flagged) <==>
              exists id :: id in flagged && (f == w.rows[id].file || f == w.rows[id].thumbnail)
    {
      FilesInFields(w, flagged, f);
    }
  }

  lemma PruneFlags(c: Context, table: Table, now: int, w: World, plan: seq<ID>)
    requires forall id :: id in plan ==> id in w.rows
    ensures forall id :: id in FlaggedIDs(c, PruneUnused(table, now), w, plan) <==>
              id in plan && !InUse(c, now, id, w.rows[id])
  {
    hide InUse;
  }

  /** Cached remote rows of the table, created before the limit. */
  predicate Uncacheable(table: Table, after: int, row: Row) {
    (row.Attachment? <==> table.Attachments?) && row.remote && row.cached && row.createdAt < after
  }

  /** Their creation times. */
  function CreationTimes(table: Table, after: int, rows: map<ID, Row>): Keyed {
    map id | id in rows && Uncacheable(table, after, rows[id]) :: rows[id].createdAt
  }

  /** Which rows uncaching visits. */
  lemma UncacheVisits(table: Table, after: int, rows: map<ID, Row>)
    ensures var p := UncacheRemote(table, after);
            && (forall id :: id in Plan(p, rows) ==> id in rows && Uncacheable(table, after, rows[id]))
            && ((forall id :: id in rows && Uncacheable(table, after, rows[id]) ==> id in Plan(p, rows)) <==>
                !CutsGroup(CreationTimes(table, after, rows)))
  {
    hide Visits, CutsGroup, InOrder;
    var p := UncacheRemote(table, after);
    PlanIsDistinct(p, rows);
    VisitsAllIff(Candidates(p, rows));
    forall id | id in rows
      ensures Selects(p, rows[id]) <==> Uncacheable(table, after, rows[id])
    {
      SelectedFields(p, id, rows[id]);
    }
    assert Candidates(p, rows) == CreationTimes(table, after, rows);
    assert forall id :: id in CreationTimes(table, after, rows) <==> id in rows && Uncacheable(table, after, rows[id]);
  }

  /** Which of them it acts on. */
  lemma UncacheFlags(c: Context, table: Table, after: int, w: World, plan: seq<ID>)
    requires forall id :: id in plan ==> id in w.rows && Uncacheable(table, after, w.rows[id])
    ensures forall id :: id in FlaggedIDs(c, UncacheRemote(table, after), w, plan) <==>
              id in plan && !IsProtected(c, after, id, w.rows[id])
    ensures forall id :: id in FlaggedIDs(c, UncacheRemote(table, after), w, plan) ==> w.rows[id].cached
  {
    hide IsProtected;
  }

  /** What acting on some cached rows changes. */
  lemma UncacheChanges(p: Pass, w: World, flagged: set<ID>)
    requires !p.PruneUnused? && forall id :: id in flagged ==> id in w.rows && w.rows[id].cached
    ensures var w' := ActedOn(p, w, flagged);
            && w'.rows.Keys == w.rows.Keys
            && (forall id :: id in w.rows ==>
                 && w'.rows[id] == (if id in flagged then w.rows[id].(cached := false) else w.rows[id])
                 && (id in flagged <==> w'.rows[id] != w.rows[id]))
            && (forall f :: f in w'.storage <==>
                 f in w.storage && forall id :: id in w.rows && w'.rows[id] != w.rows[id] ==>
                   f != w.rows[id].file && f != w.rows[id].thumbnail)
  {
    var w' := ActedOn(p, w, flagged);
    forall id | id in w.rows
      ensures id in flagged <==> w'.rows[id] != w.rows[id]
    {
      assert id in flagged ==> w.rows[id].cached && !w'.rows[id].cached;
    }
    forall f
      ensures f in FilesOfAll(w, flagged) <==>
              exists id :: id in flagged && id in w.rows && (f == w.rows[id].file || f == w.rows[id].thumbnail)
    {
      FilesInFields(w, flagged, f);
    }
  }

  lemma FilesInFields(w: World, ids: set<ID>, f: Path)
    ensures f in FilesOfAll(w, ids) <==>
            exists id :: id in ids && id in w.rows && (f == w.rows[id].file || f == w.rows[id].thumbnail)
  {
    if id :| id in ids && id in w.rows && (f == w.rows[id].file || f == w.rows[id].thumbnail) {
      assert f in FilesOf(w.rows[id]);
    }
  }

  /** Uncaching changes exactly the visited rows that are not protected, and takes exactly their
      files, so that local rows keep theirs; and it visits every cached remote row below the limit if
      and only if no batch ends inside a group of rows created at the same time. */
  lemma UncacheRemoteExactly(c: Context, table: Table, after: int, w: World)
    ensures var p := UncacheRemote(table, after);
            var w' := Swept(c, p, w, Plan(p, w.rows));
            && w'.rows.Keys == w.rows.Keys
            && (forall id :: id in w.rows ==>
                 w'.rows[id] == if id in Plan(p, w.rows) && !IsProtected(c, after, id, w.rows[id])
                                then w.rows[id].(cached := false) else w.rows[id])
            && (forall f :: f in w'.storage <==>
                 f in w.storage && forall id :: id in w.rows && w'.rows[id] != w.rows[id] ==>
                   f != w.rows[id].file && f != w.rows[id].thumbnail)
            && (forall id :: id in Plan(p, w.rows) ==> Uncacheable(table, after, w.rows[id]))
            && (forall id :: id in w.rows && !w.rows[id].remote ==> w'.rows[id] == w.rows[id])
            && (forall id :: id in SweptIDs(c, p, w, Plan(p, w.rows)) <==> id in w.rows && w'.rows[id] != w.rows[id])
            && ((forall id :: id in w.rows && Uncacheable(table, after, w.rows[id]) ==> id in Plan(p, w.rows)) <==>
                !CutsGroup(CreationTimes(table, after, w.rows)))
  {
    hide Plan, Swept, FlaggedIDs, IsProtected, CutsGroup, Candidates, ActedOn, FilesOf, Undisturbed;
    var p := UncacheRemote(table, after);
    NothingDisturbs(c, p, w, Plan(p, w.rows));
    PassResult(c, p, w);
    UncacheVisits(table, after, w.rows);
    UncacheFlags(c, table, after, w, Plan(p, w.rows));
    UncacheChanges(p, w, FlaggedIDs(c, p, w, Plan(p, w.rows)));
  }

  lemma NothingDisturbs(c: Context, p: Pass, w: World, ids: seq<ID>)
    requires !p.FixCacheStates?
    ensures Undisturbed(c, p, w, ids)
  {
  }

  /** No two rows of the table share a file. */
  ghost predicate DisjointFiles(p: Pass, rows: map<ID, Row>) {
    forall q, r :: q in rows && r in rows && Selects(p, rows[q]) && Selects(p, rows[r]) && q != r ==>
      FilesOf(rows[q]) !! FilesOf(rows[r])
  }

  lemma DisjointIsUndisturbed(c: Context, p: Pass, w: World)
    requires DisjointFiles(p, w.rows)
    ensures Undisturbed(c, p, w, Plan(p, w.rows))
  {
    PlanIsDistinct(p, w.rows);
    hide Acts, Resolvable;
  }

  /** A dry run changes nothing and counts what the real run from the same stores counts: always
      for pruning and uncaching, and for the cache-state pass when rows share no files. */
  lemma DryRunCounts(c: Context, p: Pass, w: World)
    requires p.FixCacheStates? ==> DisjointFiles(p, w.rows)
    ensures Ends(c, p, w, Plan(p, w.rows), true) == w
    ensures ActedIDs(c, p, w, Plan(p, w.rows), true) == ActedIDs(c, p, w, Plan(p, w.rows), false)
  {
    hide Acts;
    if p.FixCacheStates? {
      DisjointIsUndisturbed(c, p, w);
    }
    PassResult(c, p, w);
  }

  /** Two attachments over the same two files: the dry run reports one row, the real run fixes two. */
  lemma DryRunCanDiffer() returns (c: Context, w: World)
    ensures var p := FixCacheStates(Attachments);
            |ActedIDs(c, p, w, Plan(p, w.rows), true)| == 1 && |ActedIDs(c, p, w, Plan(p, w.rows), false)| == 2
  {
    hide Plan, Visits, SweptIDs, FlaggedIDs;
    var f, g := OtherPath("f"), OtherPath("g");
    c := Context(map[], map[], {});
    var one := Attachment(true, true, 0, f, g, None, None, false, false);
    var two := Attachment(false, true, 0, f, g, None, None, false, false);
    w := World(map[1 := one, 2 := two], {f, g});
    var p := FixCacheStates(Attachments);
    PlanOfTwo(p, w.rows);
    assert Acts(c, p, w, 2) && !Acts(c, p, w, 1);
    assert Acts(c, p, Act(c, p, w, 2), 1);
    hide Acts, Act;
    FlaggedOfTwo(c, p, w);
    SweepOfTwo(c, p, w);
  }

  lemma FlaggedOfTwo(c: Context, p: Pass, w: World)
    requires Acts(c, p, w, 2) && !Acts(c, p, w, 1)
    ensures FlaggedIDs(c, p, w, [2, 1]) == {2}
  {
    hide Acts;
  }

  lemma PlanOfTwo(p: Pass, rows: map<ID, Row>)
    requires !p.UncacheRemote? && rows.Keys == {1, 2} && Selects(p, rows[1]) && Selects(p, rows[2])
    ensures Plan(p, rows) == [2, 1]
  {
    hide Visits;
    var t := Candidates(p, rows);
    MaxIDPassVisitsAll(p, rows);
    VisitsInOrder(t);
    InOrderIsUnique(t, Visits(t), [2, 1]);
  }

  lemma SweepOfTwo(c: Context, p: Pass, w: World)
    requires Acts(c, p, w, 2) && Acts(c, p, Act(c, p, w, 2), 1)
    ensures SweptIDs(c, p, w, [2, 1]) == {2, 1}
  {
    hide Acts, Act;
    assert [2, 1][..1] == [2] && [2][..0] == [];
    assert Swept(c, p, w, [2]) == Act(c, p, w, 2);
    assert SweptIDs(c, p, w, [2]) == {2};
  }

  /** Every remote row with resolvable owner and status is cached exactly when both its files exist. */
  ghost predicate Restored(c: Context, p: Pass, w: World) {
    forall id :: id in w.rows && Selects(p, w.rows[id]) && Resolvable(c, w.rows[id]) ==>
      (w.rows[id].cached <==> w.rows[id].file in w.storage && w.rows[id].thumbnail in w.storage)
  }

  /** No row the pass fixes shares a file with a cached row that it leaves cached. */
  ghost predicate LeavesCachedAlone(c: Context, p: Pass, w: World) {
    var fixed := SweptIDs(c, p, w, Plan(p, w.rows));
    forall id :: id in w.rows && Selects(p, w.rows[id]) && Resolvable(c, w.rows[id]) && w.rows[id].cached && id !in fixed ==>
      FilesOf(w.rows[id]) !! FilesOfAll(w, fixed)
  }

  /** From any stores, the cache-state pass leaves every remote row with resolvable owner and status
      cached exactly when both its files exist, if and only if no row it fixes shares a file with
      one it leaves cached; every other row is as it was. */
  lemma FixCacheStatesRestores(c: Context, table: Table, w: World)
    ensures var p := FixCacheStates(table);
            var w' := Swept(c, p, w, Plan(p, w.rows));
            && (Restored(c, p, w') <==> LeavesCachedAlone(c, p, w))
            && w'.rows.Keys == w.rows.Keys
            && (forall id :: id in w.rows && !(Selects(p, w.rows[id]) && Resolvable(c, w.rows[id])) ==>
                 w'.rows[id] == w.rows[id])
            && (forall id :: id in w.rows ==> w'.rows[id] in {w.rows[id], w.rows[id].(cached := false)})
  {
    hide Plan, SweptIDs, Swept;
    var p := FixCacheStates(table);
    var plan := Plan(p, w.rows);
    var w' := Swept(c, p, w, plan);
    PlanIsDistinct(p, w.rows);
    MaxIDPassVisitsAll(p, w.rows);
    SweptActs(c, p, w, plan);
    OnlyResolvableFixed(c, table, w, plan);
    forall id | id in w.rows && Selects(p, w.rows[id]) && Resolvable(c, w.rows[id])
      ensures (w'.rows[id].cached <==> HasFiles(w'.storage, w'.rows[id])) <==>
              (w.rows[id].cached && id !in SweptIDs(c, p, w, plan) ==>
                FilesOf(w.rows[id]) !! FilesOfAll(w, SweptIDs(c, p, w, plan)))
    {
      FixedRow(c, p, w, plan, id);
    }
  }

  lemma {:induction false} OnlyResolvableFixed(c: Context, table: Table, w: World, ids: seq<ID>)
    ensures forall id :: id in SweptIDs(c, FixCacheStates(table), w, ids) ==>
              id in ids && id in w.rows && Resolvable(c, w.rows[id])
  {
    if ids != [] {
      var p, rest, last := FixCacheStates(table), ids[..|ids| - 1], ids[|ids| - 1];
      OnlyResolvableFixed(c, table, w, rest);
      SweptFrame(c, p, w, rest);
      hide HasFiles;
    }
  }

  lemma FixedRow(c: Context, p: Pass, w: World, plan: seq<ID>, id: ID)
    requires p.FixCacheStates? && Distinct(plan) && id in plan && id in w.rows && Resolvable(c, w.rows[id])
    ensures var fixed := SweptIDs(c, p, w, plan);
            var w' := ActedOn(p, w, fixed);
            (w'.rows[id].cached <==> HasFiles(w'.storage, w'.rows[id])) <==>
            (w.rows[id].cached && id !in fixed ==> FilesOf(w.rows[id]) !! FilesOfAll(w, fixed))
  {
    hide Swept, SweptIDs, Acts;
    var fixed := SweptIDs(c, p, w, plan);
    if id in fixed {
      assert FilesOf(w.rows[id]) <= FilesOfAll(w, fixed);
    } else {
      var before := FoundInOrder(c, p, w, plan, id);
      NotFlagged(c, p, ActedOn(p, w, before), id);
      assert FilesOfAll(w, before) <= FilesOfAll(w, fixed);
      assert ActedOn(p, w, before).rows[id] == w.rows[id];
    }
  }

  lemma NotFlagged(c: Context, p: Pass, w: World, id: ID)
    requires p.FixCacheStates? && id in w.rows && Resolvable(c, w.rows[id]) && !Acts(c, p, w, id)
    ensures w.rows[id].cached <==> HasFiles(w.storage, w.rows[id])
  {
  }

  /** In particular when rows share no file. */
  lemma DisjointIsRestored(c: Context, table: Table, w: World)
    requires DisjointFiles(FixCacheStates(table), w.rows)
    ensures var p := FixCacheStates(table); Restored(c, p, Swept(c, p, w, Plan(p, w.rows)))
  {
    hide Plan, SweptIDs, Swept, Restored;
    var p := FixCacheStates(table);
    FixCacheStatesRestores(c, table, w);
    PlanIsDistinct(p, w.rows);
    SweptIDsAreVisited(c, p, w, Plan(p, w.rows));
  }

  /** A second cache-state pass acts on no row, and so changes nothing, if and only if the first
      one restored the rows. */
  lemma FixCacheStatesIsIdempotent(c: Context, table: Table, w: World)
    ensures var p := FixCacheStates(table);
            var w' := Swept(c, p, w, Plan(p, w.rows));
            SweptIDs(c, p, w', Plan(p, w'.rows)) == {} <==> LeavesCachedAlone(c, p, w)
    ensures var p := FixCacheStates(table);
            var w' := Swept(c, p, w, Plan(p, w.rows));
            LeavesCachedAlone(c, p, w) ==> Swept(c, p, w', Plan(p, w'.rows)) == w'
  {
    hide Plan, Swept, SweptIDs, LeavesCachedAlone, Restored;
    var p := FixCacheStates(table);
    FixCacheStatesRestores(c, table, w);
    var w' := Swept(c, p, w, Plan(p, w.rows));
    NothingToFix(c, p, w');
    PlanIsDistinct(p, w'.rows);
    SweptActs(c, p, w', Plan(p, w'.rows));
    NothingActedOn(p, w');
  }

  lemma NothingToFix(c: Context, p: Pass, w: World)
    requires p.FixCacheStates?
    ensures SweptIDs(c, p, w, Plan(p, w.rows)) == {} <==> Restored(c, p, w)
  {
    hide Plan, SweptIDs, Selects, Resolvable;
    var plan := Plan(p, w.rows);
    PlanIsDistinct(p, w.rows);
    MaxIDPassVisitsAll(p, w.rows);
    NothingActedOn(p, w);
    if SweptIDs(c, p, w, plan) == {} {
      forall id | id in w.rows && Selects(p, w.rows[id]) && Resolvable(c, w.rows[id])
        ensures w.rows[id].cached <==> HasFiles(w.storage, w.rows[id])
      {
        var before := FoundInOrder(c, p, w, plan, id);
        assert before == {};
        NotFlagged(c, p, w, id);
      }
    }
    if Restored(c, p, w) {
      assert FlaggedIDs(c, p, w, plan) == {};
      assert Undisturbed(c, p, w, plan);
      SweptIsActedOn(c, p, w, plan);
    }
  }

  lemma NothingActedOn(p: Pass, w: World)
    ensures ActedOn(p, w, {}) == w
  {
  }

  /** The storage key belongs to the row: for attachments by its media ID, for emojis by the
      static URL made from it. */
  predicate Names(path: Path, id: ID, row: Row) {
    match path
    case FilePath(_, TypeAttachment, _, mediaID, _) => row.Attachment? && mediaID == id
    case FilePath(accountID, TypeEmoji, _, mediaID, _) => HasStaticURL(row, accountID, mediaID)
    case _ => false
  }

  /** No row of storage keeps a key of a row other than the row's two files. */
  ghost predicate NoStrayFiles(w: World) {
    forall path, id :: path in w.storage && id in w.rows && Names(path, id, w.rows[id]) ==>
      path in FilesOf(w.rows[id])
  }

  /** Attachments carry their own ID in their paths. */
  ghost predicate OwnPaths(rows: map<ID, Row>) {
    forall id, f :: id in rows && rows[id].Attachment? && f in FilesOf(rows[id]) ==>
      f.FilePath? && f.mediaType.TypeAttachment? && f.mediaID == id
  }

  lemma OrphanedIffUnnamed(rows: map<ID, Row>, path: Path)
    requires path.FilePath? && !path.mediaType.TypeOther?
    ensures Orphaned(rows, path) <==> forall id :: id in rows ==> !Names(path, id, rows[id])
  {
    match path
    case FilePath(_, TypeAttachment, _, mediaID, _) =>
      assert mediaID in rows && rows[mediaID].Attachment? ==> Names(path, mediaID, rows[mediaID]);
    case FilePath(accountID, TypeEmoji, _, mediaID, _) =>
      assert forall id :: id in rows ==> (Names(path, id, rows[id]) <==> HasStaticURL(rows[id], accountID, mediaID));
  }

  lemma NamedStays(w: World, w': World, path: Path, id: ID)
    requires Safe(w, w') && NoStrayFiles(w)
    requires path in w'.storage && id in w.rows && Names(path, id, w.rows[id])
    ensures id in w'.rows && Names(path, id, w'.rows[id])
  {
  }

  /** Whatever fails on the way, no step creates an orphaned file, or an uncached row that still
      has both its files. */
  lemma SafeCreatesNothing(w: World, w': World)
    requires Safe(w, w') && NoStrayFiles(w)
    ensures Orphans(w') <= Orphans(w)
    ensures forall id :: id in w'.rows && !w'.rows[id].cached && HasFiles(w'.storage, w'.rows[id]) ==>
              !w.rows[id].cached && HasFiles(w.storage, w.rows[id])
    ensures NoStrayFiles(w')
  {
    forall path | path in w'.storage && path !in Orphans(w)
      ensures path !in Orphans(w')
    {
      if path.FilePath? && !path.mediaType.TypeOther? {
        OrphanedIffUnnamed(w.rows, path);
        OrphanedIffUnnamed(w'.rows, path);
        var id :| id in w.rows && Names(path, id, w.rows[id]);
        NamedStays(w, w', path, id);
      }
    }
    forall path, id | path in w'.storage && id in w'.rows && Names(path, id, w'.rows[id])
      ensures path in FilesOf(w'.rows[id])
    {
      assert Names(path, id, w.rows[id]);
    }
  }

  /** Removing orphaned files never takes a file of an attachment that still has its row. */
  lemma PruneOrphanedSparesAttachments(w: World, id: ID)
    requires OwnPaths(w.rows) && id in w.rows && w.rows[id].Attachment?
    ensures FilesOf(w.rows[id]) !! Orphans(w)
  {
  }

  /** Nor a file of an emoji that carries, in its path, the owner and ID of the emoji's static URL. */
  lemma PruneOrphanedSparesEmojis(w: World, id: ID, size: string, ext: string)
    requires id in w.rows && w.rows[id].Emoji?
    ensures FilePath(w.rows[id].staticOwner, TypeEmoji, size, w.rows[id].staticID, ext) !in Orphans(w)
  {
    assert HasStaticURL(w.rows[id], w.rows[id].staticOwner, w.rows[id].staticID);
  }

  lemma {:induction false} SweptIsSafe(c: Context, p: Pass, w: World, ids: seq<ID>)
    ensures Safe(w, Swept(c, p, w, ids))
  {
    if ids == [] {
      SafeReflexive(w);
    } else {
      var w' := Swept(c, p, w, ids[..|ids| - 1]);
      SweptIsSafe(c, p, w, ids[..|ids| - 1]);
      ActIsSafe(c, p, w', ids[|ids| - 1]);
      SafeTransitive(w, w', Act(c, p, w', ids[|ids| - 1]));
    }
  }

  lemma ActIsSafe(c: Context, p: Pass, w: World, id: ID)
    ensures Safe(w, Act(c, p, w, id))
  {
    if id in w.rows && !w.rows[id].cached {
      UncachedStays(w.rows[id]);
    }
  }

  lemma UncachedStays(row: Row)
    requires !row.cached
    ensures row.(cached := false) == row
  {
    match row
    case Attachment(_, _, _, _, _, _, _, _, _) =>
    case Emoji(_, _, _, _, _, _, _) =>
  }

  lemma OwnPathsAreDisjoint(rows: map<ID, Row>, p: Pass)
    requires OwnPaths(rows) && p.table.Attachments?
    ensures DisjointFiles(p, rows)
  {
    forall q, r, f | q in rows && r in rows && Selects(p, rows[q]) && Selects(p, rows[r])
                  && f in FilesOf(rows[q]) && f in FilesOf(rows[r])
      ensures q == r
    {
      assert f.mediaID == q && f.mediaID == r;
    }
  }

  lemma SafeKeepsOwnPaths(w: World, w': World)
    requires Safe(w, w') && OwnPaths(w.rows)
    ensures OwnPaths(w'.rows)
  {
    forall id, f | id in w'.rows && w'.rows[id].Attachment? && f in FilesOf(w'.rows[id])
      ensures f.FilePath? && f.mediaType.TypeAttachment? && f.mediaID == id
    {
      assert f in FilesOf(w.rows[id]) && w.rows[id].Attachment?;
    }
  }

  /** When no pass of Media.All fails: no recognised media file lacks its row, every attachment
      left is in use, and every remote attachment left whose status exists or is not set is cached
      exactly when both its files exist. */
  lemma AllLeavesStoresClean(c: Context, w: World, now: int, maxRemoteDays: int)
    requires NoStrayFiles(w) && OwnPaths(w.rows)
    ensures var w' := AllEnds(c, w, now, maxRemoteDays);
            && Orphans(w') == {}
            && (forall id :: id in w'.rows && w'.rows[id].Attachment? ==> InUse(c, now, id, w'.rows[id]))
            && (forall id ::
                 id in w'.rows && w'.rows[id].Attachment? && w'.rows[id].remote &&
                 !Missing(c.statuses, w'.rows[id].statusID) ==>
                 (w'.rows[id].cached <==> w'.rows[id].file in w'.storage && w'.rows[id].thumbnail in w'.storage))
  {
    hide Swept, Plan, Orphaned, HasFiles, NoStrayFiles, OwnPaths;
    var uncache := UncacheRemote(Attachments, now - 24 * 3600 * maxRemoteDays - MINUTE);
    var prune, fix := PruneUnused(Attachments, now), FixCacheStates(Attachments);
    var w1 := Swept(c, uncache, w, Plan(uncache, w.rows));
    var w2 := w1.(storage := w1.storage - Orphans(w1));
    var w3 := Swept(c, prune, w2, Plan(prune, w2.rows));
    var w4 := Swept(c, fix, w3, Plan(fix, w3.rows));
    SafeStep(c, uncache, w);
    RemovingOrphansIsSafe(w1);
    SafeStep(c, prune, w2);
    SafeStep(c, fix, w3);
    assert Orphans(w2) == {};
    PruneUnusedExactly(c, Attachments, now, w2);
    OwnPathsAreDisjoint(w3.rows, fix);
    DisjointIsRestored(c, Attachments, w3);
    FixCacheStatesRestores(c, Attachments, w3);
    forall id | id in w4.rows && w4.rows[id].Attachment?
      ensures InUse(c, now, id, w4.rows[id])
      ensures w4.rows[id].remote && !Missing(c.statuses, w4.rows[id].statusID) ==>
                (w4.rows[id].cached <==> w4.rows[id].file in w4.storage && w4.rows[id].thumbnail in w4.storage)
    {
      UseIgnoresCached(c, now, id, w3.rows[id]);
    }
  }

  /** A row that is not visited, and shares no file with another, keeps row and files. */
  lemma {:induction false} UnvisitedStays(c: Context, p: Pass, w: World, ids: seq<ID>, id: ID)
    requires id in w.rows && id !in SweptIDs(c, p, w, ids)
    requires forall q :: q in w.rows && q != id && InTable(p.table, w.rows[q]) ==> FilesOf(w.rows[q]) !! FilesOf(w.rows[id])
    requires forall q :: q in ids ==> q in w.rows && InTable(p.table, w.rows[q])
    ensures var w' := Swept(c, p, w, ids);
            && id in w'.rows && w'.rows[id] == w.rows[id]
            && forall f :: f in FilesOf(w.rows[id]) && f in w.storage ==> f in w'.storage
  {
    if ids != [] {
      hide Flagged;
      var rest, last := ids[..|ids| - 1], ids[|ids| - 1];
      UnvisitedStays(c, p, w, rest, id);
      SweptFrame(c, p, w, rest);
    }
  }

  lemma OwnFilesApart(rows: map<ID, Row>, p: Pass, id: ID)
    requires OwnPaths(rows) && p.table.Attachments? && id in rows && rows[id].Attachment?
    ensures forall q :: q in rows && q != id && InTable(p.table, rows[q]) ==> FilesOf(rows[q]) !! FilesOf(rows[id])
  {
    forall q, f | q in rows && q != id && rows[q].Attachment? && f in FilesOf(rows[q])
      ensures f !in FilesOf(rows[id])
    {
      assert f.mediaID == q;
    }
  }

  lemma PassSpares(c: Context, p: Pass, w: World, id: ID)
    requires OwnPaths(w.rows) && p.table.Attachments? && id in w.rows && w.rows[id].Attachment?
    requires HasFiles(w.storage, w.rows[id]) && id !in SweptIDs(c, p, w, Plan(p, w.rows))
    ensures var w' := Swept(c, p, w, Plan(p, w.rows));
            id in w'.rows && w'.rows[id] == w.rows[id] && HasFiles(w'.storage, w.rows[id]) && OwnPaths(w'.rows)
  {
    hide Plan, SweptIDs, Swept, OwnPaths;
    PlanIsDistinct(p, w.rows);
    OwnFilesApart(w.rows, p, id);
    UnvisitedStays(c, p, w, Plan(p, w.rows), id);
    SweptIsSafe(c, p, w, Plan(p, w.rows));
    SafeKeepsOwnPaths(w, Swept(c, p, w, Plan(p, w.rows)));
  }

  /** Media.All leaves alone what is in use and complete, if it is local or was not created more than
      the given days and a minute ago. */
  lemma AllSparesRecent(c: Context, w: World, now: int, maxRemoteDays: int, id: ID)
    requires OwnPaths(w.rows) && id in w.rows && w.rows[id].Attachment? && w.rows[id].cached
    requires w.rows[id].file in w.storage && w.rows[id].thumbnail in w.storage && InUse(c, now, id, w.rows[id])
    requires !w.rows[id].remote || w.rows[id].createdAt >= now - maxRemoteDays * 24 * 60 * 60 - 60
    ensures var w' := AllEnds(c, w, now, maxRemoteDays);
            id in w'.rows && w'.rows[id] == w.rows[id] && w.rows[id].file in w'.storage && w.rows[id].thumbnail in w'.storage
  {
    hide Swept, Plan, SweptIDs, OwnPaths, InUse, Orphans;
    var uncache := UncacheRemote(Attachments, now - 24 * 3600 * maxRemoteDays - MINUTE);
    var prune, fix := PruneUnused(Attachments, now), FixCacheStates(Attachments);
    var w1 := Swept(c, uncache, w, Plan(uncache, w.rows));
    NotSelectedNotSwept(c, uncache, w, id);
    PassSpares(c, uncache, w, id);
    var w2 := w1.(storage := w1.storage - Orphans(w1));
    PruneOrphanedSparesAttachments(w1, id);
    var w3 := Swept(c, prune, w2, Plan(prune, w2.rows));
    NotFlaggedNotSwept(c, prune, w2, id);
    PassSpares(c, prune, w2, id);
    OwnPathsAreDisjoint(w3.rows, fix);
    DisjointIsUndisturbed(c, fix, w3);
    NotFlaggedNotSwept(c, fix, w3, id);
    PassSpares(c, fix, w3, id);
  }

  lemma NotSelectedNotSwept(c: Context, p: Pass, w: World, id: ID)
    requires id in w.rows && !Selects(p, w.rows[id])
    ensures id !in SweptIDs(c, p, w, Plan(p, w.rows))
  {
    hide Plan;
    PlanIsDistinct(p, w.rows);
    SweptIDsAreVisited(c, p, w, Plan(p, w.rows));
  }

  lemma NotFlaggedNotSwept(c: Context, p: Pass, w: World, id: ID)
    requires Undisturbed(c, p, w, Plan(p, w.rows)) && !Acts(c, p, w, id)
    ensures id !in SweptIDs(c, p, w, Plan(p, w.rows))
  {
    hide Plan, Acts;
    PassResult(c, p, w);
  }

  /** And it uncaches remote attachments created before that which nothing protects, with their files,
      if no batch ends inside a group of rows created at the same time. */
  lemma AllUncachesOld(c: Context, w: World, now: int, maxRemoteDays: int, id: ID)
    requires id in w.rows && w.rows[id].Attachment? && w.rows[id].remote && w.rows[id].cached
    requires w.rows[id].createdAt < now - maxRemoteDays * 24 * 60 * 60 - 60
    requires !IsProtected(c, now - maxRemoteDays * 24 * 60 * 60 - 60, id, w.rows[id])
    requires !CutsGroup(CreationTimes(Attachments, now - maxRemoteDays * 24 * 60 * 60 - 60, w.rows))
    ensures var w' := AllEnds(c, w, now, maxRemoteDays);
            && (id in w'.rows ==> !w'.rows[id].cached)
            && w.rows[id].file !in w'.storage && w.rows[id].thumbnail !in w'.storage
  {
    hide Swept, Plan, IsProtected, CutsGroup, Orphans;
    var after := now - 24 * 3600 * maxRemoteDays - MINUTE;
    assert after == now - maxRemoteDays * 24 * 60 * 60 - 60;
    var uncache, prune, fix := UncacheRemote(Attachments, after), PruneUnused(Attachments, now), FixCacheStates(Attachments);
    var w1 := Swept(c, uncache, w, Plan(uncache, w.rows));
    UncacheRemoteExactly(c, Attachments, after, w);
    assert !w1.rows[id].cached;
    var w2 := w1.(storage := w1.storage - Orphans(w1));
    SweptIsSafe(c, prune, w2, Plan(prune, w2.rows));
    var w3 := Swept(c, prune, w2, Plan(prune, w2.rows));
    SweptIsSafe(c, fix, w3, Plan(fix, w3.rows));
  }

  lemma UseIgnoresCached(c: Context, now: int, id: ID, row: Row)
    ensures InUse(c, now, id, row) <==> InUse(c, now, id, row.(cached := false))
    ensures row.Attachment? && InUse(c, now, id, row) && !Missing(c.statuses, row.statusID) ==> Resolvable(c, row)
  {
  }

  lemma SafeStep(c: Context, p: Pass, w: World)
    requires NoStrayFiles(w) && OwnPaths(w.rows)
    ensures var w' := Swept(c, p, w, Plan(p, w.rows));
            NoStrayFiles(w') && OwnPaths(w'.rows) && Orphans(w') <= Orphans(w)
  {
    var w' := Swept(c, p, w, Plan(p, w.rows));
    SweptIsSafe(c, p, w, Plan(p, w.rows));
    SafeCreatesNothing(w, w');
    SafeKeepsOwnPaths(w, w');
  }

  lemma RemovingOrphansIsSafe(w: World)
    requires NoStrayFiles(w) && OwnPaths(w.rows)
    ensures NoStrayFiles(w.(storage := w.storage - Orphans(w)))
  {
  }
}
