/** The cleaner: passes over database rows and storage keys, every call of which may fail
    (internal/cleaner/cleaner.go, internal/cleaner/media.go, internal/cleaner/emoji.go). */
module Cleaner {
  import opened Batches
  import opened CleanerModel
  import opened Wrappers

  class Cleaner {
    var rows: map<ID, Row>
    var storage: set<Path>
    const ctx: Context

    ghost function Stores(): World
      reads this
    {
      World(rows, storage)
    }

    constructor (rows: map<ID, Row>, storage: set<Path>, ctx: Context)
      ensures Stores() == World(rows, storage) && this.ctx == ctx
    {
      this.rows, this.storage, this.ctx := rows, storage, ctx;
    }

    // Calls of the storage driver and the database. Each may fail; a failed write may or may not
    // have taken effect.

    method StorageHas(path: Path) returns (have: bool, err: bool)
      ensures !err ==> have == (path in storage)
    {
      err := *;
      have := path in storage;
    }

    /** A key that is not found is not an error. */
    method StorageDelete(path: Path) returns (err: bool)
      modifies `storage
      ensures storage == old(storage) - {path} || (err && storage == old(storage))
    {
      err := *;
      var applied: bool := *;
      if !err || applied {
        storage := storage - {path};
      }
    }

    method UpdateUncached(id: ID) returns (err: bool)
      requires id in rows
      modifies `rows
      ensures rows == old(rows)[id := old(rows)[id].(cached := false)] || (err && rows == old(rows))
    {
      err := *;
      var applied: bool := *;
      if !err || applied {
        rows := rows[id := rows[id].(cached := false)];
      }
    }

    method DeleteFromDB(id: ID) returns (err: bool)
      modifies `rows
      ensures rows == old(rows) - {id} || (err && rows == old(rows))
    {
      err := *;
      var applied: bool := *;
      if !err || applied {
        rows := rows - {id};
      }
    }

    method Lookup<T>(m: map<ID, T>, ref: Option<ID>) returns (r: Option<T>, missing: bool, err: bool)
      ensures !err ==> missing == Missing(m, ref)
      ensures !err ==> r == if Has(m, ref) then Some(m[ref.value]) else None
    {
      r, missing, err := None, false, false;
      if ref.Some? {
        err := *;
        if !err {
          if ref.value in m {
            r := Some(m[ref.value]);
          } else {
            missing := true;
          }
        }
      }
    }

    method IsStatusBookmarked(s: ID) returns (bookmarked: bool, err: bool)
      ensures !err ==> bookmarked == (s in ctx.bookmarked)
    {
      err := *;
      bookmarked := s in ctx.bookmarked;
    }

    /** One batch of rows: at most 50, below the cursor if there is one. */
    method Query(p: Pass, cursor: Option<int>) returns (page: seq<ID>, err: bool)
      ensures !err ==> page == Batch(Remaining(Candidates(p, rows), cursor)) && |page| <= 50
    {
      err := *;
      page := [];
      if !err {
        page := Batch(Remaining(Candidates(p, rows), cursor));
      }
    }

    /** Cleaner.haveFiles. */
    method HaveFiles(files: seq<Path>) returns (have: bool, err: bool)
      ensures !err ==> have == forall f :: f in files ==> f in storage
    {
      var i := 0;
      while i < |files|
        invariant 0 <= i <= |files|
        invariant forall j :: 0 <= j < i ==> files[j] in storage
      {
        have, err := StorageHas(files[i]);
        if err {
          return false, true;
        } else if !have {
          return false, false;
        }
        i := i + 1;
      }
      return true, false;
    }

    /** Cleaner.removeFiles: every file is tried; the files still there are no more than the failures. */
    method RemoveFiles(files: seq<Path>, dry: bool) returns (n: int, err: bool)
      modifies `storage
      ensures dry ==> storage == old(storage) && n == |files| && !err
      ensures old(storage) - (set f | f in files) <= storage <= old(storage)
      ensures !dry && !err ==> storage == old(storage) - (set f | f in files) && n == |files|
      ensures err ==> 0 <= n < |files|
      ensures !dry ==> |set j: nat | j < |files| && files[j] in storage| <= |files| - n
    {
      if dry {
        return |files|, false;
      }
      var errCount := 0;
      ghost var failed: set<nat> := {};
      var i := 0;
      while i < |files|
        invariant 0 <= i <= |files| && 0 <= errCount <= i && |failed| == errCount
        invariant old(storage) - (set f | f in files) <= storage <= old(storage)
        invariant forall j :: j in failed ==> 0 <= j < i
        invariant forall j :: 0 <= j < i && j !in failed ==> files[j] !in storage
        invariant errCount == 0 ==> storage == old(storage) - (set f | f in files[..i])
      {
        var e := StorageDelete(files[i]);
        if e {
          errCount, failed := errCount + 1, failed + {i};
        }
        assert files[..i + 1] == files[..i] + [files[i]];
        i := i + 1;
      }
      assert files[..i] == files;
      NoMoreThanFailed(files, storage, failed);
      return |files| - errCount, errCount > 0;
    }

    /** Media.uncache and Emoji.uncache. */
    method Uncache(id: ID, row: Row, dry: bool) returns (err: bool)
      requires id in rows && rows[id] == row && row.cached
      modifies this
      ensures dry ==> Stores() == old(Stores()) && !err
      ensures Safe(old(Stores()), Stores())
      ensures !dry && !err ==> Stores() == World(old(rows)[id := row.(cached := false)], old(storage) - {row.file, row.thumbnail})
      ensures OnlyTouches(old(Stores()), Stores(), {id})
    {
      if dry {
        return false;
      }
      var _, failed := RemoveFiles([row.file, row.thumbnail], dry);
      if failed {
        return true;
      }
      err := UpdateUncached(id);
    }

    /** Media.delete and Emoji.delete. */
    method Delete(id: ID, row: Row, dry: bool) returns (err: bool)
      requires id in rows && rows[id] == row
      modifies this
      ensures dry ==> Stores() == old(Stores()) && !err
      ensures Safe(old(Stores()), Stores())
      ensures !dry && !err ==> Stores() == World(old(rows) - {id}, old(storage) - {row.file, row.thumbnail})
      ensures OnlyTouches(old(Stores()), Stores(), {id})
    {
      if dry {
        return false;
      }
      var _, failed := RemoveFiles(if row.Emoji? then [row.thumbnail, row.file] else [row.file, row.thumbnail], dry);
      if failed {
        return true;
      }
      err := DeleteFromDB(id);
    }

    /** Media.pruneUnused. */
    method PruneAttachment(id: ID, row: Row, now: int, dry: bool) returns (fixed: bool, err: bool)
      requires row.Attachment? && id in rows && rows[id] == row
      modifies this
      ensures RowStep(PruneUnused(Attachments, now), old(Stores()), id, dry, fixed, err)
      ensures !err ==> (!fixed <==>
                && (row.accountID.Some? ==> row.accountID.value in ctx.accounts)
                && (|| (&& row.accountID.Some? && !ctx.accounts[row.accountID.value].suspended
                        && (|| (row.header && ctx.accounts[row.accountID.value].headerID == Some(id))
                            || (row.avatar && ctx.accounts[row.accountID.value].avatarID == Some(id))))
                    || (&& row.statusID.Some? && row.statusID.value in ctx.statuses
                        && id in ctx.statuses[row.statusID.value].attachmentIDs)))
    {
      var account, missing, failed := Lookup(ctx.accounts, row.accountID);
      if failed {
        return false, true;
      } else if missing {
        err := Delete(id, row, dry);
        return true, err;
      }
      if account.Some? {
        var headerInUse := row.header && account.value.headerID == Some(id);
        var avatarInUse := row.avatar && account.value.avatarID == Some(id);
        if (headerInUse || avatarInUse) && !account.value.suspended {
          return false, false;
        }
      }
      var status;
      status, missing, failed := Lookup(ctx.statuses, row.statusID);
      if failed {
        return false, true;
      } else if missing {
        err := Delete(id, row, dry);
        return true, err;
      }
      if status.Some? {
        var i := 0;
        while i < |status.value.attachmentIDs|
          invariant 0 <= i <= |status.value.attachmentIDs|
          invariant id !in status.value.attachmentIDs[..i]
        {
          if status.value.attachmentIDs[i] == id {
            return false, false;
          }
          i := i + 1;
        }
      }
      err := Delete(id, row, dry);
      return true, err;
    }

    /** Emoji.pruneUnused. */
    method PruneEmoji(id: ID, row: Row, now: int, dry: bool) returns (fixed: bool, err: bool)
      requires row.Emoji? && id in rows && rows[id] == row
      modifies this
      ensures RowStep(PruneUnused(Emojis, now), old(Stores()), id, dry, fixed, err)
      ensures !err ==> (fixed <==>
                && (forall a :: a in ctx.accounts ==> id !in ctx.accounts[a].emojiIDs)
                && (forall s :: s in ctx.statuses ==> id !in ctx.statuses[s].emojiIDs)
                && row.createdAt <= now - 7 * 24 * 60 * 60)
    {
      UsersAreCollected(ctx, id);
      var failed := *;
      if failed {
        return false, true;
      } else if UsingAccounts(ctx, id) != {} {
        return false, false;
      }
      failed := *;
      if failed {
        return false, true;
      } else if UsingStatuses(ctx, id) != {} {
        return false, false;
      }
      if now - WEEK < row.createdAt {
        return false, false;
      }
      err := Delete(id, row, dry);
      return true, err;
    }

    /** Media.fixCacheState and Emoji.fixCacheState; only attachments name an owner and a status. */
    method FixCacheState(table: Table, id: ID, row: Row, dry: bool) returns (fixed: bool, err: bool)
      requires id in rows && rows[id] == row
      modifies this
      ensures RowStep(FixCacheStates(table), old(Stores()), id, dry, fixed, err)
      ensures !err ==> (fixed <==>
                && (row.Attachment? ==>
                      && (row.accountID.Some? ==> row.accountID.value in ctx.accounts)
                      && (row.statusID.Some? ==> row.statusID.value in ctx.statuses))
                && (row.cached <==> !(row.file in old(storage) && row.thumbnail in old(storage))))
    {
      if row.Attachment? {
        var _, missing, failed := Lookup(ctx.accounts, row.accountID);
        if failed {
          return false, true;
        } else if missing {
          return false, false;
        }
        var _, missingStatus, failed' := Lookup(ctx.statuses, row.statusID);
        if failed' {
          return false, true;
        } else if missingStatus {
          return false, false;
        }
      }
      var exist, failed := HaveFiles([row.thumbnail, row.file]);
      if failed {
        return false, true;
      }
      if row.cached && !exist {
        err := Uncache(id, row, dry);
        return true, err;
      } else if !row.cached && exist {
        var n;
        n, err := RemoveFiles([row.thumbnail, row.file], dry);
        assert !dry && !err ==> storage == old(storage) - FilesOf(row);
        assert rows[id := row.(cached := false)] == rows;
        return true, err;
      }
      return false, false;
    }

    /** Media.uncacheRemote. */
    method UncacheAttachment(id: ID, row: Row, after: int, dry: bool) returns (uncached: bool, err: bool)
      requires row.Attachment? && id in rows && rows[id] == row
      modifies this
      ensures RowStep(UncacheRemote(Attachments, after), old(Stores()), id, dry, uncached, err)
      ensures !err && (row.avatar || row.header) ==>
                (uncached <==> row.cached && (row.accountID.Some? ==>
                  && row.accountID.value in ctx.accounts
                  && ctx.accounts[row.accountID.value].fetchedAt <= after))
      ensures !err && !(row.avatar || row.header) ==>
                (uncached <==> row.cached && (row.statusID.Some? ==>
                  && row.statusID.value in ctx.statuses
                  && ctx.statuses[row.statusID.value].fetchedAt <= after
                  && row.statusID.value !in ctx.bookmarked))
    {
      if !row.cached {
        return false, false;
      }
      if row.avatar || row.header {
        var account, missing, failed := Lookup(ctx.accounts, row.accountID);
        if failed {
          return false, true;
        } else if missing {
          return false, false;
        }
        if account.Some? && account.value.fetchedAt > after {
          return false, false;
        }
      } else {
        var status, missing, failed := Lookup(ctx.statuses, row.statusID);
        if failed {
          return false, true;
        } else if missing {
          return false, false;
        }
        if status.Some? {
          if status.value.fetchedAt > after {
            return false, false;
          }
          var bookmarked;
          bookmarked, failed := IsStatusBookmarked(row.statusID.value);
          if failed {
            return false, true;
          } else if bookmarked {
            return false, false;
          }
        }
      }
      err := Uncache(id, row, dry);
      return true, err;
    }

    /** Emoji.uncacheRemote. */
    method UncacheEmoji(id: ID, row: Row, after: int, dry: bool) returns (uncached: bool, err: bool)
      requires row.Emoji? && id in rows && rows[id] == row
      modifies this
      ensures RowStep(UncacheRemote(Emojis, after), old(Stores()), id, dry, uncached, err)
      ensures !err ==> (uncached <==>
                && row.cached
                && (forall a :: a in ctx.accounts && id in ctx.accounts[a].emojiIDs ==> ctx.accounts[a].fetchedAt <= after)
                && (forall s :: s in ctx.statuses && id in ctx.statuses[s].emojiIDs ==>
                      ctx.statuses[s].fetchedAt <= after && s !in ctx.bookmarked))
    {
      UsersAreCollected(ctx, id);
      if !row.cached {
        return false, false;
      }
      var failed := *;
      if failed {
        return false, true;
      }
      if exists a :: a in UsingAccounts(ctx, id) && RecentAccount(ctx, after, a) {
        return false, false;
      }
      failed := *;
      if failed {
        return false, true;
      }
      var todo := UsingStatuses(ctx, id);
      while todo != {}
        invariant Stores() == old(Stores())
        invariant todo <= UsingStatuses(ctx, id)
        invariant forall s :: s in UsingStatuses(ctx, id) - todo ==> !KeepsMedia(ctx, after, s)
        decreases todo
      {
        var s :| s in todo;
        if ctx.statuses[s].fetchedAt > after {
          return false, false;
        }
        var bookmarked;
        bookmarked, failed := IsStatusBookmarked(s);
        if failed {
          return false, true;
        } else if bookmarked {
          return false, false;
        }
        todo := todo - {s};
      }
      assert forall a :: a in UsingAccounts(ctx, id) ==> !RecentAccount(ctx, after, a);
      assert forall s :: s in UsingStatuses(ctx, id) ==> s in UsingStatuses(ctx, id) - todo && !KeepsMedia(ctx, after, s);
      err := Uncache(id, row, dry);
      return true, err;
    }

    method HandleRow(p: Pass, id: ID, row: Row, dry: bool) returns (acted: bool, err: bool)
      requires InTable(p.table, row) && id in rows && rows[id] == row
      modifies this
      ensures RowStep(p, old(Stores()), id, dry, acted, err)
    {
      match p
      case PruneUnused(Attachments, now) => acted, err := PruneAttachment(id, row, now, dry);
      case PruneUnused(Emojis, now) => acted, err := PruneEmoji(id, row, now, dry);
      case FixCacheStates(table) => acted, err := FixCacheState(table, id, row, dry);
      case UncacheRemote(Attachments, after) => acted, err := UncacheAttachment(id, row, after, dry);
      case UncacheRemote(Emojis, after) => acted, err := UncacheEmoji(id, row, after, dry);
    }

    /** The inner loop of every pass: one batch of rows, as they were read with the batch. */
    method HandleBatch(p: Pass, page: seq<ID>, dry: bool) returns (n: nat, err: bool)
      requires Distinct(page) && forall id :: id in page ==> id in rows && InTable(p.table, rows[id])
      modifies this
      ensures !err ==> Stores() == Ends(ctx, p, old(Stores()), page, dry) &&
                       n == |ActedIDs(ctx, p, old(Stores()), page, dry)|
      ensures dry ==> Stores() == old(Stores())
      ensures Safe(old(Stores()), Stores())
      ensures OnlyTouches(old(Stores()), Stores(), set id | id in page)
    {
      hide Act, Acts, Safe, Ends, ActedIDs, InTable, OnlyTouches;
      ghost var all := set id | id in page;
      var batch := map id | id in page :: rows[id];
      ghost var w := Stores();
      SafeReflexive(w);
      TouchesNothing(w, all);
      n := 0;
      NothingSwept(ctx, p, w, page, dry);
      var i := 0;
      while i < |page|
        invariant 0 <= i <= |page|
        invariant Safe(w, Stores()) && OnlyTouches(w, Stores(), all)
        invariant Stores() == Ends(ctx, p, w, page[..i], dry)
        invariant dry ==> Stores() == w
        invariant n == |ActedIDs(ctx, p, w, page[..i], dry)|
      {
        var id := page[i];
        ghost var before := Stores();
        NextRow(ctx, p, w, page, i, dry);
        var acted, failed := HandleRow(p, id, batch[id], dry);
        SafeTransitive(w, before, Stores());
        TouchesCompose(w, before, Stores(), all, {id});
        assert all + {id} == all;
        if failed {
          return n, true;
        }
        if acted {
          n := n + 1;
        }
        i := i + 1;
      }
      assert page[..i] == page;
      return n, false;
    }

    /** The paging loop all row passes share: a batch at a time, until none is left or the same
        batch comes again. */
    method Sweep(p: Pass, dry: bool) returns (total: nat, err: bool)
      modifies this
      ensures !err ==> Stores() == Ends(ctx, p, old(Stores()), Plan(p, old(rows)), dry) &&
                       total == |ActedIDs(ctx, p, old(Stores()), Plan(p, old(rows)), dry)|
      ensures dry ==> Stores() == old(Stores())
      ensures Safe(old(Stores()), Stores())
      ensures OnlyTouches(old(Stores()), Stores(), Candidates(p, old(rows)).Keys)
    {
      hide Safe, Ends, ActedIDs, Visits, Batch, Candidates, Remaining, Distinct, OnlyTouches;
      ghost var w, t := Stores(), Candidates(p, rows);
      ghost var done: seq<ID> := [];
      var cursor: Option<int> := if p.UncacheRemote? then Some(p.after) else None;
      total := 0;
      SafeReflexive(w);
      TouchesNothing(w, t.Keys);
      SweepStart(ctx, p, w, dry, cursor);
      while true
        invariant Visits(t) == done + Visits(Remaining(t, cursor))
        invariant forall id :: id in done ==> id in t && cursor.Some? && t[id] >= cursor.value
        invariant Stores() == Ends(ctx, p, w, done, dry) && total == |ActedIDs(ctx, p, w, done, dry)|
        invariant dry ==> Stores() == w
        invariant Safe(w, Stores()) && OnlyTouches(w, Stores(), t.Keys)
        decreases |Remaining(t, cursor)|
      {
        var page, failed := Query(p, cursor);
        if failed {
          return total, true;
        }
        SelectedRows(ctx, p, w, done, cursor, dry);
        if page == [] {
          VisitsNothing(Remaining(t, cursor));
          break;
        }
        NextBatch(t, done, cursor);
        var last := page[|page| - 1];
        var key := PageKey(p, last, rows[last]);
        if cursor == Some(key) {
          break;
        }
        ghost var before := Stores();
        cursor := Some(key);
        var n, failed' := HandleBatch(p, page, dry);
        SafeTransitive(w, before, Stores());
        TouchesCompose(w, before, Stores(), t.Keys, set id | id in page);
        assert t.Keys + (set id | id in page) == t.Keys;
        if failed' {
          return total, true;
        }
        BatchDone(ctx, p, w, done, page, dry);
        total, done := total + n, done + page;
      }
      assert done == Visits(t);
      return total, false;
    }

    /** Media.isOrphaned. */
    method IsOrphaned(path: Path) returns (orphaned: bool, err: bool)
      ensures !err ==> (orphaned <==>
                && path.FilePath?
                && (|| (path.mediaType.TypeAttachment? && !(path.mediaID in rows && rows[path.mediaID].Attachment?))
                    || (path.mediaType.TypeEmoji? && forall id :: id in rows && rows[id].Emoji? ==>
                          rows[id].staticOwner != path.accountID || rows[id].staticID != path.mediaID)))
      ensures !err ==> orphaned == Orphaned(rows, path)
    {
      err := *;
      match path
      case FilePath(_, TypeAttachment, _, mediaID, _) =>
        orphaned := mediaID !in rows || !rows[mediaID].Attachment?;
      case FilePath(accountID, TypeEmoji, _, mediaID, _) =>
        orphaned := !exists id :: id in rows && HasStaticURL(rows[id], accountID, mediaID);
      case _ =>
        orphaned, err := false, false;
    }

    /** Media.PruneOrphaned: the keys are walked in any order, and only then removed. */
    method PruneOrphaned(dry: bool) returns (n: int, err: bool)
      modifies this
      ensures !err ==> n == |Orphans(old(Stores()))|
      ensures !err && !dry ==> Stores() == old(Stores()).(storage := old(storage) - Orphans(old(Stores())))
      ensures rows == old(rows) && forall f :: f in old(storage) && f !in storage ==> Orphaned(old(rows), f)
      ensures !err && !dry ==> forall f :: f in storage ==> !Orphaned(rows, f)
      ensures dry ==> Stores() == old(Stores())
      ensures Safe(old(Stores()), Stores())
    {
      var files: seq<Path> := [];
      var todo := storage;
      ghost var found: set<Path> := {};
      while todo != {}
        invariant Stores() == old(Stores()) && todo <= storage
        invariant found == set path | path in storage - todo && Orphaned(rows, path)
        invariant |files| == |found| && forall f :: f in files <==> f in found
        decreases todo
      {
        var path :| path in todo;
        var orphaned, failed := IsOrphaned(path);
        if failed {
          return 0, true;
        }
        todo := todo - {path};
        if orphaned {
          files, found := files + [path], found + {path};
        }
      }
      assert found == Orphans(old(Stores()));
      n, err := RemoveFiles(files, dry);
      assert (set f | f in files) == found;
    }

    /** Media.UncacheRemote and Emoji.UncacheRemote: rows older than a minute before the given time.
        Whatever fails, no other row is touched, and no file that is not of such a row. */
    method UncacheRemoteMedia(table: Table, olderThan: int, dry: bool) returns (total: nat, err: bool)
      modifies this
      ensures var p := UncacheRemote(table, olderThan - 60);
              !err ==> Stores() == Ends(ctx, p, old(Stores()), Plan(p, old(rows)), dry) &&
                       total == |ActedIDs(ctx, p, old(Stores()), Plan(p, old(rows)), dry)|
      ensures dry ==> Stores() == old(Stores())
      ensures Safe(old(Stores()), Stores())
      ensures OnlyTouches(old(Stores()), Stores(),
                          set id | id in old(rows) && (old(rows)[id].Attachment? <==> table.Attachments?)
                                   && old(rows)[id].remote && old(rows)[id].cached && old(rows)[id].createdAt < olderThan - 60)
    {
      var p := UncacheRemote(table, olderThan - MINUTE);
      CandidatesInFields(p, rows);
      total, err := Sweep(p, dry);
    }

    /** Media.PruneUnused and Emoji.PruneUnused; of emoji only remote ones are touched. */
    method PruneUnusedMedia(table: Table, now: int, dry: bool) returns (total: nat, err: bool)
      modifies this
      ensures var p := PruneUnused(table, now);
              !err ==> Stores() == Ends(ctx, p, old(Stores()), Plan(p, old(rows)), dry) &&
                       total == |ActedIDs(ctx, p, old(Stores()), Plan(p, old(rows)), dry)|
      ensures dry ==> Stores() == old(Stores())
      ensures Safe(old(Stores()), Stores())
      ensures OnlyTouches(old(Stores()), Stores(),
                          set id | id in old(rows) && (old(rows)[id].Attachment? <==> table.Attachments?)
                                   && (old(rows)[id].Attachment? || old(rows)[id].remote))
    {
      CandidatesInFields(PruneUnused(table, now), rows);
      total, err := Sweep(PruneUnused(table, now), dry);
    }

    /** Media.FixCacheStates and Emoji.FixCacheStates; only remote rows are touched. */
    method FixAllCacheStates(table: Table, dry: bool) returns (total: nat, err: bool)
      modifies this
      ensures var p := FixCacheStates(table);
              !err ==> Stores() == Ends(ctx, p, old(Stores()), Plan(p, old(rows)), dry) &&
                       total == |ActedIDs(ctx, p, old(Stores()), Plan(p, old(rows)), dry)|
      ensures dry ==> Stores() == old(Stores())
      ensures Safe(old(Stores()), Stores())
      ensures OnlyTouches(old(Stores()), Stores(),
                          set id | id in old(rows) && (old(rows)[id].Attachment? <==> table.Attachments?) && old(rows)[id].remote)
    {
      CandidatesInFields(FixCacheStates(table), rows);
      total, err := Sweep(FixCacheStates(table), dry);
    }

    /** Media.All: a pass that fails is logged and the next one runs all the same. */
    method All(now: int, maxRemoteDays: int, dry: bool) returns (ok: bool)
      modifies this
      ensures ok && !dry ==> Stores() == AllEnds(ctx, old(Stores()), now, maxRemoteDays)
      ensures dry ==> Stores() == old(Stores())
      ensures Safe(old(Stores()), Stores())
    {
      hide Safe, Swept, Orphans, Plan;
      ghost var w0 := Stores();
      var _, err1 := UncacheRemoteMedia(Attachments, now - 24 * 3600 * maxRemoteDays, dry);
      ghost var w1 := Stores();
      var _, err2 := PruneOrphaned(dry);
      ghost var w2 := Stores();
      SafeTransitive(w0, w1, w2);
      var _, err3 := PruneUnusedMedia(Attachments, now, dry);
      ghost var w3 := Stores();
      SafeTransitive(w0, w2, w3);
      var _, err4 := FixAllCacheStates(Attachments, dry);
      SafeTransitive(w0, w3, Stores());
      ok := !err1 && !err2 && !err3 && !err4;
    }

    /** What handling one row promises: an error-free call reports whether the row is flagged and,
        unless it is a dry run, acts on it; a dry run changes nothing; and every call is safe and
        touches nothing but the row and its files. */
    ghost predicate RowStep(p: Pass, w: World, id: ID, dry: bool, acted: bool, err: bool)
      reads this
    {
      && (!err ==> acted == Acts(ctx, p, w, id))
      && (!err && !dry ==> Stores() == Act(ctx, p, w, id))
      && (dry ==> Stores() == w)
      && Safe(w, Stores())
      && OnlyTouches(w, Stores(), {id})
    }
  }

  lemma NoMoreThanFailed(files: seq<Path>, storage: set<Path>, failed: set<nat>)
    requires forall j :: 0 <= j < |files| && j !in failed ==> files[j] !in storage
    ensures |set j: nat | j < |files| && files[j] in storage| <= |failed|
  {
    var left := set j: nat | j < |files| && files[j] in storage;
    CardinalityMonotone(left, failed);
  }

  lemma UsersAreCollected(c: Context, id: ID)
    ensures forall a :: a in c.accounts && id in c.accounts[a].emojiIDs <==> a in UsingAccounts(c, id)
    ensures forall s :: s in c.statuses && id in c.statuses[s].emojiIDs <==> s in UsingStatuses(c, id)
  {
  }

  lemma TouchesNothing(w: World, ids: set<ID>)
    ensures OnlyTouches(w, w, ids)
  {
  }

  lemma CandidatesInFields(p: Pass, rows: map<ID, Row>)
    ensures Candidates(p, rows).Keys ==
            set id | id in rows && (rows[id].Attachment? <==> p.table.Attachments?)
                     && (if p.PruneUnused? then rows[id].Attachment? || rows[id].remote
                         else if p.FixCacheStates? then rows[id].remote
                         else rows[id].remote && rows[id].cached && rows[id].createdAt < p.after)
  {
    forall id | id in rows
      ensures id in Candidates(p, rows) <==> Selects(p, rows[id])
    {
      SelectedFields(p, id, rows[id]);
    }
    forall id | id in rows
      ensures Selects(p, rows[id]) <==>
              && (rows[id].Attachment? <==> p.table.Attachments?)
              && (if p.PruneUnused? then rows[id].Attachment? || rows[id].remote
                  else if p.FixCacheStates? then rows[id].remote
                  else rows[id].remote && rows[id].cached && rows[id].createdAt < p.after)
    {
      SelectedFields(p, id, rows[id]);
    }
  }

  lemma NothingSwept(c: Context, p: Pass, w: World, page: seq<ID>, dry: bool)
    ensures Ends(c, p, w, page[..0], dry) == w
    ensures |ActedIDs(c, p, w, page[..0], dry)| == 0
  {
  }

  lemma NextRow(c: Context, p: Pass, w: World, page: seq<ID>, i: nat, dry: bool)
    requires Distinct(page) && i < |page| && page[i] in w.rows
    ensures var w' := Ends(c, p, w, page[..i], dry);
            && page[i] in w'.rows && w'.rows[page[i]] == w.rows[page[i]]
            && Ends(c, p, w, page[..i + 1], dry) == (if dry then w' else Act(c, p, w', page[i]))
            && |ActedIDs(c, p, w, page[..i + 1], dry)| ==
               |ActedIDs(c, p, w, page[..i], dry)| + if Acts(c, p, w', page[i]) then 1 else 0
  {
    hide Act, Acts;
    assert page[..i + 1][..i] == page[..i];
    assert page[i] !in page[..i];
    SweptFrame(c, p, w, page[..i]);
    SweptIDsAreVisited(c, p, w, page[..i]);
    NextFlagged(c, p, w, page, i);
  }

  lemma NextFlagged(c: Context, p: Pass, w: World, page: seq<ID>, i: nat)
    requires Distinct(page) && i < |page|
    ensures page[i] !in FlaggedIDs(c, p, w, page[..i])
    ensures FlaggedIDs(c, p, w, page[..i + 1]) ==
            FlaggedIDs(c, p, w, page[..i]) + if Acts(c, p, w, page[i]) then {page[i]} else {}
  {
    hide Acts;
    assert page[..i + 1] == page[..i] + [page[i]];
  }
}
