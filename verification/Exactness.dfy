/** Where agreement of the ID lists needs a condition, the exact condition. */
module Exactness {
  import opened Caches
  import opened Cascade
  import opened Coherence
  import opened Graph
  import opened Records
  import opened Runs

  /** The same list is never returned for different sets of IDs. */
  ghost predicate Faithful(order: Order) {
    forall c, a, b, ids :: order(c, a, ids) && order(c, b, ids) ==> a == b
  }

  /** Keys of the follow caches: a prefix and an account. No two of them coincide. */
  lemma FollowKeysAreDistinct(p: string, a: ID, q: string, b: ID)
    requires p in [">", "l>", "<", "l<"] && q in [">", "l>", "<", "l<"]
    ensures p + a == q + b <==> p == q && a == b
  {
    if p + a == q + b {
      assert p[0] == (p + a)[0] == (q + b)[0] == q[0];
      if |p| == 2 {
        assert p[1] == (p + a)[1] == (q + b)[1] == q[1];
      }
      assert (p + a)[|p|..] == a && (q + b)[|q|..] == b;
    }
  }

  /** A batch that names no cached record removes none. */
  lemma NothingHit(entries: set<Entry>, ts: set<Target>)
    requires forall x :: x in entries ==> !HitBy(x, ts)
    ensures Removed(entries, ts) == {}
  {
    ReachIsLeast(entries, Named(ts), EDGES, {});
  }

  /** Deleting rows and then invalidating a batch of keys (the deletes of all follows, requests or
      blocks of an account, and of a bookmark by its ID). */
  ghost function DeleteMany(s: Sys, rows: set<Entry>, c: Calls): Sys {
    Sys(s.db - rows, After(s.mem, c))
  }

  /** The list is dropped by the batch or by the hook of a record the batch removes. */
  ghost predicate Dropped(mem: Snapshot, c: Calls, k: ListKey) {
    k in c.lists || exists e :: e in Removed(mem.entries, c.targets) && Stales(e, k)
  }

  lemma LeftUnlessDropped(mem: Snapshot, c: Calls, k: ListKey)
    ensures k in After(mem, c).lists <==> k in mem.lists && !Dropped(mem, c, k)
    ensures k in After(mem, c).lists ==> After(mem, c).lists[k] == mem.lists[k]
  {
  }

  /** The deletes keep the lists right exactly when each cached list that holds one of the rows is
      dropped: when the hook of some record that is cached and reached drops it. */
  lemma DeleteManyIff(order: Order, s: Sys, rows: set<Entry>, c: Calls)
    requires Faithful(order) && ListsRight(order, s) && rows <= s.db
    requires forall r :: r in rows ==> !r.Account?
    ensures Agreement(order, DeleteMany(s, rows, c)) <==>
            (forall k, r :: k in s.mem.lists && r in rows && Member(s.db, k, r) ==> Dropped(s.mem, c, k))
  {
    hide Stales, HookCalls, Member, After, Select, Dropped;
    var s' := DeleteMany(s, rows, c);
    forall k
      ensures k in s'.mem.lists <==> k in s.mem.lists && !Dropped(s.mem, c, k)
      ensures k in s'.mem.lists ==> s'.mem.lists[k] == s.mem.lists[k]
      ensures Select(s'.db, k) == Select(s.db, k) <==> forall r :: r in rows ==> !Member(s.db, k, r)
    {
      LeftUnlessDropped(s.mem, c, k);
      SelectWithout(s.db, rows, k);
    }
  }

  /** In particular when a version of each row is cached and found under one of the keys. */
  lemma LoadedDeletesKeep(order: Order, s: Sys, rows: set<Entry>, c: Calls)
    requires Faithful(order) && ListsRight(order, s) && rows <= s.db
    requires forall r :: r in rows ==> !r.Account?
    requires forall r :: r in rows ==> exists x :: x in s.mem.entries && SameRow(x, r) && HitBy(x, c.targets)
    ensures Agreement(order, DeleteMany(s, rows, c))
  {
    hide Stales, HookCalls, Member, HitBy, Removed, Agreement;
    forall k, r | k in s.mem.lists && r in rows && Member(s.db, k, r)
      ensures Dropped(s.mem, c, k)
    {
      var x :| x in s.mem.entries && SameRow(x, r) && HitBy(x, c.targets);
      MembersAreCovered(s.db, k, r, x);
      HitIsRemoved(s.mem.entries, c.targets, x);
    }
    DeleteManyIff(order, s, rows, c);
  }

  lemma HitIsRemoved(entries: set<Entry>, ts: set<Target>, x: Entry)
    requires x in entries && HitBy(x, ts)
    ensures x in Removed(entries, ts)
  {
    ReachIsClosed(entries, Named(ts), EDGES);
  }

  /** The delete of all follows of an account loads those it follows, not those that follow it: an
      incoming follow that is not cached stays in the other account's cached list. */
  lemma IncomingFollowStays(order: Order, ids: seq<ID>)
    requires Faithful(order) && order(FollowIDs, {"F"}, ids)
    ensures var f, k := Follow("F", "uri", "B", "A"), ListKey(FollowIDs, ">B");
            var s := Sys({f}, Snapshot({}, map[k := ids]));
            var c := Calls({Target(KFollow, ByAccountID, ["A"]), Target(KFollow, ByTargetAccountID, ["A"])}, {});
            Agreement(order, s) && !Agreement(order, DeleteMany(s, {f}, c))
  {
    var f, k := Follow("F", "uri", "B", "A"), ListKey(FollowIDs, ">B");
    var s := Sys({f}, Snapshot({}, map[k := ids]));
    var c := Calls({Target(KFollow, ByAccountID, ["A"]), Target(KFollow, ByTargetAccountID, ["A"])}, {});
    assert ">B" == ">" + "B";
    assert Member(s.db, k, f) && Select(s.db, k) == {"F"};
    hide Stales, Select, Member;
    DeleteManyIff(order, s, {f}, c);
  }

  /** What a visibility is judged on, in fields: the account or status with the item's ID, and the
      follows and blocks between the requester and its owner, in either direction. */
  lemma JudgedRows(db: set<Entry>, typ: char, item: ID, requester: ID, r: Entry, f: Entry)
    ensures r in ItemRows(db, typ, item) <==>
              r in db && (if typ == 'a' then r.Account? && r.id == item else r.Status? && r.id == item)
    ensures (r.Account? || r.Status?) ==>
              var owner := if r.Account? then r.id else r.accountID;
              f in Relation(db, requester, {r}) <==>
              f in db && (f.Follow? || f.Block?)
              && ((f.accountID == requester && f.targetAccountID == owner)
                  || (f.accountID == owner && f.targetAccountID == requester))
  {
  }

  /** The visibility is judged on the row: as its item, or as a relation to the item's owner. */
  ghost predicate JudgedOn(db: set<Entry>, v: Entry, r: Entry)
    requires v.Visibility?
  {
    var items := ItemRows(db, v.typ, v.itemID);
    r in items || r in Relation(db, v.requesterID, items)
  }

  ghost predicate SameForAll(db: set<Entry>, db': set<Entry>, v: Entry)
    requires v.Visibility?
  {
    forall judge: Judge ::
      Fresh(judge, db, v.typ, v.requesterID, v.itemID) == Fresh(judge, db', v.typ, v.requesterID, v.itemID)
  }

  /** A fresh value stays the same for every judge exactly when none of the deleted rows was judged on. */
  lemma FreshWithoutIff(db: set<Entry>, rows: set<Entry>, v: Entry)
    requires v.Visibility? && rows <= db
    ensures SameForAll(db, db - rows, v) <==> forall r :: r in rows ==> !JudgedOn(db, v, r)
  {
    hide Between;
    var db' := db - rows;
    var items, items' := ItemRows(db, v.typ, v.itemID), ItemRows(db', v.typ, v.itemID);
    assert items' == items - rows;
    assert Relation(db', v.requesterID, items) == Relation(db, v.requesterID, items) - rows;
    if forall r :: r in rows ==> !JudgedOn(db, v, r) {
      assert items' == items;
      assert Relation(db', v.requesterID, items) == Relation(db, v.requesterID, items);
    } else if items' != items {
      DifferentJudge(db, db', v, (_, _, rs, _) => rs == items);
    } else {
      var relation := Relation(db, v.requesterID, items);
      assert Relation(db', v.requesterID, items) != relation;
      DifferentJudge(db, db', v, (_, _, _, fs) => fs == relation);
    }
  }

  lemma DifferentJudge(db: set<Entry>, db': set<Entry>, v: Entry, judge: Judge)
    requires v.Visibility?
    requires Fresh(judge, db, v.typ, v.requesterID, v.itemID) != Fresh(judge, db', v.typ, v.requesterID, v.itemID)
    ensures !SameForAll(db, db', v)
  {
  }

  /** The deletes keep what is cached of visibility right for every judge exactly when each cached
      visibility that was judged on one of the rows is removed, by the batch or on the way. */
  lemma DeleteManyVisibilityIff(s: Sys, rows: set<Entry>, c: Calls)
    requires rows <= s.db
    ensures (forall v :: v in DeleteMany(s, rows, c).mem.entries && v.Visibility? ==> SameForAll(s.db, s.db - rows, v)) <==>
            (forall v, r :: v in s.mem.entries && v.Visibility? && r in rows && JudgedOn(s.db, v, r) ==>
              v in Removed(s.mem.entries, c.targets))
  {
    hide JudgedOn, SameForAll, Removed;
    forall v: Entry | v.Visibility?
      ensures SameForAll(s.db, s.db - rows, v) <==> forall r :: r in rows ==> !JudgedOn(s.db, v, r)
    {
      FreshWithoutIff(s.db, rows, v);
    }
  }

  /** For one judge, that is whether the visibilities that are left are still fresh. */
  lemma LeftFreshIff(judge: Judge, s: Sys, rows: set<Entry>, c: Calls)
    requires VisibilityFresh(judge, s) && rows <= s.db
    ensures VisibilityFresh(judge, DeleteMany(s, rows, c)) <==>
            forall v :: v in DeleteMany(s, rows, c).mem.entries && v.Visibility? ==>
              Fresh(judge, s.db, v.typ, v.requesterID, v.itemID) == Fresh(judge, s.db - rows, v.typ, v.requesterID, v.itemID)
    ensures (forall v :: v in DeleteMany(s, rows, c).mem.entries && v.Visibility? ==> SameForAll(s.db, s.db - rows, v)) ==>
              VisibilityFresh(judge, DeleteMany(s, rows, c))
  {
    hide Fresh, Removed;
  }

  lemma JudgedIsDerived(db: set<Entry>, v: Entry, r: Entry, x: Entry)
    requires v.Visibility? && WellFormed(r) && Versions(x, r) && JudgedOn(db, v, r) && !r.Account?
    ensures DerivedFrom(v, x)
  {
  }

  /** Where a version of each row is cached and found under one of the keys, visibility is kept as
      well: this is what the rows are loaded for. */
  lemma LoadedDeletesKeepVisibility(judge: Judge, s: Sys, rows: set<Entry>, c: Calls)
    requires ConsistentRows(s) && VisibilityFresh(judge, s) && rows <= s.db
    requires forall r :: r in rows ==> !r.Account?
    requires forall r :: r in rows ==> exists x :: x in s.mem.entries && SameRow(x, r) && HitBy(x, c.targets)
    ensures VisibilityFresh(judge, DeleteMany(s, rows, c))
  {
    hide HitBy, Removed, JudgedOn, DerivedFrom, VisibilityFresh, WellFormed;
    forall v, r | v in s.mem.entries && v.Visibility? && r in rows && JudgedOn(s.db, v, r)
      ensures v in Removed(s.mem.entries, c.targets)
    {
      var x :| x in s.mem.entries && SameRow(x, r) && HitBy(x, c.targets);
      JudgedIsDerived(s.db, v, r, x);
      HitIsRemoved(s.mem.entries, c.targets, x);
      DerivedIsRemoved(s.mem.entries, c.targets, x, v);
    }
    DeleteManyVisibilityIff(s, rows, c);
    LeftFreshIff(judge, s, rows, c);
  }

  lemma DerivedIsRemoved(entries: set<Entry>, ts: set<Target>, x: Entry, v: Entry)
    requires x in Removed(entries, ts) && v in entries && DerivedFrom(v, x)
    ensures v in Removed(entries, ts)
  {
    ReachIsClosed(entries, Named(ts), EDGES);
    EdgesAreDerivations(x, v);
  }

  /** Visible to whoever follows, or is followed by, the owner. */
  const IF_RELATED: Judge := (_, _, _, relation) => relation != {}

  /** The same uncached incoming follow leaves its origin's cached visibility stale. */
  lemma IncomingFollowStalesVisibility()
    ensures var status, f := Status("S", "uri", "A", [], "", "", "", ""), Follow("F", "uri", "B", "A");
            var s := Sys({status, f}, Snapshot({Visibility("S", "B", 's', true)}, map[]));
            var c := Calls({Target(KFollow, ByAccountID, ["A"]), Target(KFollow, ByTargetAccountID, ["A"])}, {});
            VisibilityFresh(IF_RELATED, s) && !VisibilityFresh(IF_RELATED, DeleteMany(s, {f}, c))
  {
    var status, f, v := Status("S", "uri", "A", [], "", "", "", ""), Follow("F", "uri", "B", "A"), Visibility("S", "B", 's', true);
    var db := {status, f};
    var c := Calls({Target(KFollow, ByAccountID, ["A"]), Target(KFollow, ByTargetAccountID, ["A"])}, {});
    FollowKeysMiss(v, "A");
    OnlyRelation(status, f);
    hide ItemRows, Relation, Hits, HitBy, Removed, HookCalls;
    NothingHit({v}, c.targets);
    assert v in DeleteMany(Sys(db, Snapshot({v}, map[])), {f}, c).mem.entries;
  }

  lemma FollowKeysMiss(v: Entry, a: ID)
    requires v.Visibility?
    ensures !HitBy(v, {Target(KFollow, ByAccountID, [a]), Target(KFollow, ByTargetAccountID, [a])})
  {
  }

  lemma OnlyRelation(status: Entry, f: Entry)
    requires status == Status("S", "uri", "A", [], "", "", "", "") && f == Follow("F", "uri", "B", "A")
    ensures ItemRows({status, f}, 's', "S") == {status} && Relation({status, f}, "B", {status}) != {}
    ensures ItemRows({status, f} - {f}, 's', "S") == {status} && Relation({status, f} - {f}, "B", {status}) == {}
  {
    JudgedRows({status, f}, 's', "S", "B", status, f);
    assert !Between(status, "B", status);
  }

  /** Deleting a row and invalidating its ID without loading the row first
      (internal/db/bundb/statusbookmark.go). */
  ghost function DeleteUnloaded(s: Sys, row: Entry): Sys {
    DeleteMany(s, {row}, One(KindOf(row), ByID, KeyOf(row, ByID)))
  }

  /** The delete keeps the lists right exactly when a version of the row is cached, or no cached
      list holds the row: what the comment on the hooks asks callers to ensure. */
  lemma DeleteUnloadedIff(order: Order, s: Sys, row: Entry)
    requires Faithful(order) && ListsRight(order, s)
    requires row in s.db && !row.Account?
    ensures Agreement(order, DeleteUnloaded(s, row)) <==>
            ((exists x :: x in s.mem.entries && SameRow(x, row)) ||
             (forall k :: k in s.mem.lists ==> !Member(s.db, k, row)))
  {
    hide Stales, HookCalls, Member, Agreement, Removed;
    var c := One(KindOf(row), ByID, KeyOf(row, ByID));
    if x :| x in s.mem.entries && SameRow(x, row) {
      assert Hits(x, Target(KindOf(row), ByID, KeyOf(row, ByID)));
      LoadedDeletesKeep(order, s, {row}, c);
    } else {
      NothingHit(s.mem.entries, c.targets);
      DeleteManyIff(order, s, {row}, c);
    }
  }

  lemma SelectWithout(db: set<Entry>, rows: set<Entry>, k: ListKey)
    requires rows <= db && forall r :: r in db ==> WellFormed(r)
    requires forall r :: r in rows ==> !r.Account?
    requires forall r, q :: r in db && q in db && SameRow(r, q) ==> r == q
    ensures Select(db - rows, k) == Select(db, k) <==> forall r :: r in rows ==> !Member(db, k, r)
  {
    hide Member;
    var db' := db - rows;
    forall r
      ensures Member(db, k, r) <==> Member(db', k, r)
    {
      LocalityOnlyOfAccounts(db, db', k, r);
    }
    if row :| row in rows && Member(db, k, row) {
      assert row.id in Select(db, k);
      if row.id in Select(db', k) {
        var r :| r in db' && HasID(r) && Member(db', k, r) && r.id == row.id;
        MembersShareKind(db, k, r);
        MembersShareKind(db, k, row);
      }
    }
  }

  lemma LocalityOnlyOfAccounts(db: set<Entry>, db': set<Entry>, k: ListKey, r: Entry)
    requires forall q: Entry :: q.Account? ==> (q in db <==> q in db')
    ensures Member(db, k, r) <==> Member(db', k, r)
  {
    assert forall a :: IsLocal(db, a) <==> IsLocal(db', a);
  }

  function KindListed(c: ListCache): Kind {
    match c
    case FollowIDs => KFollow
    case FollowRequestIDs => KFollowRequest
    case BlockIDs => KBlock
    case UserMuteIDs => KUserMute
    case PollVoteIDs => KPollVote
    case BoostOfIDs => KStatus
    case InReplyToIDs => KStatus
    case StatusFaveIDs => KStatusFave
    case StatusBookmarkIDs => KStatusBookmark
  }

  lemma MembersShareKind(db: set<Entry>, k: ListKey, r: Entry)
    requires Member(db, k, r)
    ensures KindOf(r) == KindListed(k.cache)
  {
  }

  /** A bookmark deleted by ID without being cached stays in its status's cached list. */
  lemma UncachedBookmarkStays(order: Order, ids: seq<ID>)
    requires Faithful(order) && order(StatusBookmarkIDs, {"B"}, ids)
    ensures var b, k := StatusBookmark("B", "A", "T", "S"), ListKey(StatusBookmarkIDs, "S");
            var s := Sys({b}, Snapshot({}, map[k := ids]));
            Agreement(order, s) && !Agreement(order, DeleteUnloaded(s, b))
  {
    var b, k := StatusBookmark("B", "A", "T", "S"), ListKey(StatusBookmarkIDs, "S");
    var s := Sys({b}, Snapshot({}, map[k := ids]));
    assert Member(s.db, k, b);
    assert Select(s.db, k) == {"B"};
    DeleteUnloadedIff(order, s, b);
  }

  /** Writing any row and running its hook keeps the lists right exactly when the write spares the
      cached lists that are not dropped. */
  lemma StoreIff(order: Order, judge: Judge, s: Sys, row: Entry)
    requires Faithful(order) && ListsRight(order, s) && WellFormed(row)
    requires forall r :: r in s.db && SameRow(r, row) ==> Versions(r, row)
    ensures var mem := s.mem.(entries := Insert(s.mem.entries, row));
            Agreement(order, Apply(judge, s, StoreRow(row))) <==>
            forall k :: k in s.mem.lists && !Dropped(mem, HookCalls(row), k) ==> Spares(s.db, Upsert(s.db, row), row, k)
  {
    hide Stales, HookCalls, Member, After, Select, Insert, Spares, Dropped;
    var mem := s.mem.(entries := Insert(s.mem.entries, row));
    var db' := Upsert(s.db, row);
    forall k
      ensures k in After(mem, HookCalls(row)).lists <==> k in mem.lists && !Dropped(mem, HookCalls(row), k)
      ensures k in After(mem, HookCalls(row)).lists ==> After(mem, HookCalls(row)).lists[k] == mem.lists[k]
    {
      LeftUnlessDropped(mem, HookCalls(row), k);
    }
    forall k | k in mem.lists && !Dropped(mem, HookCalls(row), k)
      ensures Select(s.db, k) == Select(db', k) <==> Spares(s.db, db', row, k)
    {
      NotDroppedNotStale(mem, row, k);
      SelectUnchangedIff(s.db, row, k);
    }
  }

  lemma NotDroppedNotStale(mem: Snapshot, row: Entry, k: ListKey)
    requires !Dropped(mem, HookCalls(row), k)
    ensures !Stales(row, k)
  {
  }

  lemma SelectUnchangedIff(db: set<Entry>, row: Entry, k: ListKey)
    requires forall r :: r in db ==> WellFormed(r)
    requires forall r, q :: r in db && q in db && SameRow(r, q) ==> r == q
    requires WellFormed(row) && forall r :: r in db && SameRow(r, row) ==> Versions(r, row)
    requires !Stales(row, k)
    ensures Select(db, k) == Select(Upsert(db, row), k) <==> Spares(db, Upsert(db, row), row, k)
  {
    hide Stales, Member, Select;
    var db' := Upsert(db, row);
    if r :| r in db && Departs(r, row, k) {
      DepartingChanges(db, row, k, r);
    } else if row.Account? && !Spares(db, db', row, k) {
      var f :| f in db && LocalListOf(k, f, row.id);
      LocalityFlips(db, db', row, k, f);
    } else {
      assert forall r :: r in db' ==> !Departs(r, row, k);
      SelectUnchanged(db, db', row, k);
    }
  }

  lemma DepartingChanges(db: set<Entry>, row: Entry, k: ListKey, r: Entry)
    requires forall r, q :: r in db && q in db && SameRow(r, q) ==> r == q
    requires r in db && Departs(r, row, k)
    ensures Select(db, k) != Select(Upsert(db, row), k)
  {
    assert Member(db, k, r) && r.id in Select(db, k);
    assert forall q :: q in Upsert(db, row) && q.Status? && q.id == r.id ==> q == row;
  }

  /** Updating a status keeps the lists right exactly when its parent stays, it had none, or the
      replies to its former parent are not cached or dropped on the way: the hook sees the new
      parent only. */
  lemma ReparentIff(order: Order, judge: Judge, s: Sys, old': Entry, row: Entry)
    requires Faithful(order) && ListsRight(order, s) && WellFormed(row)
    requires old'.Status? && row.Status? && old' in s.db && Versions(old', row)
    ensures var k, mem := ListKey(InReplyToIDs, old'.inReplyToID), s.mem.(entries := Insert(s.mem.entries, row));
            Agreement(order, Apply(judge, s, StoreRow(row))) <==>
            (|| old'.inReplyToID == row.inReplyToID
             || old'.inReplyToID == ""
             || k !in s.mem.lists
             || Dropped(mem, HookCalls(row), k))
  {
    hide Stales, HookCalls, Apply, Agreement, Insert, Dropped;
    assert forall r :: r in s.db && SameRow(r, row) ==> r == old';
    StoreIff(order, judge, s, row);
    var db', key := Upsert(s.db, row), ListKey(InReplyToIDs, old'.inReplyToID);
    forall k
      ensures Spares(s.db, db', row, k) <==> !Departs(old', row, k)
      ensures Departs(old', row, k) ==> k == key
    {
      assert forall r :: r in db' ==> !Departs(r, row, k);
    }
    assert Departs(old', row, key) <==> old'.inReplyToID != row.inReplyToID && old'.inReplyToID != "";
  }

  /** A reply whose parent is cleared stays in the parent's cached list. */
  lemma ClearedParentStalesList(order: Order, ids: seq<ID>, judge: Judge)
    requires Faithful(order) && order(InReplyToIDs, {"S"}, ids)
    ensures var reply, k := Status("S", "uri", "A", [], "", "P", "", ""), ListKey(InReplyToIDs, "P");
            var s := Sys({reply}, Snapshot({}, map[k := ids]));
            && Agreement(order, s)
            && !Agreement(order, Apply(judge, s, StoreRow(reply.(inReplyToID := ""))))
  {
    var reply, k := Status("S", "uri", "A", [], "", "P", "", ""), ListKey(InReplyToIDs, "P");
    var s := Sys({reply}, Snapshot({}, map[k := ids]));
    var row := reply.(inReplyToID := "");
    assert Member(s.db, k, reply) && Select(s.db, k) == {"S"};
    assert Insert({}, row) == {row};
    hide Select, Member, Stales, HookCalls, Apply, Insert, Dropped, Removed;
    NothingCachedNothingDropped(row, k);
    ReparentIff(order, judge, s, reply, row);
  }

  lemma NothingCachedNothingDropped(row: Entry, k: ListKey)
    requires row == Status("S", "uri", "A", [], "", "", "", "") && k.cache.InReplyToIDs?
    ensures !Dropped(Snapshot({row}, map[k := []]), HookCalls(row), k)
  {
    assert !HitBy(row, HookCalls(row).targets);
    NothingHit({row}, HookCalls(row).targets);
  }

  /** Writing an account row keeps the ID lists right exactly when the account's locality is
      unchanged, or no cached local list of another account holds a follow with it: the hook drops
      the account's own lists only. */
  lemma AccountWriteIff(order: Order, judge: Judge, s: Sys, row: Entry)
    requires Faithful(order) && ListsRight(order, s) && row.Account? && WellFormed(row)
    ensures Agreement(order, Apply(judge, s, StoreRow(row))) <==>
            ((IsLocal(s.db, row.id) <==> row.local) ||
             (forall k, f :: k in s.mem.lists && f in s.db && LocalListOf(k, f, row.id) ==> Stales(row, k)))
  {
    hide Stales, HookCalls, Apply, Agreement, Insert, Dropped;
    var mem := s.mem.(entries := Insert(s.mem.entries, row));
    UpsertLocality(s.db, row);
    StoreIff(order, judge, s, row);
    forall k
      ensures Dropped(mem, HookCalls(row), k) <==> Stales(row, k)
    {
      AccountDropsOwn(mem, row, k);
    }
    var db' := Upsert(s.db, row);
    forall k
      ensures Spares(s.db, db', row, k) <==>
              (IsLocal(s.db, row.id) <==> row.local) || forall f :: f in s.db ==> !LocalListOf(k, f, row.id)
    {
    }
  }

  lemma AccountDropsOwn(mem: Snapshot, row: Entry, k: ListKey)
    requires row.Account?
    ensures Dropped(mem, HookCalls(row), k) <==> Stales(row, k)
  {
    hide HookCalls;
    AccountReachesLeaves(mem.entries, row);
    forall e | e in Removed(mem.entries, HookCalls(row).targets)
      ensures !Stales(e, k)
    {
      LeafListsNothing(e);
    }
  }

  /** An account row that becomes known as local leaves its follower's cached local list stale. */
  lemma NewLocalAccountStalesList(order: Order, ids: seq<ID>, judge: Judge)
    requires Faithful(order) && order(FollowIDs, {}, ids)
    ensures var f, row, k := Follow("F", "uri", "A", "B"), Account("B", "uri", true, ""), ListKey(FollowIDs, "l>A");
            var s := Sys({f}, Snapshot({}, map[k := ids]));
            && Agreement(order, s)
            && !Agreement(order, Apply(judge, s, StoreRow(row)))
  {
    var f, row, k := Follow("F", "uri", "A", "B"), Account("B", "uri", true, ""), ListKey(FollowIDs, "l>A");
    var s := Sys({f}, Snapshot({}, map[k := ids]));
    hide Stales, HookCalls, Member, After, Insert;
    assert LocalListOf(k, f, row.id) by {
      assert k.key == "l>" + f.accountID;
    }
    FlippedMember(s.db, k, f, row.id);
    assert Select(s.db, k) == {};
    AccountWriteIff(order, judge, s, row);
    OwnListsOnly(row, k);
  }

  lemma OwnListsOnly(row: Entry, k: ListKey)
    requires row.Account? && row.id == "B" && k == ListKey(FollowIDs, "l>A")
    ensures !Stales(row, k)
  {
    assert k.key[2] == 'A' && ("l>" + row.id)[2] == 'B';
    assert k.key[0] == 'l' && ("l<" + row.id)[1] == '<';
    assert (">" + row.id)[0] == '>' && ("<" + row.id)[0] == '<';
  }

  lemma UpsertLocality(db: set<Entry>, row: Entry)
    requires row.Account?
    ensures IsLocal(Upsert(db, row), row.id) <==> row.local
    ensures forall a :: a != row.id ==> (IsLocal(Upsert(db, row), a) <==> IsLocal(db, a))
    ensures DifferIn(db, Upsert(db, row), row)
  {
    assert row in Upsert(db, row);
    forall a | a != row.id && IsLocal(db, a)
      ensures IsLocal(Upsert(db, row), a)
    {
      var r :| r in db && r.Account? && r.id == a && r.local;
      assert r in Upsert(db, row);
    }
  }

  lemma AccountReachesLeaves(s: set<Entry>, row: Entry)
    requires row.Account?
    ensures forall e :: e in Removed(s, HookCalls(row).targets) ==> e.AccountStats? || e.Visibility? || e.Move?
  {
    hide HookCalls;
    var leaves := set x | x in s && (x.AccountStats? || x.Visibility? || x.Move?);
    forall x | x in s && x in Named(HookCalls(row).targets)
      ensures x in leaves
    {
      EdgesAreDerivations(row, x);
    }
    forall e, x | e in leaves
      ensures (e, x) !in EDGES
    {
      LeavesHaveNoHook(e, x);
    }
    ReachIsLeast(s, Named(HookCalls(row).targets), EDGES, leaves);
  }

  /** The whole cascade from an account drops the account's own lists and no others: its four follow
      lists, its two request lists and its block list. */
  lemma AccountHookLists(mem: Snapshot, row: Entry, k: ListKey)
    requires row.Account?
    ensures k in After(mem, HookCalls(row)).lists <==>
            && k in mem.lists
            && !(k.cache.FollowIDs? && k.key in [">" + row.id, "l>" + row.id, "<" + row.id, "l<" + row.id])
            && !(k.cache.FollowRequestIDs? && k.key in [">" + row.id, "<" + row.id])
            && k != ListKey(BlockIDs, row.id)
    ensures k in After(mem, HookCalls(row)).lists ==> After(mem, HookCalls(row)).lists[k] == mem.lists[k]
  {
    hide HookCalls, Removed, After, Dropped, Stales;
    LeftUnlessDropped(mem, HookCalls(row), k);
    AccountDropsOwn(mem, row, k);
    HooksDropConcerned(row, k);
  }

  lemma LeafListsNothing(e: Entry)
    requires e.AccountStats? || e.Visibility? || e.Move?
    ensures forall k :: !Stales(e, k)
  {
  }

  lemma LocalityFlips(db: set<Entry>, db': set<Entry>, row: Entry, k: ListKey, f: Entry)
    requires row.Account? && DifferIn(db, db', row) && f in db && WellFormed(f) && LocalListOf(k, f, row.id)
    requires forall r, q :: r in db && q in db && SameRow(r, q) ==> r == q
    requires IsLocal(db, row.id) <==> !IsLocal(db', row.id)
    ensures Select(db, k) != Select(db', k)
  {
    FlippedMember(db, k, f, row.id);
    FlippedMember(db', k, f, row.id);
    assert f in db' by { assert !Versions(f, row); }
    OnlyOneHasID(db, k, f);
    forall r | r in db' && Member(db', k, r) && r.id == f.id
      ensures r == f
    {
      assert r.Follow? && !Versions(r, row);
    }
  }

  lemma FlippedMember(db: set<Entry>, k: ListKey, f: Entry, a: ID)
    requires LocalListOf(k, f, a)
    ensures Member(db, k, f) <==> IsLocal(db, a)
  {
    assert k.key[0] == 'l';
    assert (">" + f.accountID)[0] == '>' && ("<" + f.targetAccountID)[0] == '<';
    assert ("l>" + f.accountID)[1] == '>' && ("l<" + f.targetAccountID)[1] == '<';
  }

  lemma OnlyOneHasID(db: set<Entry>, k: ListKey, f: Entry)
    requires f in db && f.Follow? && k.cache.FollowIDs?
    requires forall r, q :: r in db && q in db && SameRow(r, q) ==> r == q
    ensures f.id in Select(db, k) <==> Member(db, k, f)
  {
  }

  /** A list is of the model its cache lists, and a key of the follow caches names one account. */
  lemma FollowListHolds(db: set<Entry>, a: ID, r: Entry)
    ensures Member(db, ListKey(FollowIDs, ">" + a), r) <==> r.Follow? && r.accountID == a
    ensures Member(db, ListKey(FollowIDs, "<" + a), r) <==> r.Follow? && r.targetAccountID == a
    ensures Member(db, ListKey(FollowIDs, "l>" + a), r) <==>
              r.Follow? && r.accountID == a && exists t :: t in db && t.Account? && t.local && t.id == r.targetAccountID
    ensures Member(db, ListKey(FollowIDs, "l<" + a), r) <==>
              r.Follow? && r.targetAccountID == a && exists t :: t in db && t.Account? && t.local && t.id == r.accountID
  {
    if r.Follow? {
      forall p, q, b | p in [">", "l>", "<", "l<"] && q in [">", "l>", "<", "l<"] && b in [r.accountID, r.targetAccountID]
        ensures p + a == q + b <==> p == q && a == b
      {
        FollowKeysAreDistinct(p, a, q, b);
      }
      assert ">" in [">", "l>", "<", "l<"] && "l>" in [">", "l>", "<", "l<"];
      assert "<" in [">", "l>", "<", "l<"] && "l<" in [">", "l>", "<", "l<"];
      PrefixesDiffer();
    }
  }

  lemma PrefixesDiffer()
    ensures ">" != "<" && ">" != "l>" && ">" != "l<" && "<" != "l>" && "<" != "l<" && "l>" != "l<"
  {
    assert ">"[0] != "<"[0] && "l>"[1] != "l<"[1] && |">"| != |"l>"|;
  }

  lemma OtherListsHold(db: set<Entry>, key: ID, r: Entry)
    requires key != ""
    ensures Member(db, ListKey(FollowRequestIDs, ">" + key), r) <==> r.FollowRequest? && r.targetAccountID == key
    ensures Member(db, ListKey(FollowRequestIDs, "<" + key), r) <==> r.FollowRequest? && r.targetAccountID == key
    ensures Member(db, ListKey(BlockIDs, key), r) <==> r.Block? && r.accountID == key
    ensures Member(db, ListKey(UserMuteIDs, key), r) <==> r.UserMute? && r.accountID == key
    ensures Member(db, ListKey(PollVoteIDs, key), r) <==> r.PollVote? && r.pollID == key
    ensures Member(db, ListKey(BoostOfIDs, key), r) <==> r.Status? && r.boostOfID == key
    ensures Member(db, ListKey(InReplyToIDs, key), r) <==> r.Status? && r.inReplyToID == key
    ensures Member(db, ListKey(StatusFaveIDs, key), r) <==> r.StatusFave? && r.statusID == key
    ensures Member(db, ListKey(StatusBookmarkIDs, key), r) <==> r.StatusBookmark? && r.statusID == key
  {
    if r.FollowRequest? {
      RequestKey(key, r.targetAccountID);
      RequestKey(r.targetAccountID, key);
      assert (">" + key)[1..] == key && (">" + r.targetAccountID)[1..] == r.targetAccountID;
    }
  }

  /** A list holds the IDs of exactly the rows that are its members. */
  lemma SelectHolds(db: set<Entry>, k: ListKey, id: ID)
    ensures id in Select(db, k) <==> exists r :: r in db && HasID(r) && r.id == id && Member(db, k, r)
  {
    hide Member;
  }

  /** A deleted row's ID goes from every list of its cache, and nothing else goes from any. */
  lemma DeleteTakesOneID(sure: iset<Target>, judge: Judge, s: Sys, row: Entry, s': Sys, k: ListKey)
    requires ConsistentRows(s) && row in s.db && !row.Account?
    requires Step(sure, judge, s, DeleteRow(row), s') || Step(sure, judge, s, DeleteReturning(row), s')
    ensures Select(s'.db, k) == if Member(s.db, k, row) then Select(s.db, k) - {row.id} else Select(s.db, k)
    ensures Member(s.db, k, row) ==> row.id in Select(s.db, k)
  {
    hide Member, Clears, HookCalls, ReturnedCalls, Cached;
    forall r
      ensures Member(s.db, k, r) <==> Member(s'.db, k, r)
    {
      LocalityOnlyOfAccounts(s.db, s'.db, k, r);
    }
    forall r | r in s.db && HasID(r) && Member(s.db, k, r) && Member(s.db, k, row) && r.id == row.id
      ensures SameRow(r, row)
    {
      MembersShareKind(s.db, k, r);
      MembersShareKind(s.db, k, row);
    }
  }

  /** A stored row's ID is afterwards in exactly the lists the row is a member of; other IDs stay. */
  lemma StorePutsOneID(sure: iset<Target>, judge: Judge, s: Sys, row: Entry, s': Sys, k: ListKey)
    requires ConsistentRows(s) && WellFormed(row) && !row.Account?
    requires Step(sure, judge, s, StoreRow(row), s')
    requires KindOf(row) == KindListed(k.cache)
    ensures Select(s'.db, k) == Select(s.db, k) - {row.id} + if Member(s.db, k, row) then {row.id} else {}
  {
    hide Member, Clears, HookCalls, Insert;
    forall r
      ensures Member(s.db, k, r) <==> Member(s'.db, k, r)
      ensures Member(s.db, k, r) ==> KindOf(r) == KindListed(k.cache)
    {
      LocalityOnlyOfAccounts(s.db, s'.db, k, r);
      if Member(s.db, k, r) {
        MembersShareKind(s.db, k, r);
      }
    }
  }

  /** The IDs of the requests an account has sent. */
  ghost function Requesting(db: set<Entry>, account: ID): set<ID> {
    set r | r in db && r.FollowRequest? && r.accountID == account :: r.id
  }

  /** The list of requests an account has sent compares the wrong column: it is right exactly when
      the account sends every request it receives and receives every request it sends. */
  lemma RequestingListIff(db: set<Entry>, account: ID)
    requires forall r, q :: r in db && q in db && SameRow(r, q) ==> r == q
    ensures Select(db, ListKey(FollowRequestIDs, "<" + account)) == Requesting(db, account) <==>
            (forall r :: r in db && r.FollowRequest? ==> (r.accountID == account <==> r.targetAccountID == account))
  {
    var k := ListKey(FollowRequestIDs, "<" + account);
    forall r: Entry | r.FollowRequest?
      ensures Member(db, k, r) <==> r.targetAccountID == account
    {
      RequestKey(account, r.targetAccountID);
    }
    forall r | r in db && r.FollowRequest?
      ensures r.id in Select(db, k) <==> r.targetAccountID == account
      ensures r.id in Requesting(db, account) <==> r.accountID == account
    {
      assert forall q :: q in db && q.FollowRequest? && q.id == r.id ==> SameRow(q, r);
    }
  }

  lemma RequestKey(a: ID, b: ID)
    ensures "<" + a == "<" + b <==> a == b
    ensures "<" + a != ">" + b
  {
    assert ("<" + a)[1..] == a && ("<" + b)[1..] == b && ("<" + a)[0] != (">" + b)[0];
  }
}
