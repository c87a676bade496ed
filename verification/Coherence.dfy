/** The caches against the database they speed up: over every run of loads, writes with their
    hooks, invalidations and evictions, each cached ID list equals the list selected from the
    current rows, and each cached visibility equals the freshly computed one. */
module Coherence {
  import opened Caches
  import opened Cascade
  import opened Records

  /** The database rows and the content of the caches. */
  datatype Sys = Sys(db: set<Entry>, mem: Snapshot)

  /** What the query of a list cache may return for the IDs it selects: lists differ in their order,
      and one has none. */
  type Order = (ListCache, set<ID>, seq<ID>) -> bool

  /** A visibility computation: from the lookup type, the requester, the item's own record and
      the follow and block rows between the requester and the item's owner. */
  type Judge = (char, ID, set<Entry>, set<Entry>) -> bool

  ghost predicate IsLocal(db: set<Entry>, account: ID) {
    exists r :: r in db && r.Account? && r.id == account && r.local
  }

  /** The row is one of those the loader of this list selects. Both follow request queries
      compare the target account. */
  ghost predicate Member(db: set<Entry>, k: ListKey, e: Entry) {
    match k.cache
    case FollowIDs =>
      e.Follow? && (|| k.key == ">" + e.accountID
                    || (k.key == "l>" + e.accountID && IsLocal(db, e.targetAccountID))
                    || k.key == "<" + e.targetAccountID
                    || (k.key == "l<" + e.targetAccountID && IsLocal(db, e.accountID)))
    case FollowRequestIDs =>
      e.FollowRequest? && (k.key == ">" + e.targetAccountID || k.key == "<" + e.targetAccountID)
    case BlockIDs => e.Block? && e.accountID == k.key
    case UserMuteIDs => e.UserMute? && e.accountID == k.key
    case PollVoteIDs => e.PollVote? && e.pollID == k.key
    case BoostOfIDs => e.Status? && e.boostOfID == k.key != ""
    case InReplyToIDs => e.Status? && e.inReplyToID == k.key != ""
    case StatusFaveIDs => e.StatusFave? && e.statusID == k.key
    case StatusBookmarkIDs => e.StatusBookmark? && e.statusID == k.key
  }

  ghost function Select(db: set<Entry>, k: ListKey): set<ID> {
    set e | e in db && HasID(e) && Member(db, k, e) :: e.id
  }

  ghost predicate Agreement(order: Order, s: Sys) {
    forall k :: k in s.mem.lists ==> order(k.cache, Select(s.db, k), s.mem.lists[k])
  }

  /** The columns lists select by that are fixed once a row exists: all but a status's parent. */
  function KeyFields(e: Entry): seq<string> {
    match e
    case Block(_, _, a, t) => [a, t]
    case Follow(_, _, a, t) => [a, t]
    case FollowRequest(_, _, a, t) => [a, t]
    case UserMute(_, a, t) => [a, t]
    case PollVote(_, p, _) => [p]
    case Status(_, _, a, _, b, _, _, _) => [a, b]
    case StatusBookmark(_, _, _, s) => [s]
    case StatusFave(_, _, s) => [s]
    case _ => []
  }

  /** Two versions of one row. */
  predicate Versions(x: Entry, e: Entry) {
    SameRow(x, e) && KeyFields(x) == KeyFields(e)
  }

  /** The status a status replies to; it may be set, changed and cleared later. */
  function ParentOf(e: Entry): ID {
    if e.Status? then e.inReplyToID else ""
  }

  /** NOT NULL columns. */
  predicate WellFormed(e: Entry) {
    && HasID(e)
    && e.id != ""
    && ((e.Follow? || e.FollowRequest? || e.Block?) ==> e.accountID != "" && e.targetAccountID != "")
  }

  ghost predicate ConsistentRows(s: Sys) {
    && (forall r :: r in s.db ==> WellFormed(r))
    && (forall r, q :: r in s.db && q in s.db && SameRow(r, q) ==> r == q)
    && (forall x, r :: x in s.mem.entries && r in s.db && SameRow(x, r) ==> Versions(x, r) && ParentOf(x) == ParentOf(r))
  }

  ghost function ItemRows(db: set<Entry>, typ: char, item: ID): set<Entry> {
    set r | r in db && ((typ == 'a' && r.Account?) || (typ != 'a' && r.Status?)) && r.id == item
  }

  predicate Owns(account: ID, item: Entry) {
    (item.Account? && item.id == account) || (item.Status? && item.accountID == account)
  }

  /** A follow or block row between the requester and the item's owner, either way. */
  predicate Between(f: Entry, requester: ID, item: Entry) {
    (f.Follow? || f.Block?) &&
    ((f.accountID == requester && Owns(f.targetAccountID, item)) ||
     (f.targetAccountID == requester && Owns(f.accountID, item)))
  }

  ghost function Relation(db: set<Entry>, requester: ID, items: set<Entry>): set<Entry> {
    set f | f in db && exists r :: r in items && Between(f, requester, r)
  }

  ghost function Fresh(judge: Judge, db: set<Entry>, typ: char, requester: ID, item: ID): bool {
    var rows := ItemRows(db, typ, item);
    judge(typ, requester, rows, Relation(db, requester, rows))
  }

  ghost predicate VisibilityFresh(judge: Judge, s: Sys) {
    forall v :: v in s.mem.entries && v.Visibility? ==>
      v.value == Fresh(judge, s.db, v.typ, v.requesterID, v.itemID)
  }

  function Upsert(db: set<Entry>, e: Entry): set<Entry> {
    (set r | r in db && !SameRow(r, e)) + {e}
  }

  /** The two databases differ only in versions of one row. */
  ghost predicate DifferIn(db: set<Entry>, db': set<Entry>, e: Entry) {
    forall r :: !Versions(r, e) ==> (r in db <==> r in db')
  }

  /** The list holds the status by a parent that the new version `e` no longer has. */
  predicate Departs(r: Entry, e: Entry, k: ListKey) {
    k.cache.InReplyToIDs? && SameRow(r, e) && ParentOf(r) == k.key != "" && ParentOf(e) != k.key
  }

  /** The list is a local following or follower list that holds the follow because account `a` is local. */
  predicate LocalListOf(k: ListKey, f: Entry, a: ID) {
    k.cache.FollowIDs? && f.Follow? &&
    ((k.key == "l>" + f.accountID && f.targetAccountID == a) ||
     (k.key == "l<" + f.targetAccountID && f.accountID == a))
  }

  /** The write takes no status out of the list by changing its parent, and changes the locality
      of no account that follows in the list hang on. */
  ghost predicate Spares(db: set<Entry>, db': set<Entry>, e: Entry, k: ListKey) {
    && (forall r :: r in db || r in db' ==> !Departs(r, e, k))
    && (e.Account? ==> (IsLocal(db, e.id) <==> IsLocal(db', e.id)) || forall f :: f in db ==> !LocalListOf(k, f, e.id))
  }

  /** The write spares every cached list that the hook of the written row does not drop. */
  ghost predicate SparesCached(lists: map<ListKey, seq<ID>>, db: set<Entry>, db': set<Entry>, e: Entry) {
    forall k :: k in lists && !Stales(e, k) ==> Spares(db, db', e, k)
  }

  lemma MembersAreCovered(db: set<Entry>, k: ListKey, e: Entry, x: Entry)
    requires Member(db, k, e) && Versions(x, e)
    ensures Stales(x, k) <==> !Departs(e, x, k)
  {
  }

  lemma OtherAccountsKeepLocality(db: set<Entry>, db': set<Entry>, e: Entry, a: ID)
    requires DifferIn(db, db', e)
    requires !(e.Account? && e.id == a)
    ensures IsLocal(db, a) <==> IsLocal(db', a)
  {
    if r :| r in db && r.Account? && r.id == a && r.local {
      assert !Versions(r, e);
    }
    if r :| r in db' && r.Account? && r.id == a && r.local {
      assert !Versions(r, e);
    }
  }

  lemma SameMember(db: set<Entry>, db': set<Entry>, e: Entry, k: ListKey, r: Entry)
    requires DifferIn(db, db', e) && Spares(db, db', e, k)
    requires !Stales(e, k)
    ensures r in db && Member(db, k, r) <==> r in db' && Member(db', k, r)
  {
    hide Stales;
    if Versions(r, e) {
      if r in db && Member(db, k, r) {
        MembersAreCovered(db, k, r, e);
      }
      if r in db' && Member(db', k, r) {
        MembersAreCovered(db', k, r, e);
      }
    } else if r in db && r.Follow? {
      forall a | a == r.accountID || a == r.targetAccountID
        ensures (IsLocal(db, a) <==> IsLocal(db', a)) || !LocalListOf(k, r, a)
      {
        if !(e.Account? && e.id == a) {
          OtherAccountsKeepLocality(db, db', e, a);
        }
      }
    }
  }

  /** A list that the hook of the written row does not drop, and the write spares, selects the same
      rows as before. */
  lemma SelectUnchanged(db: set<Entry>, db': set<Entry>, e: Entry, k: ListKey)
    requires DifferIn(db, db', e) && Spares(db, db', e, k)
    requires !Stales(e, k)
    ensures Select(db, k) == Select(db', k)
  {
    hide Stales, Member, Spares;
    forall r
      ensures r in db && Member(db, k, r) <==> r in db' && Member(db', k, r)
    {
      SameMember(db, db', e, k, r);
    }
  }

  lemma ItemsUnchanged(db: set<Entry>, db': set<Entry>, e: Entry, v: Entry)
    requires DifferIn(db, db', e) && WellFormed(e)
    requires v.Visibility? && !DerivedFrom(v, e)
    ensures ItemRows(db, v.typ, v.itemID) == ItemRows(db', v.typ, v.itemID)
  {
    forall r: Entry | (r.Account? || r.Status?) && r.id == v.itemID
      ensures r in db <==> r in db'
    {
      assert !Versions(r, e);
    }
  }

  lemma RelationUnchanged(db: set<Entry>, db': set<Entry>, e: Entry, v: Entry, items: set<Entry>)
    requires DifferIn(db, db', e) && WellFormed(e)
    requires v.Visibility? && !DerivedFrom(v, e)
    ensures Relation(db, v.requesterID, items) == Relation(db', v.requesterID, items)
  {
    forall f, r | r in items && Between(f, v.requesterID, r)
      ensures f in db <==> f in db'
    {
      assert !Versions(f, e);
    }
  }

  /** A cached visibility that does not derive from the written row is judged on the same rows as before. */
  lemma FreshUnchanged(judge: Judge, db: set<Entry>, db': set<Entry>, e: Entry, v: Entry)
    requires DifferIn(db, db', e) && WellFormed(e)
    requires v.Visibility? && !DerivedFrom(v, e)
    ensures Fresh(judge, db, v.typ, v.requesterID, v.itemID) == Fresh(judge, db', v.typ, v.requesterID, v.itemID)
  {
    hide ItemRows, Relation, DerivedFrom;
    ItemsUnchanged(db, db', e, v);
    RelationUnchanged(db, db', e, v, ItemRows(db, v.typ, v.itemID));
  }

  /** The lists that are left are as they were, and no hook of the record drops any of them. */
  ghost predicate ListsLeft(lists: map<ListKey, seq<ID>>, lists': map<ListKey, seq<ID>>, e: Entry) {
    forall k :: k in lists' ==> k in lists && lists'[k] == lists[k] && !Stales(e, k)
  }

  /** The visibilities that are left were there before, and none derives from the record. */
  ghost predicate VisibilityLeft(entries: set<Entry>, entries': set<Entry>, e: Entry) {
    forall v :: v in entries' && v.Visibility? ==> v in entries && !DerivedFrom(v, e)
  }

  /** Writing one row keeps the lists right when it spares those that are left. */
  lemma CoveredLists(order: Order, s: Sys, s': Sys, e: Entry)
    requires Agreement(order, s) && DifferIn(s.db, s'.db, e)
    requires ListsLeft(s.mem.lists, s'.mem.lists, e) && SparesCached(s'.mem.lists, s.db, s'.db, e)
    ensures Agreement(order, s')
  {
    hide Stales, Select, Spares;
    forall k | k in s'.mem.lists
      ensures order(k.cache, Select(s'.db, k), s'.mem.lists[k])
    {
      SelectUnchanged(s.db, s'.db, e, k);
    }
  }

  /** Writing one row keeps visibility right when nothing left in the caches derives from it. */
  lemma CoveredVisibility(judge: Judge, s: Sys, s': Sys, e: Entry)
    requires VisibilityFresh(judge, s) && DifferIn(s.db, s'.db, e) && WellFormed(e)
    requires VisibilityLeft(s.mem.entries, s'.mem.entries, e)
    ensures VisibilityFresh(judge, s')
  {
    hide DerivedFrom, Fresh;
    forall v | v in s'.mem.entries && v.Visibility?
      ensures v.value == Fresh(judge, s'.db, v.typ, v.requesterID, v.itemID)
    {
      FreshUnchanged(judge, s.db, s'.db, e, v);
    }
  }

  /** The hook of the record is sure to clear the visibility keys it names. */
  ghost predicate SureOfVisibility(sure: iset<Target>, e: Entry) {
    forall t :: t in HookCalls(e).targets && t.kind.KVisibility? ==> t in sure
  }

  /** After the hook of a record has run, no list it drops is left, and no visibility that derives
      from the record if it was sure to clear the visibility keys. */
  lemma HookLeavesNothing(sure: iset<Target>, mem: Snapshot, e: Entry, mem': Snapshot)
    requires Clears(sure, mem, HookCalls(e), mem')
    ensures ListsLeft(mem.lists, mem'.lists, e)
    ensures SureOfVisibility(sure, e) ==> VisibilityLeft(mem.entries, mem'.entries, e)
  {
    hide HookCalls, Hits, Removed, DerivedFrom;
    if SureOfVisibility(sure, e) {
      forall v | v in mem.entries && v.Visibility? && DerivedFrom(v, e)
        ensures v !in mem'.entries
      {
        WitnessOfVisibility(e, v);
      }
    }
  }

  lemma WitnessOfVisibility(e: Entry, v: Entry)
    requires v.Visibility? && DerivedFrom(v, e)
    ensures Witness(e, v).kind.KVisibility? && Witness(e, v) in HookCalls(e).targets && Hits(v, Witness(e, v))
  {
    DerivedIsReached(e, v);
  }

  /** The same for a cached record that a batch is sure to take out by its ID. */
  lemma InvalidatingLeavesNothing(sure: iset<Target>, mem: Snapshot, c: Calls, x: Entry, mem': Snapshot)
    requires ID_KEYS <= sure && Clears(sure, mem, c, mem')
    requires x in mem.entries && HasID(x) && x.id != "" && Target(KindOf(x), ByID, [x.id]) in c.targets
    ensures forall y :: y in mem'.entries ==> !SameRow(y, x)
    ensures ListsLeft(mem.lists, mem'.lists, x)
    ensures SureOfVisibility(sure, x) ==> VisibilityLeft(mem.entries, mem'.entries, x)
  {
    hide HookCalls, Removed, DerivedFrom;
    var t := Target(KindOf(x), ByID, [x.id]);
    assert t in ID_KEYS;
    forall y | y in mem.entries && SameRow(y, x)
      ensures y !in mem'.entries
    {
      assert Hits(y, t);
    }
    var gone := mem.entries - mem'.entries;
    assert x in gone;
    hide Hits;
    forall k | Stales(x, k)
      ensures k in HookLists(gone)
    {
    }
    if SureOfVisibility(sure, x) {
      forall v | v in mem.entries && v.Visibility? && DerivedFrom(v, x)
        ensures v !in mem'.entries
      {
        WitnessOfVisibility(x, v);
        assert Witness(x, v) in HookTargets(gone);
      }
    }
  }
}
