/** Runs of the system: what the database layer does with the caches, step by step, both with the
    documented invalidation and with any that is only sure to clear certain keys. */
module Runs {
  import opened Caches
  import opened Cascade
  import opened Coherence
  import opened Records

  datatype Action =
    | LoadList(key: ListKey, ids: seq<ID>)
    | LoadRow(row: Entry)
    | LoadVisibility(typ: char, requester: ID, item: ID)
    | StoreRow(row: Entry)
    | StoreFails(row: Entry)
    | DeleteRow(row: Entry)
    | DeleteReturning(row: Entry)
    | AcceptFollowRequest(row: Entry)
    | InvalidateCalls(calls: Calls)
    | Evict(entries: set<Entry>, lists: set<ListKey>)

  /** A row read through its cache by ID: a cached version is used, otherwise the row is cached. */
  ghost function Cached(mem: Snapshot, row: Entry): Snapshot {
    if exists x :: x in mem.entries && SameRow(x, row) then mem
    else mem.(entries := Insert(mem.entries, row))
  }

  function Without(db: set<Entry>, row: Entry): set<Entry> {
    set r | r in db && !SameRow(r, row)
  }

  function FollowFor(request: Entry): Entry
    requires request.FollowRequest?
  {
    Follow(request.id, request.uri, request.accountID, request.targetAccountID)
  }

  /** INSERT of a follow; on conflict with a follow between the same accounts, that row's URI is
      updated instead. The result is the row written. */
  ghost function WrittenFollow(db: set<Entry>, follow: Entry): (w: Entry)
    requires follow.Follow?
    ensures Conflicts(w, follow)
  {
    if exists f :: f in db && Conflicts(f, follow) then
      var f :| f in db && Conflicts(f, follow);
      Follow(f.id, follow.uri, follow.accountID, follow.targetAccountID)
    else follow
  }

  predicate Conflicts(f: Entry, follow: Entry) {
    f.Follow? && follow.Follow? && f.accountID == follow.accountID && f.targetAccountID == follow.targetAccountID
  }

  /** What the deletes of a fave and of a poll vote invalidate: they do not load the row first, and
      drop its ID list themselves, by the column the statement returned. */
  function ReturnedCalls(row: Entry): Calls {
    match row
    case StatusFave(id, _, statusID) => One(KStatusFave, ByID, [id]).Plus(Keys(StatusFaveIDs, [statusID]))
    case PollVote(_, pollID, accountID) =>
      Calls({Target(KPoll, ByID, [pollID]), Target(KPollVote, ByPollAccount, [pollID, accountID])},
            Keys(PollVoteIDs, [pollID]).lists)
    case _ => NO_CALLS
  }

  ghost function Apply(judge: Judge, s: Sys, a: Action): Sys
    requires a.AcceptFollowRequest? ==> a.row.FollowRequest?
  {
    match a
    case LoadList(k, ids) =>
      if k in s.mem.lists then s else s.(mem := s.mem.(lists := s.mem.lists[k := ids]))
    case LoadRow(row) => s.(mem := Cached(s.mem, row))
    case LoadVisibility(typ, requester, item) =>
      if exists v :: v in s.mem.entries && v.Visibility? && v.typ == typ && v.requesterID == requester && v.itemID == item
      then s
      else s.(mem := s.mem.(entries :=
        Insert(s.mem.entries, Visibility(item, requester, typ, Fresh(judge, s.db, typ, requester, item)))))
    case StoreRow(row) =>
      Sys(Upsert(s.db, row), After(s.mem.(entries := Insert(s.mem.entries, row)), HookCalls(row)))
    case StoreFails(row) => s.(mem := After(s.mem, HookCalls(row)))
    case DeleteRow(row) =>
      Sys(Without(s.db, row), After(Cached(s.mem, row), One(KindOf(row), ByID, KeyOf(row, ByID))))
    case DeleteReturning(row) => Sys(Without(s.db, row), After(s.mem, ReturnedCalls(row)))
    case AcceptFollowRequest(row) =>
      var follow := FollowFor(row);
      var mem := Cached(s.mem, row);
      Sys(Without(Upsert(s.db, WrittenFollow(s.db, follow)), row),
          After(mem.(entries := Insert(mem.entries, follow)), HookCalls(follow)))
    case InvalidateCalls(calls) => s.(mem := After(s.mem, calls))
    case Evict(entries, lists) => s.(mem := Snapshot(s.mem.entries - entries, s.mem.lists - lists))
  }

  /** The same step when an invalidation is only sure to clear the keys in `sure`. */
  ghost predicate Step(sure: iset<Target>, judge: Judge, s: Sys, a: Action, s': Sys)
    requires a.AcceptFollowRequest? ==> a.row.FollowRequest?
  {
    match a
    case StoreRow(row) =>
      && s'.db == Upsert(s.db, row)
      && Clears(sure, s.mem.(entries := Insert(s.mem.entries, row)), HookCalls(row), s'.mem)
    case StoreFails(row) => s'.db == s.db && Clears(sure, s.mem, HookCalls(row), s'.mem)
    case DeleteRow(row) =>
      && s'.db == Without(s.db, row)
      && Clears(sure, Cached(s.mem, row), One(KindOf(row), ByID, KeyOf(row, ByID)), s'.mem)
    case DeleteReturning(row) => s'.db == Without(s.db, row) && Clears(sure, s.mem, ReturnedCalls(row), s'.mem)
    case AcceptFollowRequest(row) =>
      var follow := FollowFor(row);
      var mem := Cached(s.mem, row);
      && s'.db == Without(Upsert(s.db, WrittenFollow(s.db, follow)), row)
      && Clears(sure, mem.(entries := Insert(mem.entries, follow)), HookCalls(follow), s'.mem)
    case InvalidateCalls(calls) => s'.db == s.db && Clears(sure, s.mem, calls, s'.mem)
    case _ => s' == Apply(judge, s, a)
  }

  /** The documented invalidation is the one that is sure of every key. */
  lemma StepIsApply(judge: Judge, s: Sys, a: Action, s': Sys)
    requires a.AcceptFollowRequest? ==> a.row.FollowRequest?
    ensures Step(ALL_KEYS, judge, s, a, s') <==> s' == Apply(judge, s, a)
  {
    match a
    case StoreRow(row) => SureOfAll(s.mem.(entries := Insert(s.mem.entries, row)), HookCalls(row), s'.mem);
    case StoreFails(row) => SureOfAll(s.mem, HookCalls(row), s'.mem);
    case DeleteReturning(row) => SureOfAll(s.mem, ReturnedCalls(row), s'.mem);
    case DeleteRow(row) => SureOfAll(Cached(s.mem, row), One(KindOf(row), ByID, KeyOf(row, ByID)), s'.mem);
    case AcceptFollowRequest(row) =>
      var follow, mem := FollowFor(row), Cached(s.mem, row);
      SureOfAll(mem.(entries := Insert(mem.entries, follow)), HookCalls(follow), s'.mem);
    case InvalidateCalls(calls) => SureOfAll(s.mem, calls, s'.mem);
    case _ =>
  }

  /** What the database promises: rows are well formed and keep their fixed fields, a delete names a
      row that exists, and a write spares the lists that are still cached after it: it takes no reply
      off its parent, and changes the locality of no account, while such a list is. */
  ghost predicate Enabled(order: Order, s: Sys, a: Action, s': Sys) {
    match a
    case LoadList(k, ids) => k !in s.mem.lists ==> order(k.cache, Select(s.db, k), ids)
    case LoadRow(row) => row in s.db
    case StoreRow(row) =>
      && WellFormed(row)
      && (forall r :: r in s.db && SameRow(r, row) ==> Versions(r, row))
      && SparesCached(s'.mem.lists, s.db, s'.db, row)
    case DeleteRow(row) => row in s.db && SparesCached(s'.mem.lists, s.db, s'.db, row)
    case DeleteReturning(row) => row in s.db && (row.StatusFave? || row.PollVote?)
    case AcceptFollowRequest(row) =>
      && row.FollowRequest? && row in s.db
      && (forall r :: r in s.db && SameRow(r, FollowFor(row)) ==> Versions(r, FollowFor(row)))
    case _ => true
  }

  /** The step is sure to clear the visibility keys its hooks name. */
  ghost predicate SureOfStep(sure: iset<Target>, s: Sys, a: Action)
  {
    match a
    case StoreRow(row) => SureOfVisibility(sure, row)
    case DeleteRow(row) => forall x :: x in Cached(s.mem, row).entries && SameRow(x, row) ==> SureOfVisibility(sure, x)
    case AcceptFollowRequest(row) => row.FollowRequest? ==> SureOfVisibility(sure, FollowFor(row))
    case _ => true
  }

  ghost predicate ListsRight(order: Order, s: Sys) {
    ConsistentRows(s) && Agreement(order, s)
  }

  lemma ClearsShrinks(sure: iset<Target>, mem: Snapshot, c: Calls, mem': Snapshot)
    requires Clears(sure, mem, c, mem')
    ensures mem'.entries <= mem.entries
    ensures forall k :: k in mem'.lists ==> k in mem.lists && mem'.lists[k] == mem.lists[k]
  {
  }

  lemma InsertReplacesVersions(entries: set<Entry>, e: Entry)
    requires HasID(e) && e.id != ""
    ensures e in Insert(entries, e)
    ensures forall x :: x in Insert(entries, e) ==> x == e || (x in entries && !SameRow(x, e))
  {
    forall x | x in entries && SameRow(x, e)
      ensures Competes(x, e)
    {
      assert IsUnique(KindOf(e), ByID) && Hits(x, Target(KindOf(e), ByID, KeyOf(e, ByID)));
    }
  }

  /** After the row has been read through its cache, a version of it is cached. */
  lemma CachedKeeps(order: Order, judge: Judge, s: Sys, row: Entry) returns (x: Entry)
    requires ListsRight(order, s) && row in s.db
    ensures ListsRight(order, s.(mem := Cached(s.mem, row)))
    ensures VisibilityFresh(judge, s) ==> VisibilityFresh(judge, s.(mem := Cached(s.mem, row)))
    ensures x in Cached(s.mem, row).entries && Versions(x, row) && ParentOf(x) == ParentOf(row)
    ensures Cached(s.mem, row).lists == s.mem.lists
  {
    hide Insert, Fresh, Select;
    InsertReplacesVersions(s.mem.entries, row);
    if y :| y in s.mem.entries && SameRow(y, row) {
      x := y;
    } else {
      x := row;
    }
  }

  /** A write of one row, from its two ends: the lists that are left, and the visibilities. */
  lemma WriteKeepsLists(order: Order, s: Sys, s': Sys, e: Entry)
    requires Agreement(order, s) && DifferIn(s.db, s'.db, e)
    requires ListsLeft(s.mem.lists, s'.mem.lists, e) && SparesCached(s'.mem.lists, s.db, s'.db, e)
    ensures Agreement(order, s')
  {
    hide Stales, Spares, Agreement, DifferIn;
    CoveredLists(order, s, s', e);
  }

  lemma StoreKeeps(sure: iset<Target>, order: Order, judge: Judge, s: Sys, row: Entry, s': Sys)
    requires ListsRight(order, s) && Enabled(order, s, StoreRow(row), s') && Step(sure, judge, s, StoreRow(row), s')
    ensures ListsRight(order, s')
    ensures VisibilityFresh(judge, s) && SureOfVisibility(sure, row) ==> VisibilityFresh(judge, s')
  {
    hide Stales, DerivedFrom, Fresh, Select, Clears, Insert, HookCalls, Spares;
    var mem0 := s.mem.(entries := Insert(s.mem.entries, row));
    InsertReplacesVersions(s.mem.entries, row);
    ClearsShrinks(sure, mem0, HookCalls(row), s'.mem);
    HookLeavesNothing(sure, mem0, row, s'.mem);
    WriteKeepsLists(order, s, s', row);
    if VisibilityFresh(judge, s) && SureOfVisibility(sure, row) {
      CoveredVisibility(judge, s, s', row);
    }
  }

  lemma DeleteKeeps(sure: iset<Target>, order: Order, judge: Judge, s: Sys, row: Entry, s': Sys)
    requires ID_KEYS <= sure
    requires ListsRight(order, s) && Enabled(order, s, DeleteRow(row), s') && Step(sure, judge, s, DeleteRow(row), s')
    ensures ListsRight(order, s')
    ensures VisibilityFresh(judge, s) && SureOfStep(sure, s, DeleteRow(row)) ==> VisibilityFresh(judge, s')
  {
    hide Stales, DerivedFrom, Fresh, Select, Clears, Insert, HookCalls, Cached, Spares;
    var x := CachedKeeps(order, judge, s, row);
    var s1 := s.(mem := Cached(s.mem, row));
    InvalidatingLeavesNothing(sure, s1.mem, One(KindOf(row), ByID, KeyOf(row, ByID)), x, s'.mem);
    ClearsShrinks(sure, s1.mem, One(KindOf(row), ByID, KeyOf(row, ByID)), s'.mem);
    VersionsSpareAlike(s'.mem.lists, s.db, s'.db, row, x);
    RemovalKeeps(sure, order, judge, s1, row, x, s');
  }

  lemma VersionsSpareAlike(lists: map<ListKey, seq<ID>>, db: set<Entry>, db': set<Entry>, row: Entry, x: Entry)
    requires Versions(x, row) && ParentOf(x) == ParentOf(row)
    ensures SparesCached(lists, db, db', row) ==> SparesCached(lists, db, db', x)
  {
    hide Stales, IsLocal;
    forall k
      ensures Stales(x, k) <==> Stales(row, k)
      ensures Spares(db, db', row, k) <==> Spares(db, db', x, k)
    {
      SameLists(row, x, k);
    }
  }

  lemma SameLists(row: Entry, x: Entry, k: ListKey)
    requires Versions(x, row) && ParentOf(x) == ParentOf(row)
    ensures Stales(x, k) <==> Stales(row, k)
  {
    hide Keys;
  }

  lemma RemovalKeeps(sure: iset<Target>, order: Order, judge: Judge, s: Sys, row: Entry, x: Entry, s': Sys)
    requires ListsRight(order, s) && row in s.db && Versions(x, row) && s'.db == Without(s.db, row)
    requires s'.mem.entries <= s.mem.entries && ListsLeft(s.mem.lists, s'.mem.lists, x)
    requires SparesCached(s'.mem.lists, s.db, s'.db, x)
    ensures ListsRight(order, s')
    ensures VisibilityFresh(judge, s) && VisibilityLeft(s.mem.entries, s'.mem.entries, x) ==> VisibilityFresh(judge, s')
  {
    hide Stales, DerivedFrom, Fresh, Select, Spares;
    WriteKeepsLists(order, s, s', x);
    if VisibilityFresh(judge, s) && VisibilityLeft(s.mem.entries, s'.mem.entries, x) {
      CoveredVisibility(judge, s, s', x);
    }
  }

  lemma SameEndpoints(f: Entry, g: Entry)
    requires Conflicts(f, g)
    ensures forall k :: Stales(f, k) <==> Stales(g, k)
    ensures forall v: Entry :: v.Visibility? ==> (DerivedFrom(v, f) <==> DerivedFrom(v, g))
  {
  }

  lemma OnlySomeRowsMatter(lists: map<ListKey, seq<ID>>, db: set<Entry>, db': set<Entry>, e: Entry)
    requires !e.Account? && !e.Status?
    ensures SparesCached(lists, db, db', e)
  {
  }

  /** The hook of the follow that replaces a request reaches the cached request, by their shared ID. */
  lemma AcceptReachesRequest(sure: iset<Target>, mem: Snapshot, x: Entry, follow: Entry, mem': Snapshot)
    requires ID_KEYS <= sure && x in mem.entries && x.FollowRequest? && follow.Follow? && x.id == follow.id != ""
    requires Clears(sure, mem.(entries := Insert(mem.entries, follow)), HookCalls(follow), mem')
    ensures forall y :: y in mem'.entries ==> !SameRow(y, x)
    ensures ListsLeft(mem.lists, mem'.lists, x) && VisibilityLeft(mem'.entries, mem'.entries, x)
  {
    hide Insert, HookCalls, Clears, Stales, DerivedFrom;
    var mem0 := mem.(entries := Insert(mem.entries, follow));
    HookNamesRequest(mem.entries, x, follow);
    InvalidatingLeavesNothing(sure, mem0, HookCalls(follow), x, mem');
    forall v: Entry | v.Visibility?
      ensures !DerivedFrom(v, x)
    {
      NoVisibilityOfRequests(v, x);
    }
  }

  lemma HookNamesRequest(entries: set<Entry>, x: Entry, follow: Entry)
    requires x in entries && x.FollowRequest? && follow.Follow? && x.id == follow.id
    ensures x in Insert(entries, follow)
    ensures Target(KindOf(x), ByID, [x.id]) in HookCalls(follow).targets
  {
    hide Keys;
    assert !Competes(x, follow);
  }

  lemma NoVisibilityOfRequests(v: Entry, x: Entry)
    requires v.Visibility? && x.FollowRequest?
    ensures !DerivedFrom(v, x)
  {
  }

  lemma AcceptKeepsRows(s: Sys, follow: Entry, mem': Snapshot)
    requires ConsistentRows(s) && follow.Follow? && WellFormed(follow)
    requires forall r :: r in s.db && SameRow(r, follow) ==> Versions(r, follow)
    requires mem'.entries <= Insert(s.mem.entries, follow)
    ensures ConsistentRows(Sys(Upsert(s.db, WrittenFollow(s.db, follow)), mem'))
  {
    hide Insert;
    InsertReplacesVersions(s.mem.entries, follow);
  }

  lemma AcceptWrites(sure: iset<Target>, order: Order, judge: Judge, s: Sys, follow: Entry, mem': Snapshot)
    requires ListsRight(order, s) && follow.Follow? && WellFormed(follow)
    requires forall r :: r in s.db && SameRow(r, follow) ==> Versions(r, follow)
    requires Clears(sure, s.mem.(entries := Insert(s.mem.entries, follow)), HookCalls(follow), mem')
    ensures var s' := Sys(Upsert(s.db, WrittenFollow(s.db, follow)), mem');
            && ListsRight(order, s')
            && (VisibilityFresh(judge, s) && SureOfVisibility(sure, follow) ==> VisibilityFresh(judge, s'))
  {
    hide Stales, DerivedFrom, Clears, Insert, HookCalls, Agreement, VisibilityFresh, SureOfVisibility, SparesCached;
    var w := WrittenFollow(s.db, follow);
    var s' := Sys(Upsert(s.db, w), mem');
    var mem0 := s.mem.(entries := Insert(s.mem.entries, follow));
    ClearsShrinks(sure, mem0, HookCalls(follow), mem');
    AcceptKeepsRows(s, follow, mem');
    HookLeavesNothing(sure, mem0, follow, mem');
    AcceptChangesOneRow(s, follow);
    SameEndpoints(w, follow);
    OnlySomeRowsMatter(s'.mem.lists, s.db, s'.db, w);
    WriteKeepsLists(order, s, s', w);
    if VisibilityFresh(judge, s) && SureOfVisibility(sure, follow) {
      InsertReplacesVersions(s.mem.entries, follow);
      CoveredVisibility(judge, s, s', w);
    }
  }

  lemma AcceptChangesOneRow(s: Sys, follow: Entry)
    requires ConsistentRows(s) && follow.Follow? && WellFormed(follow)
    requires forall r :: r in s.db && SameRow(r, follow) ==> Versions(r, follow)
    ensures var w := WrittenFollow(s.db, follow); WellFormed(w) && DifferIn(s.db, Upsert(s.db, w), w)
  {
  }

  lemma AcceptKeeps(sure: iset<Target>, order: Order, judge: Judge, s: Sys, row: Entry, s': Sys)
    requires ID_KEYS <= sure && ListsRight(order, s) && Enabled(order, s, AcceptFollowRequest(row), s')
    requires Step(sure, judge, s, AcceptFollowRequest(row), s')
    ensures ListsRight(order, s')
    ensures VisibilityFresh(judge, s) && SureOfVisibility(sure, FollowFor(row)) ==> VisibilityFresh(judge, s')
  {
    hide Stales, DerivedFrom, Fresh, Select, Clears, Insert, HookCalls, Cached, WrittenFollow, Agreement, VisibilityFresh;
    var x := CachedKeeps(order, judge, s, row);
    var s1, follow := s.(mem := Cached(s.mem, row)), FollowFor(row);
    AcceptWrites(sure, order, judge, s1, follow, s'.mem);
    var s2 := Sys(Upsert(s.db, WrittenFollow(s.db, follow)), s'.mem);
    AcceptReachesRequest(sure, s1.mem, x, follow, s'.mem);
    OnlySomeRowsMatter(s2.mem.lists, s2.db, s'.db, x);
    RemovalKeeps(sure, order, judge, s2, row, x, s');
  }

  /** A row deleted with its list needs no loading: nothing else depends on it. */
  lemma DeleteReturningKeeps(sure: iset<Target>, order: Order, judge: Judge, s: Sys, row: Entry, s': Sys)
    requires ListsRight(order, s) && Enabled(order, s, DeleteReturning(row), s')
    requires Step(sure, judge, s, DeleteReturning(row), s')
    ensures ListsRight(order, s')
    ensures VisibilityFresh(judge, s) ==> VisibilityFresh(judge, s')
  {
    hide Stales, DerivedFrom, Fresh, Select, Spares, Removed, HookCalls;
    ReturnedCallsDropOwn(row);
    ClearsShrinks(sure, s.mem, ReturnedCalls(row), s'.mem);
    OnlySomeRowsMatter(s'.mem.lists, s.db, s'.db, row);
    RemovalKeeps(sure, order, judge, s, row, row, s');
  }

  lemma ReturnedCallsDropOwn(row: Entry)
    requires row.StatusFave? || row.PollVote?
    ensures forall k :: Stales(row, k) ==> k in ReturnedCalls(row).lists
    ensures forall v: Entry :: v.Visibility? ==> !DerivedFrom(v, row)
  {
  }

  /** Loads and evictions, and invalidations of whatever keys. */
  lemma OtherStepsKeep(sure: iset<Target>, order: Order, judge: Judge, s: Sys, a: Action, s': Sys)
    requires !a.StoreRow? && !a.DeleteRow? && !a.DeleteReturning? && !a.AcceptFollowRequest?
    requires ListsRight(order, s) && Enabled(order, s, a, s') && Step(sure, judge, s, a, s')
    ensures ListsRight(order, s')
    ensures VisibilityFresh(judge, s) ==> VisibilityFresh(judge, s')
  {
    hide Fresh, Select, Clears, Competes;
    match a
    case LoadRow(row) => var _ := CachedKeeps(order, judge, s, row);
    case StoreFails(row) => ClearsShrinks(sure, s.mem, HookCalls(row), s'.mem);
    case InvalidateCalls(calls) => ClearsShrinks(sure, s.mem, calls, s'.mem);
    case _ =>
  }

  /** Every step of the database layer keeps every cached ID list equal to the list selected from
      the current rows, if only IDs are sure to be cleared; and every cached visibility equal to
      the freshly computed one, if the visibility keys its hooks name are sure to be cleared too. */
  lemma StepKeeps(sure: iset<Target>, order: Order, judge: Judge, s: Sys, a: Action, s': Sys)
    requires ID_KEYS <= sure
    requires ListsRight(order, s) && Enabled(order, s, a, s') && Step(sure, judge, s, a, s')
    ensures ListsRight(order, s')
    ensures VisibilityFresh(judge, s) && SureOfStep(sure, s, a) ==> VisibilityFresh(judge, s')
  {
    hide ListsRight, Step, SureOfVisibility, VisibilityFresh, SparesCached, WellFormed, Versions;
    match a
    case StoreRow(row) => StoreKeeps(sure, order, judge, s, row, s');
    case DeleteRow(row) => DeleteKeeps(sure, order, judge, s, row, s');
    case DeleteReturning(row) => DeleteReturningKeeps(sure, order, judge, s, row, s');
    case AcceptFollowRequest(row) =>
      AcceptKeeps(sure, order, judge, s, row, s');
    case _ => OtherStepsKeep(sure, order, judge, s, a, s');
  }

  /** A run: the states it goes through, the actions between them, and for each the keys that were
      sure to be cleared. IDs always are: no two records are stored under one. */
  ghost predicate IsRun(order: Order, judge: Judge, states: seq<Sys>, actions: seq<Action>, sures: seq<iset<Target>>) {
    && |states| == |actions| + 1 && |sures| == |actions|
    && (forall i :: 0 <= i < |actions| ==>
          && ID_KEYS <= sures[i] && Enabled(order, states[i], actions[i], states[i + 1])
          && Step(sures[i], judge, states[i], actions[i], states[i + 1]))
  }

  lemma {:induction false} RunKeeps(order: Order, judge: Judge, states: seq<Sys>, actions: seq<Action>,
                                    sures: seq<iset<Target>>, n: nat)
    requires IsRun(order, judge, states, actions, sures) && n <= |actions|
    requires ListsRight(order, states[0])
    ensures ListsRight(order, states[n])
    ensures VisibilityFresh(judge, states[0]) && (forall i :: 0 <= i < n ==> SureOfStep(sures[i], states[i], actions[i])) ==>
              VisibilityFresh(judge, states[n])
  {
    hide ListsRight, Enabled, Step, SureOfStep, VisibilityFresh;
    if n > 0 {
      RunKeeps(order, judge, states, actions, sures, n - 1);
      StepKeeps(sures[n - 1], order, judge, states[n - 1], actions[n - 1], states[n]);
    }
  }

  /** Over every run that starts with empty caches, at every point of it: every cached ID list is
      right; and so is every cached visibility, as long as the keys named by hooks were cleared. */
  lemma RunsAreCoherent(order: Order, judge: Judge, states: seq<Sys>, actions: seq<Action>,
                        sures: seq<iset<Target>>, n: nat)
    requires IsRun(order, judge, states, actions, sures) && n <= |actions|
    requires states[0].mem == Snapshot({}, map[]) && ConsistentRows(states[0])
    ensures Agreement(order, states[n])
    ensures (forall i :: 0 <= i < n ==> SureOfStep(sures[i], states[i], actions[i])) ==> VisibilityFresh(judge, states[n])
  {
    RunKeeps(order, judge, states, actions, sures, n);
  }

  /** With the documented invalidation, both hold at every point without further conditions. */
  lemma DocumentedRunsAreCoherent(order: Order, judge: Judge, states: seq<Sys>, actions: seq<Action>, n: nat)
    requires |states| == |actions| + 1 && n <= |actions|
    requires forall i :: 0 <= i < |actions| ==>
               Enabled(order, states[i], actions[i], states[i + 1]) && states[i + 1] == Apply(judge, states[i], actions[i])
    requires states[0].mem == Snapshot({}, map[]) && ConsistentRows(states[0])
    ensures Agreement(order, states[n]) && VisibilityFresh(judge, states[n])
  {
    hide Step, Agreement, VisibilityFresh, ConsistentRows, SparesCached, WellFormed, Versions, After;
    var sures := seq(|actions|, i requires 0 <= i < |actions| => ALL_KEYS);
    forall i | 0 <= i < |actions|
      ensures Step(sures[i], judge, states[i], actions[i], states[i + 1])
      ensures SureOfStep(sures[i], states[i], actions[i])
    {
      StepIsApply(judge, states[i], actions[i], states[i + 1]);
    }
    RunsAreCoherent(order, judge, states, actions, sures, n);
  }

  // What the steps do to the rows and to what is loaded, in the fields of the row.

  /** A row of the same model with the same ID. */
  predicate HasIDOf(r: Entry, row: Entry) {
    KindOf(r) == KindOf(row) && HasID(r) && HasID(row) && r.id == row.id
  }

  lemma StoredRows(sure: iset<Target>, judge: Judge, s: Sys, row: Entry, s': Sys, r: Entry)
    requires Step(sure, judge, s, StoreRow(row), s')
    ensures r in s'.db <==> r == row || (r in s.db && !HasIDOf(r, row))
  {
  }

  lemma DeletedRows(sure: iset<Target>, judge: Judge, s: Sys, row: Entry, s': Sys, r: Entry)
    requires Step(sure, judge, s, DeleteRow(row), s') || Step(sure, judge, s, DeleteReturning(row), s')
    ensures r in s'.db <==> r in s.db && !HasIDOf(r, row)
  {
  }

  /** A row that was not there, stored and deleted again, leaves the rows as they were. */
  lemma StoredThenDeleted(db: set<Entry>, row: Entry)
    requires HasID(row) && forall r :: r in db ==> !HasIDOf(r, row)
    ensures Without(Upsert(db, row), row) == db
  {
    assert forall r :: r in db ==> !SameRow(r, row);
    assert SameRow(row, row);
  }

  /** A follow that carries out the request: from and to the same accounts, with its URI. */
  predicate Fulfils(f: Entry, request: Entry)
    requires request.FollowRequest?
  {
    f.Follow? && f.accountID == request.accountID && f.targetAccountID == request.targetAccountID && f.uri == request.uri
  }

  predicate FollowBetween(g: Entry, account: ID, target: ID) {
    g.Follow? && g.accountID == account && g.targetAccountID == target
  }

  /** Accepting a request leaves a follow of the same direction and URI in its place: under the ID of
      the request, or, if there was one between the accounts, that one with the URI of the request. */
  lemma AcceptedFollow(sure: iset<Target>, judge: Judge, s: Sys, row: Entry, s': Sys) returns (f: Entry)
    requires row.FollowRequest? && Step(sure, judge, s, AcceptFollowRequest(row), s')
    ensures f in s'.db && Fulfils(f, row)
    ensures (f.id == row.id && forall g :: g in s.db ==> !FollowBetween(g, row.accountID, row.targetAccountID))
            || exists g :: g in s.db && FollowBetween(g, row.accountID, row.targetAccountID) && g.id == f.id
  {
    hide Clears, HookCalls, Insert, Cached;
    f := WrittenFollow(s.db, FollowFor(row));
    if g :| g in s.db && FollowBetween(g, row.accountID, row.targetAccountID) {
      assert Conflicts(g, FollowFor(row));
    }
  }

  /** The request is gone; rows but for it and follows between the two accounts, or of its ID, stay. */
  lemma AcceptedRows(sure: iset<Target>, judge: Judge, s: Sys, row: Entry, s': Sys, r: Entry)
    requires row.FollowRequest? && ConsistentRows(s) && Step(sure, judge, s, AcceptFollowRequest(row), s')
    ensures r.FollowRequest? && r.id == row.id ==> r !in s'.db
    ensures (&& !(r.FollowRequest? && r.id == row.id)
             && !FollowBetween(r, row.accountID, row.targetAccountID)
             && !(r.Follow? && r.id == row.id)) ==> (r in s'.db <==> r in s.db)
  {
    hide Clears, HookCalls, Insert, Cached;
    var follow := FollowFor(row);
    var w := WrittenFollow(s.db, follow);
    if f :| f in s.db && Conflicts(f, follow) {
      assert SameRow(f, w) || w.id == row.id || exists g :: g in s.db && Conflicts(g, follow) && g.id == w.id;
    }
  }

  /** What is loaded is cached afterwards. */
  lemma LoadedList(judge: Judge, s: Sys, k: ListKey, ids: seq<ID>)
    ensures var lists := Apply(judge, s, LoadList(k, ids)).mem.lists;
            k in lists && lists[k] == if k in s.mem.lists then s.mem.lists[k] else ids
  {
  }

  /** After the delete of a fave or a vote nothing cached says otherwise: the row itself, the poll with
      its count, and the list are gone. */
  lemma ReturnedLeavesNothing(sure: iset<Target>, judge: Judge, s: Sys, row: Entry, s': Sys, x: Entry)
    requires ID_KEYS <= sure && Step(sure, judge, s, DeleteReturning(row), s') && x in s'.mem.entries
    ensures row.StatusFave? && row.id != "" ==> !(x.StatusFave? && x.id == row.id)
    ensures row.StatusFave? ==> ListKey(StatusFaveIDs, row.statusID) !in s'.mem.lists
    ensures row.PollVote? && row.pollID != "" ==> !(x.Poll? && x.id == row.pollID)
    ensures row.PollVote? && row.pollID != "" && row.accountID != ""
            && Target(KPollVote, ByPollAccount, [row.pollID, row.accountID]) in sure ==>
              !(x.PollVote? && x.pollID == row.pollID && x.accountID == row.accountID)
    ensures row.PollVote? ==> ListKey(PollVoteIDs, row.pollID) !in s'.mem.lists
  {
    hide HookCalls, Removed, HookTargets, HookLists;
    var named := ReturnedCalls(row).targets;
    forall t | t in named && t in sure
      ensures !Hits(x, t)
    {
    }
    if row.StatusFave? {
      assert Target(KStatusFave, ByID, [row.id]) in ID_KEYS && Target(KStatusFave, ByID, [row.id]) in named;
    } else if row.PollVote? {
      assert Target(KPoll, ByID, [row.pollID]) in ID_KEYS && Target(KPoll, ByID, [row.pollID]) in named;
      assert Target(KPollVote, ByPollAccount, [row.pollID, row.accountID]) in named;
      assert ListKey(PollVoteIDs, row.pollID) in Keys(PollVoteIDs, [row.pollID]).lists;
    }
  }

  lemma LoadedRow(judge: Judge, s: Sys, row: Entry) returns (x: Entry)
    requires HasID(row)
    ensures x in Apply(judge, s, LoadRow(row)).mem.entries && HasIDOf(x, row)
  {
    hide Competes;
    if y :| y in s.mem.entries && SameRow(y, row) {
      x := y;
    } else {
      x := row;
      assert row in Insert(s.mem.entries, row);
    }
  }

  lemma LoadedVisibility(judge: Judge, s: Sys, typ: char, requester: ID, item: ID) returns (v: Entry)
    ensures v in Apply(judge, s, LoadVisibility(typ, requester, item)).mem.entries && v.Visibility?
            && v.typ == typ && v.requesterID == requester && v.itemID == item
  {
    hide Fresh, Competes;
    if u :| u in s.mem.entries && u.Visibility? && u.typ == typ && u.requesterID == requester && u.itemID == item {
      v := u;
    } else {
      v := Visibility(item, requester, typ, Fresh(judge, s.db, typ, requester, item));
      assert v in Insert(s.mem.entries, v);
    }
  }
}
