/** The caches as the mutable object the hooks work on (internal/cache/cache.go,
    internal/cache/invalidate.go, internal/cache/wrappers.go).
    Each struct cache is the part of `entries` of its own model; each ID-list cache is
    the part of `lists` under its own name. */
module Caches {
  import opened Cascade
  import opened Records
  import StructrIndex
  import opened Wrappers

  /** A record enters its cache and replaces those it shares a unique key with. */
  function Insert(entries: set<Entry>, e: Entry): set<Entry> {
    (set x | x in entries && !Competes(x, e)) + {e}
  }

  /** What is cached after storing: the record, and those that share nothing unique with it. */
  lemma StoringReplacesShared(entries: set<Entry>, e: Entry, x: Entry)
    ensures x in Insert(entries, e) <==> x == e || (x in entries && !SharesUniqueKey(x, e))
  {
    CompetesIffShared(x, e);
  }

  /** The records that an index has lost track of: their key was deleted and they stayed. */
  type Unlisted = set<(Entry, Index)>

  /** The keys that are sure to be cleared: any, if deletion does what is documented; otherwise those
      under which all records are listed and there is at most one. */
  ghost function SureKeys(complete: bool, entries: set<Entry>, unlisted: Unlisted): iset<Target> {
    iset t: Target | complete || HoldsOne(entries, unlisted, t)
  }

  ghost predicate HoldsOne(entries: set<Entry>, unlisted: Unlisted, t: Target) {
    && (forall x :: x in entries && Hits(x, t) ==> (x, t.index) !in unlisted)
    && (forall x, y :: x in entries && y in entries && Hits(x, t) && Hits(y, t) ==> x == y)
  }

  /** A record that is stored is listed under all its keys. */
  function Relisted(unlisted: Unlisted, e: Entry): Unlisted {
    set u | u in unlisted && u.0 != e
  }

  class Caches {
    /** Whether the deletion of an index key does what is documented, or takes half of the records. */
    const complete: bool
    var entries: set<Entry>
    var lists: map<ListKey, seq<ID>>
    var unlisted: Unlisted

    ghost function Snap(): Snapshot
      reads this
    {
      Snapshot(entries, lists)
    }

    ghost function Sure(): iset<Target>
      reads this
    {
      SureKeys(complete, entries, unlisted)
    }

    constructor (complete: bool)
      ensures this.complete == complete && Snap() == Snapshot({}, map[]) && unlisted == {}
    {
      this.complete, entries, lists, unlisted := complete, {}, map[], {};
    }

    /** SliceCache.Load: `loaded` is what the load function returns when it is called. */
    method Load(c: ListCache, key: string, loaded: Result<seq<ID>>) returns (r: Result<seq<ID>>)
      modifies `lists
      ensures ListKey(c, key) in old(lists) ==> lists == old(lists) && r == Success(old(lists)[ListKey(c, key)])
      ensures ListKey(c, key) !in old(lists) ==>
                r == loaded && lists == if loaded.Failure? then old(lists) else old(lists)[ListKey(c, key) := loaded.value]
    {
      var k := ListKey(c, key);
      if k !in lists {
        if loaded.Failure? {
          return Failure;
        }
        lists := lists[k := loaded.value];
      }
      r := Success(lists[k]);
    }

    /** SliceCache.Invalidate. */
    method InvalidateLists(c: ListCache, keys: seq<string>)
      modifies `lists
      ensures lists == old(lists) - Keys(c, keys).lists
    {
      var i := 0;
      while i < |keys|
        invariant 0 <= i <= |keys|
        invariant lists == old(lists) - set k | k in keys[..i] :: ListKey(c, k)
      {
        lists := lists - {ListKey(c, keys[i])};
        assert keys[..i + 1] == keys[..i] + [keys[i]];
        i := i + 1;
      }
      assert keys[..i] == keys;
    }

    /** StructCache.LoadOne on a unique index: `row` is what the load function returns when it
        is called. No hook runs. */
    method LoadOne(kind: Kind, index: Index, key: seq<string>, row: Result<Entry>) returns (r: Result<Entry>)
      requires IsUnique(kind, index)
      modifies this
      ensures lists == old(lists)
      ensures if exists x :: x in old(entries) && Listed(old(unlisted), x, Target(kind, index, key))
              then entries == old(entries) && unlisted == old(unlisted) && r.Success? && r.value in entries
                   && FoundBy(r.value, Target(kind, index, key))
              else r == row && (if row.Failure? then entries == old(entries) && unlisted == old(unlisted)
                                else entries == Insert(old(entries), row.value)
                                     && unlisted == Relisted(old(unlisted), row.value))
    {
      var t := Target(kind, index, key);
      if x :| x in entries && Listed(unlisted, x, t) {
        HitsAreFound(x, t);
        return Success(x);
      }
      r := row;
      if row.Success? {
        entries, unlisted := Insert(entries, row.value), Relisted(unlisted, row.value);
      }
    }

    predicate Listed(unlisted: Unlisted, x: Entry, t: Target) {
      Hits(x, t) && (complete || (x, t.index) !in unlisted)
    }

    /** StructCache.Store: `ok` is the outcome of the store callback. */
    method Store(e: Entry, ok: bool)
      modifies this
      ensures var stored := if ok then Insert(old(entries), e) else old(entries);
              var listed := if ok then Relisted(old(unlisted), e) else old(unlisted);
              && Clears(SureKeys(complete, stored, listed), Snapshot(stored, old(lists)), HookCalls(e), Snap())
              && SureKeys(complete, stored, listed) <= Sure()
    {
      if ok {
        entries, unlisted := Insert(entries, e), Relisted(unlisted, e);
      }
      OnInvalidate(e, Sure());
    }

    /** Eviction by size or by Trim: no hook runs. */
    method Evict(dropped: set<Entry>, droppedLists: set<ListKey>)
      modifies `entries, `lists
      ensures Snap() == Snapshot(old(entries) - dropped, old(lists) - droppedLists)
    {
      entries, lists := entries - dropped, lists - droppedLists;
    }

    // Every invalidation is sure to clear the keys in `sure`, which may be any that it is sure of
    // when it starts; what it does on the way makes it no less sure of them.

    /** structr.Cache.Invalidate: records under the keys leave the cache first; then the hook of each
        one runs, in any order. */
    method InvalidateKeys(kind: Kind, index: Index, keys: seq<seq<string>>, ghost sure: iset<Target>)
      requires sure <= Sure()
      modifies this
      ensures Clears(sure, old(Snap()), AllKeys(kind, index, keys), Snap()) && sure <= Sure()
      ensures entries <= old(entries)
      decreases entries, 1
    {
      hide Clears, SureKeys;
      ghost var start := Snap();
      var hit := TakeOut(kind, index, keys, sure);
      RunHooks(hit, sure);
      ClearsUnfold(sure, start, AllKeys(kind, index, keys).targets, hit, Snap());
    }

    /** The records that the deletion of the keys hands on, one key after the other. */
    method TakeOut(kind: Kind, index: Index, keys: seq<seq<string>>, ghost sure: iset<Target>) returns (hit: set<Entry>)
      requires sure <= Sure()
      modifies this
      ensures hit <= old(entries) && forall x :: x in hit ==> HitBy(x, AllKeys(kind, index, keys).targets)
      ensures Cleared(sure, old(entries), hit, AllKeys(kind, index, keys).targets)
      ensures Snap() == Snapshot(old(entries) - hit, old(lists)) && sure <= Sure()
    {
      hide HitBy, Hits, SureKeys, Cleared, AllKeys;
      ghost var start := entries;
      hit := {};
      NoKeysHitNothing(sure, start, kind, index, keys);
      var i := 0;
      while i < |keys|
        invariant 0 <= i <= |keys|
        invariant lists == old(lists) && entries == old(entries) - hit && hit <= start && sure <= Sure()
        invariant forall x :: x in hit ==> HitBy(x, AllKeys(kind, index, keys[..i]).targets)
        invariant Cleared(sure, start, hit, AllKeys(kind, index, keys[..i]).targets)
      {
        ghost var before := entries;
        var taken := TakeOutKey(Target(kind, index, keys[i]), sure);
        KeysGrow(sure, start, kind, index, keys, i, hit, before, taken);
        hit := hit + taken;
        i := i + 1;
      }
      assert keys[..i] == keys;
    }

    /** Index.delete of one key: with the vendored loop, half of the records listed under it are
        handed on, and the index loses track of the others. */
    method TakeOutKey(t: Target, ghost sure: iset<Target>) returns (taken: set<Entry>)
      requires sure <= Sure()
      modifies this
      ensures taken <= old(entries) && forall x :: x in taken ==> Hits(x, t)
      ensures t in sure ==> forall x :: x in old(entries) && Hits(x, t) ==> x in taken
      ensures Snap() == Snapshot(old(entries) - taken, old(lists)) && sure <= Sure()
    {
      var found := set x | x in entries && Listed(unlisted, x, t);
      if complete {
        taken := found;
      } else {
        taken := StructrIndex.TakeHalf(found);
      }
      if t in sure && !complete {
        AtMostOne(found);
      }
      ghost var was := unlisted;
      HalfKeepsSure(sure, complete, entries, unlisted, t, found, taken);
      entries, unlisted := entries - taken, unlisted + set x | x in found - taken :: (x, t.index);
    }

    /** Runs the hooks of records that have left their cache, in any order. */
    method RunHooks(hit: set<Entry>, ghost sure: iset<Target>)
      requires sure <= Sure()
      modifies this
      ensures Clears(sure, old(Snap()), Hooks(hit), Snap()) && sure <= Sure()
      ensures entries <= old(entries)
      decreases entries, if hit == {} then 0 else 6
    {
      hide Clears, Hooks, SureKeys;
      ghost var start := Snap();
      var todo := hit;
      ClearsNothing(sure, start);
      HooksOfNone();
      assert hit - todo == {};
      while todo != {}
        invariant todo <= hit
        invariant Clears(sure, start, Hooks(hit - todo), Snap()) && sure <= Sure()
        invariant entries <= start.entries
        decreases todo
      {
        var e :| e in todo;
        ghost var done, mid := hit - todo, Snap();
        OnInvalidate(e, sure);
        ClearsCompose(sure, start, Hooks(done), mid, HookCalls(e), Snap());
        HooksPlus(done, e);
        todo := todo - {e};
        assert hit - todo == done + {e};
      }
      assert hit - todo == hit;
    }

    /** StructCache.Invalidate. */
    method Invalidate(kind: Kind, index: Index, key: seq<string>, ghost sure: iset<Target>)
      requires sure <= Sure()
      modifies this
      ensures Clears(sure, old(Snap()), One(kind, index, key), Snap()) && sure <= Sure()
      ensures entries <= old(entries)
      decreases entries, 2
    {
      InvalidateKeys(kind, index, [key], sure);
      assert AllKeys(kind, index, [key]) == One(kind, index, key);
    }

    /** StructCache.InvalidateIDs. */
    method InvalidateIDs(kind: Kind, ids: seq<ID>, ghost sure: iset<Target>)
      requires sure <= Sure()
      modifies this
      ensures Clears(sure, old(Snap()), AllIDs(kind, ids), Snap()) && sure <= Sure()
      ensures entries <= old(entries)
      decreases entries, 2
    {
      var keys: seq<seq<string>> := [];
      var x := 0;
      while x < |ids|
        invariant 0 <= x <= |ids| && |keys| == x
        invariant forall j :: 0 <= j < x ==> keys[j] == [ids[j]]
        invariant Snap() == old(Snap()) && unlisted == old(unlisted)
      {
        keys := keys + [[ids[x]]];
        x := x + 1;
      }
      InvalidateKeys(kind, ByID, keys, sure);
      assert AllKeys(kind, ByID, keys).targets == AllIDs(kind, ids).targets;
    }

    // The hooks. `s` is the state on entry and `c` the calls made since: `Drop`, `DropIDs` and
    // `DropLists` each make one call.

    ghost predicate Running(sure: iset<Target>, s: Snapshot, c: Calls)
      reads this
    {
      Clears(sure, s, c, Snap()) && entries <= s.entries && sure <= Sure()
    }

    ghost method Begin(sure: iset<Target>) returns (s: Snapshot, c: Calls)
      requires sure <= Sure()
      ensures s == Snap() && c == NO_CALLS && Running(sure, s, c)
    {
      s, c := Snap(), NO_CALLS;
      ClearsNothing(sure, s);
    }

    method Drop(kind: Kind, index: Index, key: seq<string>, ghost sure: iset<Target>, ghost s: Snapshot, ghost c: Calls)
        returns (ghost c': Calls)
      requires Running(sure, s, c)
      modifies this
      ensures c' == c.Plus(One(kind, index, key)) && Running(sure, s, c')
      decreases entries, 3
    {
      hide Clears, SureKeys;
      ghost var mid := Snap();
      Invalidate(kind, index, key, sure);
      c' := c.Plus(One(kind, index, key));
      ClearsCompose(sure, s, c, mid, One(kind, index, key), Snap());
    }

    method DropIDs(kind: Kind, ids: seq<ID>, ghost sure: iset<Target>, ghost s: Snapshot, ghost c: Calls)
        returns (ghost c': Calls)
      requires Running(sure, s, c)
      modifies this
      ensures c' == c.Plus(AllIDs(kind, ids)) && Running(sure, s, c')
      decreases entries, 3
    {
      hide Clears, SureKeys;
      ghost var mid := Snap();
      InvalidateIDs(kind, ids, sure);
      c' := c.Plus(AllIDs(kind, ids));
      ClearsCompose(sure, s, c, mid, AllIDs(kind, ids), Snap());
    }

    method DropLists(cache: ListCache, keys: seq<string>, ghost sure: iset<Target>, ghost s: Snapshot, ghost c: Calls)
        returns (ghost c': Calls)
      requires Running(sure, s, c)
      modifies `lists
      ensures c' == c.Plus(Keys(cache, keys)) && Running(sure, s, c')
    {
      hide Clears, SureKeys;
      ghost var mid := Snap();
      InvalidateLists(cache, keys);
      c' := c.Plus(Keys(cache, keys));
      DroppingListsClears(sure, mid, Keys(cache, keys));
      ClearsCompose(sure, s, c, mid, Keys(cache, keys), Snap());
    }

    method OnInvalidateAccount(account: Entry, ghost sure: iset<Target>)
      requires account.Account?
      requires sure <= Sure()
      modifies this
      ensures Clears(sure, old(Snap()), HookCalls(account), Snap()) && sure <= Sure()
      ensures forall k :: Concerns(account, k) ==> k !in lists
      ensures entries <= old(entries)
      decreases entries, 4
    {
      hide Clears, SureKeys, Concerns;
      ghost var s, c := Begin(sure);
      c := Drop(KAccountStats, ByAccountID, [account.id], sure, s, c);
      c := Drop(KVisibility, ByItemID, [account.id], sure, s, c);
      c := Drop(KVisibility, ByRequesterID, [account.id], sure, s, c);
      c := DropLists(FollowIDs, [">" + account.id, "l>" + account.id, "<" + account.id, "l<" + account.id], sure, s, c);
      c := DropLists(FollowRequestIDs, [">" + account.id, "<" + account.id], sure, s, c);
      c := DropLists(BlockIDs, [account.id], sure, s, c);
      c := Drop(KMove, ByOriginURI, [account.uri], sure, s, c);
      c := Drop(KMove, ByTargetURI, [account.uri], sure, s, c);
      assert c == HookCalls(account);
      NamedListsGo(sure, s, account, Snap());
    }

    method OnInvalidateApplication(app: Entry, ghost sure: iset<Target>)
      requires app.Application?
      requires sure <= Sure()
      modifies this
      ensures Clears(sure, old(Snap()), HookCalls(app), Snap()) && sure <= Sure()
      ensures entries <= old(entries)
      decreases entries, 4
    {
      hide Clears, SureKeys;
      ghost var s, c := Begin(sure);
      c := Drop(KClient, ByID, [app.clientID], sure, s, c);
      assert c == HookCalls(app);
    }

    method OnInvalidateBlock(block: Entry, ghost sure: iset<Target>)
      requires block.Block?
      requires sure <= Sure()
      modifies this
      ensures Clears(sure, old(Snap()), HookCalls(block), Snap()) && sure <= Sure()
      ensures entries <= old(entries)
      decreases entries, 4
    {
      hide Clears, SureKeys;
      ghost var s, c := Begin(sure);
      c := Drop(KVisibility, ByItemID, [block.accountID], sure, s, c);
      c := Drop(KVisibility, ByRequesterID, [block.accountID], sure, s, c);
      c := Drop(KVisibility, ByItemID, [block.targetAccountID], sure, s, c);
      c := Drop(KVisibility, ByRequesterID, [block.targetAccountID], sure, s, c);
      c := DropLists(BlockIDs, [block.accountID], sure, s, c);
      assert c == HookCalls(block);
    }

    method OnInvalidateClient(client: Entry, ghost sure: iset<Target>)
      requires client.Client?
      requires sure <= Sure()
      modifies this
      ensures Clears(sure, old(Snap()), HookCalls(client), Snap()) && sure <= Sure()
      ensures entries <= old(entries)
      decreases entries, 4
    {
      hide Clears, SureKeys;
      ghost var s, c := Begin(sure);
      c := Drop(KToken, ByClientID, [client.id], sure, s, c);
      assert c == HookCalls(client);
    }

    method OnInvalidateEmojiCategory(category: Entry, ghost sure: iset<Target>)
      requires category.EmojiCategory?
      requires sure <= Sure()
      modifies this
      ensures Clears(sure, old(Snap()), HookCalls(category), Snap()) && sure <= Sure()
      ensures entries <= old(entries)
      decreases entries, 4
    {
      hide Clears, SureKeys;
      ghost var s, c := Begin(sure);
      c := Drop(KEmoji, ByCategoryID, [category.id], sure, s, c);
      assert c == HookCalls(category);
    }

    method OnInvalidateFollow(follow: Entry, ghost sure: iset<Target>)
      requires follow.Follow?
      requires sure <= Sure()
      modifies this
      ensures Clears(sure, old(Snap()), HookCalls(follow), Snap()) && sure <= Sure()
      ensures forall k :: Concerns(follow, k) ==> k !in lists
      ensures entries <= old(entries)
      decreases entries, 4
    {
      hide Clears, SureKeys, Concerns;
      ghost var s, c := Begin(sure);
      c := Drop(KFollowRequest, ByID, [follow.id], sure, s, c);
      c := Drop(KListEntry, ByFollowID, [follow.id], sure, s, c);
      c := Drop(KVisibility, ByItemID, [follow.accountID], sure, s, c);
      c := Drop(KVisibility, ByRequesterID, [follow.accountID], sure, s, c);
      c := Drop(KVisibility, ByItemID, [follow.targetAccountID], sure, s, c);
      c := Drop(KVisibility, ByRequesterID, [follow.targetAccountID], sure, s, c);
      c := DropLists(FollowIDs,
                     [">" + follow.accountID, "l>" + follow.accountID, "<" + follow.accountID, "l<" + follow.accountID,
                      "<" + follow.targetAccountID, "l<" + follow.targetAccountID,
                      ">" + follow.targetAccountID, "l>" + follow.targetAccountID], sure, s, c);
      assert c == HookCalls(follow);
      NamedListsGo(sure, s, follow, Snap());
    }

    method OnInvalidateFollowRequest(followReq: Entry, ghost sure: iset<Target>)
      requires followReq.FollowRequest?
      requires sure <= Sure()
      modifies this
      ensures Clears(sure, old(Snap()), HookCalls(followReq), Snap()) && sure <= Sure()
      ensures forall k :: Concerns(followReq, k) ==> k !in lists
      ensures entries <= old(entries)
      decreases entries, 4
    {
      hide Clears, SureKeys, Concerns;
      ghost var s, c := Begin(sure);
      c := Drop(KFollow, ByID, [followReq.id], sure, s, c);
      c := DropLists(FollowRequestIDs,
                     [">" + followReq.accountID, "<" + followReq.accountID,
                      ">" + followReq.targetAccountID, "<" + followReq.targetAccountID], sure, s, c);
      assert c == HookCalls(followReq);
      NamedListsGo(sure, s, followReq, Snap());
    }

    method OnInvalidateList(list: Entry, ghost sure: iset<Target>)
      requires list.List?
      requires sure <= Sure()
      modifies this
      ensures Clears(sure, old(Snap()), HookCalls(list), Snap()) && sure <= Sure()
      ensures entries <= old(entries)
      decreases entries, 4
    {
      hide Clears, SureKeys;
      ghost var s, c := Begin(sure);
      c := Drop(KListEntry, ByListID, [list.id], sure, s, c);
      assert c == HookCalls(list);
    }

    method OnInvalidateMedia(media: Entry, ghost sure: iset<Target>)
      requires media.Media?
      requires sure <= Sure()
      modifies this
      ensures Clears(sure, old(Snap()), HookCalls(media), Snap()) && sure <= Sure()
      ensures entries <= old(entries)
      decreases entries, 4
    {
      hide Clears, SureKeys;
      ghost var s, c := Begin(sure);
      if media.avatar || media.header {
        c := Drop(KAccount, ByID, [media.accountID], sure, s, c);
      }
      if media.statusID != "" {
        c := Drop(KStatus, ByID, [media.statusID], sure, s, c);
      }
      assert c == HookCalls(media);
    }

    method OnInvalidatePoll(poll: Entry, ghost sure: iset<Target>)
      requires poll.Poll?
      requires sure <= Sure()
      modifies this
      ensures Clears(sure, old(Snap()), HookCalls(poll), Snap()) && sure <= Sure()
      ensures entries <= old(entries)
      decreases entries, 4
    {
      hide Clears, SureKeys;
      ghost var s, c := Begin(sure);
      c := Drop(KPollVote, ByPollID, [poll.id], sure, s, c);
      c := DropLists(PollVoteIDs, [poll.id], sure, s, c);
      assert c == HookCalls(poll);
    }

    method OnInvalidatePollVote(vote: Entry, ghost sure: iset<Target>)
      requires vote.PollVote?
      requires sure <= Sure()
      modifies this
      ensures Clears(sure, old(Snap()), HookCalls(vote), Snap()) && sure <= Sure()
      ensures entries <= old(entries)
      decreases entries, 4
    {
      hide Clears, SureKeys;
      ghost var s, c := Begin(sure);
      c := Drop(KPoll, ByID, [vote.pollID], sure, s, c);
      c := DropLists(PollVoteIDs, [vote.pollID], sure, s, c);
      assert c == HookCalls(vote);
    }

    method OnInvalidateStatus(status: Entry, ghost sure: iset<Target>)
      requires status.Status?
      requires sure <= Sure()
      modifies this
      ensures Clears(sure, old(Snap()), HookCalls(status), Snap()) && sure <= Sure()
      ensures entries <= old(entries)
      decreases entries, 4
    {
      hide Clears, SureKeys, HookCalls, AllIDs, Keys, One;
      ghost var s, c := Begin(sure);
      c := Drop(KAccountStats, ByAccountID, [status.accountID], sure, s, c);
      c := Drop(KVisibility, ByItemID, [status.id], sure, s, c);
      c := DropIDs(KMedia, status.attachmentIDs, sure, s, c);
      if status.boostOfID != "" {
        c := DropLists(BoostOfIDs, [status.boostOfID], sure, s, c);
      }
      if status.inReplyToID != "" {
        c := DropLists(InReplyToIDs, [status.inReplyToID], sure, s, c);
      }
      if status.pollID != "" {
        c := Drop(KPoll, ByID, [status.pollID], sure, s, c);
      }
      StatusCalls(status);
    }

    method OnInvalidateStatusBookmark(bookmark: Entry, ghost sure: iset<Target>)
      requires bookmark.StatusBookmark?
      requires sure <= Sure()
      modifies this
      ensures Clears(sure, old(Snap()), HookCalls(bookmark), Snap()) && sure <= Sure()
      ensures entries <= old(entries)
      decreases entries, 4
    {
      hide Clears, SureKeys;
      ghost var s, c := Begin(sure);
      c := DropLists(StatusBookmarkIDs, [bookmark.statusID], sure, s, c);
      assert c == HookCalls(bookmark);
    }

    method OnInvalidateStatusFave(fave: Entry, ghost sure: iset<Target>)
      requires fave.StatusFave?
      requires sure <= Sure()
      modifies this
      ensures Clears(sure, old(Snap()), HookCalls(fave), Snap()) && sure <= Sure()
      ensures entries <= old(entries)
      decreases entries, 4
    {
      hide Clears, SureKeys;
      ghost var s, c := Begin(sure);
      c := DropLists(StatusFaveIDs, [fave.statusID], sure, s, c);
      assert c == HookCalls(fave);
    }

    method OnInvalidateUser(user: Entry, ghost sure: iset<Target>)
      requires user.User?
      requires sure <= Sure()
      modifies this
      ensures Clears(sure, old(Snap()), HookCalls(user), Snap()) && sure <= Sure()
      ensures entries <= old(entries)
      decreases entries, 4
    {
      hide Clears, SureKeys;
      ghost var s, c := Begin(sure);
      c := Drop(KVisibility, ByItemID, [user.accountID], sure, s, c);
      c := Drop(KVisibility, ByRequesterID, [user.accountID], sure, s, c);
      assert c == HookCalls(user);
    }

    method OnInvalidateUserMute(mute: Entry, ghost sure: iset<Target>)
      requires mute.UserMute?
      requires sure <= Sure()
      modifies this
      ensures Clears(sure, old(Snap()), HookCalls(mute), Snap()) && sure <= Sure()
      ensures entries <= old(entries)
      decreases entries, 4
    {
      hide Clears, SureKeys;
      ghost var s, c := Begin(sure);
      c := DropLists(UserMuteIDs, [mute.accountID], sure, s, c);
      assert c == HookCalls(mute);
    }

    /** Runs the hook configured for the record's cache (internal/cache/db.go); caches without one do nothing. */
    method OnInvalidate(e: Entry, ghost sure: iset<Target>)
      requires sure <= Sure()
      modifies this
      ensures Clears(sure, old(Snap()), HookCalls(e), Snap()) && sure <= Sure()
      ensures forall k :: Concerns(e, k) ==> k !in lists
      ensures entries <= old(entries)
      decreases entries, 5
    {
      hide Clears, SureKeys, Concerns, HookCalls;
      ghost var s := Snap();
      match e {
        case Account(_, _, _, _) => OnInvalidateAccount(e, sure);
        case Application(_, _) => OnInvalidateApplication(e, sure);
        case Block(_, _, _, _) => OnInvalidateBlock(e, sure);
        case Client(_) => OnInvalidateClient(e, sure);
        case EmojiCategory(_) => OnInvalidateEmojiCategory(e, sure);
        case Follow(_, _, _, _) => OnInvalidateFollow(e, sure);
        case FollowRequest(_, _, _, _) => OnInvalidateFollowRequest(e, sure);
        case List(_) => OnInvalidateList(e, sure);
        case Media(_, _, _, _, _) => OnInvalidateMedia(e, sure);
        case Poll(_, _) => OnInvalidatePoll(e, sure);
        case PollVote(_, _, _) => OnInvalidatePollVote(e, sure);
        case Status(_, _, _, _, _, _, _, _) => OnInvalidateStatus(e, sure);
        case StatusBookmark(_, _, _, _) => OnInvalidateStatusBookmark(e, sure);
        case StatusFave(_, _, _) => OnInvalidateStatusFave(e, sure);
        case User(_, _) => OnInvalidateUser(e, sure);
        case UserMute(_, _, _) => OnInvalidateUserMute(e, sure);
        case _ =>
          NoHook(e);
          ClearsNothing(sure, Snap());
      }
      NamedListsGo(sure, s, e, Snap());
    }
  }

  /** The calls of a status's hook, one after the other. */
  lemma StatusCalls(e: Entry)
    requires e.Status?
    ensures var c := NO_CALLS.Plus(One(KAccountStats, ByAccountID, [e.accountID]))
                     .Plus(One(KVisibility, ByItemID, [e.id])).Plus(AllIDs(KMedia, e.attachmentIDs));
            var boost := if e.boostOfID != "" then c.Plus(Keys(BoostOfIDs, [e.boostOfID])) else c;
            var reply := if e.inReplyToID != "" then boost.Plus(Keys(InReplyToIDs, [e.inReplyToID])) else boost;
            HookCalls(e) == if e.pollID != "" then reply.Plus(One(KPoll, ByID, [e.pollID])) else reply
  {
  }

  /** Complete deletion does exactly what is documented. */
  lemma CompleteIsAfter(entries: set<Entry>, unlisted: Unlisted, s: Snapshot, c: Calls, s': Snapshot)
    ensures Clears(SureKeys(true, entries, unlisted), s, c, s') <==> s' == After(s, c)
  {
    assert SureKeys(true, entries, unlisted) == ALL_KEYS;
    SureOfAll(s, c, s');
  }

  /** IDs stay sure to be cleared when a record is stored. */
  lemma StoringKeepsIDs(complete: bool, entries: set<Entry>, unlisted: Unlisted, e: Entry)
    requires ID_KEYS <= SureKeys(complete, entries, unlisted)
    ensures ID_KEYS <= SureKeys(complete, Insert(entries, e), Relisted(unlisted, e))
  {
    hide Competes, Hits;
    forall t, x | t in ID_KEYS && x in entries && Hits(x, t) && Hits(e, t)
      ensures Competes(x, e)
    {
      SameIDCompetes(x, e, t);
    }
    forall t | t in ID_KEYS
      ensures t in SureKeys(complete, entries, unlisted)
    {
    }
  }

  lemma SameIDCompetes(x: Entry, e: Entry, t: Target)
    requires t.index == ByID && Hits(x, t) && Hits(e, t)
    ensures Competes(x, e)
  {
    assert IsUnique(KindOf(e), ByID) && Hits(x, Target(KindOf(e), ByID, KeyOf(e, ByID)));
  }

  lemma NoHook(e: Entry)
    requires e.AccountStats? || e.Emoji? || e.ListEntry? || e.Move? || e.Token? || e.Visibility?
    ensures HookCalls(e) == NO_CALLS
  {
  }

  lemma HooksPlus(h: set<Entry>, e: Entry)
    ensures Hooks(h).Plus(HookCalls(e)) == Hooks(h + {e})
  {
  }

  lemma HooksOfNone()
    ensures Hooks({}) == NO_CALLS
  {
  }

  lemma DroppingListsClears(sure: iset<Target>, s: Snapshot, c: Calls)
    requires c.targets == {}
    ensures Clears(sure, s, c, s.(lists := s.lists - c.lists))
  {
  }

  lemma NoKeysHitNothing(sure: iset<Target>, entries: set<Entry>, k: Kind, i: Index, keys: seq<seq<string>>)
    ensures Cleared(sure, entries, {}, AllKeys(k, i, keys[..0]).targets)
  {
  }

  lemma KeysGrow(sure: iset<Target>, entries: set<Entry>, k: Kind, i: Index, keys: seq<seq<string>>, n: nat,
                 hit: set<Entry>, rest: set<Entry>, taken: set<Entry>)
    requires n < |keys| && rest == entries - hit
    requires forall x :: x in hit ==> HitBy(x, AllKeys(k, i, keys[..n]).targets)
    requires Cleared(sure, entries, hit, AllKeys(k, i, keys[..n]).targets)
    requires forall x :: x in taken ==> Hits(x, Target(k, i, keys[n]))
    requires Target(k, i, keys[n]) in sure ==> forall x :: x in rest && Hits(x, Target(k, i, keys[n])) ==> x in taken
    ensures forall x :: x in hit + taken ==> HitBy(x, AllKeys(k, i, keys[..n + 1]).targets)
    ensures Cleared(sure, entries, hit + taken, AllKeys(k, i, keys[..n + 1]).targets)
  {
    hide Hits, HitBy, Cleared, AllKeys;
    var before, t := AllKeys(k, i, keys[..n]).targets, Target(k, i, keys[n]);
    assert keys[..n + 1] == keys[..n] + [keys[n]];
    OneKeyMore(k, i, keys[..n], keys[n]);
    HitsGrow(before, t, hit, taken);
    ClearedGrows(sure, entries, before, t, hit, taken);
  }

  lemma OneKeyMore(k: Kind, i: Index, keys: seq<seq<string>>, key: seq<string>)
    ensures AllKeys(k, i, keys + [key]).targets == AllKeys(k, i, keys).targets + {Target(k, i, key)}
  {
    hide AllKeys;
    KeyTargets(k, i, keys);
    KeyTargets(k, i, keys + [key]);
    assert forall u :: u in keys + [key] <==> u in keys || u == key;
  }

  lemma KeyTargets(k: Kind, i: Index, keys: seq<seq<string>>)
    ensures forall t: Target :: t in AllKeys(k, i, keys).targets <==> t.kind == k && t.index == i && t.key in keys
  {
    forall t: Target | t.kind == k && t.index == i && t.key in keys
      ensures t in AllKeys(k, i, keys).targets
    {
      assert t == Target(k, i, t.key);
    }
  }

  lemma HitsGrow(ts: set<Target>, t: Target, hit: set<Entry>, taken: set<Entry>)
    requires (forall x :: x in hit ==> HitBy(x, ts)) && forall x :: x in taken ==> Hits(x, t)
    ensures forall x :: x in hit + taken ==> HitBy(x, ts + {t})
  {
    hide Hits;
    forall x | x in hit + taken
      ensures HitBy(x, ts + {t})
    {
      if x in hit {
        var u :| u in ts && Hits(x, u);
        assert u in ts + {t};
      } else {
        assert t in ts + {t};
      }
    }
  }

  lemma ClearedGrows(sure: iset<Target>, entries: set<Entry>, ts: set<Target>, t: Target, hit: set<Entry>, taken: set<Entry>)
    requires Cleared(sure, entries, hit, ts)
    requires t in sure ==> forall x :: x in entries - hit && Hits(x, t) ==> x in taken
    ensures Cleared(sure, entries, hit + taken, ts + {t})
  {
    hide Hits;
  }

  lemma AtMostOne<T>(s: set<T>)
    requires forall x, y :: x in s && y in s ==> x == y
    ensures |s| <= 1
  {
    if x :| x in s {
      assert s == {x};
    }
  }

  /** The index loses track of records under one key only, and only if there were several. */
  lemma HalfKeepsSure(sure: iset<Target>, complete: bool, entries: set<Entry>, unlisted: Unlisted, t: Target,
                      found: set<Entry>, taken: set<Entry>)
    requires sure <= SureKeys(complete, entries, unlisted)
    requires found <= entries && taken <= found && forall x :: x in found ==> Hits(x, t)
    requires t in sure ==> taken == found
    ensures sure <= SureKeys(complete, entries - taken, unlisted + set x | x in found - taken :: (x, t.index))
  {
    forall u, x | u in sure && !complete && x in entries && Hits(x, u)
      ensures !(x in found - taken && u.index == t.index)
    {
      assert HoldsOne(entries, unlisted, u);
      assert Hits(x, t) && u.index == t.index ==> u == t;
    }
  }
}
