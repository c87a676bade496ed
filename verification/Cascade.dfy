/** The cross-cache invalidation graph (internal/cache/invalidate.go) and what one
    invalidation removes: the records reachable along hook edges through cached records. */
module Cascade {
  import opened Graph
  import opened Records

  /** A batch of invalidations: keys of struct caches and keys of ID-list caches. */
  datatype Calls = Calls(targets: set<Target>, lists: set<ListKey>) {
    function Plus(c: Calls): Calls {
      Calls(targets + c.targets, lists + c.lists)
    }
  }

  const NO_CALLS := Calls({}, {})

  function One(k: Kind, i: Index, key: seq<string>): Calls {
    Calls({Target(k, i, key)}, {})
  }

  function AllIDs(k: Kind, ids: seq<ID>): Calls {
    Calls(set id | id in ids :: Target(k, ByID, [id]), {})
  }

  function Keys(c: ListCache, keys: seq<string>): Calls {
    Calls({}, set k | k in keys :: ListKey(c, k))
  }

  /** Everything the hook of a record's cache invalidates; models without a hook yield nothing. */
  function HookCalls(e: Entry): Calls {
    match e
    case Account(id, uri, _, _) =>
      Calls({Target(KAccountStats, ByAccountID, [id]),
             Target(KVisibility, ByItemID, [id]), Target(KVisibility, ByRequesterID, [id]),
             Target(KMove, ByOriginURI, [uri]), Target(KMove, ByTargetURI, [uri])},
            Keys(FollowIDs, [">" + id, "l>" + id, "<" + id, "l<" + id]).lists
            + Keys(FollowRequestIDs, [">" + id, "<" + id]).lists
            + Keys(BlockIDs, [id]).lists)
    case Application(_, clientID) => One(KClient, ByID, [clientID])
    case Block(_, _, a, t) => Calls(Endpoints(a, t), Keys(BlockIDs, [a]).lists)
    case Client(id) => One(KToken, ByClientID, [id])
    case EmojiCategory(id) => One(KEmoji, ByCategoryID, [id])
    case Follow(id, _, a, t) =>
      Calls({Target(KFollowRequest, ByID, [id]), Target(KListEntry, ByFollowID, [id])} + Endpoints(a, t),
            Keys(FollowIDs, [">" + a, "l>" + a, "<" + a, "l<" + a, "<" + t, "l<" + t, ">" + t, "l>" + t]).lists)
    case FollowRequest(id, _, a, t) =>
      Calls({Target(KFollow, ByID, [id])},
            Keys(FollowRequestIDs, [">" + a, "<" + a, ">" + t, "<" + t]).lists)
    case List(id) => One(KListEntry, ByListID, [id])
    case Media(_, accountID, statusID, avatar, header) =>
      Calls((if avatar || header then {Target(KAccount, ByID, [accountID])} else {}) +
            (if statusID != "" then {Target(KStatus, ByID, [statusID])} else {}), {})
    case Poll(id, _) => Calls({Target(KPollVote, ByPollID, [id])}, Keys(PollVoteIDs, [id]).lists)
    case PollVote(_, pollID, _) => Calls({Target(KPoll, ByID, [pollID])}, Keys(PollVoteIDs, [pollID]).lists)
    case Status(id, _, accountID, attachmentIDs, boostOfID, inReplyToID, pollID, _) =>
      Calls({Target(KAccountStats, ByAccountID, [accountID]), Target(KVisibility, ByItemID, [id])}
            + AllIDs(KMedia, attachmentIDs).targets
            + (if pollID != "" then {Target(KPoll, ByID, [pollID])} else {}),
            (if boostOfID != "" then Keys(BoostOfIDs, [boostOfID]).lists else {})
            + (if inReplyToID != "" then Keys(InReplyToIDs, [inReplyToID]).lists else {}))
    case StatusBookmark(_, _, _, statusID) => Calls({}, Keys(StatusBookmarkIDs, [statusID]).lists)
    case StatusFave(_, _, statusID) => Calls({}, Keys(StatusFaveIDs, [statusID]).lists)
    case User(_, accountID) =>
      Calls({Target(KVisibility, ByItemID, [accountID]), Target(KVisibility, ByRequesterID, [accountID])}, {})
    case UserMute(_, accountID, _) => Calls({}, Keys(UserMuteIDs, [accountID]).lists)
    case _ => NO_CALLS
  }

  /** Cached visibility with either account as item or as requester. */
  function Endpoints(a: ID, t: ID): set<Target> {
    {Target(KVisibility, ByItemID, [a]), Target(KVisibility, ByRequesterID, [a]),
     Target(KVisibility, ByItemID, [t]), Target(KVisibility, ByRequesterID, [t])}
  }

  predicate HitBy(x: Entry, ts: set<Target>) {
    exists t :: t in ts && Hits(x, t)
  }

  function AllKeys(k: Kind, i: Index, keys: seq<seq<string>>): Calls {
    Calls(set key | key in keys :: Target(k, i, key), {})
  }

  /** A hook edge: invalidating `e` directly invalidates `x`. */
  predicate Drops(e: Entry, x: Entry) {
    HitBy(x, HookCalls(e).targets)
  }

  /** The same edges read from the other end: which records `x` is derived from, by their fields. */
  predicate DerivedFrom(x: Entry, e: Entry) {
    match x
    case Account(id, _, _, _) => e.Media? && (e.avatar || e.header) && e.accountID == id != ""
    case AccountStats(a) => a != "" && ((e.Account? && e.id == a) || (e.Status? && e.accountID == a))
    case Client(id) => e.Application? && e.clientID == id != ""
    case Emoji(_, c) => e.EmojiCategory? && e.id == c != ""
    case Follow(id, _, _, _) => e.FollowRequest? && e.id == id != ""
    case FollowRequest(id, _, _, _) => e.Follow? && e.id == id != ""
    case ListEntry(_, l, f) => (e.List? && e.id == l != "") || (e.Follow? && e.id == f != "")
    case Media(id, _, _, _, _) => id != "" && e.Status? && id in e.attachmentIDs
    case Move(_, _, o, t) => e.Account? && e.uri != "" && (e.uri == o || e.uri == t)
    case Poll(id, _) => id != "" && ((e.PollVote? && e.pollID == id) || (e.Status? && e.pollID == id))
    case PollVote(_, p, _) => e.Poll? && e.id == p != ""
    case Status(id, _, _, _, _, _, _, _) => e.Media? && e.statusID == id != ""
    case Token(_, c) => e.Client? && e.id == c != ""
    case Visibility(item, req, _, _) =>
      (item != "" && e.Status? && e.id == item) || ConcernsAccount(e, item) || ConcernsAccount(e, req)
    case _ => false
  }

  /** A record whose change may change what account `a` can see or who can see it. */
  predicate ConcernsAccount(e: Entry, a: ID) {
    a != "" &&
    match e
    case Account(id, _, _, _) => id == a
    case User(_, id) => id == a
    case Follow(_, _, o, t) => o == a || t == a
    case Block(_, _, o, t) => o == a || t == a
    case _ => false
  }

  lemma HookReachesVisibility(e: Entry, x: Entry, t: Target)
    requires x.Visibility? && t in HookCalls(e).targets && Hits(x, t)
    ensures DerivedFrom(x, e)
  {
    hide Keys;
    assert KeyOf(x, t.index) == t.key && t.key[0] != "";
  }

  lemma HookReachesByIDOfStatus(e: Entry, x: Entry, t: Target)
    requires e.Status? && t.index == ByID && t in HookCalls(e).targets && Hits(x, t)
    ensures DerivedFrom(x, e)
  {
    hide Keys;
    assert t.key == [x.id] && t.key[0] != "";
    assert t.kind == KMedia || t.kind == KPoll;
  }

  lemma HookReachesByIDOfMedia(e: Entry, x: Entry, t: Target)
    requires e.Media? && t.index == ByID && t in HookCalls(e).targets && Hits(x, t)
    ensures DerivedFrom(x, e)
  {
    assert t.key == [x.id] && t.key[0] != "";
    assert t.kind == KAccount || t.kind == KStatus;
  }

  /** The other hooks name at most one key by ID. */
  predicate NamesByID(e: Entry, t: Target) {
    match e
    case Application(_, clientID) => t == Target(KClient, ByID, [clientID])
    case Follow(id, _, _, _) => t == Target(KFollowRequest, ByID, [id])
    case FollowRequest(id, _, _, _) => t == Target(KFollow, ByID, [id])
    case PollVote(_, pollID, _) => t == Target(KPoll, ByID, [pollID])
    case _ => false
  }

  lemma OnlyNamedByID(e: Entry, t: Target)
    requires !e.Status? && !e.Media? && t.index == ByID && t in HookCalls(e).targets
    ensures NamesByID(e, t)
  {
    hide Keys;
  }

  lemma HookReachesByID(e: Entry, x: Entry, t: Target)
    requires t.index == ByID && t in HookCalls(e).targets && Hits(x, t)
    ensures DerivedFrom(x, e)
  {
    hide HookCalls;
    if e.Status? {
      HookReachesByIDOfStatus(e, x, t);
    } else if e.Media? {
      HookReachesByIDOfMedia(e, x, t);
    } else {
      OnlyNamedByID(e, t);
      assert t.key == [x.id] && t.key[0] != "";
    }
  }

  lemma HookReachesOfAccount(e: Entry, x: Entry, t: Target)
    requires e.Account? && !x.Visibility? && t.index != ByID && t in HookCalls(e).targets && Hits(x, t)
    ensures DerivedFrom(x, e)
  {
    hide Keys;
    assert x.AccountStats? || x.Move?;
  }

  lemma HookReachesOfFollow(e: Entry, x: Entry, t: Target)
    requires e.Follow? && !x.Visibility? && t.index != ByID && t in HookCalls(e).targets && Hits(x, t)
    ensures DerivedFrom(x, e)
  {
    hide Keys;
    assert x.ListEntry?;
  }

  lemma HookReachesOfStatus(e: Entry, x: Entry, t: Target)
    requires e.Status? && !x.Visibility? && t.index != ByID && t in HookCalls(e).targets && Hits(x, t)
    ensures DerivedFrom(x, e)
  {
    hide Keys;
    assert x.AccountStats?;
  }

  /** The remaining hooks name at most one key by another index than the ID. */
  predicate NamesByOther(e: Entry, t: Target) {
    match e
    case Client(id) => t == Target(KToken, ByClientID, [id])
    case EmojiCategory(id) => t == Target(KEmoji, ByCategoryID, [id])
    case List(id) => t == Target(KListEntry, ByListID, [id])
    case Poll(id, _) => t == Target(KPollVote, ByPollID, [id])
    case _ => false
  }

  lemma OnlyNamedByOther(e: Entry, t: Target)
    requires !e.Account? && !e.Follow? && !e.Status? && t in HookCalls(e).targets
    requires t.index != ByID && t.kind != KVisibility
    ensures NamesByOther(e, t)
  {
    hide Keys;
  }

  lemma HookReachesOther(e: Entry, x: Entry, t: Target)
    requires !x.Visibility? && t.index != ByID && t in HookCalls(e).targets && Hits(x, t)
    ensures DerivedFrom(x, e)
  {
    hide HookCalls;
    if e.Account? {
      HookReachesOfAccount(e, x, t);
    } else if e.Follow? {
      HookReachesOfFollow(e, x, t);
    } else if e.Status? {
      HookReachesOfStatus(e, x, t);
    } else {
      OnlyNamedByOther(e, t);
      NamedByOther(e, x, t);
    }
  }

  lemma NamedByOther(e: Entry, x: Entry, t: Target)
    requires NamesByOther(e, t) && Hits(x, t)
    ensures DerivedFrom(x, e)
  {
    assert KeyOf(x, t.index) == t.key && t.key[0] != "";
  }

  lemma HookReachesDerived(e: Entry, x: Entry, t: Target)
    requires t in HookCalls(e).targets && Hits(x, t)
    ensures DerivedFrom(x, e)
  {
    if x.Visibility? {
      HookReachesVisibility(e, x, t);
    } else if t.index == ByID {
      HookReachesByID(e, x, t);
    } else {
      HookReachesOther(e, x, t);
    }
  }

  /** The call of `e`'s hook that reaches `x`. */
  function Witness(e: Entry, x: Entry): Target
    requires DerivedFrom(x, e)
  {
    match x
    case AccountStats(a) => Target(KAccountStats, ByAccountID, [a])
    case Emoji(_, c) => Target(KEmoji, ByCategoryID, [c])
    case ListEntry(_, l, f) =>
      if e.List? then Target(KListEntry, ByListID, [l]) else Target(KListEntry, ByFollowID, [f])
    case Move(_, _, o, t) =>
      if e.uri == o then Target(KMove, ByOriginURI, [o]) else Target(KMove, ByTargetURI, [t])
    case PollVote(_, p, _) => Target(KPollVote, ByPollID, [p])
    case Token(_, c) => Target(KToken, ByClientID, [c])
    case Visibility(item, req, _, _) =>
      if (e.Status? && e.id == item) || ConcernsAccount(e, item) then Target(KVisibility, ByItemID, [item])
      else Target(KVisibility, ByRequesterID, [req])
    case _ => Target(KindOf(x), ByID, [x.id])
  }

  lemma DerivedVisibilityIsReached(e: Entry, x: Entry)
    requires x.Visibility? && DerivedFrom(x, e)
    ensures Witness(e, x) in HookCalls(e).targets && Hits(x, Witness(e, x))
  {
    hide Keys;
  }

  lemma DerivedRecordIsReached(e: Entry, x: Entry)
    requires !x.Visibility? && DerivedFrom(x, e)
    ensures Witness(e, x) in HookCalls(e).targets
  {
    hide Keys, Hits;
  }

  lemma WitnessHits(e: Entry, x: Entry)
    requires DerivedFrom(x, e)
    ensures Hits(x, Witness(e, x))
  {
    hide HookCalls;
  }

  lemma DerivedIsReached(e: Entry, x: Entry)
    requires DerivedFrom(x, e)
    ensures Witness(e, x) in HookCalls(e).targets && Hits(x, Witness(e, x))
  {
    hide HookCalls, DerivedFrom, Hits, Witness;
    if x.Visibility? {
      DerivedVisibilityIsReached(e, x);
    } else {
      DerivedRecordIsReached(e, x);
      WitnessHits(e, x);
    }
  }

  lemma EdgesAreDerivations(e: Entry, x: Entry)
    ensures (e, x) in EDGES <==> DerivedFrom(x, e)
  {
    if DerivedFrom(x, e) {
      DerivedIsReached(e, x);
    }
    if Drops(e, x) {
      var t :| t in HookCalls(e).targets && Hits(x, t);
      HookReachesDerived(e, x, t);
    }
  }

  /** A following or follower list of the account, local or not. */
  predicate IsFollowKey(key: string, a: ID) {
    key == ">" + a || key == "l>" + a || key == "<" + a || key == "l<" + a
  }

  /** A list of requests received or sent by the account. */
  predicate IsRequestKey(key: string, a: ID) {
    key == ">" + a || key == "<" + a
  }

  /** The edges to ID lists, read from the list: which records it may have to do with, by their fields. */
  predicate Concerns(e: Entry, k: ListKey) {
    match k.cache
    case FollowIDs =>
      || (e.Account? && IsFollowKey(k.key, e.id))
      || (e.Follow? && (IsFollowKey(k.key, e.accountID) || IsFollowKey(k.key, e.targetAccountID)))
    case FollowRequestIDs =>
      || (e.Account? && IsRequestKey(k.key, e.id))
      || (e.FollowRequest? && (IsRequestKey(k.key, e.accountID) || IsRequestKey(k.key, e.targetAccountID)))
    case BlockIDs => (e.Account? && k.key == e.id) || (e.Block? && k.key == e.accountID)
    case UserMuteIDs => e.UserMute? && k.key == e.accountID
    case PollVoteIDs => (e.Poll? && k.key == e.id) || (e.PollVote? && k.key == e.pollID)
    case BoostOfIDs => e.Status? && k.key == e.boostOfID != ""
    case InReplyToIDs => e.Status? && k.key == e.inReplyToID != ""
    case StatusFaveIDs => e.StatusFave? && k.key == e.statusID
    case StatusBookmarkIDs => e.StatusBookmark? && k.key == e.statusID
  }

  lemma KeysHold(c: ListCache, keys: seq<string>, k: ListKey)
    ensures k in Keys(c, keys).lists <==> k.cache == c && k.key in keys
  {
  }

  lemma AccountDropsConcerned(e: Entry, k: ListKey)
    requires e.Account?
    ensures Stales(e, k) <==> Concerns(e, k)
  {
    var id := e.id;
    KeysHold(FollowIDs, [">" + id, "l>" + id, "<" + id, "l<" + id], k);
    KeysHold(FollowRequestIDs, [">" + id, "<" + id], k);
    KeysHold(BlockIDs, [id], k);
    hide Keys;
  }

  lemma FollowDropsConcerned(e: Entry, k: ListKey)
    requires e.Follow? || e.FollowRequest?
    ensures Stales(e, k) <==> Concerns(e, k)
  {
    var a, t := e.accountID, e.targetAccountID;
    KeysHold(FollowIDs, [">" + a, "l>" + a, "<" + a, "l<" + a, "<" + t, "l<" + t, ">" + t, "l>" + t], k);
    KeysHold(FollowRequestIDs, [">" + a, "<" + a, ">" + t, "<" + t], k);
    hide Keys;
  }

  lemma StatusDropsConcerned(e: Entry, k: ListKey)
    requires e.Status?
    ensures Stales(e, k) <==> Concerns(e, k)
  {
    KeysHold(BoostOfIDs, [e.boostOfID], k);
    KeysHold(InReplyToIDs, [e.inReplyToID], k);
    hide Keys;
  }

  lemma OtherDropsConcerned(e: Entry, k: ListKey)
    requires !e.Account? && !e.Follow? && !e.FollowRequest? && !e.Status?
    ensures Stales(e, k) <==> Concerns(e, k)
  {
    hide Keys, IsFollowKey, IsRequestKey;
    match e
    case Block(_, _, a, _) => KeysHold(BlockIDs, [a], k);
    case Poll(id, _) => KeysHold(PollVoteIDs, [id], k);
    case PollVote(_, pollID, _) => KeysHold(PollVoteIDs, [pollID], k);
    case StatusBookmark(_, _, _, s) => KeysHold(StatusBookmarkIDs, [s], k);
    case StatusFave(_, _, s) => KeysHold(StatusFaveIDs, [s], k);
    case UserMute(_, a, _) => KeysHold(UserMuteIDs, [a], k);
    case _ =>
  }

  /** The hook of a record drops exactly the lists that concern it. */
  lemma HooksDropConcerned(e: Entry, k: ListKey)
    ensures Stales(e, k) <==> Concerns(e, k)
  {
    hide Stales, Concerns;
    if e.Account? {
      AccountDropsConcerned(e, k);
    } else if e.Follow? || e.FollowRequest? {
      FollowDropsConcerned(e, k);
    } else if e.Status? {
      StatusDropsConcerned(e, k);
    } else {
      OtherDropsConcerned(e, k);
    }
  }

  ghost const EDGES := iset e, x | Drops(e, x) :: (e, x)

  ghost function Named(ts: set<Target>): iset<Entry> {
    iset x | HitBy(x, ts)
  }

  /** The cached records a batch removes: those a chain of hook edges, through cached records,
      leads to from a record the batch names. */
  ghost function Removed(s: set<Entry>, ts: set<Target>): set<Entry> {
    Reach(s, Named(ts), EDGES)
  }

  ghost function HookTargets(h: set<Entry>): set<Target> {
    set e, t | e in h && t in HookCalls(e).targets :: t
  }

  /** The hook of the record's cache drops this ID list. */
  predicate Stales(e: Entry, k: ListKey) {
    k in HookCalls(e).lists
  }

  ghost function HookLists(h: set<Entry>): set<ListKey> {
    set e, k | e in h && k in HookCalls(e).lists :: k
  }

  ghost function Hooks(h: set<Entry>): Calls {
    Calls(HookTargets(h), HookLists(h))
  }

  lemma NamedByHooks(h: set<Entry>, x: Entry)
    ensures x in Named(HookTargets(h)) <==> exists e :: e in h && (e, x) in EDGES
  {
    hide HookCalls, Hits;
    if e :| e in h && (e, x) in EDGES {
      var t :| t in HookCalls(e).targets && Hits(x, t);
      assert t in HookTargets(h);
    }
    if HitBy(x, HookTargets(h)) {
      var t :| t in HookTargets(h) && Hits(x, t);
      var e :| e in h && t in HookCalls(e).targets;
      assert Drops(e, x);
    }
  }

  /** The content of all caches. */
  datatype Snapshot = Snapshot(entries: set<Entry>, lists: map<ListKey, seq<ID>>)

  /** The caches after a batch of invalidations has run to the end. */
  ghost function After(s: Snapshot, c: Calls): Snapshot {
    var gone := Removed(s.entries, c.targets);
    Snapshot(s.entries - gone, s.lists - (c.lists + HookLists(gone)))
  }

  lemma AfterNothing(s: Snapshot)
    ensures After(s, NO_CALLS) == s
  {
    ReachIsLeast(s.entries, Named({}), EDGES, {});
  }

  lemma AfterCompose(s: Snapshot, c1: Calls, c2: Calls)
    ensures After(After(s, c1), c2) == After(s, c1.Plus(c2))
  {
    ReachCompose(s.entries, Named(c1.targets), Named(c2.targets), EDGES);
    assert Named(c1.targets) + Named(c2.targets) == Named(c1.targets + c2.targets);
  }

  /** Taking out the records a batch names before running their hooks, instead of following
      hook by hook, ends in the same state. */
  lemma AfterUnfold(s: Snapshot, ts: set<Target>, h: set<Entry>)
    requires h == set x | x in s.entries && HitBy(x, ts)
    ensures After(s.(entries := s.entries - h), Hooks(h)) == After(s, Calls(ts, {}))
  {
    hide HookCalls, HitBy;
    forall x
      ensures x in Named(HookTargets(h)) <==> exists e :: e in h && (e, x) in EDGES
    {
      NamedByHooks(h, x);
    }
    assert forall x :: x in Named(ts) <==> HitBy(x, ts);
    ReachUnfold(s.entries, Named(ts), Named(HookTargets(h)), EDGES, h);
  }

  /** What a batch removes, both ways: the cached records a chain of hook edges leads to, from a
      record the batch names, without coming by any record twice, for all the cycles of the hooks. */
  lemma InvalidateRemovesReachable(s: Snapshot, c: Calls, e: Entry)
    ensures After(s, c).entries <= s.entries
    ensures e in s.entries && e !in After(s, c).entries <==>
              exists p :: IsChain(s.entries, Named(c.targets), EDGES, p) && p[|p| - 1] == e
                          && Simple(p) && |p| <= |s.entries|
  {
    ReachedBySimpleChain(s.entries, Named(c.targets), EDGES, e);
    ReachIsClosed(s.entries, Named(c.targets), EDGES);
  }

  /** Nothing that survives a batch is named by it, or derives from a record that went. */
  lemma SurvivorsAreUntouched(s: Snapshot, c: Calls, e: Entry, x: Entry)
    requires x in After(s, c).entries
    ensures !HitBy(x, c.targets)
    ensures e in s.entries && e !in After(s, c).entries ==> !DerivedFrom(x, e)
  {
    ReachIsClosed(s.entries, Named(c.targets), EDGES);
    EdgesAreDerivations(e, x);
  }

  /** An ID list goes exactly when the batch names it or the hook of some removed record does. */
  lemma ListsDropped(s: Snapshot, c: Calls, k: ListKey)
    ensures k in After(s, c).lists <==>
              k in s.lists && k !in c.lists && forall e :: e in s.entries - After(s, c).entries ==> !Stales(e, k)
    ensures k in After(s, c).lists ==> After(s, c).lists[k] == s.lists[k]
  {
    assert s.entries - After(s, c).entries == Removed(s.entries, c.targets);
  }

  ghost function RunAll(s: Snapshot, cs: seq<Calls>): Snapshot {
    if cs == [] then s else After(RunAll(s, cs[..|cs| - 1]), cs[|cs| - 1])
  }

  ghost function Total(cs: seq<Calls>): Calls {
    if cs == [] then NO_CALLS else Total(cs[..|cs| - 1]).Plus(cs[|cs| - 1])
  }

  lemma {:induction false} RunAllIsTotal(s: Snapshot, cs: seq<Calls>)
    ensures RunAll(s, cs) == After(s, Total(cs))
  {
    if cs == [] {
      AfterNothing(s);
    } else {
      RunAllIsTotal(s, cs[..|cs| - 1]);
      AfterCompose(s, Total(cs[..|cs| - 1]), cs[|cs| - 1]);
    }
  }

  lemma {:induction false} TotalMembers(cs: seq<Calls>)
    ensures forall t :: t in Total(cs).targets <==> exists c :: c in cs && t in c.targets
    ensures forall k :: k in Total(cs).lists <==> exists c :: c in cs && k in c.lists
  {
    if cs != [] {
      var rest, last := cs[..|cs| - 1], cs[|cs| - 1];
      TotalMembers(rest);
      assert forall c :: c in cs <==> c in rest || c == last;
    }
  }

  /** The final state does not depend on the order, or the repetition, of the calls in a hook. */
  lemma OrderOfCallsIrrelevant(s: Snapshot, cs: seq<Calls>, ds: seq<Calls>)
    requires forall c :: c in cs <==> c in ds
    ensures RunAll(s, cs) == RunAll(s, ds)
  {
    RunAllIsTotal(s, cs);
    RunAllIsTotal(s, ds);
    TotalMembers(cs);
    TotalMembers(ds);
    assert Total(cs) == Total(ds) by {
      assert Total(cs).targets == Total(ds).targets;
      assert Total(cs).lists == Total(ds).lists;
    }
  }

  /** Running the hook of a stored Follow evicts that Follow again exactly when a
      FollowRequest with the same ID is cached: the only way back to a Follow. */
  lemma StoredFollowSurvives(s: set<Entry>, f: Entry)
    requires f.Follow? && f in s
    ensures f !in Removed(s, HookCalls(f).targets) <==>
            (f.id == "" || forall r :: r in s && r.FollowRequest? ==> r.id != f.id)
  {
    var from := Named(HookCalls(f).targets);
    var leaves := set x | x in s && (x.ListEntry? || x.Visibility?);
    forall x | x in s
      ensures x in from ==> x in leaves || (x.FollowRequest? && x.id == f.id != "")
      ensures x.FollowRequest? && x.id == f.id != "" ==> x in from && (x, f) in EDGES
    {
      EdgesAreDerivations(f, x);
      EdgesAreDerivations(x, f);
    }
    forall e, x | e in leaves
      ensures (e, x) !in EDGES
    {
      LeavesHaveNoHook(e, x);
    }
    ComesBackOnlyThrough(s, from, EDGES, leaves, f);
  }

  lemma LeavesHaveNoHook(e: Entry, x: Entry)
    requires e.ListEntry? || e.Visibility? || e.AccountStats? || e.Move?
    ensures (e, x) !in EDGES
  {
  }

  lemma ComesBackOnlyThrough(s: set<Entry>, from: iset<Entry>, edges: iset<(Entry, Entry)>,
                             leaves: set<Entry>, f: Entry)
    requires f in s && f !in leaves
    requires forall e, x :: e in leaves ==> (e, x) !in edges
    requires forall x :: x in s && x in from ==> x in leaves || (x, f) in edges
    ensures f in Reach(s, from, edges) <==> exists x :: x in s && x in from && x !in leaves
  {
    ReachIsClosed(s, from, edges);
    if forall x :: x in s && x in from ==> x in leaves {
      ReachIsLeast(s, from, edges, leaves);
    }
  }

  /** Every record under a key of `ts` that is sure to be cleared is gone. */
  ghost predicate Cleared(sure: iset<Target>, entries: set<Entry>, gone: set<Entry>, ts: set<Target>) {
    forall x, t :: t in ts && t in sure && x in entries && Hits(x, t) ==> x in gone
  }

  /** The keys of the primary index of each cache. */
  ghost const ID_KEYS: iset<Target> := iset t: Target | t.index == ByID

  /** What a batch may do when only the keys in `sure` are certain to be cleared: whatever it
      removes was reachable, has had its hook run, and that hook again cleared the sure keys. */
  ghost predicate Clears(sure: iset<Target>, s: Snapshot, c: Calls, s': Snapshot) {
    var gone := s.entries - s'.entries;
    && s'.entries <= s.entries
    && gone <= Removed(s.entries, c.targets)
    && s'.lists == s.lists - (c.lists + HookLists(gone))
    && Cleared(sure, s.entries, gone, c.targets + HookTargets(gone))
  }

  lemma AfterClears(sure: iset<Target>, s: Snapshot, c: Calls)
    ensures Clears(sure, s, c, After(s, c))
  {
    hide HookCalls, Hits;
    var gone := Removed(s.entries, c.targets);
    ReachIsClosed(s.entries, Named(c.targets), EDGES);
    assert s.entries - After(s, c).entries == gone;
    forall x, t | t in c.targets + HookTargets(gone) && x in s.entries && Hits(x, t)
      ensures x in gone
    {
      if t in c.targets {
        assert HitBy(x, c.targets);
      } else {
        var e :| e in gone && t in HookCalls(e).targets;
        assert Drops(e, x);
      }
    }
  }

  /** When every key on the way is sure to be cleared, there is only one outcome. */
  lemma SureIsAfter(sure: iset<Target>, s: Snapshot, c: Calls, s': Snapshot)
    requires Clears(sure, s, c, s')
    requires forall t :: t in c.targets + HookTargets(Removed(s.entries, c.targets)) ==> t in sure
    ensures s' == After(s, c)
  {
    hide HookCalls, Hits;
    var gone := s.entries - s'.entries;
    forall x | x in s.entries && HitBy(x, c.targets)
      ensures x in gone
    {
      var t :| t in c.targets && Hits(x, t);
    }
    forall e, x | e in gone && x in s.entries && (e, x) in EDGES
      ensures x in gone
    {
      var t :| t in HookCalls(e).targets && Hits(x, t);
      assert t in HookTargets(gone) && t in HookTargets(Removed(s.entries, c.targets));
    }
    ReachIsLeast(s.entries, Named(c.targets), EDGES, gone);
    assert gone == Removed(s.entries, c.targets);
    assert s.entries - gone == s'.entries;
  }

  ghost const ALL_KEYS: iset<Target> := iset t: Target | true

  /** The documented invalidation is the one that is sure of every key. */
  lemma SureOfAll(s: Snapshot, c: Calls, s': Snapshot)
    ensures Clears(ALL_KEYS, s, c, s') <==> s' == After(s, c)
  {
    hide Clears, After;
    AfterClears(ALL_KEYS, s, c);
    if Clears(ALL_KEYS, s, c, s') {
      SureIsAfter(ALL_KEYS, s, c, s');
    }
  }

  lemma ClearsNothing(sure: iset<Target>, s: Snapshot)
    ensures Clears(sure, s, NO_CALLS, s)
  {
    AfterNothing(s);
    AfterClears(sure, s, NO_CALLS);
  }

  lemma RemovedCompose(s: set<Entry>, rest: set<Entry>, ts: set<Target>, us: set<Target>)
    requires rest <= s
    ensures Removed(s, ts) <= Removed(s, ts + us) && Removed(rest, us) <= Removed(s, ts + us)
  {
    hide Hits;
    ReachIsClosed(s, Named(ts + us), EDGES);
    forall x | x in s && (HitBy(x, ts) || HitBy(x, us))
      ensures HitBy(x, ts + us)
    {
    }
    ReachIsLeast(s, Named(ts), EDGES, Removed(s, ts + us));
    ReachIsLeast(rest, Named(us), EDGES, Removed(s, ts + us));
  }

  /** One batch after another clears what both are sure to clear. */
  lemma ClearsCompose(sure: iset<Target>, s: Snapshot, c1: Calls, s1: Snapshot, c2: Calls, s2: Snapshot)
    requires Clears(sure, s, c1, s1) && Clears(sure, s1, c2, s2)
    ensures Clears(sure, s, c1.Plus(c2), s2)
  {
    hide HookCalls, Hits, Removed;
    var gone1, gone2 := s.entries - s1.entries, s1.entries - s2.entries;
    assert s.entries - s2.entries == gone1 + gone2;
    RemovedCompose(s.entries, s1.entries, c1.targets, c2.targets);
    assert HookTargets(gone1 + gone2) == HookTargets(gone1) + HookTargets(gone2);
    assert HookLists(gone1 + gone2) == HookLists(gone1) + HookLists(gone2);
  }

  lemma RemovedUnfold(s: set<Entry>, ts: set<Target>, h: set<Entry>)
    requires h <= s && forall x :: x in h ==> HitBy(x, ts)
    ensures h <= Removed(s, ts) && Removed(s - h, HookTargets(h)) <= Removed(s, ts)
  {
    ReachIsClosed(s, Named(ts), EDGES);
    hide HookCalls, HitBy;
    forall x | x in s - h && x in Named(HookTargets(h))
      ensures x in Removed(s, ts)
    {
      NamedByHooks(h, x);
    }
    ReachIsLeast(s - h, Named(HookTargets(h)), EDGES, Removed(s, ts));
  }

  /** Taking out any of the named records that include those under the sure keys, and then running
      their hooks, clears what the batch is sure to clear. */
  lemma ClearsUnfold(sure: iset<Target>, s: Snapshot, ts: set<Target>, h: set<Entry>, s': Snapshot)
    requires h <= s.entries && (forall x :: x in h ==> HitBy(x, ts)) && Cleared(sure, s.entries, h, ts)
    requires Clears(sure, s.(entries := s.entries - h), Hooks(h), s')
    ensures Clears(sure, s, Calls(ts, {}), s')
  {
    hide HookCalls, Hits, HitBy, Removed;
    var gone := s.entries - h - s'.entries;
    assert s.entries - s'.entries == h + gone;
    RemovedUnfold(s.entries, ts, h);
    assert HookTargets(h + gone) == HookTargets(h) + HookTargets(gone);
    assert HookLists(h + gone) == HookLists(h) + HookLists(gone);
  }

  /** No list that the batch names is left. */
  lemma NamedListsGo(sure: iset<Target>, s: Snapshot, e: Entry, s': Snapshot)
    requires Clears(sure, s, HookCalls(e), s')
    ensures forall k :: Concerns(e, k) ==> k !in s'.lists
  {
    hide HookCalls, Concerns, Removed;
    forall k | Concerns(e, k)
      ensures k !in s'.lists
    {
      HooksDropConcerned(e, k);
    }
  }
}
