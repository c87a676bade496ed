/** The records held by the struct caches, the indices they are stored under, and
    the keys of the ID-list caches (internal/cache/db.go, internal/cache/visibility.go). */
module Records {

  type ID = string

  /** One record of a cached model: the fields that an index, a hook or an ID list reads.
      `data` stands for every other column of the row. */
  datatype Entry =
    | Account(id: ID, uri: string, local: bool, data: string)
    | AccountStats(accountID: ID)
    | Application(id: ID, clientID: ID)
    | Block(id: ID, uri: string, accountID: ID, targetAccountID: ID)
    | Client(id: ID)
    | Emoji(id: ID, categoryID: ID)
    | EmojiCategory(id: ID)
    | Follow(id: ID, uri: string, accountID: ID, targetAccountID: ID)
    | FollowRequest(id: ID, uri: string, accountID: ID, targetAccountID: ID)
    | List(id: ID)
    | ListEntry(id: ID, listID: ID, followID: ID)
    | Media(id: ID, accountID: ID, statusID: ID, avatar: bool, header: bool)
    | Move(id: ID, uri: string, originURI: string, targetURI: string)
    | Poll(id: ID, statusID: ID)
    | PollVote(id: ID, pollID: ID, accountID: ID)
    | Status(id: ID, uri: string, accountID: ID, attachmentIDs: seq<ID>,
             boostOfID: ID, inReplyToID: ID, pollID: ID, data: string)
    | StatusBookmark(id: ID, accountID: ID, targetAccountID: ID, statusID: ID)
    | StatusFave(id: ID, accountID: ID, statusID: ID)
    | Token(id: ID, clientID: ID)
    | User(id: ID, accountID: ID)
    | UserMute(id: ID, accountID: ID, targetAccountID: ID)
    | Visibility(itemID: ID, requesterID: ID, typ: char, value: bool)

  /** The struct caches; every record lives in the cache of its own model. */
  datatype Kind =
    | KAccount | KAccountStats | KApplication | KBlock | KClient | KEmoji | KEmojiCategory
    | KFollow | KFollowRequest | KList | KListEntry | KMedia | KMove | KPoll | KPollVote
    | KStatus | KStatusBookmark | KStatusFave | KToken | KUser | KUserMute | KVisibility

  function KindOf(e: Entry): Kind {
    match e
    case Account(_, _, _, _) => KAccount
    case AccountStats(_) => KAccountStats
    case Application(_, _) => KApplication
    case Block(_, _, _, _) => KBlock
    case Client(_) => KClient
    case Emoji(_, _) => KEmoji
    case EmojiCategory(_) => KEmojiCategory
    case Follow(_, _, _, _) => KFollow
    case FollowRequest(_, _, _, _) => KFollowRequest
    case List(_) => KList
    case ListEntry(_, _, _) => KListEntry
    case Media(_, _, _, _, _) => KMedia
    case Move(_, _, _, _) => KMove
    case Poll(_, _) => KPoll
    case PollVote(_, _, _) => KPollVote
    case Status(_, _, _, _, _, _, _, _) => KStatus
    case StatusBookmark(_, _, _, _) => KStatusBookmark
    case StatusFave(_, _, _) => KStatusFave
    case Token(_, _) => KToken
    case User(_, _) => KUser
    case UserMute(_, _, _) => KUserMute
    case Visibility(_, _, _, _) => KVisibility
  }

  /** Index names, by the fields they are built from. */
  datatype Index =
    | ByID | ByURI | ByAccountID | ByTargetAccountID | ByAccountTarget
    | ByClientID | ByCategoryID | ByListID | ByFollowID
    | ByOriginURI | ByTargetURI | ByOriginTarget
    | ByPollID | ByPollAccount | ByStatusID | ByAccountStatus | ByBoostOfAccount
    | ByItemID | ByRequesterID | ByLookup

  /** The field values a record is stored under in an index. A record is not stored under
      an index its cache does not have; that case is the key `[""]`, which nothing matches. */
  function KeyOf(e: Entry, i: Index): seq<string> {
    match e
    case Visibility(item, req, typ, _) =>
      if i == ByItemID then [item] else if i == ByRequesterID then [req]
      else if i == ByLookup then [[typ], req, item] else [""]
    case AccountStats(a) => if i == ByAccountID then [a] else [""]
    case _ => if i == ByID then [e.id] else SecondaryKey(e, i)
  }

  function SecondaryKey(e: Entry, i: Index): seq<string> {
    match e
    case Account(_, uri, _, _) => if i == ByURI then [uri] else [""]
    case Application(_, c) => if i == ByClientID then [c] else [""]
    case Block(_, uri, a, t) => RelationKey(uri, a, t, i)
    case Emoji(_, c) => if i == ByCategoryID then [c] else [""]
    case Follow(_, uri, a, t) => RelationKey(uri, a, t, i)
    case FollowRequest(_, uri, a, t) => RelationKey(uri, a, t, i)
    case ListEntry(_, l, f) => if i == ByListID then [l] else if i == ByFollowID then [f] else [""]
    case Move(_, uri, o, t) =>
      if i == ByURI then [uri] else if i == ByOriginTarget then [o, t]
      else if i == ByOriginURI then [o] else if i == ByTargetURI then [t] else [""]
    case Poll(_, s) => if i == ByStatusID then [s] else [""]
    case PollVote(_, p, a) => if i == ByPollID then [p] else if i == ByPollAccount then [p, a] else [""]
    case Status(_, uri, a, _, b, _, p, _) =>
      if i == ByURI then [uri] else if i == ByPollID then [p] else if i == ByBoostOfAccount then [b, a] else [""]
    case StatusBookmark(_, a, t, s) =>
      if i == ByAccountStatus then [a, s] else if i == ByAccountID then [a]
      else if i == ByTargetAccountID then [t] else if i == ByStatusID then [s] else [""]
    case StatusFave(_, a, s) => if i == ByAccountStatus then [a, s] else if i == ByStatusID then [s] else [""]
    case Token(_, c) => if i == ByClientID then [c] else [""]
    case User(_, a) => if i == ByAccountID then [a] else [""]
    case UserMute(_, a, t) => RelationKey("", a, t, i)
    case _ => [""]
  }

  function RelationKey(uri: string, a: ID, t: ID, i: Index): seq<string> {
    match i
    case ByURI => [uri]
    case ByAccountTarget => [a, t]
    case ByAccountID => [a]
    case ByTargetAccountID => [t]
    case _ => [""]
  }

  /** Whether an index holds at most one record per key (it is not declared `Multiple`). */
  predicate IsUnique(k: Kind, i: Index) {
    match i
    case ByID => true
    case ByURI => true
    case ByAccountTarget => true
    case ByOriginTarget => true
    case ByPollAccount => true
    case ByAccountStatus => true
    case ByBoostOfAccount => true
    case ByLookup => true
    case ByAccountID => k == KAccountStats || k == KUser
    case ByPollID => k == KStatus
    case ByStatusID => k == KPoll
    case ByClientID => k == KApplication
    case _ => false
  }

  /** One key of one index of one struct cache: what a call of `StructCache.Invalidate` names. */
  datatype Target = Target(kind: Kind, index: Index, key: seq<string>)

  /** The record is found under the key. A key with a zero field is never stored. */
  predicate Hits(x: Entry, t: Target) {
    KindOf(x) == t.kind && KeyOf(x, t.index) == t.key && "" !in t.key
  }

  /** Two records of one cache that compete for a key of a unique index. */
  predicate Competes(x: Entry, e: Entry) {
    exists i :: IsUnique(KindOf(e), i) && Hits(x, Target(KindOf(e), i, KeyOf(e, i)))
  }

  /** The same, read off the fields index by index: which records a key finds. */
  predicate FoundBy(x: Entry, t: Target) {
    && KindOf(x) == t.kind && "" !in t.key
    && match t.index
       case ByID => HasID(x) && t.key == [x.id]
       case ByURI => HasURI(x) && t.key == [x.uri]
       case ByAccountID => (IsRelation(x) || x.AccountStats? || x.StatusBookmark? || x.User?) && t.key == [x.accountID]
       case ByTargetAccountID => (IsRelation(x) || x.StatusBookmark?) && t.key == [x.targetAccountID]
       case ByAccountTarget => IsRelation(x) && t.key == [x.accountID, x.targetAccountID]
       case ByClientID => (x.Application? || x.Token?) && t.key == [x.clientID]
       case ByCategoryID => x.Emoji? && t.key == [x.categoryID]
       case ByListID => x.ListEntry? && t.key == [x.listID]
       case ByFollowID => x.ListEntry? && t.key == [x.followID]
       case ByOriginURI => x.Move? && t.key == [x.originURI]
       case ByTargetURI => x.Move? && t.key == [x.targetURI]
       case ByOriginTarget => x.Move? && t.key == [x.originURI, x.targetURI]
       case ByPollID => (x.PollVote? || x.Status?) && t.key == [x.pollID]
       case ByPollAccount => x.PollVote? && t.key == [x.pollID, x.accountID]
       case ByStatusID => (x.Poll? || x.StatusBookmark? || x.StatusFave?) && t.key == [x.statusID]
       case ByAccountStatus => (x.StatusBookmark? || x.StatusFave?) && t.key == [x.accountID, x.statusID]
       case ByBoostOfAccount => x.Status? && t.key == [x.boostOfID, x.accountID]
       case ByItemID => x.Visibility? && t.key == [x.itemID]
       case ByRequesterID => x.Visibility? && t.key == [x.requesterID]
       case ByLookup => x.Visibility? && t.key == [[x.typ], x.requesterID, x.itemID]
  }

  predicate IsRelation(x: Entry) {
    x.Block? || x.Follow? || x.FollowRequest? || x.UserMute?
  }

  predicate HasURI(x: Entry) {
    x.Account? || x.Block? || x.Follow? || x.FollowRequest? || x.Move? || x.Status?
  }

  lemma RelationsAreFound(x: Entry, t: Target)
    requires IsRelation(x)
    ensures Hits(x, t) <==> FoundBy(x, t)
  {
    assert [""][0] == "";
  }

  lemma StatusesAreFound(x: Entry, t: Target)
    requires x.Status? || x.StatusBookmark? || x.StatusFave? || x.Poll? || x.PollVote?
    ensures Hits(x, t) <==> FoundBy(x, t)
  {
    assert [""][0] == "";
  }

  lemma OthersAreFound(x: Entry, t: Target)
    requires !IsRelation(x) && !x.Status? && !x.StatusBookmark? && !x.StatusFave? && !x.Poll? && !x.PollVote?
    ensures Hits(x, t) <==> FoundBy(x, t)
  {
    assert [""][0] == "";
  }

  lemma HitsAreFound(x: Entry, t: Target)
    ensures Hits(x, t) <==> FoundBy(x, t)
  {
    hide Hits, FoundBy;
    if IsRelation(x) {
      RelationsAreFound(x, t);
    } else if x.Status? || x.StatusBookmark? || x.StatusFave? || x.Poll? || x.PollVote? {
      StatusesAreFound(x, t);
    } else {
      OthersAreFound(x, t);
    }
  }

  /** Two records of one model that agree, in its fields, on something only one record may have. */
  predicate SharesUniqueKey(x: Entry, e: Entry) {
    KindOf(x) == KindOf(e) &&
    match e
    case Account(id, uri, _, _) => Same(x.id, id) || Same(x.uri, uri)
    case AccountStats(a) => Same(x.accountID, a)
    case Application(id, c) => Same(x.id, id) || Same(x.clientID, c)
    case Block(id, uri, a, t) => Same(x.id, id) || Same(x.uri, uri) || (Same(x.accountID, a) && Same(x.targetAccountID, t))
    case Follow(id, uri, a, t) => Same(x.id, id) || Same(x.uri, uri) || (Same(x.accountID, a) && Same(x.targetAccountID, t))
    case FollowRequest(id, uri, a, t) => Same(x.id, id) || Same(x.uri, uri) || (Same(x.accountID, a) && Same(x.targetAccountID, t))
    case Move(id, uri, o, t) => Same(x.id, id) || Same(x.uri, uri) || (Same(x.originURI, o) && Same(x.targetURI, t))
    case Poll(id, s) => Same(x.id, id) || Same(x.statusID, s)
    case PollVote(id, p, a) => Same(x.id, id) || (Same(x.pollID, p) && Same(x.accountID, a))
    case Status(id, uri, a, _, b, _, p, _) =>
      Same(x.id, id) || Same(x.uri, uri) || Same(x.pollID, p) || (Same(x.boostOfID, b) && Same(x.accountID, a))
    case StatusBookmark(id, a, _, s) => Same(x.id, id) || (Same(x.accountID, a) && Same(x.statusID, s))
    case StatusFave(id, a, s) => Same(x.id, id) || (Same(x.accountID, a) && Same(x.statusID, s))
    case User(id, a) => Same(x.id, id) || Same(x.accountID, a)
    case UserMute(id, a, t) => Same(x.id, id) || (Same(x.accountID, a) && Same(x.targetAccountID, t))
    case Visibility(item, req, typ, _) => x.typ == typ && Same(x.requesterID, req) && Same(x.itemID, item)
    case _ => Same(x.id, e.id)
  }

  predicate Same(a: string, b: string) {
    a == b != ""
  }

  lemma SharedRelations(x: Entry, e: Entry, i: Index, key: seq<string>)
    requires IsRelation(e)
    requires IsUnique(KindOf(e), i) && FoundBy(x, Target(KindOf(e), i, key)) && FoundBy(e, Target(KindOf(e), i, key))
    ensures SharesUniqueKey(x, e)
  {
    assert |key| > 0 && forall n :: 0 <= n < |key| ==> key[n] != "";
  }

  lemma SharedStatuses(x: Entry, e: Entry, i: Index, key: seq<string>)
    requires e.Status? || e.StatusBookmark? || e.StatusFave? || e.Poll? || e.PollVote?
    requires IsUnique(KindOf(e), i) && FoundBy(x, Target(KindOf(e), i, key)) && FoundBy(e, Target(KindOf(e), i, key))
    ensures SharesUniqueKey(x, e)
  {
    assert |key| > 0 && forall n :: 0 <= n < |key| ==> key[n] != "";
  }

  lemma SharedOthers(x: Entry, e: Entry, i: Index, key: seq<string>)
    requires !IsRelation(e) && !e.Status? && !e.StatusBookmark? && !e.StatusFave? && !e.Poll? && !e.PollVote?
    requires IsUnique(KindOf(e), i) && FoundBy(x, Target(KindOf(e), i, key)) && FoundBy(e, Target(KindOf(e), i, key))
    ensures SharesUniqueKey(x, e)
  {
    assert |key| > 0 && forall n :: 0 <= n < |key| ==> key[n] != "";
  }

  lemma SharedUnderIndex(x: Entry, e: Entry, i: Index, key: seq<string>)
    requires IsUnique(KindOf(e), i) && FoundBy(x, Target(KindOf(e), i, key)) && FoundBy(e, Target(KindOf(e), i, key))
    ensures SharesUniqueKey(x, e)
  {
    hide IsUnique, FoundBy, SharesUniqueKey;
    if IsRelation(e) {
      SharedRelations(x, e, i, key);
    } else if e.Status? || e.StatusBookmark? || e.StatusFave? || e.Poll? || e.PollVote? {
      SharedStatuses(x, e, i, key);
    } else {
      SharedOthers(x, e, i, key);
    }
  }

  /** An index under which the two meet. */
  function MeetingIndex(x: Entry, e: Entry): Index {
    if HasID(x) && HasID(e) && Same(x.id, e.id) then ByID
    else match e
      case AccountStats(_) => ByAccountID
      case Application(_, _) => ByClientID
      case Move(_, uri, _, _) => if HasURI(x) && Same(x.uri, uri) then ByURI else ByOriginTarget
      case Poll(_, _) => ByStatusID
      case PollVote(_, _, _) => ByPollAccount
      case Status(_, uri, _, _, _, _, p, _) =>
        if HasURI(x) && Same(x.uri, uri) then ByURI
        else if x.Status? && Same(x.pollID, p) then ByPollID else ByBoostOfAccount
      case StatusBookmark(_, _, _, _) => ByAccountStatus
      case StatusFave(_, _, _) => ByAccountStatus
      case User(_, _) => ByAccountID
      case Visibility(_, _, _, _) => ByLookup
      case Account(_, _, _, _) => ByURI
      case _ => if HasURI(e) && HasURI(x) && Same(x.uri, e.uri) then ByURI else ByAccountTarget
  }

  lemma MeetRelations(x: Entry, e: Entry)
    requires IsRelation(e)
    requires SharesUniqueKey(x, e)
    ensures var i := MeetingIndex(x, e);
            IsUnique(KindOf(e), i) && FoundBy(x, Target(KindOf(e), i, KeyOf(e, i)))
  {
    assert forall n :: 0 <= n < |KeyOf(e, MeetingIndex(x, e))| ==> KeyOf(e, MeetingIndex(x, e))[n] != "";
  }

  lemma MeetStatuses(x: Entry, e: Entry)
    requires e.Status? || e.StatusBookmark? || e.StatusFave? || e.Poll? || e.PollVote?
    requires SharesUniqueKey(x, e)
    ensures var i := MeetingIndex(x, e);
            IsUnique(KindOf(e), i) && FoundBy(x, Target(KindOf(e), i, KeyOf(e, i)))
  {
    assert forall n :: 0 <= n < |KeyOf(e, MeetingIndex(x, e))| ==> KeyOf(e, MeetingIndex(x, e))[n] != "";
  }

  lemma MeetOthers(x: Entry, e: Entry)
    requires !IsRelation(e) && !e.Status? && !e.StatusBookmark? && !e.StatusFave? && !e.Poll? && !e.PollVote?
    requires SharesUniqueKey(x, e)
    ensures var i := MeetingIndex(x, e);
            IsUnique(KindOf(e), i) && FoundBy(x, Target(KindOf(e), i, KeyOf(e, i)))
  {
    assert forall n :: 0 <= n < |KeyOf(e, MeetingIndex(x, e))| ==> KeyOf(e, MeetingIndex(x, e))[n] != "";
  }

  lemma MeetWhenShared(x: Entry, e: Entry)
    requires SharesUniqueKey(x, e)
    ensures var i := MeetingIndex(x, e);
            IsUnique(KindOf(e), i) && FoundBy(x, Target(KindOf(e), i, KeyOf(e, i)))
  {
    hide IsUnique, FoundBy, SharesUniqueKey, MeetingIndex, KeyOf;
    if IsRelation(e) {
      MeetRelations(x, e);
    } else if e.Status? || e.StatusBookmark? || e.StatusFave? || e.Poll? || e.PollVote? {
      MeetStatuses(x, e);
    } else {
      MeetOthers(x, e);
    }
  }

  lemma CompetesIffShared(x: Entry, e: Entry)
    ensures Competes(x, e) <==> SharesUniqueKey(x, e)
  {
    hide KeyOf, IsUnique, Hits, FoundBy, SharesUniqueKey, MeetingIndex;
    if SharesUniqueKey(x, e) {
      var i := MeetingIndex(x, e);
      MeetWhenShared(x, e);
      HitsAreFound(x, Target(KindOf(e), i, KeyOf(e, i)));
    }
    if i :| IsUnique(KindOf(e), i) && Hits(x, Target(KindOf(e), i, KeyOf(e, i))) {
      OwnKeyHits(x, e, i);
      HitsAreFound(x, Target(KindOf(e), i, KeyOf(e, i)));
      HitsAreFound(e, Target(KindOf(e), i, KeyOf(e, i)));
      SharedUnderIndex(x, e, i, KeyOf(e, i));
    }
  }

  lemma OwnKeyHits(x: Entry, e: Entry, i: Index)
    requires Hits(x, Target(KindOf(e), i, KeyOf(e, i)))
    ensures Hits(e, Target(KindOf(e), i, KeyOf(e, i)))
  {
  }

  /** Records of a model other than the two that are not keyed by ID. */
  predicate HasID(e: Entry) {
    !e.Visibility? && !e.AccountStats?
  }

  predicate SameRow(x: Entry, e: Entry) {
    KindOf(x) == KindOf(e) && HasID(x) && HasID(e) && x.id == e.id
  }

  /** The ID-list caches. */
  datatype ListCache =
    | FollowIDs | FollowRequestIDs | BlockIDs | UserMuteIDs | PollVoteIDs
    | BoostOfIDs | InReplyToIDs | StatusFaveIDs | StatusBookmarkIDs

  datatype ListKey = ListKey(cache: ListCache, key: string)
}
