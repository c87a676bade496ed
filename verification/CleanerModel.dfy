/** The two stores the cleaner works on, and what each cleaning pass is for
    (internal/cleaner/media.go, internal/cleaner/emoji.go). */
module CleanerModel {
  import opened Batches
  import opened Wrappers

  datatype MediaType = TypeAttachment | TypeEmoji | TypeOther(name: string)

  /** A storage key: one the file server path pattern matches, or any other. */
  datatype Path =
    | FilePath(accountID: ID, mediaType: MediaType, size: string, mediaID: ID, ext: string)
    | OtherPath(name: string)

  /** Rows of the two tables; IDs are unique across tables. An emoji's `file` and `thumbnail`
      are its image and static image; `staticOwner` and `staticID` make up its static URL. */
  datatype Row =
    | Attachment(cached: bool, remote: bool, createdAt: int, file: Path, thumbnail: Path,
                 accountID: Option<ID>, statusID: Option<ID>, avatar: bool, header: bool)
    | Emoji(cached: bool, remote: bool, createdAt: int, file: Path, thumbnail: Path,
            staticOwner: ID, staticID: ID)

  datatype Account = Account(suspended: bool, headerID: Option<ID>, avatarID: Option<ID>,
                             fetchedAt: int, emojiIDs: set<ID>)

  datatype Status = Status(attachmentIDs: seq<ID>, fetchedAt: int, emojiIDs: set<ID>)

  /** What the passes read but never write. */
  datatype Context = Context(accounts: map<ID, Account>, statuses: map<ID, Status>, bookmarked: set<ID>)

  /** Both stores. */
  datatype World = World(rows: map<ID, Row>, storage: set<Path>)

  const MINUTE := 60
  const WEEK := 7 * 24 * 3600

  datatype Table = Attachments | Emojis

  predicate InTable(t: Table, row: Row) {
    t.Attachments? <==> row.Attachment?
  }

  /** The passes over rows. `after` is the time limit already dropped by a minute. */
  datatype Pass =
    | PruneUnused(table: Table, now: int)
    | FixCacheStates(table: Table)
    | UncacheRemote(table: Table, after: int)

  /** The rows a pass selects. */
  predicate Selects(p: Pass, row: Row) {
    InTable(p.table, row) &&
    match p
    case PruneUnused(table, _) => table.Attachments? || row.remote
    case FixCacheStates(_) => row.remote
    case UncacheRemote(_, after) => row.remote && row.cached && row.createdAt < after
  }

  /** The column a pass pages by. */
  function PageKey(p: Pass, id: ID, row: Row): int {
    if p.UncacheRemote? then row.createdAt else id
  }

  function Candidates(p: Pass, rows: map<ID, Row>): Keyed {
    map id | id in rows && Selects(p, rows[id]) :: PageKey(p, id, rows[id])
  }

  /** The row's reference is set but leads nowhere. */
  predicate Missing<T>(m: map<ID, T>, ref: Option<ID>) {
    ref.Some? && ref.value !in m
  }

  /** The row refers to an existing account or status. */
  predicate Has<T>(m: map<ID, T>, ref: Option<ID>) {
    ref.Some? && ref.value in m
  }

  function FilesOf(row: Row): set<Path> {
    {row.file, row.thumbnail}
  }

  /** An attachment is in use as header or avatar of a non-suspended account, or by a status
      that lists it; never when its account is missing. An emoji is in use while an account or
      status uses it, and for a week after it was created. */
  predicate InUse(c: Context, now: int, id: ID, row: Row) {
    match row
    case Attachment(_, _, _, _, _, accountID, statusID, avatar, header) =>
      && !Missing(c.accounts, accountID)
      && (|| (Has(c.accounts, accountID) && IsProfileMedia(c.accounts[accountID.value], id, row)
              && !c.accounts[accountID.value].suspended)
          || (Has(c.statuses, statusID) && id in c.statuses[statusID.value].attachmentIDs))
    case Emoji(_, _, createdAt, _, _, _, _) =>
      || UsingAccounts(c, id) != {}
      || UsingStatuses(c, id) != {}
      || now - WEEK < createdAt
  }

  predicate IsProfileMedia(a: Account, id: ID, row: Row)
    requires row.Attachment?
  {
    (row.header && a.headerID == Some(id)) || (row.avatar && a.avatarID == Some(id))
  }

  function UsingAccounts(c: Context, id: ID): set<ID> {
    set a | a in c.accounts && id in c.accounts[a].emojiIDs
  }

  function UsingStatuses(c: Context, id: ID): set<ID> {
    set s | s in c.statuses && id in c.statuses[s].emojiIDs
  }

  predicate RecentAccount(c: Context, after: int, a: ID) {
    a in c.accounts && c.accounts[a].fetchedAt > after
  }

  /** A status fetched recently, or bookmarked. */
  predicate KeepsMedia(c: Context, after: int, s: ID) {
    s in c.statuses && (c.statuses[s].fetchedAt > after || s in c.bookmarked)
  }

  /** Remote media that uncaching leaves alone: its account (for header and avatar) or its status
      is missing, recently fetched or, for a status, bookmarked; for an emoji, one of its users is. */
  predicate IsProtected(c: Context, after: int, id: ID, row: Row) {
    match row
    case Attachment(_, _, _, _, _, accountID, statusID, avatar, header) =>
      if avatar || header then
        Missing(c.accounts, accountID) || (Has(c.accounts, accountID) && RecentAccount(c, after, accountID.value))
      else
        Missing(c.statuses, statusID) || (Has(c.statuses, statusID) && KeepsMedia(c, after, statusID.value))
    case Emoji(_, _, _, _, _, _, _) =>
      || (exists a :: a in UsingAccounts(c, id) && RecentAccount(c, after, a))
      || (exists s :: s in UsingStatuses(c, id) && KeepsMedia(c, after, s))
  }

  predicate HasStaticURL(row: Row, owner: ID, mediaID: ID) {
    row.Emoji? && row.staticOwner == owner && row.staticID == mediaID
  }

  /** A recognised media file whose row is missing. */
  predicate Orphaned(rows: map<ID, Row>, path: Path) {
    match path
    case FilePath(_, TypeAttachment, _, mediaID, _) => mediaID !in rows || !rows[mediaID].Attachment?
    case FilePath(accountID, TypeEmoji, _, mediaID, _) =>
      !exists id :: id in rows && HasStaticURL(rows[id], accountID, mediaID)
    case _ => false
  }

  function Orphans(w: World): set<Path> {
    set path | path in w.storage && Orphaned(w.rows, path)
  }

  /** The row's owner and status exist as far as it names them; emojis name none. */
  predicate Resolvable(c: Context, row: Row) {
    row.Attachment? ==> !Missing(c.accounts, row.accountID) && !Missing(c.statuses, row.statusID)
  }

  predicate HasFiles(storage: set<Path>, row: Row) {
    row.thumbnail in storage && row.file in storage
  }

  /** Whether the pass acts on the row. */
  predicate Flagged(c: Context, p: Pass, storage: set<Path>, id: ID, row: Row) {
    match p
    case PruneUnused(_, now) => !InUse(c, now, id, row)
    case FixCacheStates(_) => Resolvable(c, row) && row.cached != HasFiles(storage, row)
    case UncacheRemote(_, after) => row.cached && !IsProtected(c, after, id, row)
  }

  /** The stores after the pass has handled one row without an error: pruning drops row and files,
      the other passes drop the files and leave the row uncached. */
  function Act(c: Context, p: Pass, w: World, id: ID): World {
    if id !in w.rows || !Flagged(c, p, w.storage, id, w.rows[id]) then w
    else if p.PruneUnused? then World(w.rows - {id}, w.storage - FilesOf(w.rows[id]))
    else World(w.rows[id := w.rows[id].(cached := false)], w.storage - FilesOf(w.rows[id]))
  }

  predicate Acts(c: Context, p: Pass, w: World, id: ID) {
    id in w.rows && Flagged(c, p, w.storage, id, w.rows[id])
  }

  /** Handling rows one after the other: the final stores, and the rows acted on. */
  function Swept(c: Context, p: Pass, w: World, ids: seq<ID>): World {
    if ids == [] then w
    else Act(c, p, Swept(c, p, w, ids[..|ids| - 1]), ids[|ids| - 1])
  }

  function SweptIDs(c: Context, p: Pass, w: World, ids: seq<ID>): set<ID> {
    if ids == [] then {}
    else
      var rest, id := ids[..|ids| - 1], ids[|ids| - 1];
      SweptIDs(c, p, w, rest) + (if Acts(c, p, Swept(c, p, w, rest), id) then {id} else {})
  }

  /** The rows a dry run reports: those flagged while the stores stay as they are. */
  function FlaggedIDs(c: Context, p: Pass, w: World, ids: seq<ID>): set<ID> {
    set id | id in ids && Acts(c, p, w, id)
  }

  /** Where a pass without errors ends: a dry run changes nothing. */
  ghost function Ends(c: Context, p: Pass, w: World, ids: seq<ID>, dry: bool): World {
    if dry then w else Swept(c, p, w, ids)
  }

  ghost function ActedIDs(c: Context, p: Pass, w: World, ids: seq<ID>, dry: bool): set<ID> {
    if dry then FlaggedIDs(c, p, w, ids) else SweptIDs(c, p, w, ids)
  }

  /** What every step keeps, whatever fails: files only go; rows only go or become uncached, and
      a row that went, or became uncached, has neither of its files left. */
  ghost predicate Safe(w: World, w': World) {
    && w'.storage <= w.storage
    && w'.rows.Keys <= w.rows.Keys
    && (forall id :: id in w.rows && id !in w'.rows ==> FilesOf(w.rows[id]) !! w'.storage)
    && (forall id :: id in w'.rows && w'.rows[id] != w.rows[id] ==>
          && w.rows[id].cached && w'.rows[id] == w.rows[id].(cached := false)
          && FilesOf(w.rows[id]) !! w'.storage)
  }

  lemma SafeReflexive(w: World)
    ensures Safe(w, w)
  {
  }

  lemma SafeTransitive(a: World, b: World, c: World)
    requires Safe(a, b) && Safe(b, c)
    ensures Safe(a, c)
  {
  }

  /** What every step leaves alone, whatever fails: rows other than the given ones, and files that
      are not theirs. */
  ghost predicate OnlyTouches(w: World, w': World, ids: set<ID>) {
    && (forall q :: q in w.rows && q !in ids ==> q in w'.rows && w'.rows[q] == w.rows[q])
    && (forall f :: f in w.storage && f !in w'.storage ==>
          exists q :: q in ids && q in w.rows && (f == w.rows[q].file || f == w.rows[q].thumbnail))
  }

  lemma TouchesCompose(a: World, b: World, c: World, ids: set<ID>, more: set<ID>)
    requires Safe(a, b) && OnlyTouches(a, b, ids) && OnlyTouches(b, c, more)
    ensures OnlyTouches(a, c, ids + more)
  {
    forall f | f in a.storage && f !in c.storage
      ensures exists q :: q in ids + more && q in a.rows && (f == a.rows[q].file || f == a.rows[q].thumbnail)
    {
      if f in b.storage {
        var q :| q in more && q in b.rows && (f == b.rows[q].file || f == b.rows[q].thumbnail);
        assert q in a.rows && a.rows[q].file == b.rows[q].file && a.rows[q].thumbnail == b.rows[q].thumbnail;
      } else {
        var q :| q in ids && q in a.rows && (f == a.rows[q].file || f == a.rows[q].thumbnail);
        assert q in ids + more;
      }
    }
  }

  lemma TouchesMore(a: World, b: World, ids: set<ID>, more: set<ID>)
    requires OnlyTouches(a, b, ids) && ids <= more
    ensures OnlyTouches(a, b, more)
  {
  }

  /** The rows a pass selects, in their fields. */
  lemma SelectedFields(p: Pass, id: ID, row: Row)
    ensures Selects(p, row) <==>
              && (p.table.Attachments? <==> row.Attachment?)
              && (if p.PruneUnused? then row.Attachment? || row.remote
                  else if p.FixCacheStates? then row.remote
                  else row.remote && row.cached && row.createdAt < p.after)
  {
  }

  ghost predicate Distinct(ids: seq<ID>) {
    forall i, j :: 0 <= i < j < |ids| ==> ids[i] != ids[j]
  }

  lemma {:induction false} SweptAppend(c: Context, p: Pass, w: World, a: seq<ID>, b: seq<ID>)
    ensures Swept(c, p, w, a + b) == Swept(c, p, Swept(c, p, w, a), b)
    ensures SweptIDs(c, p, w, a + b) == SweptIDs(c, p, w, a) + SweptIDs(c, p, Swept(c, p, w, a), b)
  {
    if b == [] {
      assert a + b == a;
    } else {
      hide Act, Acts;
      assert (a + b)[..|a + b| - 1] == a + b[..|b| - 1];
      SweptAppend(c, p, w, a, b[..|b| - 1]);
    }
  }

  lemma {:induction false} SweptIDsAreVisited(c: Context, p: Pass, w: World, ids: seq<ID>)
    ensures forall id :: id in SweptIDs(c, p, w, ids) ==> id in ids
  {
    if ids != [] {
      hide Act, Acts;
      SweptIDsAreVisited(c, p, w, ids[..|ids| - 1]);
    }
  }

  /** Rows that are not visited stay as they are; no row gets another ordering column. */
  lemma {:induction false} SweptFrame(c: Context, p: Pass, w: World, ids: seq<ID>)
    ensures Swept(c, p, w, ids).rows.Keys <= w.rows.Keys
    ensures forall id :: id in w.rows && id !in ids ==>
              id in Swept(c, p, w, ids).rows && Swept(c, p, w, ids).rows[id] == w.rows[id]
    ensures forall id :: id in Swept(c, p, w, ids).rows ==>
              Swept(c, p, w, ids).rows[id] in {w.rows[id], w.rows[id].(cached := false)}
  {
    if ids != [] {
      hide Flagged;
      SweptFrame(c, p, w, ids[..|ids| - 1]);
    }
  }

  /** The rows a pass visits, in order. */
  function Plan(p: Pass, rows: map<ID, Row>): seq<ID> {
    Visits(Candidates(p, rows))
  }

  /** The stores after Media.All when no pass fails. */
  ghost function AllEnds(c: Context, w: World, now: int, maxRemoteDays: int): World {
    var uncache := UncacheRemote(Attachments, now - 24 * 3600 * maxRemoteDays - MINUTE);
    var prune := PruneUnused(Attachments, now);
    var fix := FixCacheStates(Attachments);
    var w1 := Swept(c, uncache, w, Plan(uncache, w.rows));
    var w2 := w1.(storage := w1.storage - Orphans(w1));
    var w3 := Swept(c, prune, w2, Plan(prune, w2.rows));
    Swept(c, fix, w3, Plan(fix, w3.rows))
  }

  /** The candidates below a cursor, if there is one. */
  function Remaining(t: Keyed, cursor: Option<int>): Keyed {
    if cursor.None? then t else Below(t, cursor.value)
  }

  /** Handling a batch after others is handling them all. */
  lemma BatchDone(c: Context, p: Pass, w: World, done: seq<ID>, page: seq<ID>, dry: bool)
    requires Distinct(done + page)
    ensures Ends(c, p, w, done + page, dry) == Ends(c, p, Ends(c, p, w, done, dry), page, dry)
    ensures |ActedIDs(c, p, w, done + page, dry)| ==
            |ActedIDs(c, p, w, done, dry)| + |ActedIDs(c, p, Ends(c, p, w, done, dry), page, dry)|
  {
    hide Act, Acts;
    var w' := Ends(c, p, w, done, dry);
    SweptAppend(c, p, w, done, page);
    SweptIDsAreVisited(c, p, w, done);
    SweptIDsAreVisited(c, p, w', page);
    assert FlaggedIDs(c, p, w, done + page) == FlaggedIDs(c, p, w, done) + FlaggedIDs(c, p, w, page);
    DistinctParts(done, page);
    assert ActedIDs(c, p, w, done + page, dry) == ActedIDs(c, p, w, done, dry) + ActedIDs(c, p, w', page, dry);
  }

  lemma DistinctParts(a: seq<ID>, b: seq<ID>)
    requires Distinct(a + b)
    ensures Distinct(a) && Distinct(b)
    ensures forall id :: !(id in a && id in b)
  {
    assert forall i :: 0 <= i < |b| ==> b[i] == (a + b)[|a| + i];
    assert forall i :: 0 <= i < |a| ==> a[i] == (a + b)[i];
  }

  /** Rows below the cursor are selected as before although the rows above it have been handled. */
  lemma RemainingUnchanged(c: Context, p: Pass, w: World, done: seq<ID>, cursor: Option<int>, dry: bool)
    requires forall id :: id in done ==> id in w.rows && cursor.Some? && PageKey(p, id, w.rows[id]) >= cursor.value
    ensures Remaining(Candidates(p, Ends(c, p, w, done, dry).rows), cursor) == Remaining(Candidates(p, w.rows), cursor)
  {
    var rows := Ends(c, p, w, done, dry).rows;
    SweptFrame(c, p, w, done);
    forall id | id in w.rows && id in rows
      ensures PageKey(p, id, rows[id]) == PageKey(p, id, w.rows[id])
    {
    }
    hide Selects, PageKey, Ends;
    forall id
      ensures id in Remaining(Candidates(p, rows), cursor) <==> id in Remaining(Candidates(p, w.rows), cursor)
    {
    }
  }

  lemma RemainingBelow(t: Keyed, cursor: Option<int>, id: ID)
    requires id in Remaining(t, cursor)
    ensures id in t && Remaining(t, cursor)[id] == t[id] && (cursor.Some? ==> t[id] < cursor.value)
    ensures Below(Remaining(t, cursor), t[id]) == Below(t, t[id])
  {
  }

  /** A batch ends with its least key. */
  lemma BatchOfRemaining(t: Keyed, cursor: Option<int>)
    requires Remaining(t, cursor) != map[]
    ensures var page, last := Batch(Remaining(t, cursor)), LastOf(Remaining(t, cursor));
            && last in Remaining(t, cursor)
            && Visits(Remaining(t, cursor)) == page + Visits(Below(t, t[last]))
            && |Below(t, t[last])| < |Remaining(t, cursor)|
            && (forall id :: id in page ==> id in t && t[id] >= t[last])
  {
    hide InOrder, Visits, Remaining, Below, Batch;
    var rest := Remaining(t, cursor);
    VisitsUnfold(rest);
    BatchIsFront(rest);
    RemainingBelow(t, cursor, LastOf(rest));
    forall id | id in Batch(rest)
      ensures id in t && t[id] >= t[LastOf(rest)]
    {
      RemainingBelow(t, cursor, id);
    }
  }

  /** Taking the next batch off what remains. */
  lemma NextBatch(t: Keyed, done: seq<ID>, cursor: Option<int>)
    requires Remaining(t, cursor) != map[]
    requires Visits(t) == done + Visits(Remaining(t, cursor))
    ensures var page := Batch(Remaining(t, cursor));
            var last := page[|page| - 1];
            && last in t && (cursor.Some? ==> t[last] < cursor.value)
            && Visits(t) == (done + page) + Visits(Remaining(t, Some(t[last])))
            && |Remaining(t, Some(t[last]))| < |Remaining(t, cursor)|
            && (forall id :: id in page ==> id in t && t[id] >= t[last])
            && Distinct(done + page) && Distinct(page)
  {
    hide Distinct, InOrder, Visits, Batch, Below;
    var rest := Remaining(t, cursor);
    var page, last := Batch(rest), LastOf(rest);
    BatchOfRemaining(t, cursor);
    RemainingBelow(t, cursor, last);
    VisitsInOrder(t);
    var tail := Visits(Below(t, t[last]));
    assert done + (page + tail) == (done + page) + tail;
    DistinctFront(t, done, page, tail);
  }

  lemma DistinctFront(t: Keyed, done: seq<ID>, page: seq<ID>, tail: seq<ID>)
    requires InOrder(t, done + (page + tail))
    ensures Distinct(done + page) && Distinct(page)
  {
    assert done + (page + tail) == done + page + tail;
    assert forall i :: 0 <= i < |done + page| ==> (done + page)[i] == (done + page + tail)[i];
    DistinctParts(done, page);
  }

  lemma SweepStart(c: Context, p: Pass, w: World, dry: bool, cursor: Option<int>)
    requires cursor == if p.UncacheRemote? then Some(p.after) else None
    ensures Remaining(Candidates(p, w.rows), cursor) == Candidates(p, w.rows)
    ensures Ends(c, p, w, [], dry) == w && |ActedIDs(c, p, w, [], dry)| == 0
  {
  }

  lemma SelectedRows(c: Context, p: Pass, w: World, done: seq<ID>, cursor: Option<int>, dry: bool)
    requires forall id :: id in done ==>
               id in Candidates(p, w.rows) && cursor.Some? && Candidates(p, w.rows)[id] >= cursor.value
    ensures var t, rows := Candidates(p, w.rows), Ends(c, p, w, done, dry).rows;
            && Remaining(Candidates(p, rows), cursor) == Remaining(t, cursor)
            && (forall id :: id in Remaining(t, cursor) ==>
                 id in rows && InTable(p.table, rows[id]) && PageKey(p, id, rows[id]) == t[id])
  {
    hide Ends;
    RemainingUnchanged(c, p, w, done, cursor, dry);
    var rows := Ends(c, p, w, done, dry).rows;
    forall id | id in Remaining(Candidates(p, rows), cursor)
      ensures id in rows && InTable(p.table, rows[id]) && PageKey(p, id, rows[id]) == Candidates(p, rows)[id]
    {
    }
  }

  lemma VisitsNothing(t: Keyed)
    requires Batch(t) == []
    ensures Visits(t) == []
  {
  }
}
