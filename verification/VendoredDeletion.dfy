/** What the deletion of the vendored index means for the documented contract of an invalidation. */
module VendoredDeletion {
  import opened Caches
  import opened Cascade
  import opened Coherence
  import opened Records

  /** No two cached records share a key of a unique index. */
  ghost predicate UniqueKeys(entries: set<Entry>) {
    forall x, y :: x in entries && y in entries && Competes(x, y) ==> x == y
  }

  lemma CompetesIsSymmetric(x: Entry, y: Entry)
    ensures Competes(x, y) ==> Competes(y, x)
  {
    hide KeyOf, IsUnique;
    if Competes(x, y) {
      var i :| IsUnique(KindOf(y), i) && Hits(x, Target(KindOf(y), i, KeyOf(y, i)));
      assert IsUnique(KindOf(x), i) && Hits(y, Target(KindOf(x), i, KeyOf(x, i)));
    }
  }

  lemma InsertKeepsUniqueKeys(entries: set<Entry>, e: Entry)
    requires UniqueKeys(entries)
    ensures UniqueKeys(Insert(entries, e))
  {
    hide Competes;
    forall x, y | x in Insert(entries, e) && y in Insert(entries, e) && Competes(x, y)
      ensures x == y
    {
      CompetesIsSymmetric(x, y);
    }
  }

  /** So a key of a unique index has at most one item, and deleting it leaves nothing behind;
      only an index declared `Multiple` can hold the two items of which one is left. */
  lemma UniqueIndexHoldsOne(entries: set<Entry>, t: Target, x: Entry, y: Entry)
    requires UniqueKeys(entries) && IsUnique(t.kind, t.index)
    requires x in entries && y in entries && Hits(x, t) && Hits(y, t)
    ensures x == y
  {
    hide KeyOf, IsUnique;
    assert Hits(x, Target(KindOf(y), t.index, KeyOf(y, t.index)));
    assert Competes(x, y);
  }

  /** The list an index keeps under a key: the cached records found under it, each once, in any order. */
  ghost predicate Lists(entries: set<Entry>, t: Target, items: seq<Entry>) {
    && (forall i, j :: 0 <= i < j < |items| ==> items[i] != items[j])
    && (forall x :: x in items <==> x in entries && Hits(x, t))
  }

  /** What is cached once the items that Index.delete passes on have been dropped. */
  function Deleted(entries: set<Entry>, items: seq<Entry>): set<Entry> {
    var passed := items[..(|items| + 1) / 2];
    entries - set x | x in passed
  }

  /** The records under a key have all left the cache, as Invalidate promises, exactly when there was
      at most one. Otherwise the last half of the list stays cached; the key itself is gone from the
      index, so no later invalidation of it finds them. */
  lemma KeyClearedIff(entries: set<Entry>, t: Target, items: seq<Entry>)
    requires Lists(entries, t, items)
    ensures (forall x :: x in Deleted(entries, items) ==> !Hits(x, t)) <==> |items| <= 1
    ensures forall i :: 0 <= i < |items| ==> (items[i] in Deleted(entries, items) <==> (|items| + 1) / 2 <= i)
  {
    hide Hits;
    var k := (|items| + 1) / 2;
    forall i | 0 <= i < |items|
      ensures items[i] in items[..k] <==> i < k
    {
      assert i < k ==> items[..k][i] == items[i];
    }
    if |items| > 1 {
      assert items[|items| - 1] in Deleted(entries, items);
    } else {
      assert items[..k] == items;
    }
  }

  /** A visibility that any follow or block between requester and owner forbids. */
  const UNRELATED: Judge := (_, _, _, relation) => relation == {}

  const S1 := Status("S1", "u1", "B", [], "", "", "", "")
  const S2 := Status("S2", "u2", "B", [], "", "", "", "")
  const V1 := Visibility("S1", "A", 's', true)
  const V2 := Visibility("S2", "A", 's', true)
  const A_BLOCKS_B := Block("X", "u", "A", "B")

  lemma BothHit()
    ensures Hits(V1, Target(KVisibility, ByRequesterID, ["A"])) && Hits(V2, Target(KVisibility, ByRequesterID, ["A"]))
  {
  }

  lemma HookMissesOtherKeys()
    ensures forall t :: t in HookCalls(A_BLOCKS_B).targets && t != Target(KVisibility, ByRequesterID, ["A"]) ==>
              !Hits(V1, t) && !Hits(V2, t)
  {
    hide Keys;
    assert HookCalls(A_BLOCKS_B).targets == Endpoints("A", "B");
  }

  lemma VisibleBefore()
    ensures VisibilityFresh(UNRELATED, Sys({S1, S2}, Snapshot({V1, V2}, map[])))
  {
    forall requester, items
      ensures Relation({S1, S2}, requester, items) == {}
    {
    }
  }

  lemma StaleAfter(mem: Snapshot, v: Entry, s: Entry)
    requires v in mem.entries && ((v == V1 && s == S1) || (v == V2 && s == S2))
    ensures !VisibilityFresh(UNRELATED, Sys(Upsert({S1, S2}, A_BLOCKS_B), mem))
  {
    var db := Upsert({S1, S2}, A_BLOCKS_B);
    var rows := ItemRows(db, 's', v.itemID);
    assert s in db && A_BLOCKS_B in db;
    assert s in rows && Between(A_BLOCKS_B, "A", s);
    assert A_BLOCKS_B in Relation(db, "A", rows);
    hide ItemRows, Relation, Upsert;
    assert Fresh(UNRELATED, db, 's', "A", v.itemID) == false;
  }

  /** So a block can leave a stale visibility behind: of two cached lookups by the blocker only one
      goes, and no other key of the hook reaches the other. */
  lemma BlockLeavesStaleVisibility(items: seq<Entry>)
    requires Lists({V1, V2}, Target(KVisibility, ByRequesterID, ["A"]), items)
    ensures forall t :: t in HookCalls(A_BLOCKS_B).targets && t != Target(KVisibility, ByRequesterID, ["A"]) ==>
              !Hits(V1, t) && !Hits(V2, t)
    ensures VisibilityFresh(UNRELATED, Sys({S1, S2}, Snapshot({V1, V2}, map[])))
    ensures !VisibilityFresh(UNRELATED, Sys(Upsert({S1, S2}, A_BLOCKS_B), Snapshot(Deleted({V1, V2}, items), map[])))
  {
    hide HookCalls, Hits, VisibilityFresh, Upsert;
    var t := Target(KVisibility, ByRequesterID, ["A"]);
    BothHit();
    HookMissesOtherKeys();
    VisibleBefore();
    assert V1 in items && V2 in items;
    KeyClearedIff({V1, V2}, t, items);
    var v :| v in Deleted({V1, V2}, items) && Hits(v, t);
    StaleAfter(Snapshot(Deleted({V1, V2}, items), map[]), v, if v == V1 then S1 else S2);
  }
}
