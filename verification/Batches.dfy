/** Cursor-paged selection: ORDER BY key DESC, id DESC LIMIT 50, each batch strictly below the
    key of the last row of the one before (internal/cleaner/media.go, internal/cleaner/emoji.go). */
module Batches {

  type ID = nat

  const SELECT_LIMIT := 50

  /** Rows by ID, with the column they are ordered by. */
  type Keyed = map<ID, int>

  predicate Precedes(t: Keyed, a: ID, b: ID)
    requires a in t && b in t
  {
    t[a] > t[b] || (t[a] == t[b] && a >= b)
  }

  lemma FindFirst(t: Keyed) returns (a: ID)
    requires t != map[]
    ensures a in t && forall b :: b in t ==> Precedes(t, a, b)
  {
    var x :| x in t;
    a := x;
    var rest := t - {x};
    if rest != map[] {
      var y := FindFirst(rest);
      assert forall b :: b in t && b != x ==> Precedes(rest, y, b);
      if !Precedes(t, x, y) {
        a := y;
      }
    } else {
      assert forall b :: b in t && b != x ==> b in rest;
    }
  }

  lemma FirstExists(t: Keyed)
    requires t != map[]
    ensures exists a :: a in t && forall b :: b in t ==> Precedes(t, a, b)
  {
    var _ := FindFirst(t);
  }

  function First(t: Keyed): (a: ID)
    requires t != map[]
    ensures a in t && forall b :: b in t ==> Precedes(t, a, b)
  {
    FirstExists(t);
    var a :| a in t && forall b :: b in t ==> Precedes(t, a, b);
    a
  }

  /** All rows, in the order of the query. */
  function Ordered(t: Keyed): (s: seq<ID>)
    decreases |t|
    ensures |s| == |t|
    ensures s == [] <==> t == map[]
    ensures forall id :: id in s <==> id in t
  {
    if t == map[] then []
    else
      var a := First(t);
      assert (t - {a}).Keys == t.Keys - {a};
      [a] + Ordered(t - {a})
  }

  /** Distinct rows, each before the ones that follow. */
  ghost predicate InOrder(t: Keyed, s: seq<ID>) {
    && (forall id :: id in s ==> id in t)
    && (forall i, j :: 0 <= i < j < |s| ==> s[i] != s[j] && Precedes(t, s[i], s[j]))
  }

  lemma ConcatInOrder(t: Keyed, a: seq<ID>, b: seq<ID>)
    requires InOrder(t, a) && InOrder(t, b)
    requires forall x, y :: x in a && y in b ==> x != y && Precedes(t, x, y)
    ensures InOrder(t, a + b)
  {
    var s := a + b;
    forall i, j | 0 <= i < j < |s|
      ensures s[i] in t && s[j] in t && s[i] != s[j] && Precedes(t, s[i], s[j])
    {
      assert i < |a| ==> s[i] == a[i] && a[i] in a;
      assert i >= |a| ==> s[i] == b[i - |a|];
      assert j < |a| ==> s[j] == a[j];
      assert j >= |a| ==> s[j] == b[j - |a|] && b[j - |a|] in b;
    }
  }

  lemma InOrderAmongMore(t: Keyed, part: Keyed, s: seq<ID>)
    requires InOrder(part, s) && forall id :: id in part ==> id in t && t[id] == part[id]
    ensures InOrder(t, s)
  {
    forall i, j | 0 <= i < j < |s|
      ensures Precedes(t, s[i], s[j])
    {
      assert Precedes(part, s[i], s[j]);
    }
  }

  lemma {:induction false} OrderedIsSorted(t: Keyed)
    ensures InOrder(t, Ordered(t))
    decreases |t|
  {
    hide InOrder;
    if t == map[] {
      EmptyInOrder(t);
    } else {
      var a := First(t);
      var rest := t - {a};
      assert rest.Keys == t.Keys - {a};
      OrderedIsSorted(rest);
      InOrderAmongMore(t, rest, Ordered(rest));
      SingleInOrder(t, a);
      ConcatInOrder(t, [a], Ordered(rest));
    }
  }

  lemma EmptyInOrder(t: Keyed)
    ensures InOrder(t, [])
  {
  }

  lemma SingleInOrder(t: Keyed, a: ID)
    requires a in t
    ensures InOrder(t, [a])
  {
  }

  function Batch(t: Keyed): (b: seq<ID>)
    ensures |b| <= SELECT_LIMIT
    ensures forall id :: id in b ==> id in t
    ensures b == [] <==> t == map[]
  {
    var s := Ordered(t);
    if |s| <= SELECT_LIMIT then s else s[..SELECT_LIMIT]
  }

  function Below(t: Keyed, cursor: int): Keyed {
    map id | id in t && t[id] < cursor :: t[id]
  }

  /** The rows the batches deliver, in order. */
  function Visits(t: Keyed): (s: seq<ID>)
    decreases |t|
    ensures forall id :: id in s ==> id in t
  {
    if t == map[] then []
    else
      var b := Batch(t);
      var rest := Below(t, t[b[|b| - 1]]);
      BelowShrinks(t, b[|b| - 1]);
      b + Visits(rest)
  }

  /** The row a batch ends with. */
  function LastOf(t: Keyed): ID
    requires t != map[]
  {
    Batch(t)[|Batch(t)| - 1]
  }

  lemma VisitsUnfold(t: Keyed)
    requires t != map[]
    ensures LastOf(t) in t
    ensures Visits(t) == Batch(t) + Visits(Below(t, t[LastOf(t)]))
    ensures |Below(t, t[LastOf(t)])| < |t|
  {
    BelowShrinks(t, LastOf(t));
  }

  lemma BelowShrinks(t: Keyed, id: ID)
    requires id in t
    ensures |Below(t, t[id])| < |t|
  {
    assert Below(t, t[id]).Keys <= t.Keys - {id};
    CardinalityMonotone(Below(t, t[id]).Keys, t.Keys - {id});
  }

  lemma CardinalityMonotone(a: set<ID>, b: set<ID>)
    requires a <= b
    ensures |a| <= |b|
  {
    if a != {} {
      var x :| x in a;
      CardinalityMonotone(a - {x}, b - {x});
    }
  }

  /** A group of equal keys is cut by the end of some batch, batch by batch. */
  predicate Straddles(t: Keyed)
    decreases |t|
  {
    t != map[] &&
    var b := Batch(t);
    var last := b[|b| - 1];
    BelowShrinks(t, last);
    (exists id :: id in t && id !in b && t[id] == t[last]) || Straddles(Below(t, t[last]))
  }

  /** A batch is the front of the order: what follows it has no greater key. */
  lemma BatchIsFront(t: Keyed)
    requires t != map[]
    ensures InOrder(t, Batch(t))
    ensures forall id :: id in t && id !in Batch(t) ==> t[id] <= t[Batch(t)[|Batch(t)| - 1]]
    ensures forall id :: id in Batch(t) ==> t[id] >= t[Batch(t)[|Batch(t)| - 1]]
  {
    hide InOrder, Ordered, Precedes;
    OrderedIsSorted(t);
    var s, b := Ordered(t), Batch(t);
    assert b == s[..|b|] && 0 < |b| <= |s| && b[|b| - 1] == s[|b| - 1];
    hide Batch;
    FrontInOrder(t, s, |b|);
  }

  lemma FrontInOrder(t: Keyed, s: seq<ID>, n: nat)
    requires InOrder(t, s) && 0 < n <= |s|
    ensures InOrder(t, s[..n])
    ensures forall id :: id in s[..n] ==> t[id] >= t[s[n - 1]]
    ensures forall id :: id in s && id !in s[..n] ==> t[id] <= t[s[n - 1]]
  {
    forall id | id in s
      ensures id in s[..n] ==> t[id] >= t[s[n - 1]]
      ensures id !in s[..n] ==> t[id] <= t[s[n - 1]]
    {
      var j :| 0 <= j < |s| && s[j] == id;
      assert j < n ==> s[..n][j] == id;
      if j < n - 1 {
        assert Precedes(t, s[j], s[n - 1]);
      } else if n <= j {
        assert Precedes(t, s[n - 1], s[j]);
      }
    }
  }

  /** Every row is visited at most once, in the order of the query. */
  lemma {:induction false} VisitsInOrder(t: Keyed)
    ensures InOrder(t, Visits(t))
    decreases |t|
  {
    if t != map[] {
      var b := Batch(t);
      var rest := Below(t, t[b[|b| - 1]]);
      BelowShrinks(t, b[|b| - 1]);
      VisitsInOrder(rest);
      BatchIsFront(t);
      InOrderAmongMore(t, rest, Visits(rest));
      ConcatInOrder(t, b, Visits(rest));
    }
  }

  /** A group of the key the batch ends with has rows outside the batch. */
  predicate EndsInside(t: Keyed, b: seq<ID>, last: ID)
    requires last in t
  {
    exists id :: id in t && id !in b && t[id] == t[last]
  }

  lemma StraddlesUnfold(t: Keyed)
    requires t != map[]
    ensures Straddles(t) <==> EndsInside(t, Batch(t), LastOf(t)) || Straddles(Below(t, t[LastOf(t)]))
  {
    BelowShrinks(t, LastOf(t));
  }

  /** A batch and what follows it leave out the rest of its last group, and what follows leaves out. */
  lemma CoveredIff(t: Keyed, b: seq<ID>, last: ID, v: seq<ID>)
    requires last in t && (forall id :: id in t && id !in b ==> t[id] <= t[last])
    requires forall id :: id in b ==> id in t && t[id] >= t[last]
    requires forall id :: id in v ==> id in Below(t, t[last])
    ensures (forall id :: id in t ==> id in b + v) <==>
            !EndsInside(t, b, last) && forall id :: id in Below(t, t[last]) ==> id in v
  {
    if id :| id in t && id !in b && t[id] == t[last] {
      assert id !in v && id !in b + v;
    } else {
      assert forall id :: id in t ==> (id in b || id in Below(t, t[last]));
      assert forall id :: id in Below(t, t[last]) ==> id in t && id !in b;
    }
  }

  lemma {:induction false} VisitsAllUnlessStraddling(t: Keyed)
    ensures (forall id :: id in t ==> id in Visits(t)) <==> !Straddles(t)
    decreases |t|
  {
    if t != map[] {
      hide Visits, Straddles, Batch, Below, EndsInside, InOrder;
      VisitsUnfold(t);
      StraddlesUnfold(t);
      BatchIsFront(t);
      CoveredIff(t, Batch(t), LastOf(t), Visits(Below(t, t[LastOf(t)])));
      VisitsAllUnlessStraddling(Below(t, t[LastOf(t)]));
    }
  }

  /** Two sequences of the same rows in the order of the query are equal. */
  lemma {:induction false} InOrderIsUnique(t: Keyed, s: seq<ID>, r: seq<ID>)
    requires InOrder(t, s) && InOrder(t, r)
    requires forall id :: id in s <==> id in r
    ensures s == r
  {
    if s == [] {
      assert forall i :: 0 <= i < |r| ==> r[i] in r;
    } else {
      assert s[0] in r && r[0] in s;
      assert s[0] == r[0];
      forall id
        ensures id in s[1..] <==> id in r[1..]
      {
        assert id in s <==> id == s[0] || id in s[1..];
        assert id in r <==> id == r[0] || id in r[1..];
      }
      InOrderIsUnique(t, s[1..], r[1..]);
    }
  }

  /** The keys of the rows, in the order of the query. */
  function KeysOf(t: Keyed): (keys: seq<int>)
    ensures |keys| == |Ordered(t)|
  {
    var s := Ordered(t);
    seq(|s|, i requires 0 <= i < |s| => t[s[i]])
  }

  /** The last key of the j-th full batch equals the key after it. */
  predicate CutsAt(keys: seq<int>, j: nat) {
    0 < j && SELECT_LIMIT * j < |keys| && keys[SELECT_LIMIT * j - 1] == keys[SELECT_LIMIT * j]
  }

  /** Some full batch ends inside a group of equal keys. */
  ghost predicate CutsGroup(t: Keyed) {
    exists j: nat :: CutsAt(KeysOf(t), j)
  }

  lemma RestMembers(t: Keyed, s: seq<ID>)
    requires InOrder(t, s) && |s| > SELECT_LIMIT && t[s[SELECT_LIMIT - 1]] != t[s[SELECT_LIMIT]]
    ensures forall i :: 0 <= i < |s| ==> (s[i] in Below(t, t[s[SELECT_LIMIT - 1]]) <==> SELECT_LIMIT <= i)
  {
    forall i | 0 <= i < |s|
      ensures t[s[i]] < t[s[SELECT_LIMIT - 1]] <==> SELECT_LIMIT <= i
    {
      if i < SELECT_LIMIT - 1 {
        assert Precedes(t, s[i], s[SELECT_LIMIT - 1]);
      } else if SELECT_LIMIT <= i {
        assert Precedes(t, s[SELECT_LIMIT - 1], s[SELECT_LIMIT]);
        assert i == SELECT_LIMIT || Precedes(t, s[SELECT_LIMIT], s[i]);
      }
    }
  }

  lemma RestInOrder(t: Keyed, s: seq<ID>, o: seq<ID>)
    requires InOrder(t, s) && (forall id :: id in t ==> id in s)
    requires |s| > SELECT_LIMIT && t[s[SELECT_LIMIT - 1]] != t[s[SELECT_LIMIT]]
    requires var rest := Below(t, t[s[SELECT_LIMIT - 1]]);
             InOrder(rest, o) && forall id :: id in rest ==> id in o
    ensures o == s[SELECT_LIMIT..]
  {
    var cursor := t[s[SELECT_LIMIT - 1]];
    hide InOrder, Below;
    RestMembers(t, s);
    BelowKeepsKeys(t, cursor);
    SuffixInOrder(t, Below(t, cursor), s, SELECT_LIMIT);
    MembersInOrder(Below(t, cursor), o);
    InOrderIsUnique(Below(t, cursor), o, s[SELECT_LIMIT..]);
  }

  lemma MembersInOrder(t: Keyed, s: seq<ID>)
    requires InOrder(t, s)
    ensures forall id :: id in s ==> id in t
  {
  }

  /** What the batches after the first run over is the rest of the order. */
  lemma RestIsOrdered(t: Keyed)
    requires |Ordered(t)| > SELECT_LIMIT && !CutsAt(KeysOf(t), 1)
    ensures t != map[] && KeysOf(Below(t, t[LastOf(t)])) == KeysOf(t)[SELECT_LIMIT..]
  {
    hide Ordered, InOrder, Below;
    var s := Ordered(t);
    assert LastOf(t) == s[SELECT_LIMIT - 1];
    assert s[SELECT_LIMIT] in s && s[SELECT_LIMIT - 1] in s;
    var rest := Below(t, t[s[SELECT_LIMIT - 1]]);
    OrderedIsSorted(t);
    OrderedIsSorted(rest);
    RestInOrder(t, s, Ordered(rest));
    BelowKeepsKeys(t, t[s[SELECT_LIMIT - 1]]);
    KeysOfRest(t, rest);
  }

  lemma KeysOfRest(t: Keyed, rest: Keyed)
    requires |Ordered(t)| > SELECT_LIMIT && Ordered(rest) == Ordered(t)[SELECT_LIMIT..]
    requires forall id :: id in rest ==> id in t && rest[id] == t[id]
    ensures KeysOf(rest) == KeysOf(t)[SELECT_LIMIT..]
  {
    hide Ordered;
    forall i | 0 <= i < |Ordered(rest)|
      ensures KeysOf(rest)[i] == KeysOf(t)[SELECT_LIMIT..][i]
    {
      assert Ordered(rest)[i] in Ordered(rest);
    }
  }

  lemma BelowKeepsKeys(t: Keyed, cursor: int)
    ensures forall id :: id in Below(t, cursor) ==> id in t && Below(t, cursor)[id] == t[id]
  {
  }

  lemma SuffixInOrder(t: Keyed, rest: Keyed, s: seq<ID>, n: nat)
    requires InOrder(t, s) && n <= |s| && (forall id :: id in t ==> id in s)
    requires forall id :: id in rest ==> id in t && rest[id] == t[id]
    requires forall i :: 0 <= i < |s| ==> (s[i] in rest <==> n <= i)
    ensures InOrder(rest, s[n..]) && forall id :: id in s[n..] <==> id in rest
  {
    forall id | id in rest
      ensures id in s[n..]
    {
      var i :| 0 <= i < |s| && s[i] == id;
      assert s[n..][i - n] == id;
    }
  }

  lemma {:induction false} StraddlesIff(t: Keyed)
    ensures Straddles(t) <==> CutsGroup(t)
    decreases |t|
  {
    if t != map[] {
      hide InOrder, Ordered, Batch, Below, KeysOf, CutsAt, Straddles;
      VisitsUnfold(t);
      StraddlesUnfold(t);
      if |Ordered(t)| <= SELECT_LIMIT {
        LastBatch(t);
      } else if CutsAt(KeysOf(t), 1) {
        FiftiethIsOutside(t);
      } else {
        RestIsOrdered(t);
        StraddlesIff(Below(t, t[LastOf(t)]));
        BeyondIsSmaller(t);
        ShiftCuts(KeysOf(t));
      }
    }
  }

  lemma LastBatch(t: Keyed)
    requires t != map[] && |Ordered(t)| <= SELECT_LIMIT
    ensures forall id :: id in t ==> id in Batch(t)
    ensures !EndsInside(t, Batch(t), LastOf(t)) && Below(t, t[LastOf(t)]) == map[]
    ensures !CutsGroup(t)
  {
    hide InOrder;
    BatchIsFront(t);
  }

  lemma FiftiethIsOutside(t: Keyed)
    requires t != map[] && CutsAt(KeysOf(t), 1)
    ensures EndsInside(t, Batch(t), LastOf(t)) && CutsGroup(t)
  {
    hide Ordered;
    OrderedIsSorted(t);
    var s := Ordered(t);
    assert s[SELECT_LIMIT] in s && s[SELECT_LIMIT] !in s[..SELECT_LIMIT];
    assert s[SELECT_LIMIT] in t && t[s[SELECT_LIMIT]] == t[LastOf(t)];
  }

  lemma BeyondIsSmaller(t: Keyed)
    requires |Ordered(t)| > SELECT_LIMIT && !CutsAt(KeysOf(t), 1)
    ensures t != map[] && !EndsInside(t, Batch(t), LastOf(t))
  {
    hide Ordered;
    var s := Ordered(t);
    OrderedIsSorted(t);
    forall id | id in t && id !in s[..SELECT_LIMIT]
      ensures t[id] != t[s[SELECT_LIMIT - 1]]
    {
      var i :| SELECT_LIMIT <= i < |s| && s[i] == id;
      assert Precedes(t, s[SELECT_LIMIT - 1], s[SELECT_LIMIT]);
      assert i == SELECT_LIMIT || Precedes(t, s[SELECT_LIMIT], s[i]);
    }
  }

  lemma ShiftCuts(keys: seq<int>)
    requires |keys| > SELECT_LIMIT && !CutsAt(keys, 1)
    ensures (exists j: nat :: CutsAt(keys[SELECT_LIMIT..], j)) <==> exists j: nat :: CutsAt(keys, j)
  {
    if j: nat :| CutsAt(keys[SELECT_LIMIT..], j) {
      assert CutsAt(keys, j + 1);
    }
    if j: nat :| CutsAt(keys, j) {
      assert CutsAt(keys[SELECT_LIMIT..], j - 1);
    }
  }

  /** The batches deliver every row exactly when no full batch ends inside a group of equal keys. */
  lemma VisitsAllIff(t: Keyed)
    ensures (forall id :: id in t ==> id in Visits(t)) <==> !CutsGroup(t)
  {
    VisitsAllUnlessStraddling(t);
    StraddlesIff(t);
  }

  /** Without a cut group the batches deliver each row exactly once, in the order of the query. */
  lemma VisitsAreOrdered(t: Keyed)
    requires !CutsGroup(t)
    ensures Visits(t) == Ordered(t)
  {
    VisitsAllIff(t);
    VisitsInOrder(t);
    OrderedIsSorted(t);
    InOrderIsUnique(t, Visits(t), Ordered(t));
  }

  /** In particular when no two rows share a key, as when the key is the ID: every max-ID loop. */
  lemma DistinctKeysVisitAll(t: Keyed)
    requires forall a, b :: a in t && b in t && t[a] == t[b] ==> a == b
    ensures Visits(t) == Ordered(t)
  {
    OrderedIsSorted(t);
    VisitsAreOrdered(t);
  }

  /** Rows by descending key, equal keys in any order. */
  ghost predicate Descending(t: Keyed, s: seq<ID>) {
    && (forall id :: id in s <==> id in t)
    && (forall i, j :: 0 <= i < j < |s| ==> s[i] != s[j] && t[s[i]] >= t[s[j]])
  }

  /** Whichever order the database gives rows of equal keys, the keys come in the same order, so
      whether a group is cut does not depend on it. */
  lemma TiesDoNotMatter(t: Keyed, s: seq<ID>)
    requires Descending(t, s)
    ensures KeysOf(t) == seq(|s|, i requires 0 <= i < |s| => t[s[i]])
  {
    hide Ordered, InOrder;
    var o := Ordered(t);
    OrderedIsSorted(t);
    OrderDescends(t, o);
    SameCount(t, s, o);
    forall i | 0 <= i < |s|
      ensures t[s[i]] == t[o[i]]
    {
      NotBelow(t, s, o, i);
      NotBelow(t, o, s, i);
    }
  }

  lemma OrderDescends(t: Keyed, o: seq<ID>)
    requires InOrder(t, o) && forall id :: id in t ==> id in o
    ensures Descending(t, o)
  {
    forall i, j | 0 <= i < j < |o|
      ensures t[o[i]] >= t[o[j]]
    {
      assert Precedes(t, o[i], o[j]);
    }
  }

  lemma SameCount(t: Keyed, s: seq<ID>, o: seq<ID>)
    requires Descending(t, s) && Descending(t, o)
    ensures |s| == |o|
  {
    NoMore(s, o);
    NoMore(o, s);
  }

  /** Distinct rows that are all among others are no more than those. */
  lemma {:induction false} NoMore(s: seq<ID>, o: seq<ID>)
    requires forall i, j :: 0 <= i < j < |s| ==> s[i] != s[j]
    requires forall id :: id in s ==> id in o
    ensures |s| <= |o|
  {
    if s != [] {
      var last := s[|s| - 1];
      assert last in s;
      var n :| 0 <= n < |o| && o[n] == last;
      var rest, others := s[..|s| - 1], o[..n] + o[n + 1..];
      forall id | id in rest
        ensures id in others
      {
        assert id in s && id != last;
        var m :| 0 <= m < |o| && o[m] == id;
        assert m < n ==> others[m] == id;
        assert m > n ==> others[m - 1] == id;
      }
      NoMore(rest, others);
    }
  }

  /** Were a key smaller than the other order's, one row too many would have to come before it. */
  lemma NotBelow(t: Keyed, s: seq<ID>, o: seq<ID>, i: nat)
    requires Descending(t, s) && Descending(t, o) && i < |s| && i < |o|
    ensures t[s[i]] >= t[o[i]]
  {
    if t[s[i]] < t[o[i]] {
      var front, others := s[..i], o[..i + 1];
      forall id | id in others
        ensures id in front
      {
        assert t[id] >= t[o[i]] && id in s;
        var n :| 0 <= n < |s| && s[n] == id;
        assert n < i;
        assert front[n] == id;
      }
      NoMore(others, front);
    }
  }

  /** Rows with the IDs below n. */
  function FirstIDs(n: nat): (s: set<ID>)
    ensures |s| == n && forall id :: id in s ==> id < n
  {
    if n == 0 then {} else FirstIDs(n - 1) + {n - 1}
  }

  /** Fifty-one rows created at one time: one of them is never visited. */
  lemma OneGroupOfFiftyOne()
    ensures var t: Keyed := map id | id in FirstIDs(51) :: 0;
            CutsGroup(t) && exists id :: id in t && id !in Visits(t)
  {
    hide Ordered, Visits, FirstIDs;
    var t: Keyed := map id | id in FirstIDs(51) :: 0;
    assert t.Keys == FirstIDs(51);
    OrderedIsSorted(t);
    assert CutsAt(KeysOf(t), 1);
    VisitsAllIff(t);
  }

  /** Fifty rows created at one time make one batch, and are all visited. */
  lemma OneGroupOfFifty()
    ensures var t: Keyed := map id | id in FirstIDs(50) :: 0;
            !CutsGroup(t) && forall id :: id in t ==> id in Visits(t)
  {
    hide Ordered, Visits, FirstIDs;
    var t: Keyed := map id | id in FirstIDs(50) :: 0;
    assert t.Keys == FirstIDs(50);
    assert forall j :: !CutsAt(KeysOf(t), j);
    VisitsAllIff(t);
  }
}
