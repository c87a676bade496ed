/** Extraction loops over the entries of a property (internal/ap/extract.go). */
module Extract {
  import opened Wrappers

  /** An entry of a tag property: of another type, of the type wanted but not convertible,
      or converted to a value with its key. */
  datatype Tag<T> = Other | Bad | Good(key: string, value: T)

  /** The entry is the first convertible one with its key. */
  ghost predicate IsFirst<T(!new)>(entries: seq<Tag<T>>, i: nat) {
    i < |entries| && entries[i].Good? && forall j :: 0 <= j < i && entries[j].Good? ==> entries[j].key != entries[i].key
  }

  /** The values are those of exactly the first entries of each key, in the order of the entries. */
  ghost predicate FirstOfEachKey<T(!new)>(entries: seq<Tag<T>>, picks: seq<nat>, values: seq<T>) {
    && (forall i :: i in picks <==> IsFirst(entries, i))
    && (forall a, b :: 0 <= a < b < |picks| ==> picks[a] < picks[b])
    && |values| == |picks|
    && (forall a :: 0 <= a < |picks| && picks[a] < |entries| && entries[picks[a]].Good? ==> values[a] == entries[picks[a]].value)
  }

  /** There is only one such list: the specification leaves no choice of entries, order or number. */
  lemma {:induction false} PicksAreUnique<T(!new)>(entries: seq<Tag<T>>, p: seq<nat>, v: seq<T>, q: seq<nat>, w: seq<T>)
    requires FirstOfEachKey(entries, p, v) && FirstOfEachKey(entries, q, w)
    ensures p == q && v == w
  {
    AscendingIsUnique(p, q);
    forall a | 0 <= a < |p|
      ensures v[a] == w[a]
    {
      assert p[a] in p;
    }
  }

  lemma {:induction false} AscendingIsUnique(p: seq<nat>, q: seq<nat>)
    requires forall a, b :: 0 <= a < b < |p| ==> p[a] < p[b]
    requires forall a, b :: 0 <= a < b < |q| ==> q[a] < q[b]
    requires forall i :: i in p <==> i in q
    ensures p == q
  {
    if p == [] {
      assert forall a :: 0 <= a < |q| ==> q[a] in q;
    } else {
      assert p[0] in q && q[0] in p && p[0] == q[0];
      assert forall i :: i in p[1..] <==> i in p && i != p[0];
      assert forall i :: i in q[1..] <==> i in q && i != q[0];
      AscendingIsUnique(p[1..], q[1..]);
    }
  }

  lemma NextEntry<T(!new)>(entries: seq<Tag<T>>, n: nat, picks: seq<nat>, values: seq<T>)
    requires n < |entries| && FirstOfEachKey(entries[..n], picks, values)
    ensures IsFirst(entries[..n + 1], n) ==>
              entries[n].Good? && FirstOfEachKey(entries[..n + 1], picks + [n], values + [entries[n].value])
    ensures !IsFirst(entries[..n + 1], n) ==> FirstOfEachKey(entries[..n + 1], picks, values)
  {
    forall i: nat | i < n
      ensures IsFirst(entries[..n + 1], i) <==> IsFirst(entries[..n], i)
    {
    }
    forall a | 0 <= a < |picks|
      ensures picks[a] < n
    {
      assert picks[a] in picks;
    }
  }

  /** Nothing but the value of the first entry with its key is held, and each such value is. */
  ghost predicate HoldsFirsts<T(!new)>(entries: seq<Tag<T>>, values: seq<T>) {
    && (forall v :: v in values ==> exists i :: HasFirstKey(entries, i) && entries[i].value == v)
    && (forall i :: HasFirstKey(entries, i) ==> entries[i].value in values)
  }

  /** The entry converts, and no entry before it converts to the same key. */
  ghost predicate HasFirstKey<T(!new)>(entries: seq<Tag<T>>, i: int) {
    0 <= i < |entries| && entries[i].Good? && !exists j :: 0 <= j < i && entries[j].Good? && entries[j].key == entries[i].key
  }

  lemma FirstsAreHeld<T(!new)>(entries: seq<Tag<T>>, picks: seq<nat>, values: seq<T>)
    requires FirstOfEachKey(entries, picks, values)
    ensures HoldsFirsts(entries, values)
  {
    forall v | v in values
      ensures exists i :: HasFirstKey(entries, i) && entries[i].value == v
    {
      var a :| 0 <= a < |values| && values[a] == v;
      assert picks[a] in picks;
      assert HasFirstKey(entries, picks[a]);
    }
    forall i | HasFirstKey(entries, i)
      ensures entries[i].value in values
    {
      assert IsFirst(entries, i) && i in picks;
      var a :| 0 <= a < |picks| && picks[a] == i;
      assert values[a] == entries[i].value;
    }
  }

  /** ExtractHashtags: entries that do not convert are passed over. */
  method ExtractHashtags<T(!new)>(entries: seq<Tag<T>>) returns (tags: seq<T>)
    ensures exists picks :: FirstOfEachKey(entries, picks, tags)
    ensures HoldsFirsts(entries, tags)
  {
    tags := [];
    ghost var picks: seq<nat> := [];
    var keys: set<string> := {};
    var n := 0;
    while n < |entries|
      invariant 0 <= n <= |entries|
      invariant FirstOfEachKey(entries[..n], picks, tags)
      invariant forall k :: k in keys <==> exists j :: 0 <= j < n && entries[j].Good? && entries[j].key == k
    {
      NextEntry(entries, n, picks, tags);
      assert IsFirst(entries[..n + 1], n) <==> entries[n].Good? && entries[n].key !in keys;
      if entries[n].Good? && entries[n].key !in keys {
        keys, tags := keys + {entries[n].key}, tags + [entries[n].value];
        picks := picks + [n];
      }
      n := n + 1;
    }
    assert entries[..n] == entries;
    FirstsAreHeld(entries, picks, tags);
  }

  /** ExtractEmojis and ExtractMentions: the first entry that does not convert fails the whole. */
  method ExtractOrFail<T(!new)>(entries: seq<Tag<T>>) returns (r: Result<seq<T>>)
    ensures r.Failure? <==> Bad in entries
    ensures r.Success? ==> exists picks :: FirstOfEachKey(entries, picks, r.value)
    ensures r.Success? ==> HoldsFirsts(entries, r.value)
  {
    var values: seq<T>, keys: set<string> := [], {};
    ghost var picks: seq<nat> := [];
    var n := 0;
    while n < |entries|
      invariant 0 <= n <= |entries| && Bad !in entries[..n]
      invariant FirstOfEachKey(entries[..n], picks, values)
      invariant forall k :: k in keys <==> exists j :: 0 <= j < n && entries[j].Good? && entries[j].key == k
    {
      if entries[n].Bad? {
        return Failure;
      }
      NextEntry(entries, n, picks, values);
      assert IsFirst(entries[..n + 1], n) <==> entries[n].Good? && entries[n].key !in keys;
      if entries[n].Good? && entries[n].key !in keys {
        keys, values := keys + {entries[n].key}, values + [entries[n].value];
        picks := picks + [n];
      }
      n := n + 1;
    }
    assert entries[..n] == entries;
    FirstsAreHeld(entries, picks, values);
    r := Success(values);
  }

  /** The elements for which `f` has the given answer, in order. */
  function Keep<T>(s: seq<T>, f: T -> bool, answer: bool): seq<T> {
    if s == [] then []
    else Keep(s[..|s| - 1], f, answer) + if f(s[|s| - 1]) == answer then [s[|s| - 1]] else []
  }

  lemma {:induction false} KeepMembers<T>(s: seq<T>, f: T -> bool, answer: bool)
    ensures forall x :: x in Keep(s, f, answer) <==> x in s && f(x) == answer
  {
    if s != [] {
      KeepMembers(s[..|s| - 1], f, answer);
      assert s == s[..|s| - 1] + [s[|s| - 1]];
    }
  }

  lemma {:induction false} KeepAllOrNone<T>(s: seq<T>, f: T -> bool, answer: bool)
    requires forall k :: 0 <= k < |s| ==> f(s[k]) == answer
    ensures Keep(s, f, answer) == s && Keep(s, f, !answer) == []
  {
    if s != [] {
      KeepAllOrNone(s[..|s| - 1], f, answer);
    }
  }

  /** Nothing but possibly the last element is wanted. */
  predicate OnlyLast<T>(s: seq<T>, wanted: T -> bool) {
    forall k :: 0 <= k < |s| - 1 ==> !wanted(s[k])
  }

  /** copy(arr[:i], arr[i+1:]) on a slice of length n: as many elements as the shorter has. */
  method CopyOver<T>(arr: array<T>, i: nat, n: nat)
    requires i < n <= arr.Length
    modifies arr
    ensures var count := if i < n - i - 1 then i else n - i - 1;
            arr[..] == old(arr[i + 1..i + 1 + count]) + old(arr[count..])
    ensures forall k :: i <= k < arr.Length ==> arr[k] == old(arr[k])
    ensures i == n - 1 ==> arr[..] == old(arr[..])
  {
    var count := if i < n - i - 1 then i else n - i - 1;
    forall k | 0 <= k < count {
      arr[k] := arr[i + 1 + k];
    }
  }

  /** ExtractAccountables, ExtractStatusables and ExtractPollOptionables: meant to split a slice
      into the elements of a type and the rest. Each removal copies what follows the element onto
      the front of the slice, not onto the element, and the next element is passed over. The
      split comes out right exactly when nothing but the last element is of the type; otherwise
      the rest still holds an element of the type. */
  method ExtractMatching<T>(arr: array<T>, wanted: T -> bool) returns (found: seq<T>, n: nat)
    modifies arr
    ensures n + |found| == arr.Length
    ensures found == Keep(old(arr[..]), wanted, true) && arr[..n] == Keep(old(arr[..]), wanted, false) <==>
            OnlyLast(old(arr[..]), wanted)
    ensures (exists k :: 0 <= k < n && wanted(arr[k])) <==>
            exists k :: 0 <= k < arr.Length - 1 && wanted(old(arr[..])[k])
    ensures (forall k :: 0 <= k < arr.Length - 1 ==> !wanted(old(arr[..])[k])) ==>
              && arr[..n] == old(arr[..])[..n]
              && found == if arr.Length > 0 && wanted(old(arr[..])[arr.Length - 1]) then [old(arr[..])[arr.Length - 1]] else []
  {
    hide Keep, OnlyLast;
    ghost var a, last := arr[..], 0;
    found, n := [], arr.Length;
    KeepAllOrNone(a[..0], wanted, false);
    var i := 0;
    while i < n
      invariant n + |found| == arr.Length && 0 <= i <= n + 1 && i <= arr.Length
      invariant found == Keep(a[..i], wanted, true)
      invariant forall k :: i <= k < arr.Length ==> arr[k] == a[k]
      invariant found == [] ==> arr[..] == a
      invariant found != [] ==> last < i && wanted(a[last]) && arr[last] == a[last]
      invariant |found| == 1 && last >= n ==> arr[..] == a
      invariant |found| > 1 && last >= n ==> exists q :: 0 <= q < n && wanted(arr[q])
    {
      var elem := arr[i];
      KeepLast(a[..i + 1], wanted, true);
      assert a[..i + 1][..i] == a[..i];
      if wanted(elem) {
        ghost var before := last;
        found := found + [elem];
        CopyOver(arr, i, n);
        n := n - 1;
        last := i;
        assert |found| > 1 && last >= n ==> wanted(arr[before]);
      }
      i := i + 1;
    }
    SplitVerdict(a, arr[..n], found, wanted, i, last);
    OnlyLastInFields(a, wanted);
  }

  lemma OnlyLastInFields<T>(a: seq<T>, wanted: T -> bool)
    ensures OnlyLast(a, wanted) <==> !exists k :: 0 <= k < |a| - 1 && wanted(a[k])
    ensures OnlyLast(a, wanted) ==>
              && Keep(a, wanted, true) == (if |a| > 0 && wanted(a[|a| - 1]) then [a[|a| - 1]] else [])
              && Keep(a, wanted, false) == a[..|a| - |Keep(a, wanted, true)|]
  {
    hide Keep;
    if a != [] && OnlyLast(a, wanted) {
      KeepLast(a, wanted, true);
      KeepLast(a, wanted, false);
      KeepAllOrNone(a[..|a| - 1], wanted, false);
    } else if a == [] {
      KeepAllOrNone(a, wanted, true);
      KeepAllOrNone(a, wanted, false);
    }
  }

  lemma SplitVerdict<T>(a: seq<T>, rest: seq<T>, found: seq<T>, wanted: T -> bool, i: nat, last: nat)
    requires |rest| + |found| == |a| && |rest| <= i <= |a| && found == Keep(a[..i], wanted, true)
    requires found == [] ==> rest == a
    requires found != [] ==> last < i && wanted(a[last]) && (last < |rest| ==> wanted(rest[last]))
    requires |found| == 1 && last >= |rest| ==> rest == a[..|a| - 1]
    requires |found| > 1 && last >= |rest| ==> exists q :: 0 <= q < |rest| && wanted(rest[q])
    ensures found == Keep(a, wanted, true) && rest == Keep(a, wanted, false) <==> OnlyLast(a, wanted)
    ensures (exists k :: 0 <= k < |rest| && wanted(rest[k])) <==> !OnlyLast(a, wanted)
  {
    hide Keep;
    if OnlyLast(a, wanted) {
      SplitIsRight(a, rest, found, wanted, i, last);
    } else {
      var k :| 0 <= k < |a| - 1 && wanted(a[k]);
      WantedStays(a, rest, found, wanted, i, last, k);
      KeepMembers(a, wanted, false);
      assert forall q :: 0 <= q < |rest| ==> rest[q] in rest;
    }
  }

  lemma WantedStays<T>(a: seq<T>, rest: seq<T>, found: seq<T>, wanted: T -> bool, i: nat, last: nat, k: nat)
    requires |rest| + |found| == |a| && |rest| <= i <= |a| && found == Keep(a[..i], wanted, true)
    requires found == [] ==> rest == a
    requires found != [] ==> last < i && wanted(a[last]) && (last < |rest| ==> wanted(rest[last]))
    requires |found| == 1 && last >= |rest| ==> rest == a[..|a| - 1]
    requires |found| > 1 && last >= |rest| ==> exists q :: 0 <= q < |rest| && wanted(rest[q])
    requires k < |a| - 1 && wanted(a[k])
    ensures exists q :: 0 <= q < |rest| && wanted(rest[q])
  {
    hide Keep;
    if found == [] || (|found| == 1 && last >= |rest|) {
      assert wanted(rest[k]);
    }
  }

  lemma SplitIsRight<T>(a: seq<T>, rest: seq<T>, found: seq<T>, wanted: T -> bool, i: nat, last: nat)
    requires |rest| + |found| == |a| && |rest| <= i <= |a| && found == Keep(a[..i], wanted, true)
    requires found == [] ==> rest == a
    requires found != [] ==> last < i && wanted(a[last])
    requires |found| == 1 && last >= |rest| ==> rest == a[..|a| - 1]
    requires OnlyLast(a, wanted)
    ensures found == Keep(a, wanted, true) && rest == Keep(a, wanted, false)
    ensures forall q :: 0 <= q < |rest| ==> !wanted(rest[q])
  {
    hide Keep;
    if a != [] {
      NothingBeforeLast(a, wanted, i);
      assert i == |a| && a[..i] == a;
      KeepLast(a, wanted, true);
      KeepLast(a, wanted, false);
      KeepAllOrNone(a[..|a| - 1], wanted, false);
      if wanted(a[|a| - 1]) {
        assert last == |a| - 1;
      } else {
        assert found == [];
      }
    } else {
      KeepAllOrNone(a, wanted, false);
    }
  }

  lemma NothingBeforeLast<T>(a: seq<T>, wanted: T -> bool, i: nat)
    requires OnlyLast(a, wanted) && i <= |a|
    ensures i < |a| ==> Keep(a[..i], wanted, true) == []
  {
    if i < |a| {
      KeepAllOrNone(a[..i], wanted, false);
    }
  }

  lemma KeepLast<T>(s: seq<T>, f: T -> bool, answer: bool)
    requires s != []
    ensures Keep(s, f, answer) == Keep(s[..|s| - 1], f, answer) + if f(s[|s| - 1]) == answer then [s[|s| - 1]] else []
  {
  }
}
