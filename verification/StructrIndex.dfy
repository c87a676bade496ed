/** An index of the vendored cache library (vendor/codeberg.org/gruf/go-structr/index.go). */
module StructrIndex {
  import opened Wrappers

  class Index<T> {
    const unique: bool
    var data: map<string, seq<T>>

    ghost predicate Valid()
      reads this
    {
      forall key :: key in data ==> data[key] != [] && (unique ==> |data[key]| == 1)
    }

    function Items(key: string): seq<T>
      reads this
    {
      if key in data then data[key] else []
    }

    constructor (unique: bool)
      ensures Valid() && this.unique == unique && data == map[]
    {
      this.unique, data := unique, map[];
    }

    /** Index.append: in a unique index the item stored before loses this key, and stays under its others. */
    method Append(key: string, item: T) returns (displaced: Option<T>)
      requires Valid()
      modifies this
      ensures Valid()
      ensures data == old(data)[key := [item] + if unique then [] else old(Items(key))]
      ensures displaced == if unique && old(Items(key)) != [] then Some(old(Items(key))[0]) else None
    {
      displaced := None;
      var l := Items(key);
      if unique && l != [] {
        displaced, l := Some(l[0]), l[1..];
      }
      data := data[key := [item] + l];
    }

    /** Index.delete: the key goes; of its items the first half, rounded up, is handed to the hook
        that drops them from the cache. For a unique index these are all. */
    method Delete(key: string) returns (passed: seq<T>)
      requires Valid()
      modifies this
      ensures Valid() && data == old(data) - {key}
      ensures passed == old(Items(key))[..(|old(Items(key))| + 1) / 2]
      ensures passed == old(Items(key)) <==> |old(Items(key))| <= 1
      ensures unique ==> passed == old(Items(key))
    {
      var items := Items(key);
      data := data - {key};
      var left;
      passed, left := PopWhileShrinking(items);
    }
  }

  /** The loop of Index.delete: its bound is read again while the list shrinks. */
  method PopWhileShrinking<T>(items: seq<T>) returns (passed: seq<T>, left: seq<T>)
    ensures passed + left == items
    ensures |passed| == (|items| + 1) / 2
    ensures left == [] <==> |items| <= 1
  {
    passed, left := [], items;
    var x := 0;
    while x < |left|
      invariant x == |passed| <= |left| + 1
      invariant passed + left == items
      decreases |left|
    {
      passed, left := passed + [left[0]], left[1..];
      x := x + 1;
    }
  }

  /** The items of an index are kept in some order. */
  method InSomeOrder<T(==)>(s: set<T>) returns (items: seq<T>)
    ensures |items| == |s| && forall x :: x in items <==> x in s
    ensures forall i, j :: 0 <= i < j < |items| ==> items[i] != items[j]
  {
    items := [];
    var todo := s;
    while todo != {}
      invariant todo <= s && |items| + |todo| == |s|
      invariant forall x :: x in items <==> x in s - todo
      invariant forall i, j :: 0 <= i < j < |items| ==> items[i] != items[j]
      decreases todo
    {
      var x :| x in todo;
      assert forall i :: 0 <= i < |items| ==> items[i] in items;
      items, todo := items + [x], todo - {x};
    }
  }

  lemma {:induction false} DistinctCount<T>(s: seq<T>)
    requires forall i, j :: 0 <= i < j < |s| ==> s[i] != s[j]
    ensures |set x | x in s| == |s|
  {
    if s != [] {
      var rest, last := s[..|s| - 1], s[|s| - 1];
      DistinctCount(rest);
      assert last !in rest;
      assert (set x | x in s) == (set x | x in rest) + {last};
    }
  }

  /** What deletion takes of the items under one key: half of them, rounded up, in whatever order
      they are kept; and so all of them exactly when there is at most one. */
  method TakeHalf<T(==)>(found: set<T>) returns (taken: set<T>)
    ensures taken <= found && |taken| == (|found| + 1) / 2
    ensures taken == found <==> |found| <= 1
  {
    var items := InSomeOrder(found);
    var passed, left := PopWhileShrinking(items);
    assert forall i :: 0 <= i < |passed| ==> passed[i] == items[i];
    DistinctCount(passed);
    taken := set x | x in passed;
    assert forall x :: x in passed ==> x in items;
    assert |found| <= 1 ==> passed == items;
  }
}
