/** Reachability inside a finite set of nodes, along a fixed edge relation. */
module Graph {

  /** A chain of nodes of `s`: it starts in `from` and follows `edges`. */
  ghost predicate IsChain<E(!new)>(s: set<E>, from: iset<E>, edges: iset<(E, E)>, p: seq<E>) {
    && |p| > 0
    && (forall i :: 0 <= i < |p| ==> p[i] in s)
    && p[0] in from
    && (forall i :: 0 < i < |p| ==> (p[i - 1], p[i]) in edges)
  }

  ghost predicate Reached<E(!new)>(s: set<E>, from: iset<E>, edges: iset<(E, E)>, e: E) {
    exists p :: IsChain(s, from, edges, p) && p[|p| - 1] == e
  }

  ghost function Reach<E(!new)>(s: set<E>, from: iset<E>, edges: iset<(E, E)>): set<E> {
    set e | e in s && Reached(s, from, edges, e)
  }

  /** A set that holds every starting node and every successor of its members. */
  ghost predicate IsClosed<E(!new)>(s: set<E>, from: iset<E>, edges: iset<(E, E)>, c: set<E>) {
    && (forall x :: x in s && x in from ==> x in c)
    && (forall e, x :: e in c && x in s && (e, x) in edges ==> x in c)
  }

  lemma ReachIsClosed<E(!new)>(s: set<E>, from: iset<E>, edges: iset<(E, E)>)
    ensures Reach(s, from, edges) <= s
    ensures IsClosed(s, from, edges, Reach(s, from, edges))
  {
    forall x | x in s && x in from
      ensures Reached(s, from, edges, x)
    {
      assert IsChain(s, from, edges, [x]);
    }
    forall e, x | e in Reach(s, from, edges) && x in s && (e, x) in edges
      ensures Reached(s, from, edges, x)
    {
      var p :| IsChain(s, from, edges, p) && p[|p| - 1] == e;
      assert IsChain(s, from, edges, p + [x]);
    }
  }

  ghost predicate Simple<E(!new)>(p: seq<E>) {
    forall i, j :: 0 <= i < j < |p| ==> p[i] != p[j]
  }

  /** A chain that comes back to a node can leave out the round trip. */
  lemma {:induction false} Shorten<E(!new)>(s: set<E>, from: iset<E>, edges: iset<(E, E)>, p: seq<E>) returns (q: seq<E>)
    requires IsChain(s, from, edges, p)
    ensures IsChain(s, from, edges, q) && q[|q| - 1] == p[|p| - 1] && Simple(q)
    decreases |p|
  {
    if i, j :| 0 <= i < j < |p| && p[i] == p[j] {
      var cut := p[..i] + p[j..];
      assert cut[|cut| - 1] == p[|p| - 1] && cut[i] == p[i];
      assert i > 0 ==> cut[i - 1] == p[i - 1];
      assert forall k :: i <= k < |cut| ==> cut[k] == p[k + j - i];
      q := Shorten(s, from, edges, cut);
    } else {
      q := p;
    }
  }

  lemma {:induction false} SimpleIsShort<E(!new)>(s: set<E>, p: seq<E>)
    requires Simple(p) && forall i :: 0 <= i < |p| ==> p[i] in s
    ensures |p| <= |s|
  {
    if p != [] {
      SimpleIsShort(s - {p[|p| - 1]}, p[..|p| - 1]);
    }
  }

  /** A member is reached without visiting any node twice, in at most as many steps as there are nodes. */
  lemma ReachedBySimpleChain<E(!new)>(s: set<E>, from: iset<E>, edges: iset<(E, E)>, e: E)
    ensures e in Reach(s, from, edges) <==>
            exists p :: IsChain(s, from, edges, p) && p[|p| - 1] == e && Simple(p) && |p| <= |s|
  {
    if e in Reach(s, from, edges) {
      var p :| IsChain(s, from, edges, p) && p[|p| - 1] == e;
      var q := Shorten(s, from, edges, p);
      SimpleIsShort(s, q);
    }
  }

  lemma {:induction false} ChainStaysInside<E(!new)>(s: set<E>, from: iset<E>, edges: iset<(E, E)>, c: set<E>, p: seq<E>)
    requires IsClosed(s, from, edges, c) && IsChain(s, from, edges, p)
    ensures p[|p| - 1] in c
  {
    if |p| > 1 {
      var q := p[..|p| - 1];
      assert IsChain(s, from, edges, q);
      ChainStaysInside(s, from, edges, c, q);
      assert (p[|p| - 2], p[|p| - 1]) in edges;
    }
  }

  /** What is reachable is the least closed set. */
  lemma ReachIsLeast<E(!new)>(s: set<E>, from: iset<E>, edges: iset<(E, E)>, c: set<E>)
    requires IsClosed(s, from, edges, c)
    ensures Reach(s, from, edges) <= c
  {
    forall e | e in Reach(s, from, edges)
      ensures e in c
    {
      var p :| IsChain(s, from, edges, p) && p[|p| - 1] == e;
      ChainStaysInside(s, from, edges, c, p);
    }
  }

  /** Removing what one start reaches, and then what a second start still reaches,
      removes what both starts reach together. */
  lemma ReachCompose<E(!new)>(s: set<E>, f1: iset<E>, f2: iset<E>, edges: iset<(E, E)>)
    ensures Reach(s, f1, edges) + Reach(s - Reach(s, f1, edges), f2, edges) == Reach(s, f1 + f2, edges)
  {
    var c1 := Reach(s, f1, edges);
    var rest := s - c1;
    ReachIsClosed(s, f1, edges);
    ReachIsClosed(rest, f2, edges);
    ReachIsClosed(s, f1 + f2, edges);
    ReachIsLeast(s, f1 + f2, edges, c1 + Reach(rest, f2, edges));
    ReachIsLeast(s, f1, edges, Reach(s, f1 + f2, edges));
    ReachIsLeast(rest, f2, edges, Reach(s, f1 + f2, edges));
  }

  /** Taking the starting nodes out before following their edges changes nothing. */
  lemma ReachUnfold<E(!new)>(s: set<E>, from: iset<E>, next: iset<E>, edges: iset<(E, E)>, h: set<E>)
    requires h == set x | x in s && x in from
    requires forall x :: x in next <==> exists e :: e in h && (e, x) in edges
    ensures h + Reach(s - h, next, edges) == Reach(s, from, edges)
  {
    var rest := s - h;
    ReachIsClosed(rest, next, edges);
    ReachIsClosed(s, from, edges);
    ReachIsLeast(s, from, edges, h + Reach(rest, next, edges));
    ReachIsLeast(rest, next, edges, Reach(s, from, edges));
  }
}
