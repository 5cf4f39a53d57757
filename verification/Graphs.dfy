/** Finite directed graphs as sets of edges: paths, cycles and topological orders. */
module Graphs {

  type Edges<!T(==)> = set<(T, T)>

  /** Consecutive entries of p are joined by edges. */
  ghost predicate IsPath<T>(edges: Edges<T>, p: seq<T>) {
    forall i :: 0 <= i < |p| - 1 ==> (p[i], p[i + 1]) in edges
  }

  /** A closed walk with at least one edge; a self-loop counts. */
  ghost predicate IsCycle<T>(edges: Edges<T>, p: seq<T>) {
    |p| >= 2 && p[0] == p[|p| - 1] && IsPath(edges, p)
  }

  ghost predicate HasCycle<T(!new)>(edges: Edges<T>) {
    exists p: seq<T> :: IsCycle(edges, p)
  }

  ghost predicate Distinct<T>(s: seq<T>) {
    forall i, j :: 0 <= i < j < |s| ==> s[i] != s[j]
  }

  lemma DistinctSnoc<T>(s: seq<T>, x: T)
    ensures Distinct(s + [x]) <==> Distinct(s) && x !in s
  {
    var t := s + [x];
    assert t[|s|] == x;
    assert forall i :: 0 <= i < |s| ==> t[i] == s[i];
  }

  lemma PathSnoc<T>(edges: Edges<T>, p: seq<T>, x: T)
    ensures IsPath(edges, p + [x]) <==> IsPath(edges, p) && (p != [] ==> (p[|p| - 1], x) in edges)
  {
    var t := p + [x];
    assert t[|p|] == x;
    assert forall i :: 0 <= i < |p| ==> t[i] == p[i];
    if IsPath(edges, t) {
      forall i | 0 <= i < |p| - 1 ensures (p[i], p[i + 1]) in edges {
        assert (t[i], t[i + 1]) in edges;
      }
      if p != [] {
        assert (t[|p| - 1], t[|p| - 1 + 1]) in edges;
      }
    }
  }

  lemma TopologicalSnoc<T(!new)>(edges: Edges<T>, order: seq<T>, x: T)
    requires IsTopological(edges, order)
    requires forall y :: (x, y) in edges ==> y in order
    ensures IsTopological(edges, order + [x])
  {
    var t := order + [x];
    forall i, y | 0 <= i < |t| && (t[i], y) in edges ensures y in t[..i] {
      assert t[..i] == if i < |order| then order[..i] else order;
    }
  }

  /** Every edge leaving an entry of `order` leads to an earlier entry. */
  ghost predicate IsTopological<T(!new)>(edges: Edges<T>, order: seq<T>) {
    forall i, y :: 0 <= i < |order| && (order[i], y) in edges ==> y in order[..i]
  }

  /** Walking out of a prefix of a topological order never leaves that prefix. */
  lemma {:induction false} PathStaysInPrefix<T(!new)>(edges: Edges<T>, order: seq<T>, k: nat, p: seq<T>, j: nat)
    requires IsTopological(edges, order) && k <= |order|
    requires IsPath(edges, p) && 0 < |p| && j < |p|
    requires p[0] in order[..k]
    ensures p[j] in order[..k]
  {
    if j > 0 {
      PathStaysInPrefix(edges, order, k, p, j - 1);
      assert (p[j - 1], p[j]) in edges;
      var i :| 0 <= i < k && order[i] == p[j - 1];
      assert p[j] in order[..i];
    }
  }

  /** A topological order of every edge source rules out cycles. */
  lemma TopologicalOrderExcludesCycles<T(!new)>(edges: Edges<T>, order: seq<T>)
    requires IsTopological(edges, order)
    requires forall e :: e in edges ==> e.0 in order
    ensures !HasCycle(edges)
  {
    if HasCycle(edges) {
      var p: seq<T> :| IsCycle(edges, p);
      assert (p[0], p[1]) in edges;
      var k := FirstIndex(order, p[0]);
      assert (order[k], p[1]) in edges;
      assert IsPath(edges, p[1..]) by {
        forall i | 0 <= i < |p[1..]| - 1 ensures (p[1..][i], p[1..][i + 1]) in edges {
          assert (p[i + 1], p[i + 2]) in edges;
        }
      }
      PathStaysInPrefix(edges, order, k, p[1..], |p| - 2);
      assert false;
    }
  }

  ghost function FirstIndex<T>(s: seq<T>, x: T): (k: nat)
    requires x in s
    ensures k < |s| && s[k] == x && x !in s[..k]
  {
    if s[0] == x then 0
    else
      var k := FirstIndex(s[1..], x);
      assert s[..k + 1] == [s[0]] + s[1..][..k];
      k + 1
  }

  /** x has an edge to some member of s. */
  ghost predicate HasEdgeInto<T>(edges: Edges<T>, x: T, s: set<T>) {
    exists y :: y in s && (x, y) in edges
  }

  /** If every member of a nonempty finite set has an edge back into the set, there is a cycle. */
  lemma {:induction false} EndlessWalkHasCycle<T(!new)>(edges: Edges<T>, s: set<T>, path: seq<T>)
    requires forall x :: x in s ==> HasEdgeInto(edges, x, s)
    requires 0 < |path| && IsPath(edges, path)
    requires forall x :: x in path ==> x in s
    requires Distinct(path)
    ensures HasCycle(edges)
    decreases |s| - |path|
  {
    var last := path[|path| - 1];
    assert last in path && HasEdgeInto(edges, last, s);
    var next :| next in s && (last, next) in edges;
    if next in path {
      var j := FirstIndex(path, next);
      var cycle := path[j..] + [next];
      assert IsCycle(edges, cycle) by {
        forall i | 0 <= i < |cycle| - 1 ensures (cycle[i], cycle[i + 1]) in edges {
          if i + j + 1 < |path| {
            assert (path[i + j], path[i + j + 1]) in edges;
          }
        }
      }
    } else {
      DistinctSnoc(path, next);
      PathSnoc(edges, path, next);
      DistinctWithinSet(path + [next], s);
      EndlessWalkHasCycle(edges, s, path + [next]);
    }
  }

  /** A sequence of distinct members of a finite set is no longer than the set. */
  lemma {:induction false} DistinctWithinSet<T>(p: seq<T>, s: set<T>)
    requires forall x :: x in p ==> x in s
    requires Distinct(p)
    ensures |p| <= |s|
    ensures |p| == |s| ==> forall x :: x in s ==> x in p
    decreases |p|
  {
    if p != [] {
      var last := p[|p| - 1];
      var rest := p[..|p| - 1];
      assert p == rest + [last];
      DistinctSnoc(rest, last);
      DistinctWithinSet(rest, s - {last});
    }
  }

  /** In an acyclic graph every nonempty finite set has a member with no edge into the set. */
  lemma AcyclicSetHasSink<T(!new)>(edges: Edges<T>, s: set<T>) returns (x: T)
    requires !HasCycle(edges) && s != {}
    ensures x in s && forall y :: y in s ==> (x, y) !in edges
  {
    if forall z :: z in s ==> HasEdgeInto(edges, z, s) {
      var start :| start in s;
      EndlessWalkHasCycle(edges, s, [start]);
      assert false;
    }
    x :| x in s && !HasEdgeInto(edges, x, s);
  }

  // ---------------------------------------------------------------- heights and classes of nodes

  ghost predicate NeverRises<T(!new)>(edges: Edges<T>, height: T -> real) {
    forall a, b :: (a, b) in edges ==> height(a) >= height(b)
  }

  lemma {:induction false} PathNeverRises<T(!new)>(edges: Edges<T>, height: T -> real, p: seq<T>, i: nat, j: nat)
    requires NeverRises(edges, height) && IsPath(edges, p) && i <= j < |p|
    ensures height(p[i]) >= height(p[j])
    decreases j - i
  {
    if i < j {
      assert (p[i], p[i + 1]) in edges;
      PathNeverRises(edges, height, p, i + 1, j);
    }
  }

  /** No edge of a cycle goes down if no edge goes up. */
  lemma CycleIsLevel<T(!new)>(edges: Edges<T>, height: T -> real, p: seq<T>, i: nat)
    requires NeverRises(edges, height) && IsCycle(edges, p) && i < |p| - 1
    ensures height(p[i]) == height(p[i + 1])
  {
    PathNeverRises(edges, height, p, 0, i);
    PathNeverRises(edges, height, p, i, i + 1);
    PathNeverRises(edges, height, p, i + 1, |p| - 1);
  }

  lemma DescendingEdgesHaveNoCycle<T(!new)>(edges: Edges<T>, height: T -> real)
    requires forall a, b :: (a, b) in edges ==> height(a) > height(b)
    ensures !HasCycle(edges)
  {
    if p: seq<T> :| IsCycle(edges, p) {
      assert (p[0], p[1]) in edges;
      CycleIsLevel(edges, height, p, 0);
    }
  }

  /** If every edge joins nodes of one class, so does every path. */
  lemma {:induction false} PathStaysInClass<T(!new), K>(edges: Edges<T>, class_: T -> K, p: seq<T>, j: nat)
    requires forall a, b :: (a, b) in edges ==> class_(a) == class_(b)
    requires IsPath(edges, p) && j < |p|
    ensures class_(p[0]) == class_(p[j])
  {
    if j > 0 {
      PathStaysInClass(edges, class_, p, j - 1);
      assert (p[j - 1], p[j]) in edges;
    }
  }
}
