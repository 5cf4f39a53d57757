/**
 * Breadth-first search over a directed graph with a first-in first-out queue and a depth limit, as a
 * sequence of two steps: dropping an entry already visited, and visiting a new one. The invariant is
 * what makes an early visit final: no page is first met deeper than its least depth.
 */
module BreadthFirst {

  datatype Node = Node(uri: string, depth: nat)

  type Links = iset<(string, string)>

  ghost predicate Edge(links: Links, u: string, v: string) {
    (u, v) in links
  }

  /** A trail of links from the root. */
  ghost predicate Trail(links: Links, root: string, p: seq<string>) {
    && p != [] && p[0] == root
    && forall i, j :: 0 <= i < j < |p| && j == i + 1 ==> (p[i], p[j]) in links
  }

  ghost predicate Ends(p: seq<string>, v: string) {
    p != [] && p[|p| - 1] == v
  }

  /** v is at most d links away from the root. */
  ghost predicate Within(links: Links, root: string, v: string, d: int) {
    exists p :: Trail(links, root, p) && Ends(p, v) && |p| <= d + 1
  }

  lemma ChildWithin(links: Links, root: string, u: string, v: string, d: nat)
    requires Within(links, root, u, d) && (u, v) in links
    ensures Within(links, root, v, d + 1)
  {
    var p :| Trail(links, root, p) && Ends(p, u) && |p| <= d + 1;
    var q := p + [v];
    assert Trail(links, root, q) && Ends(q, v);
  }

  /** v was visited at depth d or less, or waits in the queue at such a depth. */
  ghost predicate Reached(queue: seq<Node>, depths: map<string, nat>, v: string, d: int) {
    || (v in depths && depths[v] <= d)
    || (exists n :: n in queue && n.uri == v && n.depth <= d)
  }

  /** The root is reached, and every child of a visited node above the last level is reached one level down. */
  ghost predicate Expanded(links: Links, root: string, limit: nat, queue: seq<Node>, depths: map<string, nat>) {
    && Reached(queue, depths, root, 0)
    && forall u, v :: u in depths && depths[u] < limit && Edge(links, u, v) ==> Reached(queue, depths, v, depths[u] + 1)
  }

  /** The queue holds entries of one level followed by entries of the next, and nothing deeper was visited. */
  ghost predicate InOrder(low: nat, queue: seq<Node>, depths: map<string, nat>) {
    && (forall i, j :: 0 <= i < j < |queue| ==> queue[i].depth <= queue[j].depth)
    && (forall i :: 0 <= i < |queue| ==> low <= queue[i].depth <= low + 1)
    && forall u :: u in depths ==> depths[u] <= low
  }

  /** Depths are honest: an entry at depth d is at most d links from the root, and none is beyond the limit. */
  ghost predicate Honest(links: Links, root: string, limit: nat, queue: seq<Node>, depths: map<string, nat>) {
    && (forall n :: n in queue ==> n.depth <= limit && Within(links, root, n.uri, n.depth))
    && forall u :: u in depths ==> depths[u] <= limit && Within(links, root, u, depths[u])
  }

  /** A search under way: the level at the head of the queue, the queue, and the depth of every visited node. */
  datatype Search = Search(low: nat, queue: seq<Node>, depths: map<string, nat>)

  ghost predicate Frontier(links: Links, root: string, limit: nat, s: Search) {
    match s
    case Search(low, queue, depths) =>
      Expanded(links, root, limit, queue, depths) && InOrder(low, queue, depths) && Honest(links, root, limit, queue, depths)
  }

  lemma Start(links: Links, root: string, limit: nat)
    ensures Frontier(links, root, limit, Search(0, [Node(root, 0)], map[]))
  {
    var queue := [Node(root, 0)];
    assert queue[0] in queue;
    assert Trail(links, root, [root]) && Ends([root], root);
  }

  function Drop(s: Search): Search
    requires s.queue != []
  {
    s.(queue := s.queue[1..])
  }

  /** The head is visited at its depth, and these entries join the queue. */
  function Visit(s: Search, more: seq<Node>): Search
    requires s.queue != []
  {
    var n := s.queue[0];
    Search(n.depth, s.queue[1..] + more, s.depths[n.uri := n.depth])
  }

  /** Dropping an entry already visited loses nothing: it was visited no deeper. */
  lemma DropVisited(links: Links, root: string, limit: nat, s: Search)
    requires s.queue != [] && Frontier(links, root, limit, s) && s.queue[0].uri in s.depths
    ensures s.queue[0].depth <= limit
    ensures Frontier(links, root, limit, Drop(s))
  {
    var queue, depths := s.queue, s.depths;
    assert queue[0] in queue;
    assert forall v, d :: Reached(queue, depths, v, d) ==> Reached(queue[1..], depths, v, d) by {
      forall v, d | Reached(queue, depths, v, d)
        ensures Reached(queue[1..], depths, v, d)
      {
        if !(v in depths && depths[v] <= d) {
          var n :| n in queue && n.uri == v && n.depth <= d;
          assert n == queue[0] || n in queue[1..];
        }
      }
    }
  }

  lemma ReachedAfterVisit(queue: seq<Node>, depths: map<string, nat>, more: seq<Node>, v: string, d: int)
    requires queue != [] && Reached(queue, depths, v, d) && queue[0].uri !in depths
    ensures Reached(queue[1..] + more, depths[queue[0].uri := queue[0].depth], v, d)
  {
    if !(v in depths && depths[v] <= d) {
      var n :| n in queue && n.uri == v && n.depth <= d;
      assert n == queue[0] || n in queue[1..];
    }
  }

  /** What a visit of the node n appends to the queue: its children one level down, unless it is at the limit. */
  ghost predicate ChildrenOf(links: Links, limit: nat, n: Node, more: seq<Node>) {
    OnlyChildren(links, limit, n, more) && AllChildren(links, limit, n, more)
  }

  ghost predicate OnlyChildren(links: Links, limit: nat, n: Node, more: seq<Node>) {
    forall c :: c in more ==> c.depth == n.depth + 1 <= limit && (n.uri, c.uri) in links
  }

  ghost predicate AllChildren(links: Links, limit: nat, n: Node, more: seq<Node>) {
    forall v :: n.depth < limit && Edge(links, n.uri, v) ==> Node(v, n.depth + 1) in more
  }

  lemma VisitKeepsHonest(links: Links, root: string, limit: nat, queue: seq<Node>, depths: map<string, nat>, more: seq<Node>)
    requires queue != [] && Honest(links, root, limit, queue, depths) && ChildrenOf(links, limit, queue[0], more)
    ensures Honest(links, root, limit, queue[1..] + more, depths[queue[0].uri := queue[0].depth])
  {
    var head := queue[0];
    assert head in queue;
    forall n | n in queue[1..] + more
      ensures n.depth <= limit && Within(links, root, n.uri, n.depth)
    {
      if n !in queue[1..] {
        assert n in more;
        ChildWithin(links, root, head.uri, n.uri, head.depth);
      }
    }
  }

  lemma VisitKeepsOrder(low: nat, queue: seq<Node>, depths: map<string, nat>, more: seq<Node>)
    requires queue != [] && InOrder(low, queue, depths)
    requires forall i :: 0 <= i < |more| ==> more[i].depth == queue[0].depth + 1
    ensures InOrder(queue[0].depth, queue[1..] + more, depths[queue[0].uri := queue[0].depth])
  {
    var d, rest := queue[0].depth, queue[1..];
    assert forall i :: 0 <= i < |rest| ==> d <= rest[i].depth <= d + 1;
    var all := rest + more;
    forall i | 0 <= i < |all|
      ensures d <= all[i].depth <= d + 1
      ensures i >= |rest| ==> all[i].depth == d + 1
    {
    }
  }

  lemma VisitKeepsExpanded(links: Links, root: string, limit: nat, queue: seq<Node>, depths: map<string, nat>, more: seq<Node>)
    requires queue != [] && Expanded(links, root, limit, queue, depths) && queue[0].uri !in depths
    requires ChildrenOf(links, limit, queue[0], more)
    ensures Expanded(links, root, limit, queue[1..] + more, depths[queue[0].uri := queue[0].depth])
  {
    var head := queue[0];
    var queue', depths' := queue[1..] + more, depths[head.uri := head.depth];
    ReachedAfterVisit(queue, depths, more, root, 0);
    forall x, v | x in depths' && depths'[x] < limit && Edge(links, x, v)
      ensures Reached(queue', depths', v, depths'[x] + 1)
    {
      if x == head.uri {
        assert Node(v, head.depth + 1) in queue';
      } else {
        ReachedAfterVisit(queue, depths, more, v, depths[x] + 1);
      }
    }
  }

  /** Visiting a new node and queueing its children one level down keeps the frontier. */
  lemma VisitNew(links: Links, root: string, limit: nat, s: Search, more: seq<Node>)
    requires s.queue != [] && Frontier(links, root, limit, s) && s.queue[0].uri !in s.depths
    requires ChildrenOf(links, limit, s.queue[0], more)
    ensures s.queue[0].depth <= limit
    ensures Frontier(links, root, limit, Visit(s, more))
  {
    assert s.queue[0] in s.queue;
    VisitKeepsHonest(links, root, limit, s.queue, s.depths, more);
    VisitKeepsOrder(s.low, s.queue, s.depths, more);
    VisitKeepsExpanded(links, root, limit, s.queue, s.depths, more);
  }

  /** With nothing left in the queue a trail stays among the visited nodes, each no deeper than its place on the trail. */
  lemma {:induction false} TrailIsVisited(links: Links, root: string, limit: nat, depths: map<string, nat>, p: seq<string>, k: nat)
    requires Expanded(links, root, limit, [], depths) && Trail(links, root, p) && k < |p| && k <= limit
    ensures p[k] in depths && depths[p[k]] <= k
  {
    if k == 0 {
      assert Reached([], depths, root, 0);
    } else {
      TrailIsVisited(links, root, limit, depths, p, k - 1);
      assert Edge(links, p[k - 1], p[k]);
      assert Reached([], depths, p[k], depths[p[k - 1]] + 1);
    }
  }

  /** With the queue run dry the visited nodes are exactly those within the limit, each at its least depth. */
  lemma DryQueueIsComplete(links: Links, root: string, limit: nat, s: Search)
    requires Frontier(links, root, limit, s) && s.queue == []
    ensures forall v :: v in s.depths <==> Within(links, root, v, limit)
    ensures forall v, d: nat :: v in s.depths && Within(links, root, v, d) ==> s.depths[v] <= d
  {
    var depths := s.depths;
    forall v, d: nat | Within(links, root, v, d) && (d <= limit || v in depths)
      ensures v in depths && depths[v] <= d
    {
      if d <= limit {
        var p :| Trail(links, root, p) && Ends(p, v) && |p| <= d + 1;
        TrailIsVisited(links, root, limit, depths, p, |p| - 1);
      }
    }
    forall v | v in depths
      ensures Within(links, root, v, limit)
    {
      var p :| Trail(links, root, p) && Ends(p, v) && |p| <= depths[v] + 1;
    }
  }
}
