/** A bound on the work of a crawl: what the queue can still bring, weighted by the levels below each entry. */
module CrawlWork {
  import opened CrawlPages

  /** n times c, by addition. */
  function Copies(n: nat, c: nat): nat {
    if n == 0 then 0 else Copies(n - 1, c) + c
  }

  /** The most pages one queue entry can bring, with so many levels below it. */
  function Cost(levels: nat, bound: nat): (c: nat)
    ensures c >= 1
  {
    if levels == 0 then 1 else 1 + Copies(bound, Cost(levels - 1, bound))
  }

  function Weight(queue: seq<Entry>, depth: nat, bound: nat): nat {
    if queue == [] then 0
    else
      var last := queue[|queue| - 1].depth;
      Weight(queue[..|queue| - 1], depth, bound) + Cost(if last <= depth then depth - last else 0, bound)
  }

  lemma {:induction false} WeightAdds(a: seq<Entry>, b: seq<Entry>, depth: nat, bound: nat)
    ensures Weight(a + b, depth, bound) == Weight(a, depth, bound) + Weight(b, depth, bound)
  {
    if b == [] {
      assert a + b == a;
    } else {
      assert (a + b)[..|a + b| - 1] == a + b[..|b| - 1];
      WeightAdds(a, b[..|b| - 1], depth, bound);
    }
  }

  function Enqueued(links: seq<Link>, depth: nat): (r: seq<Entry>)
    ensures |r| == |links| && forall i :: 0 <= i < |r| ==> r[i] == Entry(links[i], depth)
  {
    seq(|links|, i requires 0 <= i < |links| => Entry(links[i], depth))
  }

  lemma {:induction false} WeightOfLevel(links: seq<Link>, level: nat, depth: nat, bound: nat)
    requires level <= depth
    ensures Weight(Enqueued(links, level), depth, bound) == Copies(|links|, Cost(depth - level, bound))
  {
    if links != [] {
      var q := Enqueued(links, level);
      var n := |links| - 1;
      assert q[..n] == Enqueued(links[..n], level);
      WeightOfLevel(links[..n], level, depth, bound);
    }
  }

  lemma {:induction false} FewerCopiesAreLess(n: nat, m: nat, c: nat)
    requires n <= m
    ensures Copies(n, c) <= Copies(m, c)
  {
    if n < m { FewerCopiesAreLess(n, m - 1, c); }
  }

  lemma WeightOfHead(queue: seq<Entry>, depth: nat, bound: nat)
    requires queue != [] && queue[0].depth <= depth
    ensures Weight(queue, depth, bound) == Cost(depth - queue[0].depth, bound) + Weight(queue[1..], depth, bound)
  {
    assert queue == queue[..1] + queue[1..];
    WeightAdds(queue[..1], queue[1..], depth, bound);
    assert queue[..1][..0] == [];
  }

  lemma WeightOfChildren(links: seq<Link>, level: nat, depth: nat, bound: nat)
    requires level <= depth && |links| <= bound && (links != [] ==> level < depth)
    ensures Weight(Enqueued(links, level + 1), depth, bound) < Cost(depth - level, bound)
  {
    if links != [] {
      WeightOfLevel(links, level + 1, depth, bound);
      FewerCopiesAreLess(|links|, bound, Cost(depth - level - 1, bound));
    }
  }

  /** Taking the head and adding its children one level down lightens the queue. */
  lemma StepLightens(queue: seq<Entry>, links: seq<Link>, depth: nat, bound: nat)
    requires queue != [] && queue[0].depth <= depth && |links| <= bound
    requires links != [] ==> queue[0].depth < depth
    ensures Weight(queue[1..] + Enqueued(links, queue[0].depth + 1), depth, bound) < Weight(queue, depth, bound)
  {
    WeightOfHead(queue, depth, bound);
    WeightAdds(queue[1..], Enqueued(links, queue[0].depth + 1), depth, bound);
    WeightOfChildren(links, queue[0].depth, depth, bound);
  }
}
