/** The loop of crawl_source: one turn as a function, what every turn keeps, and the loop itself. */
module Crawler {
  import opened Common
  import opened CrawlPages
  import opened CrawlWork
  import opened CrawlOutput
  import BFS = BreadthFirst

  // ---------------------------------------------------------------- one turn of the loop, as a function

  function DispositionOf(w: World, maxDepth: int, u: Uri, e: Entry): Disposition {
    var s := w.site(u);
    if s.fetched.NoPage? then NotAccepted
    else if !s.stored then StorageFailed
    else if e.depth < maxDepth && MalformedFeed(s.fetched.body) then Malformed
    else Accepted
  }

  /** What a visit writes down before it files the page. */
  function Notes(w: World, maxDepth: int, u: Uri, e: Entry, late: bool): seq<Observation> {
    var s := w.site(u);
    var robotsNote := if s.robotsNoted then [Observation(u, RobotsFile, None)] else [];
    if !s.allowed then []
    else if late then robotsNote
    else robotsNote + [Observation(u, if s.robots then DispositionOf(w, maxDepth, u, e) else Disallowed, None)]
  }

  /** All that a visit learns: its notes, whether the clock cut it short, the links to follow, and the document. */
  datatype Answer = Answer(notes: seq<Observation>, cut: bool, isIndex: bool, links: seq<Link>, filing: Option<Document>)

  function AnswerOf(w: World, root: Uri, maxDepth: int, u: Uri, e: Entry, late: bool): Answer {
    if w.site(u).allowed && late then Answer(Notes(w, maxDepth, u, e, late), true, false, [], None)
    else
      Answer(Notes(w, maxDepth, u, e, late), false, Obtained(w.site(u)) && w.site(u).fetched.body.Html?,
             if e.depth < maxDepth then Children(w, u) else [], Filing(w, root, maxDepth, u, e))
  }

  /** The outside world as the loop meets it. */
  datatype Web = Web(canonical: Uri -> Uri, ask: (Uri, Entry, bool) -> Answer)

  function WebOf(w: World, discoveryUri: Uri, limits: Limits): Web {
    Web(w.canonical, (u, e, late) => AnswerOf(w, w.canonical(discoveryUri), limits.maxDepth, u, e, late))
  }

  /** The variables of the loop; cut is set when the wall clock ran out in the middle of a turn. */
  datatype Crawl = Crawl(queue: seq<Entry>, seen: set<Uri>, observations: seq<Observation>, indexPages: nat,
                         documents: seq<Document>, hashes: set<string>, uris: map<Uri, string>, cut: bool)

  /** Enters a page among the documents unless its URI or its content is there already. */
  function Admit(c: Crawl, d: Document): Crawl
    requires c.observations != []
  {
    var same := FirstWithDigest(c.documents, d.digest);
    if d.uri in c.uris then c.(observations := Annotate(c.observations, Some(c.uris[d.uri])))
    else if same.Some? then c.(observations := Annotate(c.observations, Some(same.value.id)), uris := c.uris[d.uri := same.value.id])
    else c.(documents := c.documents + [d], hashes := c.hashes + {d.digest}, uris := c.uris[d.uri := d.id])
  }

  /** The new page u is noted, and unless the clock cut the visit short, its links are queued and it is filed. */
  function Visit(c: Crawl, u: Uri, a: Answer): Crawl
    requires c.queue != []
  {
    var noted := c.(queue := c.queue[1..], seen := c.seen + {u}, observations := c.observations + a.notes);
    if a.cut then noted.(cut := true)
    else
      var expanded := noted.(queue := c.queue[1..] + Enqueued(a.links, c.queue[0].depth + 1),
                             indexPages := if a.isIndex then c.indexPages + 1 else c.indexPages);
      if a.filing.Some? && expanded.observations != [] then Admit(expanded, a.filing.value) else expanded
  }

  function Turn(web: Web, c: Crawl, late: bool): Crawl
    requires c.queue != []
  {
    var u := web.canonical(c.queue[0].link.uri);
    if u in c.seen then c.(queue := c.queue[1..]) else Visit(c, u, web.ask(u, c.queue[0], late))
  }

  function Start(discoveryUri: Uri): Crawl {
    Crawl([Entry(Link(discoveryUri, "official IR root"), 0)], {}, [], 0, [], {}, map[], false)
  }

  /** The loop condition, with the clock's answer. */
  predicate Going(limits: Limits, c: Crawl, late: bool) {
    c.queue != [] && c.indexPages < limits.maxIndexPages && |c.documents| < limits.maxDocuments && !late && !c.cut
  }

  /** The loop after so many turns; each turn reads the clock twice, and a finished loop stands still. */
  function After(web: Web, discoveryUri: Uri, limits: Limits, clock: nat -> bool, n: nat): Crawl {
    if n == 0 then Start(discoveryUri)
    else
      var c := After(web, discoveryUri, limits, clock, n - 1);
      if Going(limits, c, clock(2 * (n - 1))) then Turn(web, c, clock(2 * (n - 1) + 1)) else c
  }

  lemma AfterTurn(web: Web, discoveryUri: Uri, limits: Limits, clock: nat -> bool, n: nat)
    requires Going(limits, After(web, discoveryUri, limits, clock, n), clock(2 * n))
    ensures After(web, discoveryUri, limits, clock, n + 1) == Turn(web, After(web, discoveryUri, limits, clock, n), clock(2 * n + 1))
  {
  }

  // ---------------------------------------------------------------- the queue's half of a turn

  function Max0(n: int): nat {
    if n < 0 then 0 else n
  }

  function Nodes(canonical: Uri -> Uri, queue: seq<Entry>): (r: seq<BFS.Node>)
    ensures |r| == |queue|
    ensures forall i :: 0 <= i < |r| ==> r[i] == BFS.Node(canonical(queue[i].link.uri), queue[i].depth)
  {
    seq(|queue|, i requires 0 <= i < |queue| => BFS.Node(canonical(queue[i].link.uri), queue[i].depth))
  }

  /** The links of an answer are the edges out of the page, up to the depth limit. */
  ghost predicate Feeds(web: Web, graph: BFS.Links, limit: nat) {
    forall u, e: Entry, late {:trigger web.ask(u, e, late)} | e.depth <= limit && !web.ask(u, e, late).cut ::
      BFS.ChildrenOf(graph, limit, BFS.Node(u, e.depth), Nodes(web.canonical, Enqueued(web.ask(u, e, late).links, e.depth + 1)))
  }

  /** The search is the loop's queue and seen pages, as nodes of the link graph. */
  ghost predicate Mirrors(canonical: Uri -> Uri, s: BFS.Search, queue: seq<Entry>, seen: set<Uri>) {
    && |s.queue| == |queue|
    && (forall i :: 0 <= i < |queue| ==> s.queue[i] == BFS.Node(canonical(queue[i].link.uri), queue[i].depth))
    && forall u :: u in seen <==> u in s.depths
  }

  lemma DropMirrors(canonical: Uri -> Uri, s: BFS.Search, queue: seq<Entry>, seen: set<Uri>)
    requires Mirrors(canonical, s, queue, seen) && queue != []
    ensures Mirrors(canonical, BFS.Drop(s), queue[1..], seen)
  {
  }

  lemma VisitMirrors(canonical: Uri -> Uri, s: BFS.Search, queue: seq<Entry>, seen: set<Uri>, more: seq<Entry>)
    requires Mirrors(canonical, s, queue, seen) && queue != []
    ensures Mirrors(canonical, BFS.Visit(s, Nodes(canonical, more)), queue[1..] + more, seen + {canonical(queue[0].link.uri)})
  {
  }

  lemma TurnMovesQueue(web: Web, c: Crawl, late: bool)
    requires c.queue != []
    ensures var u, c' := web.canonical(c.queue[0].link.uri), Turn(web, c, late);
      var a := web.ask(u, c.queue[0], late);
      && (u in c.seen ==> c'.queue == c.queue[1..] && c'.seen == c.seen && c'.cut == c.cut)
      && (u !in c.seen ==> c'.seen == c.seen + {u} && c'.cut == (c.cut || a.cut))
      && (u !in c.seen && !a.cut ==> c'.queue == c.queue[1..] + Enqueued(a.links, c.queue[0].depth + 1))
  {
  }

  lemma VisitKeepsFrontier(canonical: Uri -> Uri, graph: BFS.Links, root: Uri, limit: nat, s: BFS.Search,
                           queue: seq<Entry>, seen: set<Uri>, more: seq<Entry>)
    requires queue != [] && BFS.Frontier(graph, root, limit, s) && Mirrors(canonical, s, queue, seen)
    requires canonical(queue[0].link.uri) !in seen
    requires BFS.ChildrenOf(graph, limit, BFS.Node(canonical(queue[0].link.uri), queue[0].depth), Nodes(canonical, more))
    ensures BFS.Frontier(graph, root, limit, BFS.Visit(s, Nodes(canonical, more)))
    ensures Mirrors(canonical, BFS.Visit(s, Nodes(canonical, more)), queue[1..] + more, seen + {canonical(queue[0].link.uri)})
  {
    BFS.VisitNew(graph, root, limit, s, Nodes(canonical, more));
    VisitMirrors(canonical, s, queue, seen, more);
  }

  lemma HeadWithinLimit(graph: BFS.Links, root: Uri, limit: nat, s: BFS.Search)
    requires s.queue != [] && BFS.Frontier(graph, root, limit, s)
    ensures s.queue[0].depth <= limit
  {
    assert s.queue[0] in s.queue;
  }

  lemma QueueKeepsFrontier(canonical: Uri -> Uri, graph: BFS.Links, root: Uri, limit: nat, s: BFS.Search,
                           queue: seq<Entry>, seen: set<Uri>, more: seq<Entry>) returns (s': BFS.Search)
    requires queue != [] && BFS.Frontier(graph, root, limit, s) && Mirrors(canonical, s, queue, seen)
    requires canonical(queue[0].link.uri) !in seen ==>
      BFS.ChildrenOf(graph, limit, BFS.Node(canonical(queue[0].link.uri), queue[0].depth), Nodes(canonical, more))
    ensures BFS.Frontier(graph, root, limit, s')
    ensures var u := canonical(queue[0].link.uri);
      if u in seen then Mirrors(canonical, s', queue[1..], seen) else Mirrors(canonical, s', queue[1..] + more, seen + {u})
  {
    if canonical(queue[0].link.uri) in seen {
      s' := BFS.Drop(s);
      BFS.DropVisited(graph, root, limit, s);
      DropMirrors(canonical, s, queue, seen);
    } else {
      s' := BFS.Visit(s, Nodes(canonical, more));
      VisitKeepsFrontier(canonical, graph, root, limit, s, queue, seen, more);
    }
  }

  lemma FeedsOn(web: Web, graph: BFS.Links, limit: nat, u: Uri, e: Entry, late: bool, more: seq<BFS.Node>)
    requires Feeds(web, graph, limit) && e.depth <= limit && !web.ask(u, e, late).cut
    requires more == Nodes(web.canonical, Enqueued(web.ask(u, e, late).links, e.depth + 1))
    ensures BFS.ChildrenOf(graph, limit, BFS.Node(u, e.depth), more)
  {
  }

  lemma HeadKeepsFrontier(web: Web, graph: BFS.Links, root: Uri, limit: nat, queue: seq<Entry>, seen: set<Uri>, late: bool, s: BFS.Search)
    returns (s': BFS.Search)
    requires queue != [] && BFS.Frontier(graph, root, limit, s) && Mirrors(web.canonical, s, queue, seen)
    requires Feeds(web, graph, limit)
    ensures BFS.Frontier(graph, root, limit, s')
    ensures var u := web.canonical(queue[0].link.uri); var a := web.ask(u, queue[0], late);
      && (u in seen ==> Mirrors(web.canonical, s', queue[1..], seen))
      && (u !in seen && !a.cut ==> Mirrors(web.canonical, s', queue[1..] + Enqueued(a.links, queue[0].depth + 1), seen + {u}))
  {
    var u := web.canonical(queue[0].link.uri);
    s' := s;
    if u in seen {
      s' := QueueKeepsFrontier(web.canonical, graph, root, limit, s, queue, seen, []);
    } else if !web.ask(u, queue[0], late).cut {
      s' := NewHeadKeepsFrontier(web, graph, root, limit, queue, seen, late, s);
    }
  }

  lemma NewHeadKeepsFrontier(web: Web, graph: BFS.Links, root: Uri, limit: nat, queue: seq<Entry>, seen: set<Uri>, late: bool, s: BFS.Search)
    returns (s': BFS.Search)
    requires queue != [] && BFS.Frontier(graph, root, limit, s) && Mirrors(web.canonical, s, queue, seen)
    requires var u := web.canonical(queue[0].link.uri); Feeds(web, graph, limit) && u !in seen && !web.ask(u, queue[0], late).cut
    ensures BFS.Frontier(graph, root, limit, s')
    ensures var u := web.canonical(queue[0].link.uri);
      Mirrors(web.canonical, s', queue[1..] + Enqueued(web.ask(u, queue[0], late).links, queue[0].depth + 1), seen + {u})
  {
    var u := web.canonical(queue[0].link.uri);
    var more := Enqueued(web.ask(u, queue[0], late).links, queue[0].depth + 1);
    HeadWithinLimit(graph, root, limit, s);
    FeedsOn(web, graph, limit, u, queue[0], late, Nodes(web.canonical, more));
    s' := QueueKeepsFrontier(web.canonical, graph, root, limit, s, queue, seen, more);
  }

  /** One turn keeps the breadth-first frontier: to the queue and the seen pages it drops or visits the head. */
  lemma TurnKeepsFrontier(web: Web, graph: BFS.Links, root: Uri, limit: nat, c: Crawl, late: bool, s: BFS.Search) returns (s': BFS.Search)
    requires c.queue != [] && BFS.Frontier(graph, root, limit, s) && Mirrors(web.canonical, s, c.queue, c.seen)
    requires Feeds(web, graph, limit)
    ensures BFS.Frontier(graph, root, limit, s')
    ensures Turn(web, c, late).cut || Mirrors(web.canonical, s', Turn(web, c, late).queue, Turn(web, c, late).seen)
  {
    TurnMovesQueue(web, c, late);
    s' := HeadKeepsFrontier(web, graph, root, limit, c.queue, c.seen, late, s);
  }

  /** At every turn the queue and the seen pages are a breadth-first frontier of the link graph, unless the clock cut in. */
  lemma {:induction false} FrontierAfter(web: Web, graph: BFS.Links, discoveryUri: Uri, limits: Limits, clock: nat -> bool, n: nat)
    returns (s: BFS.Search)
    requires Feeds(web, graph, Max0(limits.maxDepth))
    ensures BFS.Frontier(graph, web.canonical(discoveryUri), Max0(limits.maxDepth), s)
    ensures var c := After(web, discoveryUri, limits, clock, n);
      c.cut || Mirrors(web.canonical, s, c.queue, c.seen)
  {
    if n == 0 {
      s := BFS.Search(0, [BFS.Node(web.canonical(discoveryUri), 0)], map[]);
      BFS.Start(graph, web.canonical(discoveryUri), Max0(limits.maxDepth));
    } else {
      s := FrontierAfter(web, graph, discoveryUri, limits, clock, n - 1);
      var c := After(web, discoveryUri, limits, clock, n - 1);
      if Going(limits, c, clock(2 * (n - 1))) {
        s := TurnKeepsFrontier(web, graph, web.canonical(discoveryUri), Max0(limits.maxDepth), c, clock(2 * (n - 1) + 1), s);
      }
    }
  }

  // ---------------------------------------------------------------- the bound on the work

  /** The pages a crawl may still visit: none once it was cut. */
  function Left(maxDepth: int, bound: nat, c: Crawl): nat {
    if c.cut then 0 else Weight(c.queue, Max0(maxDepth), bound)
  }

  /** A page at the depth limit has no links to follow, and no page has more than the bound. */
  ghost predicate Bounded(web: Web, maxDepth: int, bound: nat) {
    forall u, e, late {:trigger web.ask(u, e, late)} :: |web.ask(u, e, late).links| <= if e.depth < maxDepth then bound else 0
  }

  ghost predicate WithinLimit(queue: seq<Entry>, limit: nat) {
    forall i :: 0 <= i < |queue| ==> queue[i].depth <= limit
  }

  /** Taking the head off and queueing its links leaves less to do and stays within the limit. */
  lemma HeadLightens(queue: seq<Entry>, links: seq<Link>, limit: nat, bound: nat)
    requires queue != [] && WithinLimit(queue, limit) && |links| <= bound && (links != [] ==> queue[0].depth < limit)
    ensures var next := queue[1..] + Enqueued(links, queue[0].depth + 1);
      Weight(next, limit, bound) < Weight(queue, limit, bound) && WithinLimit(next, limit)
  {
    StepLightens(queue, links, limit, bound);
  }

  lemma DropLightens(queue: seq<Entry>, limit: nat, bound: nat)
    requires queue != [] && WithinLimit(queue, limit)
    ensures Weight(queue[1..], limit, bound) < Weight(queue, limit, bound) && WithinLimit(queue[1..], limit)
  {
    HeadLightens(queue, [], limit, bound);
    assert Enqueued([], queue[0].depth + 1) == [] && queue[1..] + [] == queue[1..];
  }

  /** A turn sees at most one more page, and leaves less to do by at least as much. */
  lemma TurnLightens(web: Web, maxDepth: int, c: Crawl, late: bool, bound: nat)
    requires c.queue != [] && !c.cut && WithinLimit(c.queue, Max0(maxDepth)) && Bounded(web, maxDepth, bound)
    ensures var c' := Turn(web, c, late);
      Left(maxDepth, bound, c') < Left(maxDepth, bound, c) && |c'.seen| <= |c.seen| + 1 && WithinLimit(c'.queue, Max0(maxDepth))
  {
    var u := web.canonical(c.queue[0].link.uri);
    TurnMovesQueue(web, c, late);
    DropLightens(c.queue, Max0(maxDepth), bound);
    if u !in c.seen && !web.ask(u, c.queue[0], late).cut {
      HeadLightens(c.queue, web.ask(u, c.queue[0], late).links, Max0(maxDepth), bound);
    }
  }

  /** Pages seen and pages still possible never exceed what the depth and the links per page allow. */
  lemma {:induction false} WorkIsBounded(web: Web, discoveryUri: Uri, limits: Limits, clock: nat -> bool, n: nat, bound: nat)
    requires Bounded(web, limits.maxDepth, bound)
    ensures var c := After(web, discoveryUri, limits, clock, n);
      && |c.seen| + Left(limits.maxDepth, bound, c) <= Cost(Max0(limits.maxDepth), bound)
      && WithinLimit(c.queue, Max0(limits.maxDepth))
  {
    if n == 0 {
      WeightOfHead(Start(discoveryUri).queue, Max0(limits.maxDepth), bound);
    } else {
      WorkIsBounded(web, discoveryUri, limits, clock, n - 1, bound);
      var c := After(web, discoveryUri, limits, clock, n - 1);
      if Going(limits, c, clock(2 * (n - 1))) {
        TurnLightens(web, limits.maxDepth, c, clock(2 * (n - 1) + 1), bound);
      }
    }
  }

  // ---------------------------------------------------------------- the output's half of a turn

  /** It is found exactly when there is one. */
  lemma {:induction false} FirstIsWanted(documents: seq<Document>, digest: string)
    ensures var d := FirstWithDigest(documents, digest);
      && (d.Some? <==> HasDigest(documents, digest))
      && (d.Some? ==> d.value in documents && d.value.digest == digest)
  {
    if documents != [] {
      assert documents == [documents[0]] + documents[1..];
      FirstIsWanted(documents[1..], digest);
      if HasDigest(documents, digest) && documents[0].digest != digest {
        var d :| d in documents && d.digest == digest;
        assert d in documents[1..];
      }
    }
  }

  /** Admitting keeps the indexes, and the page's URI is accounted for. */
  lemma AdmitKeepsIndexes(c: Crawl, d: Document)
    requires c.observations != [] && Indexed(c.documents, c.hashes, c.uris)
    ensures var c' := Admit(c, d);
      && Indexed(c'.documents, c'.hashes, c'.uris)
      && d.uri in c'.uris && (forall u :: u in c.uris ==> u in c'.uris)
      && (c'.documents == c.documents || c'.documents == c.documents + [d])
  {
    var same := FirstWithDigest(c.documents, d.digest);
    FirstIsWanted(c.documents, d.digest);
    if d.uri !in c.uris {
      if same.Some? {
        assert Named(c.documents, same.value.id);
      } else {
        IndexedGrows(c.documents, c.hashes, c.uris, d);
      }
    }
  }

  /** Admitting writes down the document that the page duplicates, if any. */
  lemma AdmitKeepsTrace(permitted: iset<Uri>, c: Crawl, d: Document)
    requires c.observations != [] && Indexed(c.documents, c.hashes, c.uris) && Traced(permitted, c.observations, c.seen, c.documents)
    ensures Traced(permitted, Admit(c, d).observations, c.seen, Admit(c, d).documents)
  {
    var same, last := FirstWithDigest(c.documents, d.digest), c.observations[|c.observations| - 1];
    FirstIsWanted(c.documents, d.digest);
    if d.uri in c.uris {
      TracedAdmits(permitted, c.observations, c.seen, c.documents, c.documents, Some(c.uris[d.uri]));
    } else if same.Some? {
      assert Named(c.documents, same.value.id);
      TracedAdmits(permitted, c.observations, c.seen, c.documents, c.documents, Some(same.value.id));
    } else {
      assert last in c.observations;
      NamedGrows(c.documents, d, last.duplicate);
      TracedAdmits(permitted, c.observations, c.seen, c.documents, c.documents + [d], last.duplicate);
      assert Annotate(c.observations, last.duplicate) == c.observations;
    }
  }

  lemma NamedGrows(documents: seq<Document>, d: Document, id: Option<string>)
    requires id.Some? ==> Named(documents, id.value)
    ensures id.Some? ==> Named(documents + [d], id.value)
  {
    if id.Some? {
      var x :| x in documents && x.id == id.value;
      assert x in documents + [d];
    }
  }

  /** What one turn adds to the record of visits. */
  function Record(web: Web, c: Crawl, late: bool, done: map<Uri, Visited>): map<Uri, Visited>
    requires c.queue != []
  {
    var e := c.queue[0];
    var u := web.canonical(e.link.uri);
    var a := web.ask(u, e, late);
    if u in c.seen || a.cut then done else done[u := Visited(e, a.filing)]
  }

  ghost predicate OutputOk(permitted: iset<Uri>, c: Crawl, done: map<Uri, Visited>) {
    && Indexed(c.documents, c.hashes, c.uris)
    && Accounted(c.documents, c.uris, done)
    && Traced(permitted, c.observations, c.seen, c.documents)
  }

  /** Every seen page is recorded, unless the clock cut its visit short. */
  ghost predicate Covers(c: Crawl, done: map<Uri, Visited>) {
    (forall u :: u in done ==> u in c.seen) && (c.cut || forall u :: u in c.seen ==> u in done)
  }

  /** What an answer writes down is about its page, and is something when the page gives a document. */
  ghost predicate Noted(web: Web, permitted: iset<Uri>) {
    forall u, e, late {:trigger web.ask(u, e, late)} ::
      VisitNotes(permitted, u, web.ask(u, e, late).notes) && (web.ask(u, e, late).filing.Some? ==> web.ask(u, e, late).notes != [])
  }

  lemma VisitFiles(c: Crawl, u: Uri, a: Answer)
    requires c.queue != [] && !a.cut && a.filing.Some? && a.notes != []
    ensures var c' := Visit(c, u, a);
      var filed := Admit(c.(seen := c.seen + {u}, observations := c.observations + a.notes), a.filing.value);
      && c'.documents == filed.documents && c'.hashes == filed.hashes && c'.uris == filed.uris
      && c'.observations == filed.observations && c'.seen == filed.seen
  {
  }

  lemma VisitKeepsOutput(permitted: iset<Uri>, c: Crawl, u: Uri, a: Answer, done: map<Uri, Visited>)
    requires c.queue != [] && u !in c.seen && u !in done && OutputOk(permitted, c, done)
    requires VisitNotes(permitted, u, a.notes) && (a.filing.Some? ==> a.notes != [])
    ensures OutputOk(permitted, Visit(c, u, a), if a.cut then done else done[u := Visited(c.queue[0], a.filing)])
  {
    TracedGrows(permitted, c.observations, c.seen, c.documents, u, a.notes);
    var c' := Visit(c, u, a);
    if !a.cut {
      if a.filing.Some? {
        var noted := c.(seen := c.seen + {u}, observations := c.observations + a.notes);
        AdmitKeepsIndexes(noted, a.filing.value);
        AdmitKeepsTrace(permitted, noted, a.filing.value);
        VisitFiles(c, u, a);
      }
      AccountedGrows(c.documents, c.uris, done, u, Visited(c.queue[0], a.filing), c'.documents, c'.uris);
    }
  }

  ghost predicate DuplicatesOk(c: Crawl, done: map<Uri, Visited>) {
    Explained(c.observations, c.documents, c.uris, done)
  }

  /** Admitting notes a duplicate under the page and maps its final URI to a document of its content, or files it. */
  lemma AdmitExplains(c: Crawl, d: Document)
    requires c.observations != [] && Indexed(c.documents, c.hashes, c.uris)
    ensures var c' := Admit(c, d); var last := |c.observations| - 1;
      && c.documents <= c'.documents && (forall x :: x in c.uris ==> x in c'.uris && c'.uris[x] == c.uris[x])
      && |c'.observations| == |c.observations| && c'.observations[..last] == c.observations[..last]
      && c'.observations[last].uri == c.observations[last].uri
      && d.uri in c'.uris && (forall x :: x in c'.uris && x !in c.uris ==> x == d.uri && HasContent(c'.documents, c'.uris[x], d.digest))
      && (c'.observations[last].duplicate == Some(c'.uris[d.uri])
          || (c'.observations == c.observations && c'.documents == c.documents + [d]))
  {
    FirstIsWanted(c.documents, d.digest);
  }

  lemma QuietVisitExplains(c: Crawl, u: Uri, v: Visited, notes: seq<Observation>, done: map<Uri, Visited>)
    requires u !in done && v.filing.None? && DuplicatesOk(c, done)
    requires forall o :: o in notes ==> o.uri == u && o.duplicate == None
    ensures Explained(c.observations + notes, c.documents, c.uris, done[u := v])
  {
    ExplainedGrows(c.observations, c.documents, c.uris, done, u, v, c.observations + notes, c.documents, c.uris);
  }

  /** The last observation tells how the page u with this document was filed. */
  ghost predicate FiledAs(u: Uri, d: Document, last: Observation, documents: seq<Document>, uris: map<Uri, string>) {
    last.uri == u && d.uri in uris && if last.duplicate.Some? then last.duplicate.value == uris[d.uri] else d in documents
  }

  lemma FilingVisitExplains(observations: seq<Observation>, documents: seq<Document>, uris: map<Uri, string>, done: map<Uri, Visited>,
                            u: Uri, v: Visited, observations': seq<Observation>, documents': seq<Document>, uris': map<Uri, string>)
    requires u !in done && v.filing.Some? && Explained(observations, documents, uris, done)
    requires documents <= documents' && forall x :: x in uris ==> x in uris' && uris'[x] == uris[x]
    requires forall o :: o in observations ==> o in observations'
    requires observations' != [] && FiledAs(u, v.filing.value, observations'[|observations'| - 1], documents', uris')
    requires forall o :: o in observations' && o !in observations ==>
      o.uri == u && (o.duplicate.Some? ==> o == observations'[|observations'| - 1])
    requires forall x :: x in uris' && x !in uris ==>
      x == v.filing.value.uri && HasContent(documents', uris'[x], v.filing.value.digest)
    ensures Explained(observations', documents', uris', done[u := v])
  {
    var last := observations'[|observations'| - 1];
    assert last in observations';
    forall o | o in observations' && o !in observations ensures o.uri == u && NamesMapped(o, uris', map[u := v]) {
    }
    assert KeptOrNoted(u, observations', documents', uris', map[u := v]);
    ExplainedGrows(observations, documents, uris, done, u, v, observations', documents', uris');
  }

  /** An admitted page is filed or noted, and nothing else moves. */
  lemma AdmitFiles(c: Crawl, u: Uri, notes: seq<Observation>, d: Document)
    requires notes != [] && forall o :: o in notes ==> o.uri == u && o.duplicate == None
    requires Indexed(c.documents, c.hashes, c.uris)
    ensures var c' := Admit(c.(observations := c.observations + notes), d);
      && c.documents <= c'.documents && (forall x :: x in c.uris ==> x in c'.uris && c'.uris[x] == c.uris[x])
      && (forall o :: o in c.observations ==> o in c'.observations)
      && c'.observations != [] && FiledAs(u, d, c'.observations[|c'.observations| - 1], c'.documents, c'.uris)
      && (forall o :: o in c'.observations && o !in c.observations ==>
            o.uri == u && (o.duplicate.Some? ==> o == c'.observations[|c'.observations| - 1]))
      && forall x :: x in c'.uris && x !in c.uris ==> x == d.uri && HasContent(c'.documents, c'.uris[x], d.digest)
  {
    var noted := c.(observations := c.observations + notes);
    AdmitExplains(noted, d);
    var c' := Admit(noted, d);
    var last := |noted.observations| - 1;
    assert noted.observations[last] in notes;
    NotesFollow(c.observations, notes, c'.observations, u);
  }

  lemma AdmitKeepsExplained(c: Crawl, u: Uri, v: Visited, notes: seq<Observation>, done: map<Uri, Visited>, c': Crawl)
    requires u !in done && v.filing.Some? && Indexed(c.documents, c.hashes, c.uris)
    requires Explained(c.observations, c.documents, c.uris, done)
    requires notes != [] && forall o :: o in notes ==> o.uri == u && o.duplicate == None
    requires c' == Admit(c.(observations := c.observations + notes), v.filing.value)
    ensures Explained(c'.observations, c'.documents, c'.uris, done[u := v])
  {
    AdmitFiles(c, u, notes, v.filing.value);
    FilingVisitExplains(c.observations, c.documents, c.uris, done, u, v, c'.observations, c'.documents, c'.uris);
  }

  lemma VisitExplains(c: Crawl, u: Uri, a: Answer, done: map<Uri, Visited>)
    requires c.queue != [] && u !in done && !a.cut && Indexed(c.documents, c.hashes, c.uris) && DuplicatesOk(c, done)
    requires (forall o :: o in a.notes ==> o.uri == u && o.duplicate == None) && (a.filing.Some? ==> a.notes != [])
    ensures DuplicatesOk(Visit(c, u, a), done[u := Visited(c.queue[0], a.filing)])
  {
    var v := Visited(c.queue[0], a.filing);
    VisitAdmits(c, u, a);
    if a.filing.Some? {
      AdmitKeepsExplained(c, u, v, a.notes, done, Admit(c.(observations := c.observations + a.notes), a.filing.value));
    } else {
      QuietVisitExplains(c, u, v, a.notes, done);
    }
  }

  lemma VisitAdmits(c: Crawl, u: Uri, a: Answer)
    requires c.queue != [] && !a.cut && (a.filing.Some? ==> a.notes != [])
    ensures var c', noted := Visit(c, u, a), c.(observations := c.observations + a.notes);
      var filed := if a.filing.Some? then Admit(noted, a.filing.value) else noted;
      c'.observations == filed.observations && c'.documents == filed.documents && c'.uris == filed.uris
  {
  }

  /** Old observations stay; the others are about u, and only the last of them may carry a duplicate. */
  lemma NotesFollow(observations: seq<Observation>, notes: seq<Observation>, all: seq<Observation>, u: Uri)
    requires notes != [] && |all| == |observations| + |notes|
    requires forall o :: o in notes ==> o.uri == u && o.duplicate == None
    requires var last := |all| - 1; all[..last] == (observations + notes)[..last] && all[last].uri == (observations + notes)[last].uri
    ensures forall o :: o in observations ==> o in all
    ensures forall o :: o in all && o !in observations ==> o.uri == u && (o.duplicate.Some? ==> o == all[|all| - 1])
    ensures all[|all| - 1].uri == u
  {
    var last := |all| - 1;
    assert forall k :: 0 <= k < |observations| ==> all[k] == all[..last][k] == observations[k];
    forall k | |observations| <= k < |all|
      ensures all[k].uri == u && (all[k].duplicate.Some? ==> k == last)
    {
      assert (observations + notes)[k] in notes;
      if k < last { assert all[..last][k] == (observations + notes)[k]; }
    }
  }

  /** What is recorded of each visit is what the web answered. */
  ghost predicate Recorded(web: Web, done: map<Uri, Visited>) {
    forall u :: u in done ==>
      exists late :: var a := web.ask(u, done[u].entry, late); !a.cut && done[u].filing == a.filing
  }

  lemma TurnKeepsOutput(web: Web, permitted: iset<Uri>, c: Crawl, late: bool, done: map<Uri, Visited>)
    requires c.queue != [] && !c.cut && OutputOk(permitted, c, done) && Recorded(web, done) && Covers(c, done) && Noted(web, permitted)
    ensures OutputOk(permitted, Turn(web, c, late), Record(web, c, late, done))
    ensures Recorded(web, Record(web, c, late, done))
    ensures Covers(Turn(web, c, late), Record(web, c, late, done))
  {
    TurnMovesQueue(web, c, late);
    var u := web.canonical(c.queue[0].link.uri);
    if u !in c.seen {
      VisitKeepsOutput(permitted, c, u, web.ask(u, c.queue[0], late), done);
    }
  }

  lemma CutVisitExplains(c: Crawl, u: Uri, a: Answer, done: map<Uri, Visited>)
    requires c.queue != [] && a.cut && DuplicatesOk(c, done)
    requires forall o :: o in a.notes ==> o.duplicate == None
    ensures DuplicatesOk(Visit(c, u, a), done)
  {
    var c' := Visit(c, u, a);
    forall o | o in c'.observations ensures NamesMapped(o, c'.uris, done) {
      if o in c.observations { assert NamesMapped(o, c.uris, done); }
    }
    forall x | x in done ensures KeptOrNoted(x, c'.observations, c'.documents, c'.uris, done) {
      assert KeptOrNoted(x, c.observations, c.documents, c.uris, done);
    }
  }

  lemma TurnKeepsDuplicates(web: Web, permitted: iset<Uri>, c: Crawl, late: bool, done: map<Uri, Visited>)
    requires c.queue != [] && Indexed(c.documents, c.hashes, c.uris) && DuplicatesOk(c, done) && Noted(web, permitted)
    requires forall u :: u in done ==> u in c.seen
    ensures DuplicatesOk(Turn(web, c, late), Record(web, c, late, done))
  {
    var u := web.canonical(c.queue[0].link.uri);
    var a := web.ask(u, c.queue[0], late);
    if u !in c.seen {
      if a.cut {
        CutVisitExplains(c, u, a, done);
      } else {
        VisitExplains(c, u, a, done);
      }
    }
  }

  /** The record of visits after so many turns. */
  ghost function RecordAfter(web: Web, discoveryUri: Uri, limits: Limits, clock: nat -> bool, n: nat): map<Uri, Visited> {
    if n == 0 then map[]
    else
      var c, done := After(web, discoveryUri, limits, clock, n - 1), RecordAfter(web, discoveryUri, limits, clock, n - 1);
      if Going(limits, c, clock(2 * (n - 1))) then Record(web, c, clock(2 * (n - 1) + 1), done) else done
  }

  lemma {:induction false} OutputAfter(web: Web, permitted: iset<Uri>, discoveryUri: Uri, limits: Limits, clock: nat -> bool, n: nat)
    returns (done: map<Uri, Visited>)
    requires Noted(web, permitted)
    ensures OutputOk(permitted, After(web, discoveryUri, limits, clock, n), done)
    ensures Recorded(web, done) && done == RecordAfter(web, discoveryUri, limits, clock, n)
    ensures Covers(After(web, discoveryUri, limits, clock, n), done)
    ensures DuplicatesOk(After(web, discoveryUri, limits, clock, n), done)
  {
    if n == 0 {
      done := map[];
    } else {
      done := OutputAfter(web, permitted, discoveryUri, limits, clock, n - 1);
      var c := After(web, discoveryUri, limits, clock, n - 1);
      if Going(limits, c, clock(2 * (n - 1))) {
        TurnKeepsOutput(web, permitted, c, clock(2 * (n - 1) + 1), done);
        TurnKeepsDuplicates(web, permitted, c, clock(2 * (n - 1) + 1), done);
        done := Record(web, c, clock(2 * (n - 1) + 1), done);
      }
    }
  }

  lemma TurnKeepsLimits(web: Web, c: Crawl, late: bool)
    requires c.queue != []
    ensures var c' := Turn(web, c, late); |c'.documents| <= |c.documents| + 1 && c'.indexPages <= c.indexPages + 1
  {
  }

  lemma {:induction false} LimitsAreKept(web: Web, discoveryUri: Uri, limits: Limits, clock: nat -> bool, n: nat)
    ensures var c := After(web, discoveryUri, limits, clock, n);
      |c.documents| <= Max0(limits.maxDocuments) && c.indexPages <= Max0(limits.maxIndexPages)
  {
    if n > 0 {
      LimitsAreKept(web, discoveryUri, limits, clock, n - 1);
      var c := After(web, discoveryUri, limits, clock, n - 1);
      if Going(limits, c, clock(2 * (n - 1))) {
        TurnKeepsLimits(web, c, clock(2 * (n - 1) + 1));
      }
    }
  }

  // ---------------------------------------------------------------- the whole crawl

  /** Once the wall clock has run out it stays so. */
  ghost predicate Monotone(clock: nat -> bool) {
    forall i, j :: i <= j && clock(i) ==> clock(j)
  }

  ghost predicate CutOnlyLate(web: Web) {
    forall u, e, late {:trigger web.ask(u, e, late)} :: web.ask(u, e, late).cut ==> late
  }

  lemma {:induction false} CutWasLate(web: Web, discoveryUri: Uri, limits: Limits, clock: nat -> bool, n: nat)
    requires Monotone(clock) && CutOnlyLate(web) && After(web, discoveryUri, limits, clock, n).cut
    ensures clock(2 * n + 1)
  {
    var c := After(web, discoveryUri, limits, clock, n - 1);
    if c.cut {
      CutWasLate(web, discoveryUri, limits, clock, n - 1);
    } else {
      TurnMovesQueue(web, c, clock(2 * (n - 1) + 1));
    }
  }

  // ---------------------------------------------------------------- the source's web

  /** The edges out of u lead where these links do. */
  ghost predicate Offers(graph: BFS.Links, canonical: Uri -> Uri, u: Uri, links: seq<Link>) {
    forall v :: BFS.Edge(graph, u, v) <==> LinksTo(canonical, links, v)
  }

  lemma OffersChildren(w: World, u: Uri)
    ensures Offers(LinkGraph(w), w.canonical, u, Children(w, u))
  {
  }

  lemma QueuedAreChildren(graph: BFS.Links, canonical: Uri -> Uri, limit: nat, u: Uri, depth: nat, links: seq<Link>)
    requires Offers(graph, canonical, u, links) && depth < limit
    ensures BFS.OnlyChildren(graph, limit, BFS.Node(u, depth), Nodes(canonical, Enqueued(links, depth + 1)))
  {
    var more := Nodes(canonical, Enqueued(links, depth + 1));
    forall c | c in more
      ensures c.depth == depth + 1 <= limit && BFS.Edge(graph, u, c.uri)
    {
      var i :| 0 <= i < |more| && more[i] == c;
      assert links[i] in links;
      assert LinksTo(canonical, links, c.uri);
    }
  }

  lemma ChildrenAreQueued(graph: BFS.Links, canonical: Uri -> Uri, limit: nat, u: Uri, depth: nat, links: seq<Link>)
    requires Offers(graph, canonical, u, links)
    ensures BFS.AllChildren(graph, limit, BFS.Node(u, depth), Nodes(canonical, Enqueued(links, depth + 1)))
  {
    var more := Nodes(canonical, Enqueued(links, depth + 1));
    forall v | BFS.Edge(graph, u, v)
      ensures BFS.Node(v, depth + 1) in more
    {
      assert LinksTo(canonical, links, v);
      var l :| l in links && canonical(l.uri) == v;
      var i :| 0 <= i < |links| && links[i] == l;
      assert more[i] == BFS.Node(v, depth + 1);
    }
  }

  lemma LinksFeed(w: World, maxDepth: int, u: Uri, depth: nat, links: seq<Link>)
    requires links == if depth < maxDepth then Children(w, u) else []
    ensures BFS.ChildrenOf(LinkGraph(w), Max0(maxDepth), BFS.Node(u, depth), Nodes(w.canonical, Enqueued(links, depth + 1)))
  {
    if depth < maxDepth {
      OffersChildren(w, u);
      QueuedAreChildren(LinkGraph(w), w.canonical, Max0(maxDepth), u, depth, links);
      ChildrenAreQueued(LinkGraph(w), w.canonical, Max0(maxDepth), u, depth, links);
    }
  }

  lemma AnswerFeeds(w: World, root: Uri, maxDepth: int, u: Uri, e: Entry, late: bool, a: Answer)
    requires a == AnswerOf(w, root, maxDepth, u, e, late) && !a.cut
    ensures BFS.ChildrenOf(LinkGraph(w), Max0(maxDepth), BFS.Node(u, e.depth), Nodes(w.canonical, Enqueued(a.links, e.depth + 1)))
  {
    LinksFeed(w, maxDepth, u, e.depth, a.links);
  }

  lemma WebFeeds(w: World, discoveryUri: Uri, limits: Limits)
    ensures Feeds(WebOf(w, discoveryUri, limits), LinkGraph(w), Max0(limits.maxDepth))
  {
    var web := WebOf(w, discoveryUri, limits);
    forall u, e: Entry, late {:trigger web.ask(u, e, late)} | e.depth <= Max0(limits.maxDepth) && !web.ask(u, e, late).cut
      ensures BFS.ChildrenOf(LinkGraph(w), Max0(limits.maxDepth), BFS.Node(u, e.depth),
                             Nodes(web.canonical, Enqueued(web.ask(u, e, late).links, e.depth + 1)))
    {
      AnswerFeeds(w, w.canonical(discoveryUri), limits.maxDepth, u, e, late, web.ask(u, e, late));
    }
  }

  lemma WebIsBounded(w: World, discoveryUri: Uri, limits: Limits, bound: nat)
    requires LinksBounded(w, bound)
    ensures Bounded(WebOf(w, discoveryUri, limits), limits.maxDepth, bound)
  {
  }

  lemma WebIsNoted(w: World, discoveryUri: Uri, limits: Limits)
    ensures Noted(WebOf(w, discoveryUri, limits), Permitted(w)) && CutOnlyLate(WebOf(w, discoveryUri, limits))
  {
  }

  /** A run that ends with an empty queue and time left has seen exactly the pages within the depth limit. */
  lemma DryQueueSawAll(w: World, discoveryUri: Uri, limits: Limits, clock: nat -> bool, n: nat)
    requires Monotone(clock) && !clock(2 * n + 1) && After(WebOf(w, discoveryUri, limits), discoveryUri, limits, clock, n).queue == []
    ensures forall v :: v in After(WebOf(w, discoveryUri, limits), discoveryUri, limits, clock, n).seen <==>
              BFS.Within(LinkGraph(w), w.canonical(discoveryUri), v, Max0(limits.maxDepth))
  {
    var web := WebOf(w, discoveryUri, limits);
    WebIsNoted(w, discoveryUri, limits);
    WebFeeds(w, discoveryUri, limits);
    var s := FrontierAfter(web, LinkGraph(w), discoveryUri, limits, clock, n);
    if After(web, discoveryUri, limits, clock, n).cut {
      CutWasLate(web, discoveryUri, limits, clock, n);
      assert false;
    }
    BFS.DryQueueIsComplete(LinkGraph(w), w.canonical(discoveryUri), Max0(limits.maxDepth), s);
  }

  /**
   * At every turn the documents have pairwise distinct contents and URIs, the dedupe indexes agree with
   * them, no URI was fetched twice or without permission, every document is that of a visited page, every page
   * that gave a document is in the list or noted as a duplicate, and a duplicate names the document its final
   * URI is mapped to, one with the content that a visited page of that URI had.
   */
  lemma OutputIsSound(w: World, discoveryUri: Uri, limits: Limits, clock: nat -> bool, n: nat) returns (done: map<Uri, Visited>)
    ensures OutputOk(Permitted(w), After(WebOf(w, discoveryUri, limits), discoveryUri, limits, clock, n), done)
    ensures Covers(After(WebOf(w, discoveryUri, limits), discoveryUri, limits, clock, n), done)
    ensures DuplicatesOk(After(WebOf(w, discoveryUri, limits), discoveryUri, limits, clock, n), done)
    ensures forall u :: u in done ==> done[u].filing == Filing(w, w.canonical(discoveryUri), limits.maxDepth, u, done[u].entry)
    ensures done == RecordAfter(WebOf(w, discoveryUri, limits), discoveryUri, limits, clock, n)
  {
    WebIsNoted(w, discoveryUri, limits);
    done := OutputAfter(WebOf(w, discoveryUri, limits), Permitted(w), discoveryUri, limits, clock, n);
    RecordIsFiling(w, discoveryUri, limits, done);
  }

  lemma RecordIsFiling(w: World, discoveryUri: Uri, limits: Limits, done: map<Uri, Visited>)
    requires Recorded(WebOf(w, discoveryUri, limits), done)
    ensures forall u :: u in done ==> done[u].filing == Filing(w, w.canonical(discoveryUri), limits.maxDepth, u, done[u].entry)
  {
    var web := WebOf(w, discoveryUri, limits);
    forall u | u in done
      ensures done[u].filing == Filing(w, w.canonical(discoveryUri), limits.maxDepth, u, done[u].entry)
    {
      var late :| var a := web.ask(u, done[u].entry, late); !a.cut && done[u].filing == a.filing;
    }
  }

  /** No page, document or index page beyond the limits; the pages are bounded without any help from the clock. */
  lemma CrawlIsBounded(w: World, discoveryUri: Uri, limits: Limits, clock: nat -> bool, n: nat, bound: nat)
    requires LinksBounded(w, bound)
    ensures var c := After(WebOf(w, discoveryUri, limits), discoveryUri, limits, clock, n);
      && |c.seen| <= Cost(Max0(limits.maxDepth), bound)
      && |c.documents| <= Max0(limits.maxDocuments) && c.indexPages <= Max0(limits.maxIndexPages)
  {
    WebIsBounded(w, discoveryUri, limits, bound);
    WorkIsBounded(WebOf(w, discoveryUri, limits), discoveryUri, limits, clock, n, bound);
    LimitsAreKept(WebOf(w, discoveryUri, limits), discoveryUri, limits, clock, n);
  }

  /** While the loop goes on, every turn leaves less to do. */
  lemma WorkShrinks(web: Web, discoveryUri: Uri, limits: Limits, clock: nat -> bool, n: nat, bound: nat)
    requires Bounded(web, limits.maxDepth, bound)
    requires Going(limits, After(web, discoveryUri, limits, clock, n), clock(2 * n))
    ensures Left(limits.maxDepth, bound, After(web, discoveryUri, limits, clock, n + 1))
         < Left(limits.maxDepth, bound, After(web, discoveryUri, limits, clock, n))
  {
    WorkIsBounded(web, discoveryUri, limits, clock, n, bound);
    TurnLightens(web, limits.maxDepth, After(web, discoveryUri, limits, clock, n), clock(2 * n + 1), bound);
  }

  /** What a turn of the loop may rely on: the indexes agree, and the turn leaves less to do. */
  lemma TurnMakesProgress(web: Web, permitted: iset<Uri>, discoveryUri: Uri, limits: Limits, clock: nat -> bool, n: nat, bound: nat)
    requires Bounded(web, limits.maxDepth, bound) && Noted(web, permitted)
    requires Going(limits, After(web, discoveryUri, limits, clock, n), clock(2 * n))
    ensures var c := After(web, discoveryUri, limits, clock, n); Indexed(c.documents, c.hashes, c.uris)
    ensures After(web, discoveryUri, limits, clock, n + 1) == Turn(web, After(web, discoveryUri, limits, clock, n), clock(2 * n + 1))
    ensures Left(limits.maxDepth, bound, After(web, discoveryUri, limits, clock, n + 1))
         < Left(limits.maxDepth, bound, After(web, discoveryUri, limits, clock, n))
  {
    var _ := OutputAfter(web, permitted, discoveryUri, limits, clock, n);
    AfterTurn(web, discoveryUri, limits, clock, n);
    WorkShrinks(web, discoveryUri, limits, clock, n, bound);
  }

  /** The web answers as the world does. */
  ghost predicate Speaks(web: Web, w: World, discoveryUri: Uri, limits: Limits) {
    && web.canonical == w.canonical
    && forall u, e, late {:trigger AnswerOf(w, w.canonical(discoveryUri), limits.maxDepth, u, e, late)} ::
         web.ask(u, e, late) == AnswerOf(w, w.canonical(discoveryUri), limits.maxDepth, u, e, late)
  }

  lemma WebSpeaks(w: World, discoveryUri: Uri, limits: Limits)
    ensures Speaks(WebOf(w, discoveryUri, limits), w, discoveryUri, limits)
  {
  }

  // ---------------------------------------------------------------- the crawl

  /** Parsing and filing of a fetched page. */
  method Examine(w: World, maxDepth: int, root: Uri, u: Uri, e: Entry)
    returns (disposition: Disposition, isIndex: bool, links: seq<Link>, filing: Option<Document>)
    requires w.site(u).allowed && w.site(u).robots
    ensures disposition == DispositionOf(w, maxDepth, u, e)
    ensures isIndex <==> Obtained(w.site(u)) && w.site(u).fetched.body.Html?
    ensures links == if e.depth < maxDepth then Children(w, u) else []
    ensures filing == Filing(w, root, maxDepth, u, e)
  {
    isIndex, links, filing := false, [], None;
    var fetched := w.site(u).fetched;
    if fetched.NoPage? { return NotAccepted, isIndex, links, filing; }
    if !w.site(u).stored { return StorageFailed, isIndex, links, filing; }
    var title := w.fallbackTitle(u, e.link.caption);
    var isRoot := StripSlashes(u) == StripSlashes(root);
    var isMaterial := w.material(u, e.link.caption);
    match fetched.body {
    case Html(heading, anchors) =>
      isIndex := true;
      if heading != "" { title := heading; }
      if e.depth < maxDepth { links := Followed(w, anchors); }
    case Json(found) =>
      if e.depth < maxDepth {
        if found.None? { return Malformed, isIndex, links, filing; }
        links := Followed(w, found.value);
      }
    case Sitemap(found) =>
      if e.depth < maxDepth {
        if found.None? { return Malformed, isIndex, links, filing; }
        links := Followed(w, found.value);
      }
    case Other =>
    }
    disposition := Accepted;
    var final := if fetched.finalUri.Some? then fetched.finalUri.value else u;
    isMaterial := isMaterial && w.material(final, title);
    if isRoot || isMaterial {
      filing := Some(Document(w.documentId(final), final, fetched.digest, if |title| > 500 then title[..500] else title));
    }
  }

  /** The page's URI is asked for, from the source's rules to the fetch. */
  method VisitPage(w: World, root: Uri, maxDepth: int, u: Uri, e: Entry, late: bool) returns (a: Answer)
    ensures a == AnswerOf(w, root, maxDepth, u, e, late)
  {
    a := Answer([], false, false, [], None);
    if !w.site(u).allowed { return; }
    if w.site(u).robotsNoted {
      a := a.(notes := [Observation(u, RobotsFile, None)]);
    }
    if late { return a.(cut := true); }
    if !w.site(u).robots {
      return a.(notes := a.notes + [Observation(u, Disallowed, None)]);
    }
    var disposition, isIndex, links, filing := Examine(w, maxDepth, root, u, e);
    return Answer(a.notes + [Observation(u, disposition, None)], false, isIndex, links, filing);
  }

  /** Enters a page among the documents unless its URI or its content is there already. */
  method FileDocument(c: Crawl, d: Document) returns (c': Crawl)
    requires c.observations != [] && Indexed(c.documents, c.hashes, c.uris)
    ensures c' == Admit(c, d)
  {
    FirstIsWanted(c.documents, d.digest);
    if d.uri in c.uris {
      return c.(observations := Annotate(c.observations, Some(c.uris[d.uri])));
    }
    if d.digest in c.hashes {
      var i := 0;
      while c.documents[i].digest != d.digest
        invariant 0 <= i < |c.documents|
        invariant FirstWithDigest(c.documents, d.digest) == FirstWithDigest(c.documents[i..], d.digest)
        invariant HasDigest(c.documents[i..], d.digest)
        decreases |c.documents| - i
      {
        FirstIsWanted(c.documents[i + 1..], d.digest);
        assert c.documents[i..][1..] == c.documents[i + 1..];
        i := i + 1;
      }
      var id := c.documents[i].id;
      return c.(observations := Annotate(c.observations, Some(id)), uris := c.uris[d.uri := id]);
    }
    return c.(documents := c.documents + [d], hashes := c.hashes + {d.digest}, uris := c.uris[d.uri := d.id]);
  }

  /** The answer for the new page u is written down, its links are queued, and it is filed. */
  method TakeAnswer(c: Crawl, u: Uri, a: Answer) returns (c': Crawl)
    requires c.queue != [] && Indexed(c.documents, c.hashes, c.uris)
    ensures c' == Visit(c, u, a)
  {
    c' := c.(queue := c.queue[1..], seen := c.seen + {u}, observations := c.observations + a.notes);
    if a.cut { return c'.(cut := true); }
    if a.isIndex { c' := c'.(indexPages := c.indexPages + 1); }
    c' := c'.(queue := c'.queue + Enqueued(a.links, c.queue[0].depth + 1));
    if a.filing.Some? && c'.observations != [] { c' := FileDocument(c', a.filing.value); }
  }

  /** One turn: an entry is taken off, and its page is visited, expanded and filed unless it was seen. */
  method TakeTurn(w: World, discoveryUri: Uri, limits: Limits, c: Crawl, late: bool, ghost web: Web) returns (c': Crawl)
    requires c.queue != [] && Indexed(c.documents, c.hashes, c.uris) && Speaks(web, w, discoveryUri, limits)
    ensures c' == Turn(web, c, late)
  {
    var u := w.canonical(c.queue[0].link.uri);
    if u in c.seen { return c.(queue := c.queue[1..]); }
    var a := VisitPage(w, w.canonical(discoveryUri), limits.maxDepth, u, c.queue[0], late);
    c' := TakeAnswer(c, u, a);
  }

  /** The loop body: the next turn, with less left to do. */
  method NextTurn(w: World, discoveryUri: Uri, limits: Limits, clock: nat -> bool, c: Crawl, turns: nat, ghost web: Web, ghost bound: nat)
    returns (c': Crawl)
    requires Speaks(web, w, discoveryUri, limits) && Bounded(web, limits.maxDepth, bound) && Noted(web, Permitted(w))
    requires Going(limits, c, clock(2 * turns)) && c == After(web, discoveryUri, limits, clock, turns)
    ensures c' == After(web, discoveryUri, limits, clock, turns + 1)
    ensures Left(limits.maxDepth, bound, c') < Left(limits.maxDepth, bound, c)
  {
    TurnMakesProgress(web, Permitted(w), discoveryUri, limits, clock, turns, bound);
    c' := TakeTurn(w, discoveryUri, limits, c, clock(2 * turns + 1), web);
  }

  /** The loop: the number of turns is finite without any help from the clock. */
  method Loop(w: World, discoveryUri: Uri, limits: Limits, clock: nat -> bool, ghost web: Web, ghost bound: nat) returns (c: Crawl, turns: nat)
    requires Speaks(web, w, discoveryUri, limits) && Bounded(web, limits.maxDepth, bound) && Noted(web, Permitted(w))
    ensures c == After(web, discoveryUri, limits, clock, turns) && !Going(limits, c, clock(2 * turns))
  {
    c, turns := Start(discoveryUri), 0;
    while Going(limits, c, clock(2 * turns))
      invariant c == After(web, discoveryUri, limits, clock, turns)
      decreases Left(limits.maxDepth, bound, c)
    {
      c := NextTurn(w, discoveryUri, limits, clock, c, turns, web, bound);
      turns := turns + 1;
    }
  }

  /** crawl_source */
  method CrawlSource(w: World, discoveryUri: Uri, limits: Limits, clock: nat -> bool, ghost bound: nat)
    returns (c: Crawl, exhausted: bool, turns: nat)
    requires LinksBounded(w, bound)
    ensures c == After(WebOf(w, discoveryUri, limits), discoveryUri, limits, clock, turns)
    ensures c.queue == [] || c.indexPages >= limits.maxIndexPages || |c.documents| >= limits.maxDocuments || clock(2 * turns) || c.cut
    ensures exhausted == clock(2 * turns + 1)
  {
    WebSpeaks(w, discoveryUri, limits);
    WebIsBounded(w, discoveryUri, limits, bound);
    WebIsNoted(w, discoveryUri, limits);
    c, turns := Loop(w, discoveryUri, limits, clock, WebOf(w, discoveryUri, limits), bound);
    exhausted := clock(2 * turns + 1);
  }
}
