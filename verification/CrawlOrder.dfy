/** In which order a crawl visits and files pages, and which of them it counts as index pages. */
module CrawlOrder {
  import opened Common
  import opened CrawlPages
  import opened CrawlOutput
  import opened Crawler
  import opened CrawlTerms
  import opened Graphs
  import opened Positions

  // ---------------------------------------------------------------- the links of one page

  /** The positions of the links that the rules allow and that are worth discovering. */
  ghost function Worthwhile(w: World, links: seq<Link>): (s: set<nat>)
    ensures forall k :: k in s ==> k < |links|
  {
    set k: nat | k < |links| && w.site(links[k].uri).allowed && w.discoverable(links[k])
  }

  ghost predicate TakesAt(followed: seq<Link>, links: seq<Link>, places: seq<nat>) {
    |followed| == |places| && forall i :: 0 <= i < |places| ==> places[i] < |links| && followed[i] == links[places[i]]
  }

  lemma WorthwhileSnoc(w: World, links: seq<Link>, l: Link)
    ensures Worthwhile(w, links + [l]) == Worthwhile(w, links) + if w.site(l.uri).allowed && w.discoverable(l) then {|links|} else {}
  {
    var all := links + [l];
    assert all[|links|] == l && forall k :: 0 <= k < |links| ==> all[k] == links[k];
  }

  lemma TakesSnoc(followed: seq<Link>, links: seq<Link>, places: seq<nat>, l: Link)
    requires TakesAt(followed, links, places)
    ensures TakesAt(followed, links + [l], places)
    ensures TakesAt(followed + [l], links + [l], places + [|links|])
  {
  }

  /** Links are followed in the order of the page. */
  lemma {:induction false} FollowedInOrder(w: World, links: seq<Link>) returns (places: seq<nat>)
    ensures Lists(places, Worthwhile(w, links)) && TakesAt(Followed(w, links), links, places)
  {
    if links == [] {
      places := [];
    } else {
      var front, l := links[..|links| - 1], links[|links| - 1];
      assert links == front + [l];
      places := FollowedInOrder(w, front);
      WorthwhileSnoc(w, front, l);
      TakesSnoc(Followed(w, front), front, places, l);
      if w.site(l.uri).allowed && w.discoverable(l) {
        ListsSnoc(places, Worthwhile(w, front), |front|);
        places := places + [|front|];
      }
    }
  }

  // ---------------------------------------------------------------- the order of the visits

  /** Allowed, fetched and stored HTML. */
  predicate IsIndexPage(w: World, u: Uri) {
    var s := w.site(u);
    s.allowed && s.robots && s.fetched.Page? && s.stored && s.fetched.body.Html?
  }

  ghost function IndexPages(w: World): iset<Uri> {
    iset u: Uri | IsIndexPage(w, u)
  }

  /** The positions of the index pages. */
  ghost function IndexPlaces(pages: iset<Uri>, order: seq<Uri>): (s: set<nat>)
    ensures forall k :: k in s ==> k < |order|
  {
    set k: nat | k < |order| && order[k] in pages
  }

  /** The document at i is that of the page visited at places[i], which belongs among the documents. */
  ghost predicate FiledAt(w: World, root: Uri, maxDepth: int, order: seq<Uri>, visits: map<Uri, Entry>, d: Document, k: nat) {
    && k < |order| && order[k] in visits
    && Belongs(w, root, maxDepth, order[k], visits[order[k]]) && Records(w, order[k], visits[order[k]], d)
  }

  ghost predicate FiledInOrder(w: World, root: Uri, maxDepth: int, order: seq<Uri>, visits: map<Uri, Entry>,
                               documents: seq<Document>, places: seq<nat>) {
    && |places| == |documents| && (forall i, j :: 0 <= i < j < |places| ==> places[i] < places[j])
    && forall i :: 0 <= i < |documents| ==> FiledAt(w, root, maxDepth, order, visits, documents[i], places[i])
  }

  /** The order lists the visited pages, once each. */
  ghost predicate IsOrder(order: seq<Uri>, visits: map<Uri, Entry>) {
    Distinct(order) && forall u :: u in order <==> u in visits
  }

  lemma OrderSnoc(order: seq<Uri>, visits: map<Uri, Entry>, u: Uri, e: Entry)
    requires IsOrder(order, visits) && u !in visits
    ensures IsOrder(order + [u], visits[u := e])
  {
    DistinctSnoc(order, u);
  }

  lemma IndexSnoc(pages: iset<Uri>, order: seq<Uri>, u: Uri)
    ensures |IndexPlaces(pages, order + [u])| == |IndexPlaces(pages, order)| + if u in pages then 1 else 0
  {
    var all, n := order + [u], |order|;
    assert all[n] == u && forall k :: 0 <= k < n ==> all[k] == order[k];
    if u in pages {
      assert IndexPlaces(pages, all) == IndexPlaces(pages, order) + {n};
    } else {
      assert IndexPlaces(pages, all) == IndexPlaces(pages, order);
    }
  }

  lemma FiledAtGrows(w: World, root: Uri, maxDepth: int, order: seq<Uri>, visits: map<Uri, Entry>, d: Document, k: nat, u: Uri, e: Entry)
    requires FiledAt(w, root, maxDepth, order, visits, d, k) && u !in visits
    ensures FiledAt(w, root, maxDepth, order + [u], visits[u := e], d, k)
  {
    assert (order + [u])[k] == order[k];
  }

  lemma FiledGrows(w: World, root: Uri, maxDepth: int, order: seq<Uri>, visits: map<Uri, Entry>,
                   documents: seq<Document>, places: seq<nat>, u: Uri, e: Entry)
    requires FiledInOrder(w, root, maxDepth, order, visits, documents, places) && u !in visits
    ensures FiledInOrder(w, root, maxDepth, order + [u], visits[u := e], documents, places)
  {
    forall i | 0 <= i < |documents| ensures FiledAt(w, root, maxDepth, order + [u], visits[u := e], documents[i], places[i]) {
      FiledAtGrows(w, root, maxDepth, order, visits, documents[i], places[i], u, e);
    }
  }

  lemma FiledSnoc(w: World, root: Uri, maxDepth: int, order: seq<Uri>, visits: map<Uri, Entry>,
                  documents: seq<Document>, places: seq<nat>, d: Document, k: nat)
    requires FiledInOrder(w, root, maxDepth, order, visits, documents, places) && FiledAt(w, root, maxDepth, order, visits, d, k)
    requires forall i :: 0 <= i < |places| ==> places[i] < k
    ensures FiledInOrder(w, root, maxDepth, order, visits, documents + [d], places + [k])
  {
    var all, ks := documents + [d], places + [k];
    forall i | 0 <= i < |all| ensures FiledAt(w, root, maxDepth, order, visits, all[i], ks[i]) {
      if i < |documents| { assert all[i] == documents[i] && ks[i] == places[i]; }
    }
  }

  /** What a visit does to the documents and to the count of index pages. */
  lemma VisitCounts(c: Crawl, u: Uri, a: Answer)
    requires c.queue != []
    ensures var c' := Visit(c, u, a);
      if a.cut then c'.documents == c.documents && c'.indexPages == c.indexPages
      else
        && c'.indexPages == c.indexPages + (if a.isIndex then 1 else 0)
        && (c'.documents == c.documents || (a.filing.Some? && c'.documents == c.documents + [a.filing.value]))
  {
  }

  /** Everything said of the order after some turns. */
  ghost predicate Ordered(w: World, root: Uri, maxDepth: int, order: seq<Uri>, visits: map<Uri, Entry>,
                          documents: seq<Document>, places: seq<nat>, indexPages: nat) {
    && IsOrder(order, visits) && FiledInOrder(w, root, maxDepth, order, visits, documents, places)
    && indexPages == |IndexPlaces(IndexPages(w), order)|
  }

  lemma VisitOrdered(w: World, root: Uri, maxDepth: int, c: Crawl, u: Uri, late: bool,
                     order: seq<Uri>, visits: map<Uri, Entry>, places: seq<nat>) returns (places': seq<nat>)
    requires c.queue != [] && u !in visits && !AnswerOf(w, root, maxDepth, u, c.queue[0], late).cut
    requires Ordered(w, root, maxDepth, order, visits, c.documents, places, c.indexPages)
    ensures var c' := Visit(c, u, AnswerOf(w, root, maxDepth, u, c.queue[0], late));
      Ordered(w, root, maxDepth, order + [u], visits[u := c.queue[0]], c'.documents, places', c'.indexPages)
  {
    var e := c.queue[0];
    var a := AnswerOf(w, root, maxDepth, u, e, late);
    var c' := Visit(c, u, a);
    VisitCounts(c, u, a);
    OrderSnoc(order, visits, u, e);
    IndexSnoc(IndexPages(w), order, u);
    FiledGrows(w, root, maxDepth, order, visits, c.documents, places, u, e);
    places' := places;
    if c'.documents != c.documents {
      BelongsTerms(w, root, maxDepth, u, e);
      assert (order + [u])[|order|] == u;
      forall i | 0 <= i < |places| ensures places[i] < |order| {
        assert FiledAt(w, root, maxDepth, order, visits, c.documents[i], places[i]);
      }
      FiledSnoc(w, root, maxDepth, order + [u], visits[u := e], c.documents, places, a.filing.value, |order|);
      places' := places + [|order|];
    }
  }

  lemma EntriesGrow(done: map<Uri, Visited>, u: Uri, v: Visited)
    ensures Entries(done[u := v]) == Entries(done)[u := v.entry]
  {
  }

  /** The same of a crawl and the record of its visits. */
  ghost predicate CrawlOrdered(w: World, discoveryUri: Uri, limits: Limits, c: Crawl, done: map<Uri, Visited>,
                               order: seq<Uri>, places: seq<nat>) {
    Ordered(w, w.canonical(discoveryUri), limits.maxDepth, order, Entries(done), c.documents, places, c.indexPages)
  }

  lemma StartOrdered(w: World, discoveryUri: Uri, limits: Limits)
    ensures CrawlOrdered(w, discoveryUri, limits, Start(discoveryUri), map[], [], [])
  {
    assert IndexPlaces(IndexPages(w), []) == {};
  }

  lemma TurnOrdered(w: World, discoveryUri: Uri, limits: Limits, c: Crawl, late: bool, done: map<Uri, Visited>,
                    order: seq<Uri>, places: seq<nat>) returns (order': seq<Uri>, places': seq<nat>)
    requires c.queue != [] && done.Keys <= c.seen && CrawlOrdered(w, discoveryUri, limits, c, done, order, places)
    ensures var web := WebOf(w, discoveryUri, limits);
      CrawlOrdered(w, discoveryUri, limits, Turn(web, c, late), Record(web, c, late, done), order', places')
  {
    var web, e := WebOf(w, discoveryUri, limits), c.queue[0];
    var u := web.canonical(e.link.uri);
    var a := web.ask(u, e, late);
    order', places' := order, places;
    if u !in c.seen {
      if a.cut {
        VisitCounts(c, u, a);
      } else {
        places' := VisitOrdered(w, w.canonical(discoveryUri), limits.maxDepth, c, u, late, order, Entries(done), places);
        order' := order + [u];
        EntriesGrow(done, u, Visited(e, a.filing));
      }
    }
  }

  ghost predicate HasOrder(w: World, discoveryUri: Uri, limits: Limits, c: Crawl, done: map<Uri, Visited>) {
    exists order, places :: CrawlOrdered(w, discoveryUri, limits, c, done, order, places)
  }

  lemma TurnHasOrder(w: World, discoveryUri: Uri, limits: Limits, c: Crawl, late: bool, done: map<Uri, Visited>)
    requires c.queue != [] && done.Keys <= c.seen && HasOrder(w, discoveryUri, limits, c, done)
    ensures var web := WebOf(w, discoveryUri, limits); HasOrder(w, discoveryUri, limits, Turn(web, c, late), Record(web, c, late, done))
  {
    var order, places :| CrawlOrdered(w, discoveryUri, limits, c, done, order, places);
    var order', places' := TurnOrdered(w, discoveryUri, limits, c, late, done, order, places);
  }

  /** The documents of a crawl after some turns in the order of its visits. */
  ghost predicate OrderAfter(w: World, web: Web, discoveryUri: Uri, limits: Limits, clock: nat -> bool, n: nat) {
    HasOrder(w, discoveryUri, limits, After(web, discoveryUri, limits, clock, n), RecordAfter(web, discoveryUri, limits, clock, n))
  }

  lemma VisitsAreSeen(w: World, discoveryUri: Uri, limits: Limits, clock: nat -> bool, n: nat)
    ensures var web := WebOf(w, discoveryUri, limits);
      RecordAfter(web, discoveryUri, limits, clock, n).Keys <= After(web, discoveryUri, limits, clock, n).seen
  {
    var visits := DocumentTerms(w, discoveryUri, limits, clock, n);
  }

  lemma StartHasOrder(w: World, web: Web, discoveryUri: Uri, limits: Limits, clock: nat -> bool)
    ensures OrderAfter(w, web, discoveryUri, limits, clock, 0)
  {
    StartOrdered(w, discoveryUri, limits);
  }

  lemma NextHasOrder(w: World, discoveryUri: Uri, limits: Limits, clock: nat -> bool, n: nat)
    requires OrderAfter(w, WebOf(w, discoveryUri, limits), discoveryUri, limits, clock, n)
    ensures OrderAfter(w, WebOf(w, discoveryUri, limits), discoveryUri, limits, clock, n + 1)
  {
    var web := WebOf(w, discoveryUri, limits);
    var c, done := After(web, discoveryUri, limits, clock, n), RecordAfter(web, discoveryUri, limits, clock, n);
    if Going(limits, c, clock(2 * n)) {
      VisitsAreSeen(w, discoveryUri, limits, clock, n);
      TurnHasOrder(w, discoveryUri, limits, c, clock(2 * n + 1), done);
    }
  }

  /**
   * After so many turns: the documents stand in the order in which their pages were visited, and the index pages
   * counted are the visited pages that are allowed, fetched, stored and HTML.
   */
  lemma {:induction false} VisitsInOrder(w: World, discoveryUri: Uri, limits: Limits, clock: nat -> bool, n: nat)
    ensures OrderAfter(w, WebOf(w, discoveryUri, limits), discoveryUri, limits, clock, n)
    decreases n
  {
    if n == 0 {
      StartHasOrder(w, WebOf(w, discoveryUri, limits), discoveryUri, limits, clock);
    } else {
      VisitsInOrder(w, discoveryUri, limits, clock, n - 1);
      NextHasOrder(w, discoveryUri, limits, clock, n - 1);
    }
  }
}
