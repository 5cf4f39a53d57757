/** What a crawl writes down and files, in terms of what the rules, the robots guard, the server and the store say. */
module CrawlTerms {
  import opened Common
  import opened CrawlPages
  import opened CrawlOutput
  import opened CrawlWork
  import opened Crawler
  import BFS = BreadthFirst

  // ---------------------------------------------------------------- which pages belong

  /** The same URI up to slashes at its end. */
  ghost predicate SameUpToSlashes(a: Uri, b: Uri) {
    exists n :: 0 <= n <= |a| && n <= |b| && a[..n] == b[..n] && OnlySlashes(a[n..]) && OnlySlashes(b[n..])
  }

  predicate OnlySlashes(s: string) {
    forall i :: 0 <= i < |s| ==> s[i] == '/'
  }

  /** Where the page was finally found. */
  function FoundAt(page: Fetched, u: Uri): Uri
    requires page.Page?
  {
    match page.finalUri
    case Some(v) => v
    case None => u
  }

  /** Its own title, or the one made up from the link when it has none. */
  function TitleOf(w: World, page: Fetched, u: Uri, e: Entry): string
    requires page.Page?
  {
    match page.body
    case Html(title, _) => if title == "" then w.fallbackTitle(u, e.link.caption) else title
    case _ => w.fallbackTitle(u, e.link.caption)
  }

  /** A feed that cannot be parsed. */
  predicate BrokenFeed(b: Body) {
    b == Json(None) || b == Sitemap(None)
  }

  /**
   * Allowed by the rules and the robots guard, fetched, stored and not a broken feed above the depth limit;
   * and either the root or material both as asked for and as found.
   */
  ghost predicate Belongs(w: World, root: Uri, maxDepth: int, u: Uri, e: Entry) {
    var s := w.site(u);
    && s.allowed && s.robots && s.fetched.Page? && s.stored
    && (e.depth >= maxDepth || !BrokenFeed(s.fetched.body))
    && (SameUpToSlashes(u, root)
        || (w.material(u, e.link.caption) && w.material(FoundAt(s.fetched, u), TitleOf(w, s.fetched, u, e))))
  }

  /** d is the record of the page that u led to. */
  predicate Records(w: World, u: Uri, e: Entry, d: Document) {
    var page := w.site(u).fetched;
    page.Page? &&
    var found, title := FoundAt(page, u), TitleOf(w, page, u, e);
    && d.uri == found && d.id == w.documentId(found) && d.digest == page.digest
    && d.title <= title && |d.title| == if |title| < 500 then |title| else 500
  }

  lemma LastIsNoSlash(s: string, n: nat)
    requires n < |s| && s[|s| - 1] != '/'
    ensures !OnlySlashes(s[n..])
  {
    assert s[n..][|s| - 1 - n] == s[|s| - 1];
  }

  lemma {:induction false} StrippedTerms(s: string)
    ensures StripSlashes(s) <= s && OnlySlashes(s[|StripSlashes(s)|..])
    ensures forall n :: 0 <= n <= |s| && OnlySlashes(s[n..]) ==> |StripSlashes(s)| <= n
  {
    if s != [] && s[|s| - 1] == '/' {
      var m := |s| - 1;
      StrippedTerms(s[..m]);
      var k := |StripSlashes(s)|;
      assert s[k..] == s[..m][k..] + ['/'];
      forall n | 0 <= n <= |s| && OnlySlashes(s[n..]) ensures k <= n {
        if n <= m {
          forall i | 0 <= i < m - n ensures s[..m][n..][i] == '/' { assert s[n..][i] == '/'; }
          assert OnlySlashes(s[..m][n..]);
        }
      }
    } else {
      forall n | 0 <= n <= |s| && OnlySlashes(s[n..]) ensures |s| <= n {
        if n < |s| { LastIsNoSlash(s, n); }
      }
    }
  }

  lemma SlashTerms(a: Uri, b: Uri)
    ensures StripSlashes(a) == StripSlashes(b) <==> SameUpToSlashes(a, b)
  {
    StrippedTerms(a);
    StrippedTerms(b);
    if StripSlashes(a) == StripSlashes(b) {
      var n := |StripSlashes(a)|;
      assert a[..n] == StripSlashes(a) && b[..n] == StripSlashes(b);
    }
    if SameUpToSlashes(a, b) {
      var n :| 0 <= n <= |a| && n <= |b| && a[..n] == b[..n] && OnlySlashes(a[n..]) && OnlySlashes(b[n..]);
      SameStripped(a, b, n);
      SameStripped(b, a, n);
    }
  }

  lemma SlashesFrom(a: Uri, b: Uri, n: nat, k: nat)
    requires k <= n <= |a| && n <= |b| && a[..n] == b[..n] && OnlySlashes(a[k..]) && OnlySlashes(b[n..])
    ensures OnlySlashes(b[k..])
  {
    forall i | 0 <= i < |b| - k ensures b[k..][i] == '/' {
      if k + i < n {
        assert b[..n][k + i] == a[..n][k + i];
        assert a[k..][i] == '/';
      } else {
        assert b[n..][k + i - n] == '/';
      }
    }
  }

  lemma SamePrefix(a: Uri, b: Uri, n: nat, m: nat)
    requires m <= n <= |a| && n <= |b| && a[..n] == b[..n]
    ensures a[..m] == b[..m]
  {
    assert a[..m] == a[..n][..m] && b[..m] == b[..n][..m];
  }

  lemma SameStripped(a: Uri, b: Uri, n: nat)
    requires n <= |a| && n <= |b| && a[..n] == b[..n] && OnlySlashes(a[n..]) && OnlySlashes(b[n..])
    ensures |StripSlashes(b)| <= |StripSlashes(a)| <= n && StripSlashes(b) == a[..|StripSlashes(b)|]
  {
    StrippedTerms(a);
    StrippedTerms(b);
    SlashesFrom(a, b, n, |StripSlashes(a)|);
    SamePrefix(a, b, n, |StripSlashes(b)|);
  }

  lemma BelongsTerms(w: World, root: Uri, maxDepth: int, u: Uri, e: Entry)
    ensures Filing(w, root, maxDepth, u, e).Some? <==> Belongs(w, root, maxDepth, u, e)
    ensures forall d :: Filing(w, root, maxDepth, u, e) == Some(d) ==> Records(w, u, e, d)
  {
    SlashTerms(u, root);
  }

  // ---------------------------------------------------------------- documents

  /** The URIs that were visited to the end, each with the queue entry that led to it. */
  ghost function Entries(done: map<Uri, Visited>): (visits: map<Uri, Entry>)
    ensures visits.Keys == done.Keys && forall u :: u in done ==> visits[u] == done[u].entry
  {
    map u | u in done :: done[u].entry
  }

  ghost predicate HasContentOf(w: World, documents: seq<Document>, u: Uri) {
    w.site(u).fetched.Page? && exists d :: d in documents && d.digest == w.site(u).fetched.digest
  }

  /** Every document is that of a visited page that belongs. */
  ghost predicate OnlyBelonging(w: World, root: Uri, maxDepth: int, documents: seq<Document>, visits: map<Uri, Entry>) {
    forall d :: d in documents ==> exists u :: u in visits && Belongs(w, root, maxDepth, u, visits[u]) && Records(w, u, visits[u], d)
  }

  /** The content of the page, or of another visited page that belongs and was found at the same place, is among the documents. */
  ghost predicate Represented(w: World, root: Uri, maxDepth: int, documents: seq<Document>, visits: map<Uri, Entry>, u: Uri)
    requires w.site(u).fetched.Page?
  {
    exists v :: v in visits && Belongs(w, root, maxDepth, v, visits[v])
      && FoundAt(w.site(v).fetched, v) == FoundAt(w.site(u).fetched, u) && HasContentOf(w, documents, v)
  }

  lemma FilingTerms(w: World, root: Uri, maxDepth: int, done: map<Uri, Visited>, u: Uri)
    requires u in done && done[u].filing == Filing(w, root, maxDepth, u, done[u].entry)
    ensures done[u].filing.Some? <==> Belongs(w, root, maxDepth, u, done[u].entry)
    ensures done[u].filing.Some? ==> Records(w, u, done[u].entry, done[u].filing.value)
  {
    BelongsTerms(w, root, maxDepth, u, done[u].entry);
  }

  lemma DocumentBelongs(w: World, root: Uri, maxDepth: int, documents: seq<Document>, uris: map<Uri, string>, done: map<Uri, Visited>)
    requires Accounted(documents, uris, done)
    requires forall u :: u in done ==> done[u].filing == Filing(w, root, maxDepth, u, done[u].entry)
    ensures OnlyBelonging(w, root, maxDepth, documents, Entries(done))
  {
    var visits := Entries(done);
    forall d | d in documents
      ensures exists u :: u in visits && Belongs(w, root, maxDepth, u, visits[u]) && Records(w, u, visits[u], d)
    {
      var u :| u in done && done[u].filing == Some(d);
      FilingTerms(w, root, maxDepth, done, u);
      assert u in visits && visits[u] == done[u].entry;
    }
  }

  lemma BelongingIsRepresented(w: World, root: Uri, maxDepth: int, c: Crawl, done: map<Uri, Visited>, u: Uri)
    requires Accounted(c.documents, c.uris, done) && DuplicatesOk(c, done)
    requires forall x :: x in done ==> done[x].filing == Filing(w, root, maxDepth, x, done[x].entry)
    requires u in done && Belongs(w, root, maxDepth, u, done[u].entry)
    ensures Represented(w, root, maxDepth, c.documents, Entries(done), u)
  {
    FilingTerms(w, root, maxDepth, done, u);
    var found := done[u].filing.value.uri;
    assert MappedByContent(found, c.documents, c.uris, done);
    var d, x :| d in c.documents && x in done && d.id == c.uris[found]
      && done[x].filing.Some? && done[x].filing.value.uri == found && done[x].filing.value.digest == d.digest;
    FilingTerms(w, root, maxDepth, done, x);
    assert Entries(done)[x] == done[x].entry;
  }

  /**
   * At every turn: every document is that of a visited page that belongs, and every visited page that belongs is
   * represented by a document; all pages seen were visited to the end unless the clock cut in.
   */
  lemma DocumentTerms(w: World, discoveryUri: Uri, limits: Limits, clock: nat -> bool, n: nat) returns (visits: map<Uri, Entry>)
    ensures visits == Entries(RecordAfter(WebOf(w, discoveryUri, limits), discoveryUri, limits, clock, n))
    ensures var c := After(WebOf(w, discoveryUri, limits), discoveryUri, limits, clock, n);
      && visits.Keys <= c.seen && (!c.cut ==> visits.Keys == c.seen)
      && OnlyBelonging(w, w.canonical(discoveryUri), limits.maxDepth, c.documents, visits)
      && forall u :: u in visits && Belongs(w, w.canonical(discoveryUri), limits.maxDepth, u, visits[u]) ==>
           Represented(w, w.canonical(discoveryUri), limits.maxDepth, c.documents, visits, u)
  {
    var c, root := After(WebOf(w, discoveryUri, limits), discoveryUri, limits, clock, n), w.canonical(discoveryUri);
    var done := OutputIsSound(w, discoveryUri, limits, clock, n);
    visits := Entries(done);
    DocumentBelongs(w, root, limits.maxDepth, c.documents, c.uris, done);
    forall u | u in visits && Belongs(w, root, limits.maxDepth, u, visits[u])
      ensures Represented(w, root, limits.maxDepth, c.documents, visits, u)
    {
      BelongingIsRepresented(w, root, limits.maxDepth, c, done, u);
    }
    assert forall u :: u in done ==> u in c.seen;
  }

  /** A page that belongs and was found where no other such page was has its content among the documents. */
  lemma OwnContentFiled(w: World, root: Uri, maxDepth: int, documents: seq<Document>, visits: map<Uri, Entry>, u: Uri)
    requires u in visits && Belongs(w, root, maxDepth, u, visits[u]) && Represented(w, root, maxDepth, documents, visits, u)
    requires forall v :: v in visits && v != u && Belongs(w, root, maxDepth, v, visits[v]) ==>
      FoundAt(w.site(v).fetched, v) != FoundAt(w.site(u).fetched, u)
    ensures HasContentOf(w, documents, u)
  {
  }

  // ---------------------------------------------------------------- links

  /** The links that a page holds. */
  function LinksOf(b: Body): seq<Link> {
    match b
    case Html(_, links) => links
    case Json(Some(links)) => links
    case Sitemap(Some(links)) => links
    case _ => []
  }

  /** A page that is obtained holds a link that the rules allow and that is worth discovering, to this canonical URI. */
  ghost predicate Leads(w: World, u: Uri, v: Uri) {
    var s := w.site(u);
    && s.allowed && s.robots && s.fetched.Page? && s.stored
    && exists l :: l in LinksOf(s.fetched.body) && w.site(l.uri).allowed && w.discoverable(l) && w.canonical(l.uri) == v
  }

  /** The link graph over which a crawl that runs dry is complete. */
  lemma LinkTerms(w: World, u: Uri, v: Uri)
    ensures BFS.Edge(LinkGraph(w), u, v) <==> Leads(w, u, v)
  {
    if Obtained(w.site(u)) {
      assert PageLinks(w.site(u).fetched.body) == LinksOf(w.site(u).fetched.body);
      assert forall l :: l in Children(w, u) <==> l in LinksOf(w.site(u).fetched.body) && w.site(l.uri).allowed && w.discoverable(l);
    }
  }

  // ---------------------------------------------------------------- observations

  ghost predicate Entered(observations: seq<Observation>, u: Uri, d: Disposition) {
    exists o :: o in observations && o.uri == u && o.disposition == d
  }

  /** What is to be written down of a visit: a note of the robots file, and how far the page got. */
  ghost predicate Says(w: World, maxDepth: int, u: Uri, e: Entry, d: Disposition) {
    var s := w.site(u);
    s.allowed && match d
      case RobotsFile => s.robotsNoted
      case Disallowed => !s.robots
      case NotAccepted => s.robots && s.fetched == NoPage
      case StorageFailed => s.robots && s.fetched != NoPage && !s.stored
      case Malformed => s.robots && s.fetched != NoPage && s.stored && e.depth < maxDepth && BrokenFeed(s.fetched.body)
      case Accepted => s.robots && s.fetched != NoPage && s.stored && (e.depth >= maxDepth || !BrokenFeed(s.fetched.body))
  }

  lemma NotesSay(w: World, maxDepth: int, u: Uri, e: Entry, late: bool, d: Disposition)
    requires !(w.site(u).allowed && late)
    ensures Entered(Notes(w, maxDepth, u, e, late), u, d) <==> Says(w, maxDepth, u, e, d)
  {
    var notes, s := Notes(w, maxDepth, u, e, late), w.site(u);
    if s.allowed {
      if s.robotsNoted { assert notes[0] in notes && notes[1] in notes; } else { assert notes[0] in notes; }
    }
  }

  /** The observations are about pages seen, and of every visited page they say what is to be said. */
  ghost predicate AllSaid(w: World, maxDepth: int, c: Crawl, done: map<Uri, Visited>) {
    && (forall o :: o in c.observations ==> o.uri in c.seen)
    && (forall u :: u in done ==> u in c.seen)
    && forall u, d :: u in done ==> (Entered(c.observations, u, d) <==> Says(w, maxDepth, u, done[u].entry, d))
  }

  /** Filing a page changes at most the duplicate of the last observation. */
  lemma AdmitKeepsEntered(c: Crawl, d: Document, u: Uri, k: Disposition)
    requires c.observations != []
    ensures Entered(Admit(c, d).observations, u, k) <==> Entered(c.observations, u, k)
    ensures forall o :: o in Admit(c, d).observations ==> exists p :: p in c.observations && p.uri == o.uri
  {
    var before, after := c.observations, Admit(c, d).observations;
    assert forall i :: 0 <= i < |before| ==> after[i].uri == before[i].uri && after[i].disposition == before[i].disposition;
    if Entered(before, u, k) {
      var i :| 0 <= i < |before| && before[i].uri == u && before[i].disposition == k;
      assert after[i] in after;
    }
    if Entered(after, u, k) {
      var i :| 0 <= i < |after| && after[i].uri == u && after[i].disposition == k;
      assert before[i] in before;
    }
    forall o | o in after ensures exists p :: p in before && p.uri == o.uri {
      var i :| 0 <= i < |after| && after[i] == o;
      assert before[i] in before;
    }
  }

  lemma EnteredConcat(a: seq<Observation>, b: seq<Observation>, u: Uri, d: Disposition)
    ensures Entered(a + b, u, d) <==> Entered(a, u, d) || Entered(b, u, d)
  {
    if Entered(a, u, d) {
      var o :| o in a && o.uri == u && o.disposition == d;
      assert o in a + b;
    }
    if Entered(b, u, d) {
      var o :| o in b && o.uri == u && o.disposition == d;
      assert o in a + b;
    }
  }

  /** What a visit makes of the observations, as far as URI and disposition go. */
  lemma VisitEnters(c: Crawl, u: Uri, a: Answer, x: Uri, d: Disposition)
    requires c.queue != [] && (a.filing.Some? ==> a.notes != [])
    ensures Entered(Visit(c, u, a).observations, x, d) <==> Entered(c.observations, x, d) || Entered(a.notes, x, d)
    ensures forall o :: o in Visit(c, u, a).observations ==> exists p :: p in c.observations + a.notes && p.uri == o.uri
  {
    EnteredConcat(c.observations, a.notes, x, d);
    var noted := c.(queue := c.queue[1..], seen := c.seen + {u}, observations := c.observations + a.notes);
    if !a.cut && a.filing.Some? {
      var expanded := noted.(queue := c.queue[1..] + Enqueued(a.links, c.queue[0].depth + 1),
                             indexPages := if a.isIndex then c.indexPages + 1 else c.indexPages);
      AdmitKeepsEntered(expanded, a.filing.value, x, d);
    }
  }

  lemma AnswerNotes(w: World, root: Uri, maxDepth: int, u: Uri, e: Entry, late: bool)
    ensures var a := AnswerOf(w, root, maxDepth, u, e, late);
      && a.notes == Notes(w, maxDepth, u, e, late) && (a.cut <==> w.site(u).allowed && late)
      && (a.filing.Some? ==> a.notes != []) && forall o :: o in a.notes ==> o.uri == u
  {
  }

  lemma TurnSays(w: World, discoveryUri: Uri, limits: Limits, c: Crawl, late: bool, done: map<Uri, Visited>)
    requires c.queue != [] && AllSaid(w, limits.maxDepth, c, done)
    ensures var web := WebOf(w, discoveryUri, limits);
      AllSaid(w, limits.maxDepth, Turn(web, c, late), Record(web, c, late, done))
  {
    var web, e := WebOf(w, discoveryUri, limits), c.queue[0];
    var u := w.canonical(e.link.uri);
    if u !in c.seen {
      var a := AnswerOf(w, w.canonical(discoveryUri), limits.maxDepth, u, e, late);
      AnswerNotes(w, w.canonical(discoveryUri), limits.maxDepth, u, e, late);
      NewVisitSays(w, limits.maxDepth, c, u, a, late, done);
    }
  }

  lemma NewVisitSays(w: World, maxDepth: int, c: Crawl, u: Uri, a: Answer, late: bool, done: map<Uri, Visited>)
    requires c.queue != [] && u !in c.seen && AllSaid(w, maxDepth, c, done)
    requires a.notes == Notes(w, maxDepth, u, c.queue[0], late) && (a.cut <==> w.site(u).allowed && late)
    requires (a.filing.Some? ==> a.notes != []) && forall o :: o in a.notes ==> o.uri == u
    ensures AllSaid(w, maxDepth, Visit(c, u, a), if a.cut then done else done[u := Visited(c.queue[0], a.filing)])
  {
    var c', done' := Visit(c, u, a), if a.cut then done else done[u := Visited(c.queue[0], a.filing)];
    VisitSees(c, u, a);
    forall o | o in c'.observations ensures o.uri in c'.seen {
      VisitEnters(c, u, a, o.uri, o.disposition);
      var p :| p in c.observations + a.notes && p.uri == o.uri;
    }
    forall x, d | x in done' ensures Entered(c'.observations, x, d) <==> Says(w, maxDepth, x, done'[x].entry, d) {
      VisitEnters(c, u, a, x, d);
      if x == u { NotesSay(w, maxDepth, u, c.queue[0], late, d); }
    }
  }

  lemma VisitSees(c: Crawl, u: Uri, a: Answer)
    requires c.queue != []
    ensures Visit(c, u, a).seen == c.seen + {u}
  {
  }

  lemma NextSays(w: World, discoveryUri: Uri, limits: Limits, clock: nat -> bool, n: nat)
    requires var web := WebOf(w, discoveryUri, limits);
      AllSaid(w, limits.maxDepth, After(web, discoveryUri, limits, clock, n), RecordAfter(web, discoveryUri, limits, clock, n))
    ensures var web := WebOf(w, discoveryUri, limits);
      AllSaid(w, limits.maxDepth, After(web, discoveryUri, limits, clock, n + 1), RecordAfter(web, discoveryUri, limits, clock, n + 1))
  {
    var web := WebOf(w, discoveryUri, limits);
    var c, done := After(web, discoveryUri, limits, clock, n), RecordAfter(web, discoveryUri, limits, clock, n);
    if Going(limits, c, clock(2 * n)) { TurnSays(w, discoveryUri, limits, c, clock(2 * n + 1), done); }
  }

  lemma {:induction false} SaidAfter(w: World, discoveryUri: Uri, limits: Limits, clock: nat -> bool, n: nat)
    ensures var web := WebOf(w, discoveryUri, limits);
      AllSaid(w, limits.maxDepth, After(web, discoveryUri, limits, clock, n), RecordAfter(web, discoveryUri, limits, clock, n))
    decreases n
  {
    if n > 0 {
      SaidAfter(w, discoveryUri, limits, clock, n - 1);
      NextSays(w, discoveryUri, limits, clock, n - 1);
    }
  }

  // ---------------------------------------------------------------- where the visits come from

  /** The entry is the first one of the crawl, or a link of a visited page, one level down and within the depth limit. */
  ghost predicate Stems(w: World, discoveryUri: Uri, maxDepth: int, done: map<Uri, Visited>, e: Entry) {
    || e == Entry(Link(discoveryUri, "official IR root"), 0)
    || exists v :: v in done && HoldsLink(w, v, e.link) && e.depth == done[v].entry.depth + 1 <= maxDepth
  }

  /** The page at v is obtained and holds this link, which the rules allow and which is worth discovering. */
  ghost predicate HoldsLink(w: World, v: Uri, l: Link) {
    var s := w.site(v);
    && s.allowed && s.robots && s.fetched.Page? && s.stored
    && l in LinksOf(s.fetched.body) && w.site(l.uri).allowed && w.discoverable(l)
  }

  ghost predicate AllStem(w: World, discoveryUri: Uri, maxDepth: int, queue: seq<Entry>, done: map<Uri, Visited>) {
    QueueStem(w, discoveryUri, maxDepth, queue, done) && VisitsStem(w, discoveryUri, maxDepth, done)
  }

  ghost predicate QueueStem(w: World, discoveryUri: Uri, maxDepth: int, queue: seq<Entry>, done: map<Uri, Visited>) {
    forall e :: e in queue ==> Stems(w, discoveryUri, maxDepth, done, e)
  }

  ghost predicate VisitsStem(w: World, discoveryUri: Uri, maxDepth: int, done: map<Uri, Visited>) {
    forall u :: u in done ==> Stems(w, discoveryUri, maxDepth, done, done[u].entry) && w.canonical(done[u].entry.link.uri) == u
  }

  lemma StemsInMore(w: World, discoveryUri: Uri, maxDepth: int, done: map<Uri, Visited>, u: Uri, v: Visited, e: Entry)
    requires u !in done && Stems(w, discoveryUri, maxDepth, done, e)
    ensures Stems(w, discoveryUri, maxDepth, done[u := v], e)
  {
    if e != Entry(Link(discoveryUri, "official IR root"), 0) {
      var x :| x in done && HoldsLink(w, x, e.link) && e.depth == done[x].entry.depth + 1 <= maxDepth;
      assert done[u := v][x] == done[x];
    }
  }

  lemma ChildHeld(w: World, u: Uri, l: Link)
    requires l in Children(w, u)
    ensures HoldsLink(w, u, l)
  {
    assert PageLinks(w.site(u).fetched.body) == LinksOf(w.site(u).fetched.body);
  }

  lemma LinkStems(w: World, discoveryUri: Uri, maxDepth: int, done: map<Uri, Visited>, u: Uri, l: Link)
    requires u in done && done[u].entry.depth < maxDepth && l in Children(w, u)
    ensures Stems(w, discoveryUri, maxDepth, done, Entry(l, done[u].entry.depth + 1))
  {
    ChildHeld(w, u, l);
  }

  lemma RestStems(w: World, discoveryUri: Uri, maxDepth: int, queue: seq<Entry>, done: map<Uri, Visited>, u: Uri, v: Visited)
    requires queue != [] && u !in done && QueueStem(w, discoveryUri, maxDepth, queue, done)
    ensures QueueStem(w, discoveryUri, maxDepth, queue[1..], done[u := v])
  {
    forall e | e in queue[1..] ensures Stems(w, discoveryUri, maxDepth, done[u := v], e) {
      assert e in queue;
      StemsInMore(w, discoveryUri, maxDepth, done, u, v, e);
    }
  }

  lemma MoreStems(w: World, discoveryUri: Uri, maxDepth: int, done: map<Uri, Visited>, u: Uri, depth: nat, links: seq<Link>, more: seq<Entry>)
    requires u in done && depth == done[u].entry.depth && links == (if depth < maxDepth then Children(w, u) else [])
    requires more == Enqueued(links, depth + 1)
    ensures QueueStem(w, discoveryUri, maxDepth, more, done)
  {
    forall e | e in more ensures Stems(w, discoveryUri, maxDepth, done, e) {
      var i :| 0 <= i < |links| && e == Entry(links[i], depth + 1);
      LinkStems(w, discoveryUri, maxDepth, done, u, links[i]);
    }
  }

  lemma BothStem(w: World, discoveryUri: Uri, maxDepth: int, a: seq<Entry>, b: seq<Entry>, done: map<Uri, Visited>)
    requires QueueStem(w, discoveryUri, maxDepth, a, done) && QueueStem(w, discoveryUri, maxDepth, b, done)
    ensures QueueStem(w, discoveryUri, maxDepth, a + b, done)
  {
  }

  lemma DoneStems(w: World, discoveryUri: Uri, maxDepth: int, done: map<Uri, Visited>, u: Uri, v: Visited)
    requires u !in done && VisitsStem(w, discoveryUri, maxDepth, done)
    requires Stems(w, discoveryUri, maxDepth, done, v.entry) && w.canonical(v.entry.link.uri) == u
    ensures VisitsStem(w, discoveryUri, maxDepth, done[u := v])
  {
    var after := done[u := v];
    forall x | x in after ensures Stems(w, discoveryUri, maxDepth, after, after[x].entry) && w.canonical(after[x].entry.link.uri) == x {
      StemsInMore(w, discoveryUri, maxDepth, done, u, v, after[x].entry);
    }
  }

  lemma VisitStems(w: World, discoveryUri: Uri, maxDepth: int, queue: seq<Entry>, links: seq<Link>, more: seq<Entry>,
                   done: map<Uri, Visited>, u: Uri, v: Visited)
    requires queue != [] && u !in done && v.entry == queue[0] && u == w.canonical(queue[0].link.uri)
    requires AllStem(w, discoveryUri, maxDepth, queue, done)
    requires links == (if queue[0].depth < maxDepth then Children(w, u) else []) && more == Enqueued(links, queue[0].depth + 1)
    ensures AllStem(w, discoveryUri, maxDepth, queue[1..] + more, done[u := v])
  {
    assert queue[0] in queue;
    RestStems(w, discoveryUri, maxDepth, queue, done, u, v);
    MoreStems(w, discoveryUri, maxDepth, done[u := v], u, queue[0].depth, links, more);
    BothStem(w, discoveryUri, maxDepth, queue[1..], more, done[u := v]);
    DoneStems(w, discoveryUri, maxDepth, done, u, v);
  }

  lemma TurnStems(w: World, discoveryUri: Uri, limits: Limits, c: Crawl, late: bool, done: map<Uri, Visited>)
    requires c.queue != [] && (forall u :: u in done ==> u in c.seen)
    requires AllStem(w, discoveryUri, limits.maxDepth, c.queue, done)
    ensures var web := WebOf(w, discoveryUri, limits);
      Turn(web, c, late).cut || AllStem(w, discoveryUri, limits.maxDepth, Turn(web, c, late).queue, Record(web, c, late, done))
  {
    var web, e := WebOf(w, discoveryUri, limits), c.queue[0];
    var u := w.canonical(e.link.uri);
    TurnMovesQueue(web, c, late);
    if u in c.seen {
      assert forall x :: x in c.queue[1..] ==> x in c.queue;
    } else if !web.ask(u, e, late).cut {
      var a := web.ask(u, e, late);
      VisitStems(w, discoveryUri, limits.maxDepth, c.queue, a.links, Enqueued(a.links, e.depth + 1), done, u, Visited(e, a.filing));
    }
  }

  lemma TurnKeepsVisits(w: World, discoveryUri: Uri, limits: Limits, c: Crawl, late: bool, done: map<Uri, Visited>)
    requires c.queue != [] && !c.cut && Turn(WebOf(w, discoveryUri, limits), c, late).cut
    ensures Record(WebOf(w, discoveryUri, limits), c, late, done) == done
  {
    TurnMovesQueue(WebOf(w, discoveryUri, limits), c, late);
  }

  ghost predicate CrawlStems(w: World, discoveryUri: Uri, maxDepth: int, c: Crawl, done: map<Uri, Visited>) {
    && VisitsStem(w, discoveryUri, maxDepth, done) && (forall u :: u in done ==> u in c.seen)
    && (c.cut || AllStem(w, discoveryUri, maxDepth, c.queue, done))
  }

  lemma TurnKeepsStems(w: World, discoveryUri: Uri, limits: Limits, c: Crawl, late: bool, done: map<Uri, Visited>)
    requires c.queue != [] && !c.cut && CrawlStems(w, discoveryUri, limits.maxDepth, c, done)
    ensures var web := WebOf(w, discoveryUri, limits);
      CrawlStems(w, discoveryUri, limits.maxDepth, Turn(web, c, late), Record(web, c, late, done))
  {
    TurnStems(w, discoveryUri, limits, c, late, done);
    TurnMovesQueue(WebOf(w, discoveryUri, limits), c, late);
    if Turn(WebOf(w, discoveryUri, limits), c, late).cut { TurnKeepsVisits(w, discoveryUri, limits, c, late, done); }
  }

  lemma NextStems(w: World, discoveryUri: Uri, limits: Limits, clock: nat -> bool, n: nat)
    requires var web := WebOf(w, discoveryUri, limits);
      CrawlStems(w, discoveryUri, limits.maxDepth, After(web, discoveryUri, limits, clock, n), RecordAfter(web, discoveryUri, limits, clock, n))
    ensures var web := WebOf(w, discoveryUri, limits);
      CrawlStems(w, discoveryUri, limits.maxDepth, After(web, discoveryUri, limits, clock, n + 1), RecordAfter(web, discoveryUri, limits, clock, n + 1))
  {
    var web := WebOf(w, discoveryUri, limits);
    var c, done := After(web, discoveryUri, limits, clock, n), RecordAfter(web, discoveryUri, limits, clock, n);
    if Going(limits, c, clock(2 * n)) { TurnKeepsStems(w, discoveryUri, limits, c, clock(2 * n + 1), done); }
  }

  lemma {:induction false} StemsAfter(w: World, discoveryUri: Uri, limits: Limits, clock: nat -> bool, n: nat)
    ensures var web := WebOf(w, discoveryUri, limits);
      CrawlStems(w, discoveryUri, limits.maxDepth, After(web, discoveryUri, limits, clock, n), RecordAfter(web, discoveryUri, limits, clock, n))
    decreases n
  {
    if n > 0 {
      StemsAfter(w, discoveryUri, limits, clock, n - 1);
      NextStems(w, discoveryUri, limits, clock, n - 1);
    }
  }

  // ---------------------------------------------------------------- the whole output

  /** Everything a crawl leaves behind, in terms of the pages it visited. */
  ghost predicate Leaves(w: World, discoveryUri: Uri, limits: Limits, c: Crawl, done: map<Uri, Visited>) {
    var root, visits := w.canonical(discoveryUri), Entries(done);
    && visits.Keys <= c.seen && (!c.cut ==> visits.Keys == c.seen)
    && VisitsStem(w, discoveryUri, limits.maxDepth, done)
    && (forall u, d :: u in done ==> (Entered(c.observations, u, d) <==> Says(w, limits.maxDepth, u, done[u].entry, d)))
    && OnlyBelonging(w, root, limits.maxDepth, c.documents, visits)
    && forall u :: u in visits && Belongs(w, root, limits.maxDepth, u, visits[u]) ==>
         Represented(w, root, limits.maxDepth, c.documents, visits, u)
  }

  lemma OutputTerms(w: World, discoveryUri: Uri, limits: Limits, clock: nat -> bool, n: nat) returns (done: map<Uri, Visited>)
    ensures Leaves(w, discoveryUri, limits, After(WebOf(w, discoveryUri, limits), discoveryUri, limits, clock, n), done)
  {
    var web := WebOf(w, discoveryUri, limits);
    done := RecordAfter(web, discoveryUri, limits, clock, n);
    SaidAfter(w, discoveryUri, limits, clock, n);
    StemsAfter(w, discoveryUri, limits, clock, n);
    var visits := DocumentTerms(w, discoveryUri, limits, clock, n);
  }

  // ---------------------------------------------------------------- two pages at one place

  /** The root and the page it links to are both found at "f", with different contents. */
  function OnePlace(): World {
    World(u => u,
          u => if u == "r" then Site(true, true, false, Page("1", Some("f"), Html("", [Link("a", "")])), true)
               else Site(true, true, false, Page("2", Some("f"), Other), true),
          _ => true, (_, _) => true, (_, _) => "", u => u)
  }

  const ONE_PLACE_LIMITS := Limits(10, 10, 1)

  function OnePlaceAfter(n: nat): Crawl {
    After(WebOf(OnePlace(), "r", ONE_PLACE_LIMITS), "r", ONE_PLACE_LIMITS, _ => false, n)
  }

  lemma OnePlaceLinks()
    ensures Children(OnePlace(), "r") == [Link("a", "")]
  {
    var w := OnePlace();
    assert [Link("a", "")][..0] == [];
    assert Followed(w, []) == [];
    assert Followed(w, [Link("a", "")]) == [Link("a", "")];
  }

  lemma RootFiling()
    ensures Filing(OnePlace(), "r", 1, "r", Entry(Link("r", "official IR root"), 0)) == Some(Document("f", "f", "1", ""))
  {
  }

  lemma RootAnswer()
    ensures AnswerOf(OnePlace(), "r", 1, "r", Entry(Link("r", "official IR root"), 0), false)
         == Answer([Observation("r", Accepted, None)], false, true, [Link("a", "")], Some(Document("f", "f", "1", "")))
  {
    OnePlaceLinks();
    RootFiling();
    var e := Entry(Link("r", "official IR root"), 0);
    assert Notes(OnePlace(), 1, "r", e, false) == [Observation("r", Accepted, None)];
  }

  lemma RootVisit(c: Crawl, a: Answer)
    requires c == Crawl([Entry(Link("r", "official IR root"), 0)], {}, [], 0, [], {}, map[], false)
    requires a == Answer([Observation("r", Accepted, None)], false, true, [Link("a", "")], Some(Document("f", "f", "1", "")))
    ensures Visit(c, "r", a)
         == Crawl([Entry(Link("a", ""), 1)], {"r"}, [Observation("r", Accepted, None)], 1, [Document("f", "f", "1", "")], {"1"}, map["f" := "f"], false)
  {
    assert c.queue[1..] + Enqueued(a.links, 1) == [Entry(Link("a", ""), 1)];
    assert [] + a.notes == a.notes && [] + [Document("f", "f", "1", "")] == [Document("f", "f", "1", "")];
    assert {} + {"1"} == {"1"} && {} + {"r"} == {"r"};
  }

  lemma OnePlaceRoot()
    ensures OnePlaceAfter(1)
         == Crawl([Entry(Link("a", ""), 1)], {"r"}, [Observation("r", Accepted, None)], 1, [Document("f", "f", "1", "")], {"1"}, map["f" := "f"], false)
  {
    RootAnswer();
    var c := OnePlaceAfter(0);
    RootVisit(c, AnswerOf(OnePlace(), "r", 1, "r", c.queue[0], false));
    assert OnePlaceAfter(1) == Turn(WebOf(OnePlace(), "r", ONE_PLACE_LIMITS), c, false);
  }

  lemma SecondAnswer()
    ensures AnswerOf(OnePlace(), "r", 1, "a", Entry(Link("a", ""), 1), false)
         == Answer([Observation("a", Accepted, None)], false, false, [], Some(Document("f", "f", "2", "")))
  {
  }

  lemma SecondVisit(c: Crawl, a: Answer)
    requires c == Crawl([Entry(Link("a", ""), 1)], {"r"}, [Observation("r", Accepted, None)], 1, [Document("f", "f", "1", "")], {"1"}, map["f" := "f"], false)
    requires a == Answer([Observation("a", Accepted, None)], false, false, [], Some(Document("f", "f", "2", "")))
    ensures var c' := Visit(c, "a", a); c'.queue == [] && c'.seen == {"r", "a"} && !c'.cut && c'.documents == [Document("f", "f", "1", "")]
  {
    assert c.queue[1..] + Enqueued(a.links, 2) == [];
  }

  lemma OnePlaceSecond()
    ensures var c := OnePlaceAfter(2); c.queue == [] && c.seen == {"r", "a"} && !c.cut && c.documents == [Document("f", "f", "1", "")]
  {
    OnePlaceRoot();
    SecondAnswer();
    var c := OnePlaceAfter(1);
    SecondVisit(c, AnswerOf(OnePlace(), "r", 1, "a", c.queue[0], false));
    assert OnePlaceAfter(2) == Turn(WebOf(OnePlace(), "r", ONE_PLACE_LIMITS), c, false);
  }

  /** The second one belongs and is visited, and its content is in no document. */
  lemma SharedPlaceLosesContent()
    ensures var w := OnePlace(); var c := OnePlaceAfter(2); var e := Entry(Link("a", ""), 1);
      && c.queue == [] && c.seen == {"r", "a"} && !c.cut
      && Belongs(w, "r", 1, "a", e) && !HasContentOf(w, c.documents, "a")
  {
    OnePlaceSecond();
    SecondAnswer();
    BelongsTerms(OnePlace(), "r", 1, "a", Entry(Link("a", ""), 1));
  }
}
