/**
 * The bounded breadth-first crawl of one investor-relations source. The web, the robots guard and the
 * payload store answer through the functions of a World; each is asked at most once per URI, so that one
 * answer per URI loses nothing. The wall clock is a function from the number of readings taken so far.
 */
module CrawlPages {
  import opened Common
  import BFS = BreadthFirst

  type Uri = string

  datatype Link = Link(uri: Uri, caption: string)

  /** What the payload parses to: an index page, a feed (None when malformed), or neither. */
  datatype Body = Html(title: string, anchors: seq<Link>) | Json(links: Option<seq<Link>>) | Sitemap(links: Option<seq<Link>>) | Other

  datatype Fetched = NoPage | Page(digest: string, finalUri: Option<Uri>, body: Body)

  /** What the source's rules, the robots guard, the server and the store say to one URI. */
  datatype Site = Site(allowed: bool, robots: bool, robotsNoted: bool, fetched: Fetched, stored: bool)

  datatype World = World(
    canonical: Uri -> Uri, site: Uri -> Site, discoverable: Link -> bool, material: (Uri, string) -> bool,
    fallbackTitle: (Uri, string) -> string, documentId: Uri -> string)

  datatype Limits = Limits(maxIndexPages: int, maxDocuments: int, maxDepth: int)

  datatype Entry = Entry(link: Link, depth: nat)

  datatype Disposition = RobotsFile | Disallowed | NotAccepted | StorageFailed | Malformed | Accepted

  datatype Observation = Observation(uri: Uri, disposition: Disposition, duplicate: Option<string>)

  datatype Document = Document(id: string, uri: Uri, digest: string, title: string)

  // ---------------------------------------------------------------- what a page offers

  /** The links a crawl may follow out of a page: allowed by the source and worth discovering. */
  function Followed(w: World, links: seq<Link>): (r: seq<Link>)
    ensures |r| <= |links|
    ensures forall l :: l in r <==> l in links && w.site(l.uri).allowed && w.discoverable(l)
  {
    if links == [] then []
    else
      var rest := Followed(w, links[..|links| - 1]);
      var l := links[|links| - 1];
      assert links == links[..|links| - 1] + [l];
      if w.site(l.uri).allowed && w.discoverable(l) then rest + [l] else rest
  }

  function PageLinks(b: Body): seq<Link> {
    match b
    case Html(_, anchors) => anchors
    case Json(links) => if links.Some? then links.value else []
    case Sitemap(links) => if links.Some? then links.value else []
    case Other => []
  }

  /** A page that may be asked for, is fetched and is stored. */
  predicate Obtained(s: Site) {
    s.allowed && s.robots && s.fetched.Page? && s.stored
  }

  function Children(w: World, u: Uri): seq<Link> {
    if Obtained(w.site(u)) then Followed(w, PageLinks(w.site(u).fetched.body)) else []
  }

  /** The link graph between canonical URIs. */
  ghost function LinkGraph(w: World): BFS.Links {
    iset e: (Uri, Uri) | Linked(w, e.0, e.1)
  }

  ghost predicate LinksTo(canonical: Uri -> Uri, links: seq<Link>, v: Uri) {
    exists l :: l in links && canonical(l.uri) == v
  }

  ghost predicate Linked(w: World, u: Uri, v: Uri) {
    LinksTo(w.canonical, Children(w, u), v)
  }

  /** A finite bound on the links of one page; the limit on response bytes gives one. */
  ghost predicate LinksBounded(w: World, bound: nat) {
    forall u :: |Children(w, u)| <= bound
  }

  predicate MalformedFeed(b: Body) {
    (b.Json? || b.Sitemap?) && b.links.None?
  }

  function StripSlashes(s: string): (r: string)
    ensures r <= s && (r == [] || r[|r| - 1] != '/')
  {
    if s != [] && s[|s| - 1] == '/' then StripSlashes(s[..|s| - 1]) else s
  }

  function FinalUri(f: Fetched, u: Uri): Uri
    requires f.Page?
  {
    if f.finalUri.Some? then f.finalUri.value else u
  }

  function Title(w: World, u: Uri, caption: string): string {
    var f := w.site(u).fetched;
    if f.Page? && f.body.Html? && f.body.title != "" then f.body.title else w.fallbackTitle(u, caption)
  }

  /** A page that belongs among the documents: obtained, well-formed where it is parsed, and root or material. */
  predicate Admissible(w: World, root: Uri, u: Uri, caption: string, parsed: bool) {
    var s := w.site(u);
    && Obtained(s)
    && !(parsed && MalformedFeed(s.fetched.body))
    && (StripSlashes(u) == StripSlashes(root) || (w.material(u, caption) && w.material(FinalUri(s.fetched, u), Title(w, u, caption))))
  }

  /** The document an admissible page stands for. */
  function DocumentOf(w: World, u: Uri, caption: string): Document
    requires w.site(u).fetched.Page?
  {
    var f := w.site(u).fetched;
    var title := Title(w, u, caption);
    Document(w.documentId(FinalUri(f, u)), FinalUri(f, u), f.digest, if |title| > 500 then title[..500] else title)
  }

  /** What a visited page gives for the documents, if anything. */
  function Filing(w: World, root: Uri, maxDepth: int, u: Uri, e: Entry): Option<Document> {
    if Admissible(w, root, u, e.link.caption, e.depth < maxDepth) then Some(DocumentOf(w, u, e.link.caption)) else None
  }
}
