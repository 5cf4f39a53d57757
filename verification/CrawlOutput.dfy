/** The documents of a crawl, the two indexes that keep them apart, and the observations that refer to them. */
module CrawlOutput {
  import opened Common
  import opened CrawlPages

  // ---------------------------------------------------------------- documents and their indexes

  ghost predicate Named(documents: seq<Document>, id: string) {
    exists d :: d in documents && d.id == id
  }

  ghost predicate HasDigest(documents: seq<Document>, digest: string) {
    exists d :: d in documents && d.digest == digest
  }

  /** The two dedupe indexes agree with the document list, and no content or URI occurs twice in it. */
  ghost predicate Indexed(documents: seq<Document>, hashes: set<string>, uris: map<Uri, string>) {
    && (forall i, j :: 0 <= i < j < |documents| ==> documents[i].digest != documents[j].digest && documents[i].uri != documents[j].uri)
    && (forall h :: h in hashes <==> HasDigest(documents, h))
    && (forall d :: d in documents ==> d.uri in uris && uris[d.uri] == d.id)
    && forall u :: u in uris ==> Named(documents, uris[u])
  }

  /** The first document with this content. */
  function FirstWithDigest(documents: seq<Document>, digest: string): Option<Document> {
    if documents == [] then None
    else if documents[0].digest == digest then Some(documents[0])
    else FirstWithDigest(documents[1..], digest)
  }

  lemma IndexedGrows(documents: seq<Document>, hashes: set<string>, uris: map<Uri, string>, d: Document)
    requires Indexed(documents, hashes, uris) && d.uri !in uris && d.digest !in hashes
    ensures Indexed(documents + [d], hashes + {d.digest}, uris[d.uri := d.id])
  {
    var documents', hashes', uris' := documents + [d], hashes + {d.digest}, uris[d.uri := d.id];
    assert d in documents';
    forall h
      ensures h in hashes' <==> HasDigest(documents', h)
    {
      if HasDigest(documents, h) {
        var x :| x in documents && x.digest == h;
        assert x in documents';
      }
    }
    forall i | 0 <= i < |documents|
      ensures documents[i].digest != d.digest && documents[i].uri != d.uri
    {
      assert documents[i] in documents;
      assert HasDigest(documents, documents[i].digest);
    }
    forall u | u in uris'
      ensures Named(documents', uris'[u])
    {
      if u != d.uri {
        assert Named(documents, uris[u]);
        var x :| x in documents && x.id == uris[u];
        assert x in documents';
      }
    }
  }

  /** A visited page: the queue entry that led to it, and what it gave for the documents. */
  datatype Visited = Visited(entry: Entry, filing: Option<Document>)

  ghost predicate FromVisit(done: map<Uri, Visited>, d: Document) {
    exists u :: u in done && done[u].filing == Some(d)
  }

  /** Every admissible visited page is accounted for under its final URI, and every document is that of a visited page. */
  ghost predicate Accounted(documents: seq<Document>, uris: map<Uri, string>, done: map<Uri, Visited>) {
    && (forall u :: u in done && done[u].filing.Some? ==> done[u].filing.value.uri in uris)
    && forall d :: d in documents ==> FromVisit(done, d)
  }

  lemma AccountedGrows(documents: seq<Document>, uris: map<Uri, string>, done: map<Uri, Visited>,
                       u: Uri, v: Visited, documents': seq<Document>, uris': map<Uri, string>)
    requires Accounted(documents, uris, done) && u !in done
    requires forall x :: x in uris ==> x in uris'
    requires v.filing.Some? ==> v.filing.value.uri in uris'
    requires forall d :: d in documents' && d !in documents ==> v.filing == Some(d)
    ensures Accounted(documents', uris', done[u := v])
  {
    var done' := done[u := v];
    forall d | d in documents'
      ensures FromVisit(done', d)
    {
      if d in documents {
        var x :| x in done && done[x].filing == Some(d);
        assert x in done' && done'[x] == done[x];
      } else {
        assert done'[u].filing == Some(d);
      }
    }
  }

  // ---------------------------------------------------------------- observations

  predicate IsFetch(o: Observation) {
    o.disposition != RobotsFile && o.disposition != Disallowed
  }

  /** The URIs that the source's rules and the robots guard let through. */
  ghost function Permitted(w: World): iset<Uri> {
    iset u: Uri | w.site(u).allowed && w.site(u).robots
  }

  /** No URI is fetched twice, none without permission, and every duplicate names a document. */
  ghost predicate Traced(permitted: iset<Uri>, observations: seq<Observation>, seen: set<Uri>, documents: seq<Document>) {
    && (forall o :: o in observations && IsFetch(o) ==> o.uri in seen && o.uri in permitted)
    && (forall i, j :: 0 <= i < j < |observations| && IsFetch(observations[i]) && IsFetch(observations[j]) ==>
          observations[i].uri != observations[j].uri)
    && forall o :: o in observations && o.duplicate.Some? ==> Named(documents, o.duplicate.value)
  }

  /** What one visit may add: at most a robots note followed by one entry for the page itself. */
  ghost predicate VisitNotes(permitted: iset<Uri>, u: Uri, notes: seq<Observation>) {
    && |notes| <= 2 && (|notes| == 2 ==> notes[0].disposition == RobotsFile)
    && forall o :: o in notes ==> o.uri == u && o.duplicate == None && (IsFetch(o) ==> u in permitted)
  }

  lemma TracedGrows(permitted: iset<Uri>, observations: seq<Observation>, seen: set<Uri>, documents: seq<Document>,
                    u: Uri, notes: seq<Observation>)
    requires Traced(permitted, observations, seen, documents) && u !in seen && VisitNotes(permitted, u, notes)
    ensures Traced(permitted, observations + notes, seen + {u}, documents)
  {
    var all := observations + notes;
    forall i, j | 0 <= i < j < |all| && IsFetch(all[i]) && IsFetch(all[j])
      ensures all[i].uri != all[j].uri
    {
      if j >= |observations| {
        assert all[j] in notes;
        if i < |observations| {
          assert all[i] in observations;
        } else {
          assert false;
        }
      }
    }
  }

  lemma TracedAdmits(permitted: iset<Uri>, observations: seq<Observation>, seen: set<Uri>, documents: seq<Document>,
                     documents': seq<Document>, duplicate: Option<string>)
    requires Traced(permitted, observations, seen, documents) && observations != [] && documents <= documents'
    requires duplicate.Some? ==> Named(documents', duplicate.value)
    ensures Traced(permitted, Annotate(observations, duplicate), seen, documents')
  {
    var last := |observations| - 1;
    var noted := Annotate(observations, duplicate);
    forall o | o in noted
      ensures IsFetch(o) ==> o.uri in seen && o.uri in permitted
      ensures o.duplicate.Some? ==> Named(documents', o.duplicate.value)
    {
      var i :| 0 <= i < |noted| && noted[i] == o;
      assert observations[i] in observations;
      if i != last && o.duplicate.Some? {
        var d :| d in documents && d.id == o.duplicate.value;
        assert d in documents';
      }
    }
  }

  /** Writes the duplicate into the last observation. */
  function Annotate(observations: seq<Observation>, duplicate: Option<string>): seq<Observation>
    requires observations != []
  {
    var last := |observations| - 1;
    observations[last := observations[last].(duplicate := duplicate)]
  }

  // ---------------------------------------------------------------- which document a duplicate names

  /** A duplicate is noted under a visited page, and names the document that the page's final URI is mapped to. */
  ghost predicate NamesMapped(o: Observation, uris: map<Uri, string>, done: map<Uri, Visited>) {
    o.duplicate.Some? ==>
      && o.uri in done && done[o.uri].filing.Some?
      && done[o.uri].filing.value.uri in uris && o.duplicate.value == uris[done[o.uri].filing.value.uri]
  }

  /** An accepted URI is mapped to a document with the content that a visited page of that final URI had. */
  ghost predicate MappedByContent(u: Uri, documents: seq<Document>, uris: map<Uri, string>, done: map<Uri, Visited>)
    requires u in uris
  {
    exists d, x :: d in documents && x in done && d.id == uris[u]
      && done[x].filing.Some? && done[x].filing.value.uri == u && done[x].filing.value.digest == d.digest
  }

  /** What a visited page gave is a document, or is noted as a duplicate. */
  ghost predicate KeptOrNoted(x: Uri, observations: seq<Observation>, documents: seq<Document>, uris: map<Uri, string>, done: map<Uri, Visited>)
    requires x in done
  {
    done[x].filing.Some? ==>
      || done[x].filing.value in documents
      || exists o :: o in observations && o.uri == x && o.duplicate.Some?
  }

  ghost predicate Explained(observations: seq<Observation>, documents: seq<Document>, uris: map<Uri, string>, done: map<Uri, Visited>) {
    && (forall o :: o in observations ==> NamesMapped(o, uris, done))
    && (forall u :: u in uris ==> MappedByContent(u, documents, uris, done))
    && forall x :: x in done ==> KeptOrNoted(x, observations, documents, uris, done)
  }

  ghost predicate HasContent(documents: seq<Document>, id: string, digest: string) {
    exists d :: d in documents && d.id == id && d.digest == digest
  }

  lemma MappedStays(u: Uri, documents: seq<Document>, uris: map<Uri, string>, done: map<Uri, Visited>,
                    documents': seq<Document>, uris': map<Uri, string>, done': map<Uri, Visited>)
    requires u in uris && u in uris' && uris'[u] == uris[u] && documents <= documents'
    requires forall x :: x in done ==> x in done' && done'[x] == done[x]
    requires MappedByContent(u, documents, uris, done)
    ensures MappedByContent(u, documents', uris', done')
  {
    var d, x :| d in documents && x in done && d.id == uris[u]
      && done[x].filing.Some? && done[x].filing.value.uri == u && done[x].filing.value.digest == d.digest;
    assert d in documents' && x in done' && done'[x] == done[x];
  }

  lemma ExplainedGrows(observations: seq<Observation>, documents: seq<Document>, uris: map<Uri, string>, done: map<Uri, Visited>,
                       u: Uri, v: Visited, observations': seq<Observation>, documents': seq<Document>, uris': map<Uri, string>)
    requires Explained(observations, documents, uris, done) && u !in done
    requires documents <= documents' && forall x :: x in uris ==> x in uris' && uris'[x] == uris[x]
    requires forall o :: o in observations ==> o in observations'
    requires forall o :: o in observations' && o !in observations ==> o.uri == u && NamesMapped(o, uris', map[u := v])
    requires forall x :: x in uris' && x !in uris ==>
      v.filing.Some? && v.filing.value.uri == x && HasContent(documents', uris'[x], v.filing.value.digest)
    requires KeptOrNoted(u, observations', documents', uris', map[u := v])
    ensures Explained(observations', documents', uris', done[u := v])
  {
    var done' := done[u := v];
    forall o | o in observations' ensures NamesMapped(o, uris', done') {
      if o in observations { assert NamesMapped(o, uris, done); }
    }
    forall x | x in uris' ensures MappedByContent(x, documents', uris', done') {
      if x in uris {
        MappedStays(x, documents, uris, done, documents', uris', done');
      } else {
        var d :| d in documents' && d.id == uris'[x] && d.digest == v.filing.value.digest;
        assert d in documents' && u in done' && done'[u] == v;
      }
    }
    forall x | x in done' ensures KeptOrNoted(x, observations', documents', uris', done') {
      if x != u { assert KeptOrNoted(x, observations, documents, uris, done); }
    }
  }
}
