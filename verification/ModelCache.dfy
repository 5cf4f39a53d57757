/**
 * The resumable, crash-safe model cache. Every file operation is one atomic change of the disk and
 * is recorded in a journal, so that a crash after any operation is a return to a journal entry.
 * SHA-256 is taken to identify contents: a digest is represented by the contents it pins.
 */
module ModelCache {
  import opened Common

  type Bytes = seq<bv8>

  /** A path holds nothing, a regular file, or something unsafe such as a symbolic link. */
  datatype Entry = Absent | Regular(content: Bytes) | Unsafe

  datatype Manifest = Manifest(
    manifestVersion: string, modelId: string, servedModelId: string, revision: string, filename: string,
    expectedSize: nat, pinned: Bytes)

  /** The ready marker: absent, the JSON of ready_payload, or anything else. */
  datatype Marker = NoMarker | Ready(manifest: Manifest, source: string, verified: bool) | Unreadable

  datatype Disk = Disk(model: Entry, partial: Entry, marker: Marker)

  // ---------------------------------------------------------------- the checks

  /** validate_model: a regular file of the pinned size and the pinned digest. */
  predicate Validates(e: Entry, m: Manifest) {
    e.Regular? && |e.content| == m.expectedSize && e.content == m.pinned
  }

  /** marker_matches: every field but the source agrees with the manifest. */
  predicate MarkerMatches(k: Marker, m: Manifest) {
    k.Ready? && k.manifest == m && k.verified
  }

  /** The preflight's cheap test: marker fields and file size, no digest. */
  predicate ModelReady(d: Disk, m: Manifest) {
    && d.marker.Ready? && d.model.Regular? && d.marker.verified
    && d.marker.manifest.manifestVersion == m.manifestVersion && d.marker.manifest.pinned == m.pinned
    && |d.model.content| == m.expectedSize
  }

  /** Only validated contents stand at the model path, and a marker only beside them. */
  predicate Sound(d: Disk, m: Manifest) {
    && (d.model != Absent ==> Validates(d.model, m))
    && (d.marker != NoMarker ==> MarkerMatches(d.marker, m) && Validates(d.model, m))
  }

  /** The cheap test for m does not lie about this disk. */
  predicate Trusted(d: Disk, m: Manifest) {
    ModelReady(d, m) ==> Validates(d.model, m)
  }

  /** A run under m cannot mislead the cheap test for other: the sizes differ or the contents are the same. */
  predicate Compatible(m: Manifest, other: Manifest) {
    m.expectedSize != other.expectedSize || m.pinned == other.pinned
  }

  /** On a sound disk the cheap test and the full test agree, and a marker decides both. */
  lemma CheapTestAgrees(d: Disk, m: Manifest)
    requires Sound(d, m)
    ensures ModelReady(d, m) <==> d.marker != NoMarker
    ensures ModelReady(d, m) ==> Validates(d.model, m) && MarkerMatches(d.marker, m)
  {
  }

  /** The full check asks for the pinned contents in the pinned size, and a marker that matches is one that a run of m writes. */
  lemma FullCheckMeans(d: Disk, m: Manifest)
    ensures Validates(d.model, m) <==> d.model == Regular(m.pinned) && |m.pinned| == m.expectedSize
    ensures MarkerMatches(d.marker, m) <==> exists source :: d.marker == Ready(m, source, true)
  {
    if MarkerMatches(d.marker, m) { assert d.marker == Ready(m, d.marker.source, true); }
  }

  /** A verified marker whose manifest has this version and pins these contents. */
  ghost predicate MarkedFor(k: Marker, version: string, pinned: Bytes) {
    exists other: Manifest, source :: k == Ready(other, source, true) && other.manifestVersion == version && other.pinned == pinned
  }

  /** Without that invariant the cheap test proves nothing about the contents: it lies exactly about other contents of the right size. */
  lemma CheapTestLiesIff(d: Disk, m: Manifest)
    ensures ModelReady(d, m) && !Validates(d.model, m) <==>
      && MarkedFor(d.marker, m.manifestVersion, m.pinned)
      && d.model.Regular? && |d.model.content| == m.expectedSize && d.model.content != m.pinned
    ensures ModelReady(d, m) <==>
      MarkedFor(d.marker, m.manifestVersion, m.pinned) && exists content :: |content| == m.expectedSize && d.model == Regular(content)
  {
    if d.marker.Ready? && d.marker.verified { assert d.marker == Ready(d.marker.manifest, d.marker.source, true); }
    if d.model.Regular? { assert d.model == Regular(d.model.content); }
  }

  // ---------------------------------------------------------------- the download server

  /** An error is caught by the retry loop (OSError, URLError) or leaves it, as http.client's own errors do. */
  datatype Error = Caught | Escaping

  /** One request: refused, or answered with a status and the chunks read before the stream ends or fails. */
  datatype Response = OpenFails(error: Error) | Answer(status: int, chunks: seq<Bytes>, readError: Option<Error>)

  predicate Escapes(r: Response) {
    if r.OpenFails? then r.error.Escaping? else r.readError == Some(Escaping)
  }

  function Joined(chunks: seq<Bytes>): Bytes {
    if chunks == [] then [] else Joined(chunks[..|chunks| - 1]) + chunks[|chunks| - 1]
  }

  /** The server may answer differently on every attempt and for every offset. */
  type Server = (nat, nat) -> Response

  /** The bytes sent are right for the status: a 206 continues at the offset, anything else starts over. */
  ghost predicate Honest(server: Server, payload: Bytes) {
    forall attempt, offset :: HonestAnswer(server(attempt, offset), offset, payload)
  }

  ghost predicate HonestAnswer(r: Response, offset: nat, payload: Bytes) {
    r.Answer? ==>
      if offset != 0 && r.status == 206 then offset <= |payload| && Joined(r.chunks) <= payload[offset..]
      else Joined(r.chunks) <= payload
  }

  /** The answer brings everything that is missing, in nonempty chunks and without an error. */
  ghost predicate DeliversAll(r: Response, offset: nat, payload: Bytes) {
    && r.Answer? && r.readError.None? && (forall i :: 0 <= i < |r.chunks| ==> r.chunks[i] != [])
    && if offset != 0 && r.status == 206 then offset <= |payload| && Joined(r.chunks) == payload[offset..] else Joined(r.chunks) == payload
  }

  /** Whatever the offset, this attempt brings everything. */
  ghost predicate DeliversAt(server: Server, attempt: nat, payload: Bytes) {
    forall offset :: DeliversAll(server(attempt, offset), offset, payload)
  }

  /** Whatever the offset, this attempt ends without an error that leaves the retry loop. */
  ghost predicate StaysInLoop(server: Server, attempt: nat) {
    forall offset :: !Escapes(server(attempt, offset))
  }

  ghost predicate DeliversWithin(server: Server, retries: nat, payload: Bytes) {
    exists k :: 1 <= k <= retries && DeliversAt(server, k, payload) && forall j :: 1 <= j < k ==> StaysInLoop(server, j)
  }

  /** An error that leaves the loop ends the download before any later attempt. */
  lemma EscapeEnds(server: Server, attempt: nat, offset: nat, payload: Bytes)
    requires Escapes(server(attempt, offset))
    ensures !StaysInLoop(server, attempt) && !DeliversAt(server, attempt, payload)
  {
    assert !DeliversAll(server(attempt, offset), offset, payload);
  }

  /** The partial file is absent or a prefix of the payload. */
  ghost predicate PartialOk(e: Entry, payload: Bytes) {
    e.Absent? || (e.Regular? && e.content <= payload)
  }

  lemma {:induction false} JoinedPrefix(chunks: seq<Bytes>, k: nat)
    requires k <= |chunks|
    ensures Joined(chunks[..k]) <= Joined(chunks)
    decreases |chunks| - k
  {
    if k < |chunks| {
      JoinedPrefix(chunks, k + 1);
      assert chunks[..k + 1][..k] == chunks[..k];
    } else {
      assert chunks[..k] == chunks;
    }
  }

  lemma BehindSame(x: Bytes, y: Bytes, z: Bytes)
    requires y <= z
    ensures x + y <= x + z
  {
    assert z == y + z[|y|..];
    Regrouped(x, y, z[|y|..]);
  }

  lemma Regrouped(x: Bytes, y: Bytes, z: Bytes)
    ensures (x + y) + z == x + (y + z)
  {
  }

  lemma BehindPrefix(x: Bytes, y: Bytes, whole: Bytes)
    requires x <= whole && y <= whole[|x|..]
    ensures x + y <= whole && (y == whole[|x|..] ==> x + y == whole)
  {
    BehindSame(x, y, whole[|x|..]);
    assert x + whole[|x|..] == whole;
  }

  lemma JoinedOneMore(chunks: seq<Bytes>, i: nat)
    requires i < |chunks|
    ensures Joined(chunks[..i + 1]) == Joined(chunks[..i]) + chunks[i]
  {
    assert chunks[..i + 1][..i] == chunks[..i];
  }

  /** One chunk more: what is written is still a prefix of what will be. */
  lemma JoinedSnoc(start: Bytes, chunks: seq<Bytes>, i: nat)
    requires i < |chunks|
    ensures (start + Joined(chunks[..i])) + chunks[i] == start + Joined(chunks[..i + 1])
    ensures start + Joined(chunks[..i + 1]) <= start + Joined(chunks)
  {
    JoinedOneMore(chunks, i);
    Regrouped(start, Joined(chunks[..i]), chunks[i]);
    JoinedPrefix(chunks, i + 1);
    BehindSame(start, Joined(chunks[..i + 1]), Joined(chunks));
  }

  /** Where a download into this entry resumes. */
  function Offset(e: Entry): nat {
    if e.Regular? then |e.content| else 0
  }

  /** What stays of it: everything when the answer continues there, else nothing. */
  function Kept(e: Entry, status: int): Bytes {
    if e.Regular? && e.content != [] && status == 206 then e.content else []
  }

  /** What is kept and an honest answer together begin the payload; a full answer completes it. */
  lemma KeptContinues(e: Entry, r: Response, payload: Bytes)
    requires PartialOk(e, payload) && r.Answer?
    ensures HonestAnswer(r, Offset(e), payload) ==> Kept(e, r.status) + Joined(r.chunks) <= payload
    ensures DeliversAll(r, Offset(e), payload) ==> Kept(e, r.status) + Joined(r.chunks) == payload
  {
    var joined := Joined(r.chunks);
    if Offset(e) != 0 && r.status == 206 {
      if joined <= payload[Offset(e)..] { BehindPrefix(e.content, joined, payload); }
    } else {
      assert [] + joined == joined;
    }
  }

  // ---------------------------------------------------------------- one hydration request

  datatype Source = Existing(file: Option<Entry>) | HuggingFace(tokenReadable: bool, server: Server) | Unsupported(name: string)

  datatype Request = Request(licenseAccepted: bool, sourceEnabled: bool, source: Source, retries: nat)

  datatype Outcome = Reused | RepairedMarker | Hydrated | Failed

  class Cache {
    var model: Entry
    var partial: Entry
    var marker: Marker
    var journal: seq<Disk>  // the disk after each file operation

    /** An empty cache directory. */
    constructor ()
      ensures Now() == Disk(Absent, Absent, NoMarker) && journal == [Now()]
    {
      model, partial, marker := Absent, Absent, NoMarker;
      journal := [Disk(Absent, Absent, NoMarker)];
    }

    /** The last journal entry is the disk itself. */
    ghost predicate Logged()
      reads this
    {
      |journal| > 0 && journal[|journal| - 1] == Now()
    }

    function Now(): Disk
      reads this
    {
      Disk(model, partial, marker)
    }

    /** Every disk state from journal position n on satisfies the cache invariant. */
    ghost predicate SoundSince(n: nat, m: Manifest)
      reads this
    {
      n <= |journal| && forall k :: n <= k < |journal| ==> Sound(journal[k], m)
    }

    /** In every disk state from journal position n on the cheap test for m does not lie. */
    ghost predicate TrustedSince(n: nat, m: Manifest)
      reads this
    {
      n <= |journal| && forall k :: n <= k < |journal| ==> Trusted(journal[k], m)
    }

    method SetModel(e: Entry)
      modifies this
      ensures Now() == old(Now()).(model := e) && journal == old(journal) + [Now()]
    {
      model := e;
      journal := journal + [Disk(model, partial, marker)];
    }

    method SetPartial(e: Entry)
      modifies this
      ensures Now() == old(Now()).(partial := e) && journal == old(journal) + [Now()]
    {
      partial := e;
      journal := journal + [Disk(model, partial, marker)];
    }

    method SetMarker(k: Marker)
      modifies this
      ensures Now() == old(Now()).(marker := k) && journal == old(journal) + [Now()]
    {
      marker := k;
      journal := journal + [Disk(model, partial, marker)];
    }

    /** os.replace(partial, model) */
    method PublishPartial()
      modifies this
      ensures Now() == old(Now()).(model := old(partial), partial := Absent) && journal == old(journal) + [Now()]
    {
      model, partial := partial, Absent;
      journal := journal + [Disk(model, partial, marker)];
    }

    /** Since journal position n nothing but the partial file has changed, and it was in order throughout. */
    ghost predicate DownloadSafe(n: nat, before: Disk, payload: Bytes)
      reads this
    {
      && n <= |journal| && model == before.model && marker == before.marker && PartialOk(partial, payload)
      && forall k :: n <= k < |journal| ==>
           journal[k].model == before.model && journal[k].marker == before.marker && PartialOk(journal[k].partial, payload)
    }

    /** The same without a promise about the contents. */
    ghost predicate OnlyPartialTouched(n: nat, before: Disk)
      reads this
    {
      && Logged() && n <= |journal| && model == before.model && marker == before.marker
      && forall k :: n <= k < |journal| ==> journal[k].model == before.model && journal[k].marker == before.marker
    }

    /** The read loop: chunks are appended until the stream ends, fails, or yields an empty chunk. */
    method AppendChunks(chunks: seq<Bytes>, ghost payload: Bytes, ghost n: nat, ghost before: Disk)
      requires partial.Regular? && OnlyPartialTouched(n, before)
      modifies this
      ensures partial.Regular? && OnlyPartialTouched(n, before) && old(journal) <= journal
      ensures old(DownloadSafe(n, before, payload)) && old(partial).content + Joined(chunks) <= payload ==>
        DownloadSafe(n, before, payload)
      ensures (forall i :: 0 <= i < |chunks| ==> chunks[i] != []) ==> partial == Regular(old(partial).content + Joined(chunks))
    {
      ghost var start, safe := partial.content, DownloadSafe(n, before, payload) && partial.content + Joined(chunks) <= payload;
      var i := 0;
      while i < |chunks| && chunks[i] != []
        invariant 0 <= i <= |chunks|
        invariant partial == Regular(start + Joined(chunks[..i]))
        invariant OnlyPartialTouched(n, before) && old(journal) <= journal
        invariant safe ==> DownloadSafe(n, before, payload)
      {
        JoinedSnoc(start, chunks, i);
        assert safe ==> start + Joined(chunks[..i + 1]) <= payload;
        SetPartial(Regular(partial.content + chunks[i]));
        i := i + 1;
      }
      assert chunks[..|chunks|] == chunks;
    }

    /** What precedes the read loop: a range that was ignored means a fresh start. */
    method Rewind(status: int, ghost payload: Bytes, ghost n: nat, ghost before: Disk)
      requires !partial.Unsafe? && OnlyPartialTouched(n, before)
      modifies this
      ensures partial == Regular(Kept(old(partial), status))
      ensures OnlyPartialTouched(n, before) && old(journal) <= journal
      ensures old(DownloadSafe(n, before, payload)) ==> DownloadSafe(n, before, payload)
    {
      var offset := if partial.Regular? then |partial.content| else 0;
      if offset != 0 && status != 206 {
        SetPartial(Absent);
        offset := 0;
      }
      if !(offset != 0 && status == 206) {
        SetPartial(Regular([]));
      }
    }

    /** One attempt: open, restart if the range was ignored, write what comes. None when no error was raised. */
    method Attempt(r: Response, expectedSize: nat, ghost payload: Bytes, ghost n: nat, ghost before: Disk) returns (error: Option<Error>)
      requires !partial.Unsafe? && OnlyPartialTouched(n, before)
      modifies this
      ensures !partial.Unsafe? && OnlyPartialTouched(n, before) && old(journal) <= journal
      ensures error.None? ==> partial.Regular? && |partial.content| <= expectedSize
      ensures error == Some(Escaping) <==> Escapes(r)
      ensures old(DownloadSafe(n, before, payload)) && |payload| == expectedSize && HonestAnswer(r, Offset(old(partial)), payload)
        ==> DownloadSafe(n, before, payload)
      ensures old(DownloadSafe(n, before, payload)) && |payload| == expectedSize && DeliversAll(r, Offset(old(partial)), payload)
        ==> error.None? && partial == Regular(payload)
    {
      if r.OpenFails? { return Some(r.error); }
      if PartialOk(partial, payload) { KeptContinues(partial, r, payload); }
      Rewind(r.status, payload, n, before);
      AppendChunks(r.chunks, payload, n, before);
      if r.readError.Some? { return r.readError; }
      if |partial.content| > expectedSize {
        SetPartial(Absent);
        return Some(Caught);
      }
      return None;
    }

    /** download_resumable; ok is a normal return, otherwise it raised. */
    method DownloadResumable(server: Server, expectedSize: nat, retries: nat, ghost payload: Bytes) returns (ok: bool, requests: nat)
      requires Logged() && expectedSize > 0
      modifies this
      ensures requests <= retries && old(journal) <= journal
      ensures OnlyPartialTouched(|old(journal)|, old(Now()))
      ensures ok ==> partial.Regular? && |partial.content| == expectedSize
      ensures !ok && !old(partial).Unsafe? && (forall k :: 1 <= k <= retries ==> StaysInLoop(server, k)) ==> requests == retries
      ensures old(partial.Regular? && |partial.content| == expectedSize) && retries >= 1 ==> ok && requests == 0 && journal == old(journal)
      ensures Honest(server, payload) && |payload| == expectedSize
        && (PartialOk(old(partial), payload) || (old(partial).Regular? && |old(partial).content| > expectedSize))
        ==> DownloadSafe(|old(journal)|, old(Now()), payload) && (ok ==> partial == Regular(payload))
            && (DeliversWithin(server, retries, payload) ==> ok)
    {
      ghost var n, before := |journal|, Now();
      requests := 0;
      if partial.Unsafe? { return false, requests; }
      if partial.Regular? && |partial.content| > expectedSize {
        SetPartial(Absent);
      }
      ghost var safe := Honest(server, payload) && |payload| == expectedSize && PartialOk(partial, payload);
      for attempt := 1 to retries + 1
        invariant !partial.Unsafe? && OnlyPartialTouched(n, before) && old(journal) <= journal
        invariant requests == attempt - 1
        invariant safe ==> DownloadSafe(n, before, payload)
        invariant old(partial.Regular? && |partial.content| == expectedSize) ==> attempt == 1 && journal == old(journal) && Now() == old(Now())
        invariant safe ==> forall k :: 1 <= k < attempt ==> !DeliversAt(server, k, payload)
      {
        var offset := if partial.Regular? then |partial.content| else 0;
        if offset == expectedSize { return true, requests; }
        requests := requests + 1;
        assert safe ==> HonestAnswer(server(attempt, offset), offset, payload);
        var error := Attempt(server(attempt, offset), expectedSize, payload, n, before);
        if error == Some(Escaping) {
          EscapeEnds(server, attempt, offset, payload);
          return false, requests;
        }
        if error.None? && |partial.content| == expectedSize { return true, requests; }
      }
      return false, requests;
    }

    /** copy_existing: the partial file is replaced by the copy in one step; false when the source is refused. */
    method CopyExisting(source: Entry) returns (ok: bool)
      requires Logged()
      modifies this
      ensures ok == source.Regular?
      ensures if ok then Now() == old(Now()).(partial := source) && journal == old(journal) + [Now()]
        else Now() == old(Now()) && journal == old(journal)
    {
      if !source.Regular? { return false; }
      SetPartial(source);
      return true;
    }

    /** publish_verified: the marker follows the model, and a rejected download leaves neither marker nor partial file. */
    method PublishVerified(m: Manifest, source: string) returns (ok: bool)
      modifies this
      ensures ok == Validates(old(partial), m)
      ensures ok ==> Now() == Disk(Regular(m.pinned), Absent, Ready(m, source, true))
      ensures ok ==> journal == old(journal) + [old(Now()).(model := Regular(m.pinned), partial := Absent), Now()]
      ensures !ok ==> Now() == old(Now()).(marker := NoMarker, partial := Absent)
      ensures !ok ==> journal == old(journal) + [old(Now()).(marker := NoMarker), Now()]
    {
      if !Validates(partial, m) {
        SetMarker(NoMarker);
        SetPartial(Absent);
        return false;
      }
      PublishPartial();
      SetMarker(Ready(m, source, true));
      return true;
    }

    /** The license and source checks, then the fetch into the partial file. */
    method Fetch(m: Manifest, rq: Request, ghost payload: Bytes) returns (name: Option<string>)
      requires Logged() && m.expectedSize > 0
      modifies this
      ensures old(journal) <= journal && OnlyPartialTouched(|old(journal)|, old(Now()))
      ensures name.Some? ==> rq.licenseAccepted && rq.sourceEnabled && !rq.source.Unsupported? && name.value == SourceName(rq.source)
      ensures rq.licenseAccepted && rq.sourceEnabled && rq.source.Existing? && rq.source.file.Some? && rq.source.file.value.Regular?
        ==> name.Some? && Now() == old(Now()).(partial := rq.source.file.value) && journal == old(journal) + [Now()]
      ensures GoodDownload(rq, m) && payload == m.pinned && Resumable(old(partial), m) ==> name.Some? && partial == Regular(m.pinned)
    {
      if !rq.licenseAccepted || !rq.sourceEnabled { return None; }
      match rq.source
      case Existing(file) =>
        if file.None? { return None; }
        var ok := CopyExisting(file.value);
        return if ok then Some(SourceName(rq.source)) else None;
      case HuggingFace(tokenReadable, server) =>
        if !tokenReadable { return None; }
        var ok, _ := DownloadResumable(server, m.expectedSize, rq.retries, payload);
        return if ok then Some(SourceName(rq.source)) else None;
      case Unsupported(_) => return None;
    }

    /** Throwing away a model that failed the full check; the order of the two unlinks depends on the marker. */
    method Discard(markerFirst: bool)
      modifies this
      ensures Now() == old(Now()).(model := Absent, marker := NoMarker)
      ensures journal == old(journal) + [if markerFirst then old(Now()).(marker := NoMarker) else old(Now()).(model := Absent), Now()]
    {
      if markerFirst {
        SetMarker(NoMarker);
        SetModel(Absent);
      } else {
        SetModel(Absent);
        SetMarker(NoMarker);
      }
    }

    /** The first half of hydrate: reuse the model, repair its marker, or clear what failed the full check. */
    method Recover(m: Manifest) returns (settled: Option<Outcome>)
      requires Logged()
      modifies this
      ensures Logged()
      ensures settled == RecoverOutcome(old(Now()), m)
      ensures settled == Some(Reused) ==> Now() == old(Now()) && journal == old(journal)
      ensures settled == Some(RepairedMarker) ==>
        Now() == old(Now()).(marker := Ready(m, "verified-existing-cache", true)) && journal == old(journal) + [Now()]
      ensures settled == None ==> Now() == Cleared(old(Now()), m)
      ensures settled == None && old(model == Absent && !MarkerMatches(marker, m)) ==> journal == old(journal)
      ensures settled == None && !old(model == Absent && !MarkerMatches(marker, m)) ==>
        journal == old(journal) + [HalfCleared(old(Now()), m), Now()]
    {
      if MarkerMatches(marker, m) {
        if Validates(model, m) { return Some(Reused); }
        Discard(true);
      }
      if model != Absent {
        if Validates(model, m) {
          SetMarker(Ready(m, "verified-existing-cache", true));
          return Some(RepairedMarker);
        }
        Discard(false);
      }
      return None;
    }

    /** hydrate, from any disk whatever. */
    method Hydrate(m: Manifest, rq: Request, ghost other: Manifest) returns (outcome: Outcome)
      requires Logged() && m.expectedSize > 0
      modifies this
      ensures Logged() && old(journal) <= journal
      ensures outcome == Reused <==> old(MarkerMatches(marker, m) && Validates(model, m))
      ensures outcome == RepairedMarker <==> old(!MarkerMatches(marker, m) && Validates(model, m))
      ensures outcome == Reused ==> journal == old(journal)
      ensures outcome == RepairedMarker ==> Now() == old(Now()).(marker := Ready(m, "verified-existing-cache", true))
      ensures outcome == RepairedMarker ==> journal == old(journal) + [Now()]
      ensures outcome == Hydrated ==> Now() == Disk(Regular(m.pinned), Absent, Ready(m, SourceName(rq.source), true))
      ensures outcome == Hydrated ==> marker.Ready? && marker.source == if rq.source.Existing? then "existing" else "huggingface"
      ensures outcome != Failed ==> Validates(model, m) && MarkerMatches(marker, m)
      ensures outcome == Failed ==> model == Absent && !MarkerMatches(marker, m)
      ensures old(Sound(Now(), m)) ==> SoundSince(|old(journal)|, m)
      ensures Compatible(m, other) && old(Trusted(Now(), other)) ==> TrustedSince(|old(journal)|, other)
      ensures old(!MarkerMatches(marker, m) && model != Absent && !Validates(model, m)) ==>
        |journal| > |old(journal)| && journal[|old(journal)|] == old(Now()).(model := Absent)
      ensures GoodCopy(rq, m) && old(!MarkerMatches(marker, m) && model == Absent) ==>
        |journal| == |old(journal)| + 3 && journal[|old(journal)| + 1] == old(Now()).(model := Regular(m.pinned), partial := Absent)
      ensures GoodCopy(rq, m) ==> outcome != Failed
      ensures GoodDownload(rq, m) && Resumable(old(partial), m) ==> outcome != Failed
    {
      ghost var n, sound, trusted := |journal|, Sound(Now(), m), Compatible(m, other) && Trusted(Now(), other);
      var settled := Recover(m);
      if settled.Some? { return settled.value; }
      var name := Fetch(m, rq, m.pinned);
      assert sound ==> SoundSince(n, m);
      assert trusted ==> TrustedSince(n, other);
      if name.None? { return Failed; }
      var ok := PublishVerified(m, name.value);
      return if ok then Hydrated else Failed;
    }

    /** A crash leaves the disk as it was after some file operation, or before the first. */
    method Crash(k: nat)
      requires k < |journal|
      modifies this
      ensures Now() == old(journal)[k] && journal == old(journal) + [Now()] && Logged()
    {
      model, partial, marker := journal[k].model, journal[k].partial, journal[k].marker;
      journal := journal + [Disk(model, partial, marker)];
    }
  }

  function RecoverOutcome(d: Disk, m: Manifest): Option<Outcome> {
    if !Validates(d.model, m) then None else Some(if MarkerMatches(d.marker, m) then Reused else RepairedMarker)
  }

  /** A disk whose model failed the full check, after both unlinks; one without a model keeps a foreign marker. */
  function Cleared(d: Disk, m: Manifest): Disk {
    if d.model == Absent && !MarkerMatches(d.marker, m) then d else d.(model := Absent, marker := NoMarker)
  }

  function HalfCleared(d: Disk, m: Manifest): Disk {
    if MarkerMatches(d.marker, m) then d.(marker := NoMarker) else d.(model := Absent)
  }

  function SourceName(s: Source): string {
    match s
    case Existing(_) => "existing"
    case HuggingFace(_, _) => "huggingface"
    case Unsupported(name) => name
  }

  /** The operator supplies the pinned model as an existing file, and nothing forbids its use. */
  predicate GoodCopy(rq: Request, m: Manifest) {
    && rq.licenseAccepted && rq.sourceEnabled && rq.source.Existing? && rq.source.file.Some?
    && Validates(rq.source.file.value, m)
  }

  /** The server is honest, and one of the permitted attempts brings everything. */
  ghost predicate GoodDownload(rq: Request, m: Manifest) {
    && rq.licenseAccepted && rq.sourceEnabled && rq.source.HuggingFace? && rq.source.tokenReadable
    && |m.pinned| == m.expectedSize
    && Honest(rq.source.server, m.pinned) && DeliversWithin(rq.source.server, rq.retries, m.pinned)
  }

  /** A partial file that a download may go on from: a prefix of the contents, or so long that it is dropped. */
  ghost predicate Resumable(partial: Entry, m: Manifest) {
    PartialOk(partial, m.pinned) || (partial.Regular? && |partial.content| > m.expectedSize)
  }

  // ---------------------------------------------------------------- whole lives of a cache

  /** One run of the initializer, cut short after so many file operations when a crash is given. */
  datatype Run = Run(manifest: Manifest, request: Request, crashAfter: Option<nat>)

  /** Any number of runs, each possibly cut short anywhere, from the empty cache. */
  method Life(runs: seq<Run>, ghost m: Manifest) returns (c: Cache)
    requires forall r :: r in runs ==> r.manifest.expectedSize > 0
    ensures fresh(c) && c.Logged()
    ensures (forall r :: r in runs ==> Compatible(r.manifest, m)) ==> c.TrustedSince(0, m)
    ensures (forall r :: r in runs ==> r.manifest == m) ==> c.SoundSince(0, m)
  {
    c := new Cache();
    for i := 0 to |runs|
      invariant c.Logged() && fresh(c)
      invariant (forall r :: r in runs ==> Compatible(r.manifest, m)) ==> c.TrustedSince(0, m)
      invariant (forall r :: r in runs ==> r.manifest == m) ==> c.SoundSince(0, m)
    {
      var start := |c.journal| - 1;
      assert runs[i] in runs;
      var _ := c.Hydrate(runs[i].manifest, runs[i].request, m);
      if runs[i].crashAfter.Some? && start + runs[i].crashAfter.value < |c.journal| {
        c.Crash(start + runs[i].crashAfter.value);
      }
    }
  }

  /** Two manifests that pin different contents of one size: two crashes bring the cheap test for the first to lie. */
  method SwitchingManifestsMisleads(m: Manifest, later: Manifest) returns (c: Cache)
    requires m.expectedSize == |m.pinned| > 0 && later.expectedSize == |later.pinned| > 0
    requires !Compatible(later, m)
    ensures ModelReady(c.Now(), m) && !Validates(c.model, m)
  {
    c := new Cache();
    var first := Request(true, true, Existing(Some(Regular(m.pinned))), 1);
    var second := Request(true, true, Existing(Some(Regular(later.pinned))), 1);
    var _ := c.Hydrate(m, first, m);
    var n := |c.journal|;
    var _ := c.Hydrate(later, second, m);
    c.Crash(n);
    n := |c.journal|;
    var _ := c.Hydrate(later, second, m);
    c.Crash(n + 1);
  }
}
