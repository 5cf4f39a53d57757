/** Overlapping windows over the text of each block, cut at spaces where that is possible. */
module Chunking {
  import opened Positions
  import opened PythonText

  datatype Block = Block(section: string, text: string, locator: string, page: int)

  datatype Chunk = Chunk(section: string, text: string, locator: string, page: int)

  /** The part text[start..end] of a block. */
  datatype Window = Window(start: nat, end: nat)

  /** What the command line demands of the sizes, save that 500 is not needed as a lower bound. */
  predicate SizesOk(maxChars: int, overlap: int) {
    0 <= overlap < maxChars / 2
  }

  // ---------------------------------------------------------------- the windows of one text

  /** Where the window that starts at the cursor ends: at the last space of its second half, if it must be cut. */
  function WindowEnd(text: string, maxChars: nat, cursor: nat): (end: nat)
    requires maxChars >= 2 && cursor < |text|
    ensures cursor < end <= |text| && end <= cursor + maxChars
    ensures end < |text| ==> end >= cursor + maxChars / 2
    ensures end < |text| ==> text[end] == ' ' || end == cursor + maxChars
  {
    var limit := if |text| < cursor + maxChars then |text| else cursor + maxChars;
    if limit < |text| then
      var boundary := RFind(text, ' ', cursor + maxChars / 2, limit);
      if boundary > cursor then boundary else limit
    else limit
  }

  /** The cutting rule of a text, as a function of the cursor. */
  function CutRule(text: string, maxChars: nat): nat -> nat
    requires maxChars >= 2
  {
    (cursor: nat) => if cursor < |text| then WindowEnd(text, maxChars, cursor) else |text|
  }

  /** A rule cuts beyond the overlap and within the limit, or at the end of the text. */
  ghost predicate RuleOk(rule: nat -> nat, size: nat, maxChars: nat, overlap: nat) {
    forall c: nat :: c < size ==> c < rule(c) <= size && rule(c) <= c + maxChars && (rule(c) < size ==> c + overlap < rule(c))
  }

  lemma CutRuleOk(text: string, maxChars: nat, overlap: nat)
    requires SizesOk(maxChars, overlap)
    ensures RuleOk(CutRule(text, maxChars), |text|, maxChars, overlap)
  {
  }

  function WindowsFrom(rule: nat -> nat, size: nat, maxChars: nat, overlap: nat, cursor: nat): (ws: seq<Window>)
    requires RuleOk(rule, size, maxChars, overlap)
    ensures cursor < size <==> ws != []
    ensures cursor < size ==> ws[0] == Window(cursor, rule(cursor))
    decreases size - cursor
  {
    if cursor >= size then []
    else
      [Window(cursor, rule(cursor))] +
      if rule(cursor) >= size then [] else WindowsFrom(rule, size, maxChars, overlap, rule(cursor) - overlap)
  }

  lemma WindowsUnroll(rule: nat -> nat, size: nat, maxChars: nat, overlap: nat, cursor: nat)
    requires RuleOk(rule, size, maxChars, overlap) && cursor < size
    ensures rule(cursor) >= size ==> WindowsFrom(rule, size, maxChars, overlap, cursor) == [Window(cursor, rule(cursor))]
    ensures rule(cursor) < size ==>
      WindowsFrom(rule, size, maxChars, overlap, cursor) ==
      [Window(cursor, rule(cursor))] + WindowsFrom(rule, size, maxChars, overlap, rule(cursor) - overlap)
  {
  }

  /** The windows of a text. */
  function WindowsOf(text: string, maxChars: nat, overlap: nat): seq<Window>
    requires SizesOk(maxChars, overlap)
  {
    CutRuleOk(text, maxChars, overlap);
    WindowsFrom(CutRule(text, maxChars), |text|, maxChars, overlap, 0)
  }

  /** Every window ends where the cutting rule says. */
  ghost predicate Cut(ws: seq<Window>, rule: nat -> nat, size: nat) {
    forall i :: 0 <= i < |ws| ==> ws[i].start < size && ws[i].end == rule(ws[i].start)
  }

  /**
   * The windows start at the cursor and end with the text; none is longer than the limit; each next one
   * starts exactly the overlap before the end of the last, and reaches beyond that end.
   */
  ghost predicate Tiles(ws: seq<Window>, size: nat, maxChars: nat, overlap: nat, cursor: nat) {
    && ws != [] && ws[0].start == cursor && ws[|ws| - 1].end == size
    && (forall i :: 0 <= i < |ws| ==> ws[i].start < ws[i].end <= size && ws[i].end <= ws[i].start + maxChars)
    && forall i, j :: 0 <= i < j < |ws| && j == i + 1 ==> ws[j].start == ws[i].end - overlap && ws[i].end < ws[j].end
  }

  /** Window i ends where the rule says, and the next one starts the overlap before that; the last one ends the text. */
  ghost predicate WindowOk(ws: seq<Window>, i: nat, rule: nat -> nat, size: nat, maxChars: nat, overlap: nat)
    requires i < |ws|
  {
    && ws[i].start < ws[i].end <= size && ws[i].end <= ws[i].start + maxChars && ws[i].end == rule(ws[i].start)
    && if i + 1 == |ws| then ws[i].end == size else ws[i + 1].start == ws[i].end - overlap && ws[i].end < ws[i + 1].end
  }

  lemma WindowAfter(w: Window, rest: seq<Window>, i: nat, rule: nat -> nat, size: nat, maxChars: nat, overlap: nat)
    requires i < |rest| && WindowOk(rest, i, rule, size, maxChars, overlap)
    ensures WindowOk([w] + rest, i + 1, rule, size, maxChars, overlap)
  {
    var ws := [w] + rest;
    assert ws[i + 1] == rest[i] && (i + 1 < |rest| ==> ws[i + 2] == rest[i + 1]);
  }

  lemma FirstWindow(rule: nat -> nat, size: nat, maxChars: nat, overlap: nat, cursor: nat)
    requires RuleOk(rule, size, maxChars, overlap) && cursor < size
    ensures WindowOk(WindowsFrom(rule, size, maxChars, overlap, cursor), 0, rule, size, maxChars, overlap)
  {
    WindowsUnroll(rule, size, maxChars, overlap, cursor);
    if rule(cursor) < size {
      var rest := WindowsFrom(rule, size, maxChars, overlap, rule(cursor) - overlap);
      assert ([Window(cursor, rule(cursor))] + rest)[1] == rest[0];
    }
  }

  lemma {:induction false} WindowAt(rule: nat -> nat, size: nat, maxChars: nat, overlap: nat, cursor: nat, i: nat)
    requires RuleOk(rule, size, maxChars, overlap) && i < |WindowsFrom(rule, size, maxChars, overlap, cursor)|
    ensures WindowOk(WindowsFrom(rule, size, maxChars, overlap, cursor), i, rule, size, maxChars, overlap)
    decreases i
  {
    if i == 0 {
      FirstWindow(rule, size, maxChars, overlap, cursor);
    } else {
      WindowsUnroll(rule, size, maxChars, overlap, cursor);
      var next := rule(cursor) - overlap;
      WindowAt(rule, size, maxChars, overlap, next, i - 1);
      WindowAfter(Window(cursor, rule(cursor)), WindowsFrom(rule, size, maxChars, overlap, next), i - 1, rule, size, maxChars, overlap);
    }
  }

  lemma RuleTiles(rule: nat -> nat, size: nat, maxChars: nat, overlap: nat, cursor: nat)
    requires RuleOk(rule, size, maxChars, overlap) && cursor < size
    ensures Tiles(WindowsFrom(rule, size, maxChars, overlap, cursor), size, maxChars, overlap, cursor)
    ensures Cut(WindowsFrom(rule, size, maxChars, overlap, cursor), rule, size)
  {
    var ws := WindowsFrom(rule, size, maxChars, overlap, cursor);
    forall i | 0 <= i < |ws|
      ensures ws[i].start < ws[i].end <= size && ws[i].end <= ws[i].start + maxChars && ws[i].end == rule(ws[i].start)
    {
      WindowAt(rule, size, maxChars, overlap, cursor, i);
    }
    forall i, j | 0 <= i < j < |ws| && j == i + 1 ensures ws[j].start == ws[i].end - overlap && ws[i].end < ws[j].end {
      WindowAt(rule, size, maxChars, overlap, cursor, i);
    }
    WindowAt(rule, size, maxChars, overlap, cursor, |ws| - 1);
  }

  lemma WindowsTile(text: string, maxChars: nat, overlap: nat)
    requires SizesOk(maxChars, overlap) && text != []
    ensures Tiles(WindowsOf(text, maxChars, overlap), |text|, maxChars, overlap, 0)
    ensures Cut(WindowsOf(text, maxChars, overlap), CutRule(text, maxChars), |text|)
  {
    CutRuleOk(text, maxChars, overlap);
    RuleTiles(CutRule(text, maxChars), |text|, maxChars, overlap, 0);
  }

  /** Only the last window reaches the end of the text. */
  lemma {:induction false} OnlyLastEnds(ws: seq<Window>, size: nat, maxChars: nat, overlap: nat, cursor: nat, i: nat)
    requires Tiles(ws, size, maxChars, overlap, cursor) && i < |ws|
    ensures ws[i].end == size <==> i == |ws| - 1
    decreases |ws| - i
  {
    if i + 1 < |ws| {
      OnlyLastEnds(ws, size, maxChars, overlap, cursor, i + 1);
      assert ws[i].end < ws[i + 1].end;
    }
  }

  /** A cut inside the text falls on a space unless the second half of the window has none. */
  lemma CutsAtSpaces(text: string, maxChars: nat, cursor: nat)
    requires maxChars >= 2 && cursor + maxChars < |text|
    ensures var end := WindowEnd(text, maxChars, cursor);
      if exists k :: cursor + maxChars / 2 <= k < cursor + maxChars && text[k] == ' '
      then text[end] == ' ' && forall k :: end < k < cursor + maxChars ==> text[k] != ' '
      else end == cursor + maxChars
  {
  }

  /** What still fits is not cut. */
  lemma RestIsOneWindow(text: string, maxChars: nat, cursor: nat)
    requires maxChars >= 2 && cursor < |text| <= cursor + maxChars
    ensures WindowEnd(text, maxChars, cursor) == |text|
  {
  }

  /** The first window followed by what each later one adds after its overlap. */
  function Rejoined(ws: seq<Window>, text: string, overlap: nat): string
    requires forall w :: w in ws ==> w.start <= w.end <= |text|
  {
    if ws == [] then []
    else
      var last := ws[|ws| - 1];
      var begin := if |ws| == 1 then last.start else if last.start + overlap <= last.end then last.start + overlap else last.end;
      Rejoined(ws[..|ws| - 1], text, overlap) + text[begin..last.end]
  }

  lemma {:induction false} PrefixRejoins(ws: seq<Window>, n: nat, text: string, maxChars: nat, overlap: nat, cursor: nat)
    requires Tiles(ws, |text|, maxChars, overlap, cursor) && 0 < n <= |ws|
    ensures cursor <= ws[n - 1].end <= |text|
    ensures (forall w :: w in ws[..n] ==> w.start <= w.end <= |text|) && Rejoined(ws[..n], text, overlap) == text[cursor..ws[n - 1].end]
  {
    var part := ws[..n];
    assert part[..n - 1] == ws[..n - 1];
    if n == 1 {
      assert part == [ws[0]];
      assert Rejoined(part[..0], text, overlap) == [];
    } else {
      PrefixRejoins(ws, n - 1, text, maxChars, overlap, cursor);
      var a, b := ws[n - 2].end, ws[n - 1].end;
      assert ws[n - 1].start == a - overlap && a < b;
      assert text[cursor..a] + text[a..b] == text[cursor..b];
      assert Rejoined(part, text, overlap) == Rejoined(part[..n - 1], text, overlap) + text[a..b];
    }
  }

  /** Nothing is lost and nothing is added: the windows minus their overlaps give the text back. */
  lemma WindowsRejoin(text: string, maxChars: nat, overlap: nat)
    requires SizesOk(maxChars, overlap) && text != []
    ensures var ws := WindowsOf(text, maxChars, overlap);
      (forall w :: w in ws ==> w.start <= w.end <= |text|) && Rejoined(ws, text, overlap) == text
  {
    var ws := WindowsOf(text, maxChars, overlap);
    WindowsTile(text, maxChars, overlap);
    PrefixRejoins(ws, |ws|, text, maxChars, overlap, 0);
    assert ws[..|ws|] == ws && text[0..|text|] == text;
  }

  // ---------------------------------------------------------------- the chunks of a block

  function ChunkOf(b: Block, w: Window, part: nat): Chunk
    requires w.start <= w.end <= |b.text|
  {
    Chunk(b.section, Strip(b.text[w.start..w.end]), b.locator + ":part=" + Decimal(part), b.page)
  }

  predicate Fits(ws: seq<Window>, text: string) {
    forall i :: 0 <= i < |ws| ==> ws[i].start <= ws[i].end <= |text|
  }

  /** What each window holds; parts are numbered from 1, blank windows included. */
  function Pieces(b: Block, ws: seq<Window>): (r: seq<Chunk>)
    requires Fits(ws, b.text)
    ensures |r| == |ws|
    ensures forall i :: 0 <= i < |ws| ==> r[i] == ChunkOf(b, ws[i], i + 1)
  {
    seq(|ws|, i requires 0 <= i < |ws| => ChunkOf(b, ws[i], i + 1))
  }

  /** The chunks among the first n pieces: blank windows give none. */
  function Nonblank(pieces: seq<Chunk>, n: nat): (r: seq<Chunk>)
    requires n <= |pieces|
    ensures forall i :: 0 <= i < n && pieces[i].text != [] ==> pieces[i] in r
    ensures forall c :: c in r ==> c.text != [] && exists i :: 0 <= i < n && pieces[i] == c
  {
    if n == 0 then []
    else Nonblank(pieces, n - 1) + if pieces[n - 1].text == [] then [] else [pieces[n - 1]]
  }

  lemma WindowsFit(text: string, maxChars: nat, overlap: nat)
    requires SizesOk(maxChars, overlap)
    ensures Fits(WindowsOf(text, maxChars, overlap), text)
  {
    if text != [] {
      WindowsTile(text, maxChars, overlap);
    }
  }

  function BlockChunks(b: Block, maxChars: nat, overlap: nat): seq<Chunk>
    requires SizesOk(maxChars, overlap)
  {
    WindowsFit(b.text, maxChars, overlap);
    var ws := WindowsOf(b.text, maxChars, overlap);
    Nonblank(Pieces(b, ws), |ws|)
  }

  /** What each block gives, one after the other. */
  function Concatenated(own: Block -> seq<Chunk>, blocks: seq<Block>): seq<Chunk> {
    if blocks == [] then [] else Concatenated(own, blocks[..|blocks| - 1]) + own(blocks[|blocks| - 1])
  }

  /** The chunks of a block, as a function of the block. */
  function BlockRule(maxChars: nat, overlap: nat): Block -> seq<Chunk>
    requires SizesOk(maxChars, overlap)
  {
    (b: Block) => BlockChunks(b, maxChars, overlap)
  }

  function ChunksOf(blocks: seq<Block>, maxChars: nat, overlap: nat): seq<Chunk>
    requires SizesOk(maxChars, overlap)
  {
    Concatenated(BlockRule(maxChars, overlap), blocks)
  }

  /** The chunks of a block are those of its nonblank windows: stripped, not empty, and no longer than the limit. */
  lemma ChunksAreWindows(b: Block, maxChars: nat, overlap: nat, c: Chunk) returns (i: nat)
    requires SizesOk(maxChars, overlap) && c in BlockChunks(b, maxChars, overlap)
    ensures var ws := WindowsOf(b.text, maxChars, overlap);
      i < |ws| && ws[i].start <= ws[i].end <= |b.text| && c == ChunkOf(b, ws[i], i + 1)
    ensures 0 < |c.text| <= maxChars
  {
    var ws := WindowsOf(b.text, maxChars, overlap);
    WindowsFit(b.text, maxChars, overlap);
    var pieces := Pieces(b, ws);
    i :| 0 <= i < |pieces| && pieces[i] == c;
    assert b.text != [];
    WindowsTile(b.text, maxChars, overlap);
    StripIsShorter(b.text[ws[i].start..ws[i].end]);
  }

  lemma StripIsShorter(s: string)
    ensures |Strip(s)| <= |s|
  {
  }

  /** The chunk carries the block's section and page, its part number after the locator, and all of window w but the white space at its ends. */
  ghost predicate Carries(c: Chunk, b: Block, w: Window, part: nat) {
    && c.section == b.section && c.page == b.page && c.locator == b.locator + ":part=" + Decimal(part)
    && exists lo: nat :: MiddleOf(c.text, b.text, w, lo)
  }

  ghost predicate MiddleOf(t: string, text: string, w: Window, lo: nat) {
    var hi := lo + |t|;
    && w.start <= lo < hi <= w.end <= |text| && t == text[lo..hi] && !IsSpace(text[lo]) && !IsSpace(text[hi - 1])
    && (forall k :: w.start <= k < lo ==> IsSpace(text[k]))
    && (forall k :: hi <= k < w.end ==> IsSpace(text[k]))
  }

  /** The window holds a character that is not white space. */
  ghost predicate HoldsText(text: string, w: Window) {
    exists k :: w.start <= k < w.end <= |text| && !IsSpace(text[k])
  }

  lemma StripTerms(s: string)
    ensures Strip(s) == [] <==> Blank(s)
    ensures Strip(s) != [] ==> Lead(s) < Tail(s) && Strip(s) == s[Lead(s)..Tail(s)]
  {
  }

  lemma MiddleTerms(text: string, w: Window)
    requires w.start <= w.end <= |text| && !Blank(text[w.start..w.end])
    ensures var s := text[w.start..w.end]; MiddleOf(Strip(s), text, w, w.start + Lead(s))
  {
    var s := text[w.start..w.end];
    StripTerms(s);
    assert forall k :: w.start <= k < w.end ==> text[k] == s[k - w.start];
    assert s[Lead(s)..Tail(s)] == text[w.start + Lead(s)..w.start + Tail(s)];
  }

  lemma PieceTerms(b: Block, w: Window, part: nat)
    requires w.start <= w.end <= |b.text|
    ensures ChunkOf(b, w, part).text != [] <==> HoldsText(b.text, w)
    ensures HoldsText(b.text, w) ==> Carries(ChunkOf(b, w, part), b, w, part)
  {
    var s := b.text[w.start..w.end];
    assert Blank(s) <==> !HoldsText(b.text, w) by {
      assert forall k :: w.start <= k < w.end ==> b.text[k] == s[k - w.start];
      assert forall i :: 0 <= i < |s| ==> s[i] == b.text[w.start + i];
    }
    if !Blank(s) { MiddleTerms(b.text, w); }
  }

  /** The windows that hold text. */
  ghost function Holding(ws: seq<Window>, text: string): set<nat> {
    set k: nat | k < |ws| && HoldsText(text, ws[k])
  }

  ghost predicate CarriesAll(chunks: seq<Chunk>, b: Block, ws: seq<Window>, places: seq<nat>) {
    && |chunks| == |places|
    && forall i :: 0 <= i < |places| ==> places[i] < |ws| && Carries(chunks[i], b, ws[places[i]], places[i] + 1)
  }

  /** The chunks of a block are those of its windows that are not blank, in order and numbered by their windows. */
  lemma ChunksTerms(b: Block, maxChars: nat, overlap: nat) returns (places: seq<nat>)
    requires SizesOk(maxChars, overlap)
    ensures var ws := WindowsOf(b.text, maxChars, overlap);
      Lists(places, Holding(ws, b.text)) && CarriesAll(BlockChunks(b, maxChars, overlap), b, ws, places)
  {
    var ws := WindowsOf(b.text, maxChars, overlap);
    WindowsFit(b.text, maxChars, overlap);
    var pieces := Pieces(b, ws);
    forall k | 0 <= k < |ws|
      ensures pieces[k].text != [] <==> HoldsText(b.text, ws[k])
      ensures HoldsText(b.text, ws[k]) ==> Carries(pieces[k], b, ws[k], k + 1)
    {
      PieceTerms(b, ws[k], k + 1);
    }
    places := NonblankPlaces(pieces);
    assert Filled(pieces, |ws|) == Holding(ws, b.text);
  }

  ghost function Filled(pieces: seq<Chunk>, n: nat): set<nat>
    requires n <= |pieces|
  {
    set k: nat | k < n && pieces[k].text != []
  }

  ghost predicate PiecesAt(chunks: seq<Chunk>, pieces: seq<Chunk>, places: seq<nat>) {
    |chunks| == |places| && forall i :: 0 <= i < |places| ==> places[i] < |pieces| && chunks[i] == pieces[places[i]]
  }

  lemma PiecesAtSnoc(chunks: seq<Chunk>, pieces: seq<Chunk>, places: seq<nat>, k: nat)
    requires PiecesAt(chunks, pieces, places) && k < |pieces|
    ensures PiecesAt(chunks + [pieces[k]], pieces, places + [k])
  {
  }

  lemma FilledSnoc(pieces: seq<Chunk>, n: nat)
    requires n < |pieces|
    ensures Filled(pieces, n + 1) == Filled(pieces, n) + if pieces[n].text == [] then {} else {n}
    ensures forall k :: k in Filled(pieces, n) ==> k < n
  {
  }

  /** The places are those of the filled ones among the first n pieces, and the chunks are these. */
  ghost predicate Found(pieces: seq<Chunk>, n: nat, places: seq<nat>)
    requires n <= |pieces|
  {
    Lists(places, Filled(pieces, n)) && PiecesAt(Nonblank(pieces, n), pieces, places)
  }

  lemma FoundSnoc(pieces: seq<Chunk>, n: nat, places: seq<nat>)
    requires n < |pieces| && Found(pieces, n, places)
    ensures Found(pieces, n + 1, if pieces[n].text == [] then places else places + [n])
  {
    NonblankSnoc(pieces, n);
    FilledSnoc(pieces, n);
    if pieces[n].text == [] {
      assert Filled(pieces, n + 1) == Filled(pieces, n) && Nonblank(pieces, n + 1) == Nonblank(pieces, n);
    } else {
      ListsSnoc(places, Filled(pieces, n), n);
      PiecesAtSnoc(Nonblank(pieces, n), pieces, places, n);
    }
  }

  lemma NonblankPlaces(pieces: seq<Chunk>) returns (places: seq<nat>)
    ensures Found(pieces, |pieces|, places)
  {
    places := [];
    for i := 0 to |pieces|
      invariant Found(pieces, i, places)
    {
      FoundSnoc(pieces, i, places);
      if pieces[i].text != [] { places := places + [i]; }
    }
  }

  lemma ConcatenatedSnoc(own: Block -> seq<Chunk>, blocks: seq<Block>, b: Block)
    ensures Concatenated(own, blocks + [b]) == Concatenated(own, blocks) + own(b)
  {
    assert (blocks + [b])[..|blocks|] == blocks;
  }

  lemma Regroup(a: seq<Chunk>, b: seq<Chunk>, c: seq<Chunk>)
    ensures (a + b) + c == a + (b + c)
  {
  }

  lemma LastBlock(blocks: seq<Block>, more: seq<Block>)
    requires more != []
    ensures more == more[..|more| - 1] + [more[|more| - 1]]
    ensures blocks + more == (blocks + more[..|more| - 1]) + [more[|more| - 1]]
  {
  }

  lemma {:induction false} ConcatenatedAppend(own: Block -> seq<Chunk>, blocks: seq<Block>, more: seq<Block>)
    ensures Concatenated(own, blocks + more) == Concatenated(own, blocks) + Concatenated(own, more)
    decreases |more|
  {
    if more == [] {
      assert blocks + more == blocks;
    } else {
      var front, last := more[..|more| - 1], more[|more| - 1];
      LastBlock(blocks, more);
      ConcatenatedAppend(own, blocks, front);
      ConcatenatedSnoc(own, blocks + front, last);
      Regroup(Concatenated(own, blocks), Concatenated(own, front), own(last));
    }
  }

  /** The chunks of a block stand after those of the blocks before it and before those of the blocks after it. */
  lemma BlocksInOrder(before: seq<Block>, b: Block, after: seq<Block>, maxChars: nat, overlap: nat)
    requires SizesOk(maxChars, overlap)
    ensures ChunksOf(before + [b] + after, maxChars, overlap)
         == ChunksOf(before, maxChars, overlap) + BlockChunks(b, maxChars, overlap) + ChunksOf(after, maxChars, overlap)
  {
    var own := BlockRule(maxChars, overlap);
    ConcatenatedAppend(own, before + [b], after);
    ConcatenatedSnoc(own, before, b);
  }

  lemma SomeWindowHolds(ws: seq<Window>, size: nat, maxChars: nat, overlap: nat, k: nat) returns (i: nat)
    requires Tiles(ws, size, maxChars, overlap, 0) && k < size
    ensures i < |ws| && ws[i].start <= k < ws[i].end <= size
  {
    i := |ws| - 1;
    while ws[i].start > k
      invariant i < |ws| && k < ws[i].end
      decreases i
    {
      assert ws[i].start == ws[i - 1].end - overlap;
      i := i - 1;
    }
  }

  lemma CharacterIsKept(b: Block, ws: seq<Window>, i: nat, k: nat) returns (c: Chunk, j: nat)
    requires Fits(ws, b.text) && i < |ws| && ws[i].start <= k < ws[i].end && !IsSpace(b.text[k])
    ensures c in Nonblank(Pieces(b, ws), |ws|) && j < |c.text| && c.text[j] == b.text[k]
  {
    var s := b.text[ws[i].start..ws[i].end];
    StripKeeps(s, k - ws[i].start);
    c, j := ChunkOf(b, ws[i], i + 1), k - ws[i].start - Lead(s);
    assert Pieces(b, ws)[i] == c;
  }

  /** Every character of the text that is not white space stands in some chunk. */
  lemma NothingIsLost(b: Block, maxChars: nat, overlap: nat, k: nat) returns (c: Chunk, j: nat)
    requires SizesOk(maxChars, overlap) && k < |b.text| && !IsSpace(b.text[k])
    ensures c in BlockChunks(b, maxChars, overlap) && j < |c.text| && c.text[j] == b.text[k]
  {
    var ws := WindowsOf(b.text, maxChars, overlap);
    WindowsTile(b.text, maxChars, overlap);
    WindowsFit(b.text, maxChars, overlap);
    var i := SomeWindowHolds(ws, |b.text|, maxChars, overlap, k);
    c, j := CharacterIsKept(b, ws, i, k);
  }

  // ---------------------------------------------------------------- chunk_blocks

  /** One window: its end, and its chunk unless it is blank. */
  method CutWindow(b: Block, maxChars: nat, cursor: nat, part: nat) returns (end: nat, chunks: seq<Chunk>)
    requires maxChars >= 2 && cursor < |b.text|
    ensures end == WindowEnd(b.text, maxChars, cursor)
    ensures var c := ChunkOf(b, Window(cursor, end), part); chunks == if c.text == [] then [] else [c]
  {
    end := if |b.text| < cursor + maxChars then |b.text| else cursor + maxChars;
    if end < |b.text| {
      var boundary := RFind(b.text, ' ', cursor + maxChars / 2, end);
      if boundary > cursor { end := boundary; }
    }
    var value := Strip(b.text[cursor..end]);
    chunks := if value == [] then [] else [Chunk(b.section, value, b.locator + ":part=" + Decimal(part), b.page)];
  }

  lemma NextWindow(ws: seq<Window>, size: nat, maxChars: nat, overlap: nat, i: nat)
    requires Tiles(ws, size, maxChars, overlap, 0) && i < |ws|
    ensures ws[i].end == size <==> i + 1 == |ws|
    ensures i + 1 < |ws| ==> ws[i + 1].start == ws[i].end - overlap
  {
    OnlyLastEnds(ws, size, maxChars, overlap, 0, i);
  }

  lemma NonblankSnoc(pieces: seq<Chunk>, n: nat)
    requires n < |pieces|
    ensures Nonblank(pieces, n + 1) == Nonblank(pieces, n) + if pieces[n].text == [] then [] else [pieces[n]]
  {
  }

  /** The loop over one nonempty text; ws are the windows it will cut. */
  method ChunkText(b: Block, maxChars: nat, overlap: nat, ghost ws: seq<Window>) returns (chunks: seq<Chunk>)
    requires SizesOk(maxChars, overlap) && Fits(ws, b.text)
    requires Tiles(ws, |b.text|, maxChars, overlap, 0) && Cut(ws, CutRule(b.text, maxChars), |b.text|)
    ensures chunks == Nonblank(Pieces(b, ws), |ws|)
  {
    ghost var pieces := Pieces(b, ws);
    chunks := [];
    var cursor, part := 0, 1;
    while cursor < |b.text|
      invariant 1 <= part <= |ws| && cursor == ws[part - 1].start
      invariant chunks == Nonblank(pieces, part - 1)
      decreases |ws| - part
    {
      NextWindow(ws, |b.text|, maxChars, overlap, part - 1);
      var end, cut := CutWindow(b, maxChars, cursor, part);
      assert end == ws[part - 1].end && ws[part - 1] == Window(cursor, end);
      assert pieces[part - 1] == ChunkOf(b, Window(cursor, end), part);
      NonblankSnoc(pieces, part - 1);
      chunks := chunks + cut;
      if end >= |b.text| { return; }
      cursor := if end - overlap > cursor + 1 then end - overlap else cursor + 1;
      part := part + 1;
    }
  }

  method ChunkBlock(b: Block, maxChars: nat, overlap: nat) returns (chunks: seq<Chunk>)
    requires SizesOk(maxChars, overlap)
    ensures chunks == BlockChunks(b, maxChars, overlap)
  {
    if b.text == [] { return []; }
    WindowsFit(b.text, maxChars, overlap);
    WindowsTile(b.text, maxChars, overlap);
    chunks := ChunkText(b, maxChars, overlap, WindowsOf(b.text, maxChars, overlap));
  }

  lemma ConcatenatedNext(own: Block -> seq<Chunk>, blocks: seq<Block>, i: nat)
    requires i < |blocks|
    ensures Concatenated(own, blocks[..i + 1]) == Concatenated(own, blocks[..i]) + own(blocks[i])
  {
    assert blocks[..i + 1] == blocks[..i] + [blocks[i]];
    ConcatenatedSnoc(own, blocks[..i], blocks[i]);
  }

  method ChunkBlocks(blocks: seq<Block>, maxChars: nat, overlap: nat) returns (chunks: seq<Chunk>)
    requires SizesOk(maxChars, overlap)
    ensures chunks == ChunksOf(blocks, maxChars, overlap)
  {
    ghost var own := BlockRule(maxChars, overlap);
    chunks := [];
    for i := 0 to |blocks|
      invariant chunks == Concatenated(own, blocks[..i])
    {
      var more := ChunkBlock(blocks[i], maxChars, overlap);
      ConcatenatedNext(own, blocks, i);
      chunks := chunks + more;
    }
    assert blocks[..|blocks|] == blocks;
  }
}
