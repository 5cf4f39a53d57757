/** What an extracted block holds, in terms of the characters of the document's strings and paths. */
module JsonTerms {
  import opened PythonText
  import opened Strings
  import opened JsonWalk

  // ---------------------------------------------------------------- folded text

  /** Nothing but white space stands from lo up to hi. */
  ghost predicate Gap(s: string, lo: int, hi: int) {
    forall k :: 0 <= k < |s| && lo <= k < hi ==> PythonText.IsSpace(s[k])
  }

  /** Character i of the folded text is the character at[i] of s, or a blank for the start of a run of white space. */
  ghost predicate Shows(t: string, s: string, at: seq<nat>) {
    && |at| == |t|
    && forall i :: 0 <= i < |t| ==> at[i] < |s| && t[i] == if PythonText.IsSpace(s[at[i]]) then ' ' else s[at[i]]
  }

  /** From one character shown to the next: nothing is passed over but the rest of a run of white space. */
  ghost predicate Moves(s: string, a: nat, b: nat)
    requires a < |s| && b < |s|
  {
    && a < b
    && if PythonText.IsSpace(s[a]) then !PythonText.IsSpace(s[b]) && Gap(s, a, b) else b == a + 1
  }

  ghost predicate Advances(s: string, at: seq<nat>)
    requires forall i :: 0 <= i < |at| ==> at[i] < |s|
  {
    forall i, j :: 0 <= i < j < |at| && j == i + 1 ==> Moves(s, at[i], at[j])
  }

  /** t is s with each run of white space made one blank, and none at its ends. */
  ghost predicate Folds(t: string, s: string, at: seq<nat>) {
    && Shows(t, s, at) && Advances(s, at)
    && if t == [] then Gap(s, 0, |s|)
       else
         && !PythonText.IsSpace(s[at[0]]) && !PythonText.IsSpace(s[at[|at| - 1]])
         && Gap(s, 0, at[0]) && Gap(s, at[|at| - 1] + 1, |s|)
  }

  /** The same before stripping: from position i of s on, to its end. */
  ghost predicate FoldsFrom(t: string, s: string, i: nat, at: seq<nat>) {
    && Shows(t, s, at) && Advances(s, at)
    && (t == [] <==> i >= |s|)
    && (t != [] ==> at[0] == i && (!PythonText.IsSpace(s[at[|at| - 1]]) ==> at[|at| - 1] == |s| - 1) && Gap(s, at[|at| - 1] + 1, |s|))
  }

  lemma ShowsCons(c: char, a: nat, t: string, s: string, at: seq<nat>)
    requires Shows(t, s, at) && a < |s| && c == if PythonText.IsSpace(s[a]) then ' ' else s[a]
    ensures Shows([c] + t, s, [a] + at)
  {
  }

  lemma AdvancesCons(a: nat, s: string, at: seq<nat>)
    requires (forall i :: 0 <= i < |at| ==> at[i] < |s|) && Advances(s, at) && a < |s|
    requires at != [] ==> Moves(s, a, at[0])
    ensures Advances(s, [a] + at)
  {
    var longer := [a] + at;
    forall i, j | 0 <= i < j < |longer| && j == i + 1 ensures Moves(s, longer[i], longer[j]) {
      assert longer[j] == at[j - 1] && (i > 0 ==> longer[i] == at[i - 1]);
    }
  }

  /** The first shown position, and that of the text after it. */
  lemma FoldsCons(c: char, t: string, s: string, i: nat, next: nat, at: seq<nat>)
    requires i < next <= |s| && FoldsFrom(t, s, next, at) && c == if PythonText.IsSpace(s[i]) then ' ' else s[i]
    requires if PythonText.IsSpace(s[i]) then Gap(s, i, next) && (next < |s| ==> !PythonText.IsSpace(s[next])) else next == i + 1
    ensures FoldsFrom([c] + t, s, i, [i] + at)
  {
    ShowsCons(c, i, t, s, at);
    AdvancesCons(i, s, at);
  }

  lemma {:induction false} FoldTerms(s: string, i: nat) returns (at: seq<nat>)
    requires i <= |s|
    ensures FoldsFrom(Fold(s[i..]), s, i, at)
    decreases |s| - i
  {
    if i == |s| {
      at := [];
    } else {
      var rest := s[i..];
      if PythonText.IsSpace(s[i]) {
        var n := Lead(rest);
        assert n > 0 by { assert rest[0] == s[i]; }
        forall k | i <= k < i + n ensures PythonText.IsSpace(s[k]) { assert rest[k - i] == s[k]; }
        assert rest[n..] == s[i + n..];
        assert n < |rest| ==> rest[n] == s[i + n];
        at := FoldTerms(s, i + n);
        FoldsCons(' ', Fold(s[i + n..]), s, i, i + n, at);
      } else {
        assert rest[1..] == s[i + 1..] && rest[0] == s[i];
        at := FoldTerms(s, i + 1);
        FoldsCons(s[i], Fold(s[i + 1..]), s, i, i + 1, at);
      }
      at := [i] + at;
    }
  }

  /** The normalised text of a string is the string folded. */
  lemma NormalisedFolds(s: string) returns (at: seq<nat>)
    ensures Folds(Normalised(s), s, at)
  {
    assert s[0..] == s;
    at := FoldTerms(s, 0);
    at := Stripped(Fold(s), s, at);
  }

  /** A blank at position i of the folded text shows white space, and any other character itself. */
  lemma SpaceShown(t: string, s: string, at: seq<nat>, i: nat)
    requires Shows(t, s, at) && i < |t|
    ensures PythonText.IsSpace(t[i]) <==> PythonText.IsSpace(s[at[i]])
  {
  }

  lemma {:induction false} LongSpaceRun(t: string, s: string, at: seq<nat>, i: nat)
    requires Shows(t, s, at) && Advances(s, at) && i + 1 < |t| && PythonText.IsSpace(t[i])
    ensures !PythonText.IsSpace(t[i + 1])
  {
    SpaceShown(t, s, at, i);
    SpaceShown(t, s, at, i + 1);
    assert Moves(s, at[i], at[i + 1]);
  }

  lemma SliceShows(t: string, s: string, at: seq<nat>, lo: nat, hi: nat)
    requires Shows(t, s, at) && Advances(s, at) && lo <= hi <= |t|
    ensures Shows(t[lo..hi], s, at[lo..hi]) && Advances(s, at[lo..hi])
  {
    var shown := at[lo..hi];
    forall i, j | 0 <= i < j < |shown| && j == i + 1 ensures Moves(s, shown[i], shown[j]) {
      assert shown[i] == at[lo + i] && shown[j] == at[lo + j];
    }
  }

  lemma StripCut(t: string)
    requires !PythonText.Blank(t)
    ensures Lead(t) < Tail(t) && Strip(t) == t[Lead(t)..Tail(t)]
    ensures !PythonText.IsSpace(t[Lead(t)]) && !PythonText.IsSpace(t[Tail(t) - 1])
  {
  }

  /** Stripping the folded text takes off at most one blank at each end. */
  lemma Stripped(t: string, s: string, at: seq<nat>) returns (shown: seq<nat>)
    requires FoldsFrom(t, s, 0, at)
    ensures Folds(Strip(t), s, shown)
  {
    if PythonText.Blank(t) {
      shown := [];
      BlankFold(t, s, at);
    } else {
      StripCut(t);
      var lo, hi := Lead(t), Tail(t);
      shown := at[lo..hi];
      LeadIsShort(t, s, at);
      TailIsShort(t, s, at);
      SpaceShown(t, s, at, lo);
      SpaceShown(t, s, at, hi - 1);
      SliceShows(t, s, at, lo, hi);
    }
  }

  lemma BlankFold(t: string, s: string, at: seq<nat>)
    requires FoldsFrom(t, s, 0, at) && PythonText.Blank(t)
    ensures Gap(s, 0, |s|)
  {
    if |t| > 1 { LongSpaceRun(t, s, at, 0); }
    if t != [] { SpaceShown(t, s, at, 0); }
  }

  lemma LeadIsShort(t: string, s: string, at: seq<nat>)
    requires FoldsFrom(t, s, 0, at) && !PythonText.Blank(t)
    ensures Lead(t) < |t| && Gap(s, 0, at[Lead(t)])
  {
    StripCut(t);
    if Lead(t) > 1 { LongSpaceRun(t, s, at, 0); }
    if Lead(t) == 1 {
      SpaceShown(t, s, at, 0);
      assert Moves(s, at[0], at[1]);
    }
  }

  lemma TailIsShort(t: string, s: string, at: seq<nat>)
    requires FoldsFrom(t, s, 0, at) && !PythonText.Blank(t)
    ensures 0 < Tail(t) && Gap(s, at[Tail(t) - 1] + 1, |s|)
  {
    StripCut(t);
    var n := Tail(t);
    if n + 1 < |t| { LongSpaceRun(t, s, at, n); }
    if n + 1 == |t| {
      SpaceShown(t, s, at, n - 1);
      SpaceShown(t, s, at, n);
      assert Moves(s, at[n - 1], at[n]);
    }
  }

  // ---------------------------------------------------------------- only one text folds

  lemma {:induction false} SamePlaces(t: string, u: string, s: string, at: seq<nat>, bt: seq<nat>, i: nat)
    requires Folds(t, s, at) && Folds(u, s, bt) && i < |t| && i < |u|
    ensures at[i] == bt[i]
    decreases i
  {
    if i > 0 {
      SamePlaces(t, u, s, at, bt, i - 1);
      assert Moves(s, at[i - 1], at[i]) && Moves(s, bt[i - 1], bt[i]);
    }
  }

  lemma NotShorter(t: string, u: string, s: string, at: seq<nat>, bt: seq<nat>)
    requires Folds(t, s, at) && Folds(u, s, bt)
    ensures |t| >= |u|
  {
    if |t| < |u| {
      var n := |u| - 1;
      if |t| > 0 {
        SamePlaces(t, u, s, at, bt, |t| - 1);
        Ascends(s, bt, |t| - 1, n);
      }
      assert false;
    }
  }

  lemma {:induction false} Ascends(s: string, at: seq<nat>, i: nat, j: nat)
    requires (forall i :: 0 <= i < |at| ==> at[i] < |s|) && Advances(s, at) && i < j < |at|
    ensures at[i] < at[j]
    decreases j - i
  {
    assert Moves(s, at[j - 1], at[j]);
    if i < j - 1 { Ascends(s, at, i, j - 1); }
  }

  lemma FoldsUnique(t: string, u: string, s: string, at: seq<nat>, bt: seq<nat>)
    requires Folds(t, s, at) && Folds(u, s, bt)
    ensures t == u
  {
    NotShorter(t, u, s, at, bt);
    NotShorter(u, t, s, bt, at);
    forall i | 0 <= i < |t| ensures t[i] == u[i] { SamePlaces(t, u, s, at, bt, i); }
  }

  // ---------------------------------------------------------------- names

  /** What follows the last full stop of the path, with blanks for underscores. */
  ghost predicate NamedBy(name: string, path: string) {
    && |name| <= |path|
    && var lo := |path| - |name|;
    && (lo > 0 ==> path[lo - 1] == '.')
    && (forall k :: lo <= k < |path| ==> path[k] != '.')
    && forall i :: 0 <= i < |name| ==> name[i] == if path[lo + i] == '_' then ' ' else path[lo + i]
  }

  /** The end of the path after its last full stop. */
  ghost predicate LastPart(seg: string, path: string) {
    && |seg| <= |path|
    && var lo := |path| - |seg|;
    && (lo > 0 ==> path[lo - 1] == '.')
    && (forall k :: lo <= k < |path| ==> path[k] != '.')
    && forall i :: 0 <= i < |seg| ==> seg[i] == path[lo + i]
  }

  lemma {:induction false} SegmentTerms(path: string)
    ensures LastPart(LastSegment(path), path)
  {
    if path != [] && path[|path| - 1] != '.' {
      SegmentTerms(path[..|path| - 1]);
    }
  }

  lemma SameLength(name: string, seg: string, path: string)
    requires NamedBy(name, path) && LastPart(seg, path)
    ensures |name| == |seg|
  {
  }

  lemma NameTerms(path: string, name: string)
    ensures NamedBy(name, path) <==> name == Spaced(LastSegment(path))
  {
    SegmentTerms(path);
    if NamedBy(name, path) {
      SameLength(name, LastSegment(path), path);
    }
  }

  // ---------------------------------------------------------------- blocks

  /** The block of a string: its text folded, at least thirty characters, titled by the end of its path. */
  ghost predicate Describes(b: Block, leaf: Item, titled: string -> string) {
    && leaf.value.Str? && |b.text| >= 30 && b.locator == "json:path=" + leaf.path
    && (exists at :: Folds(b.text, leaf.value.text, at))
    && exists name :: NamedBy(name, leaf.path) && b.section == titled(name)
  }

  lemma OwnTerms(leaf: Item, titled: string -> string, b: Block)
    ensures b in Own(leaf, titled) <==> Describes(b, leaf, titled)
    ensures |Own(leaf, titled)| <= 1
  {
    NameTerms(leaf.path, Spaced(LastSegment(leaf.path)));
    if leaf.value.Str? {
      var at := NormalisedFolds(leaf.value.text);
      if Describes(b, leaf, titled) {
        var bt :| Folds(b.text, leaf.value.text, bt);
        FoldsUnique(b.text, Normalised(leaf.value.text), leaf.value.text, bt, at);
        var name :| NamedBy(name, leaf.path) && b.section == titled(name);
        NameTerms(leaf.path, name);
      }
    }
  }

  /** The blocks of a document are exactly those that its strings describe. */
  lemma BlockTerms(root: Item, titled: string -> string, b: Block)
    ensures b in Walk(root, Texts(titled)) <==> exists leaf :: Inside(leaf, root) && Describes(b, leaf, titled)
  {
    if b in Walk(root, Texts(titled)) {
      var leaf := EmittedIsLeaf(root, titled, b);
      OwnTerms(leaf, titled, b);
    }
    forall leaf | Inside(leaf, root) && Describes(b, leaf, titled) ensures b in Walk(root, Texts(titled)) {
      OwnTerms(leaf, titled, b);
      LeafIsEmitted(leaf, root, titled, b);
    }
  }

  /** The members of an object in key order, each at the path with its key. */
  ghost predicate MembersListed(kids: seq<Item>, path: string, members: map<string, Json>, keys: seq<string>) {
    && StrictlySorted(keys) && |kids| == |keys| && (forall k :: k in keys <==> k in members)
    && forall i :: 0 <= i < |keys| ==> keys[i] in members && kids[i] == Item(path + "." + keys[i], members[keys[i]])
  }

  /** The elements of a list in order, each at the path with its index. */
  ghost predicate ElementsListed(kids: seq<Item>, path: string, items: seq<Json>) {
    |kids| == |items| && forall i :: 0 <= i < |items| ==> kids[i] == Item(path + "[" + Decimal(i) + "]", items[i])
  }

  lemma KidTerms(it: Item)
    ensures match it.value
      case Obj(members) => exists keys :: MembersListed(Kids(it), it.path, members, keys)
      case Arr(items) => ElementsListed(Kids(it), it.path, items)
      case _ => Kids(it) == []
  {
    if it.value.Obj? {
      var keys := SortedSeq(it.value.members.Keys);
      forall i | 0 <= i < |keys| ensures keys[i] in it.value.members { assert keys[i] in keys; }
      assert MembersListed(Kids(it), it.path, it.value.members, keys);
    }
  }
}
