/** Where each text of a JSON document stands among the extracted blocks, and when the locators tell them apart. */
module JsonPlaces {
  import opened Common
  import opened PythonText
  import opened Strings
  import opened JsonWalk

  /** The positions of the kids taken on the way down. */
  type Address = seq<nat>

  ghost function At(root: Item, a: Address): Option<Item>
    decreases |a|
  {
    if a == [] then Some(root) else if a[0] < |Kids(root)| then At(Kids(root)[a[0]], a[1..]) else None
  }

  /** The address of a string that gives a block. */
  ghost predicate IsText(root: Item, own: Item -> seq<Block>, a: Address) {
    At(root, a).Some? && own(At(root, a).value) != []
  }

  // ---------------------------------------------------------------- places

  /** The lists from position i on, joined. */
  function Flat(lists: seq<seq<Block>>, i: nat): seq<Block>
    decreases |lists| - i
  {
    if i >= |lists| then [] else lists[i] + Flat(lists, i + 1)
  }

  lemma FlatUnroll(lists: seq<seq<Block>>, i: nat)
    requires i < |lists|
    ensures Flat(lists, i) == lists[i] + Flat(lists, i + 1)
  {
  }

  /** The number of blocks in the lists from..i. */
  function Earlier(lists: seq<seq<Block>>, from: nat, i: nat): nat
    requires i <= |lists|
    decreases i - from
  {
    if from >= i then 0 else |lists[from]| + Earlier(lists, from + 1, i)
  }

  /** The blocks of each kid. */
  ghost function KidLists(it: Item, own: Item -> seq<Block>): (lists: seq<seq<Block>>)
    ensures |lists| == |Kids(it)| && forall i :: 0 <= i < |lists| ==> lists[i] == Walk(Kids(it)[i], own)
  {
    seq(|Kids(it)|, i requires 0 <= i < |Kids(it)| => Walk(Kids(it)[i], own))
  }

  lemma {:induction false} WalkKidsIsFlat(it: Item, own: Item -> seq<Block>, i: nat)
    ensures WalkKids(it, own, i) == Flat(KidLists(it, own), i)
    decreases |Kids(it)| - i
  {
    if i < |Kids(it)| {
      WalkKidsUnroll(it, own, i);
      WalkKidsIsFlat(it, own, i + 1);
      FlatUnroll(KidLists(it, own), i);
    }
  }

  lemma WalkIsFlat(it: Item, own: Item -> seq<Block>)
    ensures Walk(it, own) == own(it) + Flat(KidLists(it, own), 0)
  {
    WalkKidsIsFlat(it, own, 0);
  }

  /** The number of blocks before the item at this address. */
  ghost function Place(root: Item, own: Item -> seq<Block>, a: Address): nat
    requires At(root, a).Some?
    decreases |a|
  {
    if a == [] then 0 else |own(root)| + Earlier(KidLists(root, own), 0, a[0]) + Place(Kids(root)[a[0]], own, a[1..])
  }

  /** Preorder: the first difference decides. */
  predicate Precedes(a: Address, b: Address) {
    a != [] && b != [] && (a[0] < b[0] || (a[0] == b[0] && Precedes(a[1..], b[1..])))
  }

  /** Only items without kids give something by themselves, and each gives one block. */
  ghost predicate LeavesOnly(own: Item -> seq<Block>) {
    forall it :: own(it) != [] ==> |own(it)| == 1 && Kids(it) == []
  }

  lemma TextsAreLeaves(titled: string -> string)
    ensures LeavesOnly(Texts(titled))
  {
  }

  lemma LeafWalk(it: Item, own: Item -> seq<Block>)
    requires LeavesOnly(own) && own(it) != []
    ensures Kids(it) == [] && Walk(it, own) == own(it) && |own(it)| == 1
  {
  }

  lemma AppendAt(x: seq<Block>, y: seq<Block>, k: nat)
    requires k < |y|
    ensures (x + y)[|x| + k] == y[k]
  {
  }

  lemma AppendFirst(x: seq<Block>, y: seq<Block>, k: nat)
    requires k < |x|
    ensures (x + y)[k] == x[k]
  {
  }

  /** Entry k of list i, among the lists joined. */
  lemma {:induction false} ListEntry(lists: seq<seq<Block>>, from: nat, i: nat, k: nat)
    requires from <= i < |lists| && k < |lists[i]|
    ensures Earlier(lists, from, i) + k < |Flat(lists, from)| && Flat(lists, from)[Earlier(lists, from, i) + k] == lists[i][k]
    decreases i - from
  {
    if from < i {
      ListEntry(lists, from + 1, i, k);
      AppendAt(lists[from], Flat(lists, from + 1), Earlier(lists, from + 1, i) + k);
    } else {
      AppendFirst(lists[from], Flat(lists, from + 1), k);
    }
  }

  lemma {:induction false} EntryList(lists: seq<seq<Block>>, from: nat, k: nat) returns (i: nat, m: nat)
    requires k < |Flat(lists, from)|
    ensures from <= i < |lists| && m < |lists[i]| && k == Earlier(lists, from, i) + m
    decreases |lists| - from
  {
    var first := |lists[from]|;
    if k < first {
      i, m := from, k;
    } else {
      i, m := EntryList(lists, from + 1, k - first);
    }
  }

  lemma {:induction false} EarlierGrows(lists: seq<seq<Block>>, from: nat, i: nat, j: nat)
    requires from <= i < j <= |lists|
    ensures Earlier(lists, from, i) + |lists[i]| <= Earlier(lists, from, j)
    decreases i - from
  {
    if from < i { EarlierGrows(lists, from + 1, i, j); }
  }

  /** The block with this number. */
  predicate StandsAt(blocks: seq<Block>, place: nat, b: Block) {
    place < |blocks| && blocks[place] == b
  }

  lemma EntryBehind(mine: seq<Block>, lists: seq<seq<Block>>, whole: seq<Block>, i: nat, k: nat, b: Block)
    requires whole == mine + Flat(lists, 0) && i < |lists| && StandsAt(lists[i], k, b)
    ensures StandsAt(whole, |mine| + Earlier(lists, 0, i) + k, b)
  {
    ListEntry(lists, 0, i, k);
    AppendAt(mine, Flat(lists, 0), Earlier(lists, 0, i) + k);
  }

  lemma KidEntry(root: Item, own: Item -> seq<Block>, i: nat, k: nat, b: Block)
    requires i < |Kids(root)| && StandsAt(Walk(Kids(root)[i], own), k, b)
    ensures StandsAt(Walk(root, own), |own(root)| + Earlier(KidLists(root, own), 0, i) + k, b)
  {
    WalkIsFlat(root, own);
    EntryBehind(own(root), KidLists(root, own), Walk(root, own), i, k, b);
  }

  lemma WayDown(root: Item, own: Item -> seq<Block>, a: Address)
    requires a != [] && At(root, a).Some?
    ensures a[0] < |Kids(root)| && At(Kids(root)[a[0]], a[1..]) == At(root, a)
    ensures Place(root, own, a)
         == |own(root)| + Earlier(KidLists(root, own), 0, a[0]) + Place(Kids(root)[a[0]], own, a[1..])
  {
  }

  /** A text's block stands at its place. */
  lemma {:induction false} TextAtPlace(root: Item, own: Item -> seq<Block>, a: Address)
    requires LeavesOnly(own) && IsText(root, own, a)
    ensures StandsAt(Walk(root, own), Place(root, own, a), own(At(root, a).value)[0])
    decreases |a|
  {
    if a == [] {
      LeafWalk(root, own);
    } else {
      WayDown(root, own, a);
      TextAtPlace(Kids(root)[a[0]], own, a[1..]);
      KidEntry(root, own, a[0], Place(Kids(root)[a[0]], own, a[1..]), own(At(root, a).value)[0]);
    }
  }

  /** Every block is that of a text, at its place. */
  lemma {:induction false} PlaceOfText(root: Item, own: Item -> seq<Block>, k: nat) returns (a: Address)
    requires LeavesOnly(own) && k < |Walk(root, own)|
    ensures IsText(root, own, a) && Place(root, own, a) == k
    decreases root.value
  {
    if k < |own(root)| {
      LeafWalk(root, own);
      a := [];
    } else {
      WalkIsFlat(root, own);
      var i, m := EntryList(KidLists(root, own), 0, k - |own(root)|);
      var rest := PlaceOfText(Kids(root)[i], own, m);
      a := [i] + rest;
      assert a[1..] == rest;
    }
  }

  /** Different texts have different places, in preorder: no text is emitted twice. */
  lemma {:induction false} PlacesAreOrdered(root: Item, own: Item -> seq<Block>, a: Address, b: Address)
    requires LeavesOnly(own) && IsText(root, own, a) && IsText(root, own, b) && a != b
    ensures Place(root, own, a) != Place(root, own, b)
    ensures Place(root, own, a) < Place(root, own, b) <==> Precedes(a, b)
    decreases |a|
  {
    if a == [] || b == [] {
      LeafWalk(root, own);
    } else if a[0] == b[0] {
      assert a == [a[0]] + a[1..] && b == [b[0]] + b[1..];
      PlacesAreOrdered(Kids(root)[a[0]], own, a[1..], b[1..]);
    } else {
      TextAtPlace(Kids(root)[a[0]], own, a[1..]);
      TextAtPlace(Kids(root)[b[0]], own, b[1..]);
      var lists := KidLists(root, own);
      WayDown(root, own, a);
      WayDown(root, own, b);
      if a[0] < b[0] { EarlierGrows(lists, 0, a[0], b[0]); } else { EarlierGrows(lists, 0, b[0], a[0]); }
    }
  }

  // ---------------------------------------------------------------- locators

  predicate Free(s: string, separators: set<char>) {
    forall i :: 0 <= i < |s| ==> s[i] !in separators
  }

  predicate Opens(s: string, separators: set<char>) {
    s == [] || s[0] in separators
  }

  lemma LaterSeparator(k: string, l: string, r: string, s: string, separators: set<char>)
    requires Free(l, separators) && Opens(r, separators) && |k| < |l|
    ensures k + r != l + s
  {
    assert (l + s)[|k|] == l[|k|] && (r != [] ==> (k + r)[|k|] == r[0]);
  }

  /** What precedes the first separator can be read off. */
  lemma ReadsUpTo(k: string, l: string, r: string, s: string, separators: set<char>)
    requires Free(k, separators) && Free(l, separators) && Opens(r, separators) && Opens(s, separators) && k + r == l + s
    ensures k == l
  {
    if |k| < |l| { LaterSeparator(k, l, r, s, separators); }
    if |l| < |k| { LaterSeparator(l, k, s, r, separators); }
    assert k == (k + r)[..|k|] && l == (l + s)[..|l|];
  }

  lemma DigitsAreFree(n: nat)
    ensures Free(Decimal(n), {']'})
  {
    DecimalWrites(n);
    forall i | 0 <= i < |Decimal(n)| ensures Decimal(n)[i] != ']' { assert Decimal(n)[i] in Decimal(n); }
  }

  const STEPS: set<char> := {'.', '['}

  /** What the path grows by from an item to its kid i. */
  ghost function Step(it: Item, i: nat): string
    requires i < |Kids(it)|
  {
    match it.value
    case Obj(members) => "." + SortedSeq(members.Keys)[i]
    case Arr(_) => "[" + Decimal(i) + "]"
    case _ => []
  }

  /** No key of any object holds a full stop or an opening bracket. */
  ghost predicate PlainKeys(it: Item)
    decreases it.value
  {
    && (it.value.Obj? ==> forall key :: key in it.value.members ==> Free(key, STEPS))
    && forall i :: 0 <= i < |Kids(it)| ==> PlainKeys(Kids(it)[i])
  }

  ghost function Suffix(root: Item, a: Address): string
    requires At(root, a).Some?
    decreases |a|
  {
    if a == [] then [] else Step(root, a[0]) + Suffix(Kids(root)[a[0]], a[1..])
  }

  lemma KidPath(it: Item, i: nat)
    requires i < |Kids(it)|
    ensures Kids(it)[i].path == it.path + Step(it, i) && Step(it, i) != [] && Step(it, i)[0] in STEPS
  {
    match it.value
    case Obj(members) => assert Kids(it)[i] == Member(it.path, members, SortedSeq(members.Keys)[i]);
    case Arr(items) => assert Kids(it)[i] == Element(it.path, items, i);
    case _ =>
  }

  lemma PathGrows(path: string, step: string, rest: string)
    requires step != []
    ensures (path + step) + rest == path + (step + rest) && (step + rest)[0] == step[0]
  {
  }

  lemma {:induction false} PathIsSuffix(root: Item, a: Address)
    requires At(root, a).Some?
    ensures At(root, a).value.path == root.path + Suffix(root, a)
    ensures Opens(Suffix(root, a), STEPS) && (a != [] ==> Suffix(root, a) != [])
    decreases |a|
  {
    if a == [] {
      assert root.path + [] == root.path;
    } else {
      KidPath(root, a[0]);
      PathIsSuffix(Kids(root)[a[0]], a[1..]);
      PathGrows(root.path, Step(root, a[0]), Suffix(Kids(root)[a[0]], a[1..]));
    }
  }

  lemma AfterFirst(c: char, k: string, r: string, l: string, s: string)
    requires ([c] + k) + r == ([c] + l) + s
    ensures k + r == l + s
  {
    assert k + r == (([c] + k) + r)[1..] && l + s == (([c] + l) + s)[1..];
  }

  lemma MembersDiffer(keys: set<string>, i: nat, j: nat, r: string, s: string)
    requires i < |SortedSeq(keys)| && j < |SortedSeq(keys)| && Opens(r, STEPS) && Opens(s, STEPS)
    requires forall key :: key in keys ==> Free(key, STEPS)
    requires ("." + SortedSeq(keys)[i]) + r == ("." + SortedSeq(keys)[j]) + s
    ensures i == j
  {
    var k, l := SortedSeq(keys)[i], SortedSeq(keys)[j];
    assert k in SortedSeq(keys) && l in SortedSeq(keys);
    AfterFirst('.', k, r, l, s);
    ReadsUpTo(k, l, r, s, STEPS);
    KeysDiffer(keys, i, j);
  }

  lemma ElementsDiffer(i: nat, j: nat, r: string, s: string)
    requires ("[" + Decimal(i) + "]") + r == ("[" + Decimal(j) + "]") + s
    ensures i == j
  {
    DecimalWrites(i);
    DecimalWrites(j);
    assert ("[" + Decimal(i) + "]") + r == ("[" + Decimal(i)) + ("]" + r);
    assert ("[" + Decimal(j) + "]") + s == ("[" + Decimal(j)) + ("]" + s);
    AfterFirst('[', Decimal(i), "]" + r, Decimal(j), "]" + s);
    DigitsAreFree(i);
    DigitsAreFree(j);
    ReadsUpTo(Decimal(i), Decimal(j), "]" + r, "]" + s, {']'});
  }

  /** Steps to different kids differ, whatever steps follow. */
  lemma StepsDiffer(it: Item, i: nat, j: nat, r: string, s: string)
    requires PlainKeys(it) && i < |Kids(it)| && j < |Kids(it)| && Opens(r, STEPS) && Opens(s, STEPS)
    requires Step(it, i) + r == Step(it, j) + s
    ensures i == j
  {
    match it.value
    case Obj(members) => MembersDiffer(members.Keys, i, j, r, s);
    case Arr(_) => ElementsDiffer(i, j, r, s);
    case _ =>
  }

  lemma KeysDiffer(keys: set<string>, i: nat, j: nat)
    requires i < |SortedSeq(keys)| && j < |SortedSeq(keys)| && SortedSeq(keys)[i] == SortedSeq(keys)[j]
    ensures i == j
  {
    var s := SortedSeq(keys);
    LessTotal(s[i], s[j]);
  }

  lemma {:induction false} SuffixesDiffer(root: Item, a: Address, b: Address)
    requires PlainKeys(root) && At(root, a).Some? && At(root, b).Some? && Suffix(root, a) == Suffix(root, b)
    ensures a == b
    decreases |a|
  {
    PathIsSuffix(root, a);
    PathIsSuffix(root, b);
    if a != [] && b != [] {
      var r, s := Suffix(Kids(root)[a[0]], a[1..]), Suffix(Kids(root)[b[0]], b[1..]);
      PathIsSuffix(Kids(root)[a[0]], a[1..]);
      PathIsSuffix(Kids(root)[b[0]], b[1..]);
      StepsDiffer(root, a[0], b[0], r, s);
      var step := Step(root, a[0]);
      assert r == (step + r)[|step|..] && s == (step + s)[|step|..];
      SuffixesDiffer(Kids(root)[a[0]], a[1..], b[1..]);
      assert a == [a[0]] + a[1..] && b == [b[0]] + b[1..];
    }
  }

  /** With such keys the locators of any two blocks differ. */
  lemma LocatorsDiffer(root: Item, titled: string -> string, k: nat, m: nat)
    requires PlainKeys(root) && k < |Walk(root, Texts(titled))| && m < |Walk(root, Texts(titled))|
    requires Walk(root, Texts(titled))[k].locator == Walk(root, Texts(titled))[m].locator
    ensures k == m
  {
    TextsAreLeaves(titled);
    var a := PlaceOfText(root, Texts(titled), k);
    var b := PlaceOfText(root, Texts(titled), m);
    TextAtPlace(root, Texts(titled), a);
    TextAtPlace(root, Texts(titled), b);
    PathIsSuffix(root, a);
    PathIsSuffix(root, b);
    var prefix := "json:path=";
    SameTail(prefix, At(root, a).value.path, At(root, b).value.path);
    SameTail(root.path, Suffix(root, a), Suffix(root, b));
    SuffixesDiffer(root, a, b);
  }

  lemma SameTail(prefix: string, s: string, t: string)
    requires prefix + s == prefix + t
    ensures s == t
  {
    assert s == (prefix + s)[|prefix|..] && t == (prefix + t)[|prefix|..];
  }

  /** The kid that holds this member. */
  lemma MemberKid(it: Item, key: string) returns (i: nat)
    requires it.value.Obj? && key in it.value.members
    ensures i < |Kids(it)| && Kids(it)[i] == Item(it.path + "." + key, it.value.members[key])
  {
    var keys := SortedSeq(it.value.members.Keys);
    assert key in keys;
    i :| 0 <= i < |keys| && keys[i] == key;
  }

  /** A key with a full stop in it, beside its first part with its second part inside. */
  function Dotted(x: string, y: string, s: string, t: string): Json {
    Obj(map[x + "." + y := Str(s), x := Obj(map[y := Str(t)])])
  }

  lemma DottedPaths(root: Item, x: string, y: string, s: string, t: string) returns (a: Address, b: Address)
    requires root.value == Dotted(x, y, s, t)
    ensures a != b && At(root, a) == Some(Item(root.path + "." + x + "." + y, Str(s)))
    ensures At(root, b) == Some(Item(root.path + "." + x + "." + y, Str(t)))
  {
    assert |x + "." + y| > |x|;
    var i := MemberKid(root, x + "." + y);
    var j := MemberKid(root, x);
    var l := MemberKid(Kids(root)[j], y);
    assert root.path + "." + (x + "." + y) == root.path + "." + x + "." + y;
    a, b := [i], [j, l];
    assert a[1..] == [] && b[1..] == [l] && [l][1..] == [];
    assert At(Kids(root)[j], [l]) == At(Kids(Kids(root)[j])[l], []);
  }

  /** There two blocks share a locator, whatever the two texts are, as long as both are long enough. */
  lemma DotsShareLocator(titled: string -> string, x: string, y: string, s: string, t: string) returns (k: nat, m: nat)
    requires |Normalised(s)| >= MIN_CHARS && |Normalised(t)| >= MIN_CHARS
    ensures var blocks := Walk(Item("$", Dotted(x, y, s, t)), Texts(titled));
      k < |blocks| && m < |blocks| && k != m && blocks[k].locator == blocks[m].locator
  {
    var root := Item("$", Dotted(x, y, s, t));
    var a, b := DottedPaths(root, x, y, s, t);
    TextsAreLeaves(titled);
    assert IsText(root, Texts(titled), a) && IsText(root, Texts(titled), b);
    TextAtPlace(root, Texts(titled), a);
    TextAtPlace(root, Texts(titled), b);
    PlacesAreOrdered(root, Texts(titled), a, b);
    k, m := Place(root, Texts(titled), a), Place(root, Texts(titled), b);
  }
}
