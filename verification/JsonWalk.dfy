/** Text extraction from a JSON document: an explicit stack against the recursive preorder walk. */
module JsonWalk {
  import opened Common
  import opened PythonText
  import opened Strings

  /** A parsed document; numbers, booleans and null are Other. */
  datatype Json = Obj(members: map<string, Json>) | Arr(items: seq<Json>) | Str(text: string) | Other

  /** A value and the path that leads to it. */
  datatype Item = Item(path: string, value: Json)

  datatype Block = Block(section: string, text: string, locator: string)

  const NODE_LIMIT := 100_000
  const MIN_CHARS := 30

  // ---------------------------------------------------------------- the recursive walk

  /** The members in key order or the elements in index order, each with its path. */
  ghost function Kids(it: Item): (r: seq<Item>)
    ensures forall i :: 0 <= i < |r| ==> r[i].value < it.value
  {
    match it.value
    case Obj(members) =>
      var keys := SortedSeq(members.Keys);
      seq(|keys|, i requires 0 <= i < |keys| => Member(it.path, members, keys[i]))
    case Arr(items) => seq(|items|, i requires 0 <= i < |items| => Element(it.path, items, i))
    case Str(_) => []
    case Other => []
  }

  function Member(path: string, members: map<string, Json>, key: string): Item {
    Item(path + "." + key, if key in members then members[key] else Other)
  }

  function Element(path: string, items: seq<Json>, i: nat): Item
    requires i < |items|
  {
    Item(path + "[" + Decimal(i) + "]", items[i])
  }

  function LastSegment(path: string): string {
    if path == [] || path[|path| - 1] == '.' then [] else LastSegment(path[..|path| - 1]) + [path[|path| - 1]]
  }

  function Spaced(s: string): (r: string)
    ensures |r| == |s| && forall i :: 0 <= i < |s| ==> r[i] == if s[i] == '_' then ' ' else s[i]
  {
    seq(|s|, i requires 0 <= i < |s| => if s[i] == '_' then ' ' else s[i])
  }

  /** What an item gives by itself: one block for a string long enough once normalised. */
  function Own(it: Item, titled: string -> string): seq<Block> {
    if it.value.Str? && |Normalised(it.value.text)| >= MIN_CHARS then
      [Block(titled(Spaced(LastSegment(it.path))), Normalised(it.value.text), "json:path=" + it.path)]
    else []
  }

  /** The same as a function of the item. */
  function Texts(titled: string -> string): Item -> seq<Block> {
    it => Own(it, titled)
  }

  /** The preorder walk: what each item gives by itself, before what its kids give. */
  ghost function Walk(it: Item, own: Item -> seq<Block>): seq<Block>
    decreases it.value, 1, 0
  {
    own(it) + WalkKids(it, own, 0)
  }

  ghost function WalkKids(it: Item, own: Item -> seq<Block>, i: nat): seq<Block>
    decreases it.value, 0, |Kids(it)| - i
  {
    if i >= |Kids(it)| then [] else Walk(Kids(it)[i], own) + WalkKids(it, own, i + 1)
  }

  /** The number of values in a document. */
  ghost function Nodes(it: Item): nat
    decreases it.value, 1, 0
  {
    1 + NodesKids(it, 0)
  }

  ghost function NodesKids(it: Item, i: nat): nat
    decreases it.value, 0, |Kids(it)| - i
  {
    if i >= |Kids(it)| then 0 else Nodes(Kids(it)[i]) + NodesKids(it, i + 1)
  }

  /** The item itself, or one inside one of its kids. */
  ghost predicate Inside(leaf: Item, root: Item)
    decreases root.value
  {
    leaf == root || exists i :: 0 <= i < |Kids(root)| && Inside(leaf, Kids(root)[i])
  }

  lemma WalkKidsUnroll(it: Item, own: Item -> seq<Block>, i: nat)
    requires i < |Kids(it)|
    ensures WalkKids(it, own, i) == Walk(Kids(it)[i], own) + WalkKids(it, own, i + 1)
  {
  }

  lemma InAppend(x: seq<Block>, y: seq<Block>, b: Block)
    ensures b in x + y <==> b in x || b in y
  {
  }

  lemma {:induction false} KidIsWalked(it: Item, own: Item -> seq<Block>, i: nat, from: nat, b: Block)
    requires from <= i < |Kids(it)| && b in Walk(Kids(it)[i], own)
    ensures b in WalkKids(it, own, from)
    decreases i - from
  {
    WalkKidsUnroll(it, own, from);
    InAppend(Walk(Kids(it)[from], own), WalkKids(it, own, from + 1), b);
    if from < i {
      KidIsWalked(it, own, i, from + 1, b);
    }
  }

  lemma {:induction false} WalkedIsKid(it: Item, own: Item -> seq<Block>, from: nat, b: Block) returns (i: nat)
    requires b in WalkKids(it, own, from)
    ensures from <= i < |Kids(it)| && b in Walk(Kids(it)[i], own)
    decreases |Kids(it)| - from
  {
    if b in Walk(Kids(it)[from], own) {
      i := from;
    } else {
      i := WalkedIsKid(it, own, from + 1, b);
    }
  }

  lemma {:induction false} InsideIsWalked(leaf: Item, root: Item, own: Item -> seq<Block>, b: Block)
    requires Inside(leaf, root) && b in own(leaf)
    ensures b in Walk(root, own)
    decreases root.value
  {
    if leaf != root {
      var i :| 0 <= i < |Kids(root)| && Inside(leaf, Kids(root)[i]);
      InsideIsWalked(leaf, Kids(root)[i], own, b);
      KidIsWalked(root, own, i, 0, b);
    }
  }

  lemma {:induction false} WalkedIsInside(root: Item, own: Item -> seq<Block>, b: Block) returns (leaf: Item)
    requires b in Walk(root, own)
    ensures Inside(leaf, root) && b in own(leaf)
    decreases root.value
  {
    if b in own(root) {
      leaf := root;
    } else {
      var i := WalkedIsKid(root, own, 0, b);
      leaf := WalkedIsInside(Kids(root)[i], own, b);
    }
  }

  /** Every long enough string anywhere in the document gives its block. */
  lemma LeafIsEmitted(leaf: Item, root: Item, titled: string -> string, b: Block)
    requires Inside(leaf, root) && b in Own(leaf, titled)
    ensures b in Walk(root, Texts(titled))
  {
    InsideIsWalked(leaf, root, Texts(titled), b);
  }

  /** And every block is that of a long enough string somewhere in the document. */
  lemma EmittedIsLeaf(root: Item, titled: string -> string, b: Block) returns (leaf: Item)
    requires b in Walk(root, Texts(titled))
    ensures Inside(leaf, root) && b in Own(leaf, titled)
  {
    leaf := WalkedIsInside(root, Texts(titled), b);
  }

  // ---------------------------------------------------------------- what is still on the stack

  /** The walks of the stacked items, top first. */
  ghost function Pending(stack: seq<Item>, own: Item -> seq<Block>): seq<Block> {
    if stack == [] then [] else Walk(stack[|stack| - 1], own) + Pending(stack[..|stack| - 1], own)
  }

  ghost function Waiting(stack: seq<Item>): nat {
    if stack == [] then 0 else Nodes(stack[|stack| - 1]) + Waiting(stack[..|stack| - 1])
  }

  /** The kids from position i on are on the stack, the first of them on top. */
  ghost predicate Pushed(it: Item, own: Item -> seq<Block>, i: nat, below: seq<Item>, stack: seq<Item>) {
    && Pending(stack, own) == WalkKids(it, own, i) + Pending(below, own)
    && Waiting(stack) == NodesKids(it, i) + Waiting(below)
  }

  lemma TopAndBelow(stack: seq<Item>)
    requires stack != []
    ensures stack == stack[..|stack| - 1] + [stack[|stack| - 1]]
  {
  }

  lemma OnTop(stack: seq<Item>, it: Item, own: Item -> seq<Block>)
    ensures Pending(stack + [it], own) == Walk(it, own) + Pending(stack, own)
    ensures Waiting(stack + [it]) == Nodes(it) + Waiting(stack)
  {
    assert (stack + [it])[..|stack|] == stack;
  }

  lemma Regroup(a: seq<Block>, b: seq<Block>, c: seq<Block>)
    ensures a + (b + c) == (a + b) + c
  {
  }

  lemma PushKid(it: Item, own: Item -> seq<Block>, i: nat, below: seq<Item>, stack: seq<Item>)
    requires i < |Kids(it)| && Pushed(it, own, i + 1, below, stack)
    ensures Pushed(it, own, i, below, stack + [Kids(it)[i]])
  {
    var kid := Kids(it)[i];
    OnTop(stack, kid, own);
    Regroup(Walk(kid, own), WalkKids(it, own, i + 1), Pending(below, own));
    assert WalkKids(it, own, i) == Walk(kid, own) + WalkKids(it, own, i + 1);
    assert NodesKids(it, i) == Nodes(kid) + NodesKids(it, i + 1);
  }

  lemma NothingToPush(it: Item, own: Item -> seq<Block>, below: seq<Item>)
    ensures Pushed(it, own, |Kids(it)|, below, below)
  {
    assert [] + Pending(below, own) == Pending(below, own);
  }

  method PushMembers(it: Item, ghost own: Item -> seq<Block>, below: seq<Item>) returns (stack: seq<Item>)
    requires it.value.Obj?
    ensures Pushed(it, own, 0, below, stack)
  {
    stack := below;
    NothingToPush(it, own, below);
    var keys := SortedKeys(it.value.members.Keys);
    var i := |keys|;
    while i > 0
      invariant 0 <= i <= |keys| && |Kids(it)| == |keys|
      invariant Pushed(it, own, i, below, stack)
    {
      i := i - 1;
      PushKid(it, own, i, below, stack);
      assert keys[i] in it.value.members.Keys;
      stack := stack + [Item(it.path + "." + keys[i], it.value.members[keys[i]])];
    }
  }

  method PushElements(it: Item, ghost own: Item -> seq<Block>, below: seq<Item>) returns (stack: seq<Item>)
    requires it.value.Arr?
    ensures Pushed(it, own, 0, below, stack)
  {
    stack := below;
    NothingToPush(it, own, below);
    var i := |it.value.items|;
    while i > 0
      invariant 0 <= i <= |it.value.items| == |Kids(it)|
      invariant Pushed(it, own, i, below, stack)
    {
      i := i - 1;
      PushKid(it, own, i, below, stack);
      stack := stack + [Item(it.path + "[" + Decimal(i) + "]", it.value.items[i])];
    }
  }

  /** Pushes the members in reverse key order, or the elements in reverse index order. */
  method PushKids(it: Item, ghost own: Item -> seq<Block>, below: seq<Item>) returns (stack: seq<Item>)
    ensures Pushed(it, own, 0, below, stack)
  {
    if it.value.Obj? {
      stack := PushMembers(it, own, below);
    } else if it.value.Arr? {
      stack := PushElements(it, own, below);
    } else {
      stack := below;
      NothingToPush(it, own, below);
    }
  }

  lemma PopOne(it: Item, own: Item -> seq<Block>, below: seq<Item>, stack: seq<Item>)
    requires Pushed(it, own, 0, below, stack)
    ensures Pending(below + [it], own) == own(it) + Pending(stack, own)
    ensures Waiting(below + [it]) == 1 + Waiting(stack)
  {
    OnTop(below, it, own);
    Regroup(own(it), WalkKids(it, own, 0), Pending(below, own));
  }

  /** What was found and what is pending make the whole walk, and likewise for the count. */
  ghost predicate Underway(root: Item, own: Item -> seq<Block>, blocks: seq<Block>, visited: nat, stack: seq<Item>) {
    blocks + Pending(stack, own) == Walk(root, own) && visited + Waiting(stack) == Nodes(root)
  }

  lemma Begin(root: Item, own: Item -> seq<Block>)
    ensures Underway(root, own, [], 0, [root])
  {
    OnTop([], root, own);
    assert [] + [root] == [root];
    assert Walk(root, own) + [] == Walk(root, own);
  }

  lemma Finish(root: Item, own: Item -> seq<Block>, blocks: seq<Block>, visited: nat)
    requires Underway(root, own, blocks, visited, [])
    ensures blocks == Walk(root, own) && visited == Nodes(root)
  {
    assert blocks + [] == blocks;
  }

  lemma Advance(root: Item, own: Item -> seq<Block>, blocks: seq<Block>, visited: nat, it: Item, below: seq<Item>, stack: seq<Item>)
    requires Underway(root, own, blocks, visited, below + [it]) && Pushed(it, own, 0, below, stack)
    ensures Underway(root, own, blocks + own(it), visited + 1, stack)
    ensures Waiting(stack) < Waiting(below + [it])
  {
    PopOne(it, own, below, stack);
    Regroup(blocks, own(it), Pending(stack, own));
  }

  /** extract_json after parsing: the recursive walk's blocks, refused exactly when there are too many nodes. */
  method ExtractJson(value: Json, titled: string -> string) returns (result: Result<seq<Block>, string>)
    ensures result.Err? <==> Nodes(Item("$", value)) > 100_000
    ensures result.Ok? ==> result.value == Walk(Item("$", value), Texts(titled))
  {
    var root := Item("$", value);
    var own := Texts(titled);
    var blocks, stack, visited := [], [root], 0;
    Begin(root, own);
    while stack != []
      invariant Underway(root, own, blocks, visited, stack) && visited <= NODE_LIMIT
      decreases Waiting(stack)
    {
      var it, below := stack[|stack| - 1], stack[..|stack| - 1];
      TopAndBelow(stack);
      OnTop(below, it, own);
      visited := visited + 1;
      if visited > NODE_LIMIT { return Err("json_node_limit_exceeded"); }
      stack := PushKids(it, own, below);
      Advance(root, own, blocks, visited - 1, it, below, stack);
      blocks := blocks + own(it);
    }
    Finish(root, own, blocks, visited);
    return Ok(blocks);
  }
}
