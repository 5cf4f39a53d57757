/**
 * Reassembly of streamed tool calls: fragments carry a call index, are concatenated per index while
 * the stream is scanned, and are listed by counting up to the number of distinct indices.
 */
module ToolCalls {
  import opened Positions

  datatype Fragment = Fragment(index: int, name: string, arguments: string)

  datatype ToolCall = ToolCall(name: string, arguments: string)

  const BLANK := ToolCall("", "")

  /** Reading a missing key of a Go map. */
  function At(calls: map<int, ToolCall>, index: int): ToolCall {
    if index in calls then calls[index] else BLANK
  }

  /** The fragments with this index, joined in arrival order. */
  function Joined(fragments: seq<Fragment>, index: int): ToolCall {
    if fragments == [] then BLANK
    else
      var before, f := Joined(fragments[..|fragments| - 1], index), fragments[|fragments| - 1];
      if f.index == index then ToolCall(before.name + f.name, before.arguments + f.arguments) else before
  }

  // ---------------------------------------------------------------- the joined call, read off the stream

  /** The positions of the fragments with this index. */
  ghost function Of(fragments: seq<Fragment>, index: int): (s: set<nat>)
    ensures forall k :: k in s ==> k < |fragments|
  {
    set k: nat | k < |fragments| && fragments[k].index == index
  }

  /** The parts, one after the other, each from where the last one ends. */
  ghost predicate Concatenates(whole: string, parts: seq<string>, starts: seq<nat>) {
    && |starts| == |parts| + 1 && starts[0] == 0 && starts[|parts|] == |whole|
    && forall i :: 0 <= i < |parts| ==> Piece(whole, starts, i, parts[i])
  }

  ghost predicate Piece(whole: string, starts: seq<nat>, i: nat, part: string)
    requires i + 1 < |starts|
  {
    starts[i] <= starts[i + 1] <= |whole| && whole[starts[i]..starts[i + 1]] == part
  }

  lemma ConcatenatesSnoc(whole: string, parts: seq<string>, starts: seq<nat>, part: string)
    requires Concatenates(whole, parts, starts)
    ensures Concatenates(whole + part, parts + [part], starts + [|whole| + |part|])
  {
    var longer := starts + [|whole| + |part|];
    forall i | 0 <= i < |parts| ensures Piece(whole + part, longer, i, parts[i]) {
      assert Piece(whole, starts, i, parts[i]);
      assert (whole + part)[starts[i]..starts[i + 1]] == whole[starts[i]..starts[i + 1]];
    }
    assert Piece(whole + part, longer, |parts|, part);
  }

  /** The names of the fragments at the places, and their arguments. */
  ghost function Names(fragments: seq<Fragment>, places: seq<nat>): (r: seq<string>)
    requires forall i :: 0 <= i < |places| ==> places[i] < |fragments|
    ensures |r| == |places| && forall i :: 0 <= i < |r| ==> r[i] == fragments[places[i]].name
  {
    seq(|places|, i requires 0 <= i < |places| => fragments[places[i]].name)
  }

  ghost function Arguments(fragments: seq<Fragment>, places: seq<nat>): (r: seq<string>)
    requires forall i :: 0 <= i < |places| ==> places[i] < |fragments|
    ensures |r| == |places| && forall i :: 0 <= i < |r| ==> r[i] == fragments[places[i]].arguments
  {
    seq(|places|, i requires 0 <= i < |places| => fragments[places[i]].arguments)
  }

  lemma OfSnoc(before: seq<Fragment>, f: Fragment, index: int)
    ensures Of(before + [f], index) == Of(before, index) + if f.index == index then {|before|} else {}
  {
    var after := before + [f];
    assert after[|before|] == f && forall k :: 0 <= k < |before| ==> after[k] == before[k];
  }

  lemma PartsSnoc(before: seq<Fragment>, f: Fragment, places: seq<nat>)
    requires forall i :: 0 <= i < |places| ==> places[i] < |before|
    ensures Names(before + [f], places) == Names(before, places)
    ensures Arguments(before + [f], places) == Arguments(before, places)
    ensures Names(before + [f], places + [|before|]) == Names(before, places) + [f.name]
    ensures Arguments(before + [f], places + [|before|]) == Arguments(before, places) + [f.arguments]
  {
  }

  /** The call as it is pieced together from the fragments at the places. */
  ghost predicate Pieced(call: ToolCall, fragments: seq<Fragment>, places: seq<nat>, names: seq<nat>, arguments: seq<nat>)
    requires forall i :: 0 <= i < |places| ==> places[i] < |fragments|
  {
    Concatenates(call.name, Names(fragments, places), names) && Concatenates(call.arguments, Arguments(fragments, places), arguments)
  }

  /** The name of an index is its fragments' names one after the other in stream order, and so are its arguments. */
  lemma {:induction false} JoinedInStreamOrder(fragments: seq<Fragment>, index: int)
      returns (places: seq<nat>, names: seq<nat>, arguments: seq<nat>)
    ensures Lists(places, Of(fragments, index))
    ensures Pieced(Joined(fragments, index), fragments, places, names, arguments)
  {
    if fragments == [] {
      places, names, arguments := [], [0], [0];
    } else {
      var n := |fragments| - 1;
      var before, f := fragments[..n], fragments[n];
      assert fragments == before + [f];
      places, names, arguments := JoinedInStreamOrder(before, index);
      OfSnoc(before, f, index);
      PartsSnoc(before, f, places);
      if f.index == index {
        var call := Joined(before, index);
        ListsSnoc(places, Of(before, index), n);
        ConcatenatesSnoc(call.name, Names(before, places), names, f.name);
        ConcatenatesSnoc(call.arguments, Arguments(before, places), arguments, f.arguments);
        places, names, arguments := places + [n], names + [|call.name| + |f.name|], arguments + [|call.arguments| + |f.arguments|];
      }
    }
  }

  ghost function Indices(fragments: seq<Fragment>): set<int> {
    set f | f in fragments :: f.index
  }

  /** The scanning loop. */
  method Collect(fragments: seq<Fragment>) returns (calls: map<int, ToolCall>)
    ensures calls.Keys == Indices(fragments)
    ensures forall index :: At(calls, index) == Joined(fragments, index)
  {
    calls := map[];
    for i := 0 to |fragments|
      invariant calls.Keys == Indices(fragments[..i])
      invariant forall index :: At(calls, index) == Joined(fragments[..i], index)
    {
      var f := fragments[i];
      assert fragments[..i + 1][..i] == fragments[..i];
      assert Indices(fragments[..i + 1]) == Indices(fragments[..i]) + {f.index} by {
        assert fragments[..i + 1] == fragments[..i] + [f];
      }
      var current := At(calls, f.index);
      calls := calls[f.index := ToolCall(current.name + f.name, current.arguments + f.arguments)];
    }
    assert fragments[..|fragments|] == fragments;
  }

  /** The calls that have a name, in order. */
  function NonEmptyNames(calls: seq<ToolCall>): seq<string> {
    if calls == [] then []
    else NonEmptyNames(calls[..|calls| - 1]) + if calls[|calls| - 1].name != "" then [calls[|calls| - 1].name] else []
  }

  ghost function Named(calls: seq<ToolCall>): (s: set<nat>)
    ensures forall k :: k in s ==> k < |calls|
  {
    set k: nat | k < |calls| && |calls[k].name| > 0
  }

  lemma NamedSnoc(before: seq<ToolCall>, call: ToolCall)
    ensures Named(before + [call]) == Named(before) + if |call.name| > 0 then {|before|} else {}
  {
    var after := before + [call];
    assert after[|before|] == call && forall k :: 0 <= k < |before| ==> after[k] == before[k];
  }

  ghost predicate NamesAt(names: seq<string>, calls: seq<ToolCall>, places: seq<nat>) {
    |names| == |places| && forall i :: 0 <= i < |places| ==> places[i] < |calls| && names[i] == calls[places[i]].name
  }

  lemma NamesAtSnoc(names: seq<string>, before: seq<ToolCall>, places: seq<nat>, call: ToolCall)
    requires NamesAt(names, before, places)
    ensures NamesAt(names, before + [call], places)
    ensures NamesAt(names + [call.name], before + [call], places + [|before|])
  {
  }

  /** The names listed are those of the calls that have one, in order. */
  lemma {:induction false} NamesInOrder(calls: seq<ToolCall>) returns (places: seq<nat>)
    ensures Lists(places, Named(calls)) && NamesAt(NonEmptyNames(calls), calls, places)
  {
    if calls == [] {
      places := [];
    } else {
      var n := |calls| - 1;
      var before, call := calls[..n], calls[n];
      assert calls == before + [call];
      places := NamesInOrder(before);
      NamedSnoc(before, call);
      NamesAtSnoc(NonEmptyNames(before), before, places, call);
      if call.name != "" {
        ListsSnoc(places, Named(before), n);
        places := places + [n];
      }
    }
  }

  ghost function Listed(fragments: seq<Fragment>): (r: seq<ToolCall>)
    ensures |r| == |Indices(fragments)| && forall i :: 0 <= i < |r| ==> r[i] == Joined(fragments, i)
  {
    seq(|Indices(fragments)|, i => Joined(fragments, i))
  }

  /** The listing loop: toolCalls[0], toolCalls[1], ... up to the number of map entries. */
  method Reassemble(fragments: seq<Fragment>) returns (toolCalls: seq<ToolCall>, toolNames: seq<string>)
    ensures toolCalls == Listed(fragments)
    ensures toolNames == NonEmptyNames(toolCalls)
  {
    var calls := Collect(fragments);
    toolCalls, toolNames := [], [];
    assert |calls| == |calls.Keys|;
    for index := 0 to |calls|
      invariant |toolCalls| == index
      invariant forall i :: 0 <= i < index ==> toolCalls[i] == Joined(fragments, i)
      invariant toolNames == NonEmptyNames(toolCalls)
    {
      var call := At(calls, index);
      assert (toolCalls + [call])[..index] == toolCalls;
      toolCalls := toolCalls + [call];
      if call.name != "" {
        toolNames := toolNames + [call.name];
      }
    }
  }

  /** The indices that were streamed are 0, 1, ..., n - 1. */
  ghost predicate Contiguous(fragments: seq<Fragment>) {
    forall i :: i in Indices(fragments) <==> 0 <= i < |Indices(fragments)|
  }

  /** Nothing is lost: every streamed index has its joined call at its own position of the listing. */
  ghost predicate Faithful(fragments: seq<Fragment>) {
    forall i :: i in Indices(fragments) ==> 0 <= i < |Listed(fragments)| && Listed(fragments)[i] == Joined(fragments, i)
  }

  function UpTo(n: nat): (s: set<int>)
    ensures forall i :: i in s <==> 0 <= i < n
    ensures |s| == n
  {
    if n == 0 then {} else
      var smaller := UpTo(n - 1);
      smaller + {n - 1}
  }

  /** Counting up to the number of entries loses no call exactly when the indices are contiguous from zero. */
  lemma FaithfulIffContiguous(fragments: seq<Fragment>)
    ensures Faithful(fragments) <==> Contiguous(fragments)
  {
    var indices := Indices(fragments);
    if Faithful(fragments) {
      assert indices <= UpTo(|indices|);
      SubsetOfSameSize(indices, UpTo(|indices|));
    }
  }

  lemma {:induction false} SubsetOfSameSize(a: set<int>, b: set<int>)
    requires a <= b && |a| == |b|
    ensures a == b
  {
    assert |b - a| == |b| - |a|;
  }

  /** A single call streamed with index 1 comes out as one blank call: its name and arguments are gone. */
  lemma IndexGapLosesCall(name: string, arguments: string)
    ensures Listed([Fragment(1, name, arguments)]) == [BLANK]
  {
    var fragments := [Fragment(1, name, arguments)];
    assert Indices(fragments) == {1};
    assert fragments[..0] == [];
    assert Joined(fragments, 0) == BLANK;
  }
}
