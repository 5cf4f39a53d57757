/** When a compiled context lists its findings in the order in which they were delivered. */
module DeliveryOrder {
  import opened Common
  import opened Graphs
  import opened ContextPacket
  import opened ContextMerge
  import opened ContextCompiler
  import opened CompiledContext

  // ---------------------------------------------------------------- nothing dropped

  lemma {:induction false} InsertedCost(sorted: seq<Ranked>, x: Ranked)
    ensures TotalCost(InsertRanked(sorted, x)) == TotalCost(sorted) + Cost(x.finding)
  {
    if sorted != [] && KeyLess(x, sorted[|sorted| - 1]) {
      InsertedCost(sorted[..|sorted| - 1], x);
      TotalCostSnoc(InsertRanked(sorted[..|sorted| - 1], x), sorted[|sorted| - 1]);
    } else {
      TotalCostSnoc(sorted, x);
      assert sorted == [] ==> sorted + [x] == [x];
    }
  }

  lemma {:induction false} SortedCost(items: seq<Ranked>)
    ensures TotalCost(StableSort(items)) == TotalCost(items)
  {
    if items != [] {
      SortedCost(items[..|items| - 1]);
      InsertedCost(StableSort(items[..|items| - 1]), items[|items| - 1]);
    }
  }

  /** A budget for everything keeps everything. */
  lemma {:induction false} PackKeepsAll(items: seq<Ranked>, charsPerToken: nat, budget: int)
    requires charsPerToken > 0 && Tokens(TotalCost(items), charsPerToken) <= budget
    ensures var p := Pack(items, charsPerToken, budget); p.kept == items && p.dropped == [] && p.usedChars == TotalCost(items)
  {
    if items != [] {
      var n := |items| - 1;
      TokensMonotone(TotalCost(items[..n]), TotalCost(items), charsPerToken);
      PackKeepsAll(items[..n], charsPerToken, budget);
      PackLast(items, charsPerToken, budget);
      assert FitsBeside(Pack(items[..n], charsPerToken, budget), items[n], charsPerToken, budget);
      assert items == items[..n] + [items[n]];
    }
  }

  // ---------------------------------------------------------------- distinct claims

  lemma {:induction false} DistinctAreFirsts(stream: seq<Finding>)
    requires Distinct(FindingIds(stream))
    ensures FirstOccurrences(stream) == stream
  {
    if stream != [] {
      var n := |stream| - 1;
      assert stream == stream[..n] + [stream[n]];
      assert FindingIds(stream) == FindingIds(stream[..n]) + [stream[n].claimId];
      DistinctSnoc(FindingIds(stream[..n]), stream[n].claimId);
      DistinctAreFirsts(stream[..n]);
    }
  }

  /** At most so many items were appended; when all were, their keys are consecutive. */
  ghost predicate Appends(before: seq<Ranked>, ranked: seq<Ranked>, added: nat, packetIndex: nat) {
    && before <= ranked && |ranked| <= |before| + added
    && (|ranked| == |before| + added ==> forall k :: 0 <= k < added ==> ranked[|before| + k].order == OrderKey(packetIndex, k))
  }

  lemma {:induction false} AddAllFindingsAppends(m: Merge, findings: seq<Finding>, packetIndex: nat)
    ensures Appends(m.ranked, AddAllFindings(m, findings, packetIndex).ranked, |findings|, packetIndex)
  {
    if findings != [] {
      AddAllFindingsAppends(m, findings[..|findings| - 1], packetIndex);
    }
  }

  /** Where the findings of packet p begin in the stream. */
  function StartOf(packets: seq<Packet>, p: nat): nat
    requires p <= |packets|
  {
    |FindingStream(packets[..p])|
  }

  lemma StartStep(packets: seq<Packet>, p: nat)
    requires p < |packets|
    ensures StartOf(packets, p + 1) == StartOf(packets, p) + |packets[p].findings|
  {
    assert packets[..p + 1][..p] == packets[..p];
  }

  lemma {:induction false} StartsAscend(packets: seq<Packet>, p: nat, q: nat)
    requires p < q <= |packets|
    ensures StartOf(packets, p) + |packets[p].findings| <= StartOf(packets, q)
  {
    if p + 1 < q { StartsAscend(packets, p, q - 1); StartStep(packets, q - 1); } else { StartStep(packets, p); }
  }

  lemma PacketAppends(m: Merge, p: Packet, n: nat, policy: Policy)
    ensures Appends(m.ranked, AddPacket(m, p, n, policy).ranked, |p.findings|, n)
  {
    var held := AddAllEvidence(Noted(m, p), p.evidence, policy);
    AddAllEvidenceKeepsClaims(Noted(m, p), p.evidence, policy);
    AddAllFindingsAppends(held, p.findings, n);
  }

  /** What the last packet adds to the ranked list. */
  lemma LastAppends(packets: seq<Packet>, policy: Policy)
    requires packets != []
    ensures var n := |packets| - 1;
      Appends(Merged(packets[..n], policy).ranked, Merged(packets, policy).ranked, |packets[n].findings|, n)
  {
    var n := |packets| - 1;
    PacketAppends(Merged(packets[..n], policy), packets[n], n, policy);
  }

  lemma {:induction false} RankedIsNoLonger(packets: seq<Packet>, policy: Policy)
    ensures |Merged(packets, policy).ranked| <= |FindingStream(packets)|
  {
    if packets != [] {
      var n := |packets| - 1;
      RankedIsNoLonger(packets[..n], policy);
      LastAppends(packets, policy);
    }
  }

  /** If every delivered finding is ranked, so is every one before the last packet, and the last packet's stand at the end. */
  lemma AllRankedSplits(packets: seq<Packet>, policy: Policy)
    requires packets != [] && |Merged(packets, policy).ranked| == |FindingStream(packets)|
    ensures var n := |packets| - 1; var before, ranked := Merged(packets[..n], policy).ranked, Merged(packets, policy).ranked;
      && |before| == |FindingStream(packets[..n])| == StartOf(packets, n)
      && Appends(before, ranked, |packets[n].findings|, n) && |ranked| == |before| + |packets[n].findings|
  {
    RankedIsNoLonger(packets[..|packets| - 1], policy);
    LastAppends(packets, policy);
  }

  lemma StartInPrefix(packets: seq<Packet>, n: nat, p: nat)
    requires p <= n <= |packets|
    ensures StartOf(packets[..n], p) == StartOf(packets, p)
  {
    assert packets[..n][..p] == packets[..p];
  }

  /** The item of finding i of packet p stands at its place in the stream with its own key. */
  ghost predicate KeyAt(packets: seq<Packet>, ranked: seq<Ranked>, p: nat, i: nat)
    requires p < |packets|
  {
    StartOf(packets, p) + i < |ranked| && ranked[StartOf(packets, p) + i].order == OrderKey(p, i)
  }

  ghost predicate KeysInPlace(packets: seq<Packet>, ranked: seq<Ranked>) {
    forall p, i :: 0 <= p < |packets| && 0 <= i < |packets[p].findings| ==> KeyAt(packets, ranked, p, i)
  }

  lemma KeysInPlaceStep(packets: seq<Packet>, before: seq<Ranked>, ranked: seq<Ranked>)
    requires packets != [] && KeysInPlace(packets[..|packets| - 1], before)
    requires var n := |packets| - 1;
      && |before| == StartOf(packets, n) && |ranked| == |before| + |packets[n].findings|
      && Appends(before, ranked, |packets[n].findings|, n)
    ensures KeysInPlace(packets, ranked)
  {
    var n := |packets| - 1;
    forall p, i | 0 <= p < |packets| && 0 <= i < |packets[p].findings|
      ensures KeyAt(packets, ranked, p, i)
    {
      if p < n {
        StartInPrefix(packets, n, p);
        assert packets[..n][p] == packets[p];
        assert KeyAt(packets[..n], before, p, i);
      } else {
        assert ranked[|before| + i].order == OrderKey(n, i);
      }
    }
  }

  lemma {:induction false} RankedInPlace(packets: seq<Packet>, policy: Policy)
    requires |Merged(packets, policy).ranked| == |FindingStream(packets)|
    ensures KeysInPlace(packets, Merged(packets, policy).ranked)
  {
    if packets != [] {
      var n := |packets| - 1;
      AllRankedSplits(packets, policy);
      RankedInPlace(packets[..n], policy);
      KeysInPlaceStep(packets, Merged(packets[..n], policy).ranked, Merged(packets, policy).ranked);
    }
  }

  // ---------------------------------------------------------------- one rank

  ghost predicate OneRank(ranked: seq<Ranked>) {
    forall a, b :: a in ranked && b in ranked ==> Rank(a) == Rank(b)
  }

  lemma InsertsLast(sorted: seq<Ranked>, x: Ranked)
    requires sorted == [] || !KeyLess(x, sorted[|sorted| - 1])
    ensures InsertRanked(sorted, x) == sorted + [x]
  {
  }

  lemma SortStep(before: seq<Ranked>, x: Ranked)
    ensures StableSort(before + [x]) == InsertRanked(StableSort(before), x)
  {
    assert (before + [x])[..|before|] == before;
  }

  /** No item beats the one just before it. */
  predicate Unbeaten(items: seq<Ranked>) {
    var n := |items| - 1;
    n < 1 || (Unbeaten(items[..n]) && !KeyLess(items[n], items[n - 1]))
  }

  lemma {:induction false} SortedIsUnbeaten(items: seq<Ranked>)
    requires IsSorted(items)
    ensures Unbeaten(items)
  {
    if |items| > 1 { SortedIsUnbeaten(items[..|items| - 1]); }
  }

  lemma {:induction false} UnbeatenStays(items: seq<Ranked>)
    requires Unbeaten(items)
    ensures StableSort(items) == items
  {
    if items != [] {
      var n := |items| - 1;
      UnbeatenStays(items[..n]);
      InsertsLast(items[..n], items[n]);
      assert items == items[..n] + [items[n]];
      SortStep(items[..n], items[n]);
    }
  }

  lemma SortedStays(items: seq<Ranked>)
    requires IsSorted(items)
    ensures StableSort(items) == items
  {
    SortedIsUnbeaten(items);
    UnbeatenStays(items);
  }

  lemma AscendingIsSorted(ranked: seq<Ranked>)
    requires OneRank(ranked)
    ensures OrdersAscend(ranked) <==> IsSorted(ranked)
  {
    if OrdersAscend(ranked) {
      forall i, j | 0 <= i < j < |ranked| ensures !KeyLess(ranked[j], ranked[i]) {
        assert ranked[i] in ranked && ranked[j] in ranked;
      }
    }
    if IsSorted(ranked) {
      forall i, j | 0 <= i < j < |ranked| ensures ranked[i].order <= ranked[j].order {
        assert ranked[i] in ranked && ranked[j] in ranked;
        assert !KeyLess(ranked[j], ranked[i]);
      }
    }
  }

  /** With distinct claims an item is where its finding is. */
  lemma SameFindingSameItem(ranked: seq<Ranked>, item: Ranked, k: nat)
    requires Distinct(FindingIds(Findings(ranked))) && item in ranked && k < |ranked| && item.finding == ranked[k].finding
    ensures item == ranked[k]
  {
    var j :| 0 <= j < |ranked| && ranked[j] == item;
    assert FindingIds(Findings(ranked))[j] == FindingIds(Findings(ranked))[k];
  }

  /** A sort that leaves the findings where they are leaves the items where they are. */
  lemma SameFindingsSameItems(ranked: seq<Ranked>, sorted: seq<Ranked>)
    requires Distinct(FindingIds(Findings(ranked))) && Findings(sorted) == Findings(ranked)
    requires forall item :: item in sorted ==> item in ranked
    ensures sorted == ranked
  {
    assert |sorted| == |Findings(sorted)| == |ranked|;
    forall k | 0 <= k < |ranked| ensures sorted[k] == ranked[k] {
      assert Findings(sorted)[k] == Findings(ranked)[k];
      SameFindingSameItem(ranked, sorted[k], k);
    }
  }

  lemma SortKeepsFindingsIff(ranked: seq<Ranked>)
    requires Distinct(FindingIds(Findings(ranked))) && OneRank(ranked)
    ensures Findings(StableSort(ranked)) == Findings(ranked) <==> OrdersAscend(ranked)
  {
    AscendingIsSorted(ranked);
    if OrdersAscend(ranked) {
      SortedStays(ranked);
    }
    if Findings(StableSort(ranked)) == Findings(ranked) {
      forall item | item in StableSort(ranked) ensures item in ranked { StableSortMembers(ranked, item); }
      SameFindingsSameItems(ranked, StableSort(ranked));
      StableSortSorts(ranked);
    }
  }

  lemma AscendingIffSizesFollow(packets: seq<Packet>, policy: Policy)
    requires |Merged(packets, policy).ranked| == |FindingStream(packets)|
    ensures OrdersAscend(Merged(packets, policy).ranked) <==> SizesFollow(Sizes(packets))
  {
    var ranked, sizes := Merged(packets, policy).ranked, Sizes(packets);
    KeysFollowDeliveryIff(sizes);
    if KeysFollowDelivery(sizes) {
      MergedOrdersAscend(packets, policy);
    }
    if OrdersAscend(ranked) {
      RankedInPlace(packets, policy);
      forall p, i, q, j | 0 <= p < q < |sizes| && 0 <= i < sizes[p] && 0 <= j < sizes[q]
        ensures OrderKey(p, i) <= OrderKey(q, j)
      {
        assert KeyAt(packets, ranked, p, i) && KeyAt(packets, ranked, q, j);
        StartsAscend(packets, p, q);
        assert StartOf(packets, p) + i < StartOf(packets, q) + j;
      }
    }
  }

  // ---------------------------------------------------------------- the compiled list

  /** The budget covers every delivered finding. */
  predicate Affordable(packets: seq<Packet>, policy: Policy) {
    Tokens(FindingsCost(FindingStream(packets)), EffectivePolicy(policy).charsPerToken) <= policy.tokenBudget
  }

  lemma AffordedIsKept(ranked: seq<Ranked>, charsPerToken: nat, budget: int)
    requires charsPerToken > 0 && Tokens(FindingsCost(Findings(ranked)), charsPerToken) <= budget
    ensures Pack(StableSort(ranked), charsPerToken, budget).kept == StableSort(ranked)
    ensures Pack(StableSort(ranked), charsPerToken, budget).dropped == []
  {
    CostOfFindings(ranked);
    SortedCost(ranked);
    PackKeepsAll(StableSort(ranked), charsPerToken, budget);
  }

  lemma RankedIsStream(packets: seq<Packet>, policy: Policy)
    requires Distinct(FindingIds(FindingStream(packets)))
    ensures Findings(Merged(packets, policy).ranked) == FindingStream(packets)
  {
    MergedRanksFirsts(packets, policy);
    DistinctAreFirsts(FindingStream(packets));
  }

  /**
   * With distinct claims of one rank and a budget for all of them, the compiled list is the delivery order
   * exactly when the packet sizes follow.
   */
  lemma ListedAsDeliveredIff(packets: seq<Packet>, policy: Policy, c: Compiled)
    requires CompileSpec(packets, policy) == Ok(c) && Affordable(packets, policy)
    requires Distinct(FindingIds(FindingStream(packets))) && OneRank(Merged(packets, EffectivePolicy(policy)).ranked)
    ensures c.droppedForBudget == []
    ensures c.findings == FindingStream(packets) <==> SizesFollow(Sizes(packets))
  {
    var p := EffectivePolicy(policy);
    var ranked := Merged(packets, p).ranked;
    CompiledFields(packets, policy, c);
    RankedIsStream(packets, p);
    AffordedIsKept(ranked, p.charsPerToken, p.tokenBudget);
    assert c.findings == Findings(StableSort(ranked));
    SortKeepsFindingsIff(ranked);
    AscendingIffSizesFollow(packets, p);
  }
}
