/** What a compiled context guarantees, for every packet list and policy. */
module CompiledContext {
  import opened Common
  import opened Instants
  import opened ContextPacket
  import opened ContextMerge
  import opened ContextCompiler
  import opened Graphs
  import Strings

  /** The fields of a successful compilation. */
  lemma CompiledFields(packets: seq<Packet>, policy: Policy, c: Compiled)
    requires CompileSpec(packets, policy) == Ok(c)
    ensures packets != [] && policy.tokenBudget > 0 && Refusal(packets, |packets|, policy).None?
    ensures var packing := PackingOf(packets, policy);
      && c.findings == Findings(packing.kept) && c.droppedForBudget == packing.dropped
      && c.estimatedTokenCount == Tokens(packing.usedChars, EffectivePolicy(policy).charsPerToken)
    ensures var m := Merged(packets, EffectivePolicy(policy));
      && c.evidence == Lookup(m.evidence, Strings.SortedSeq(CitedIds(m, c.findings)))
      && c.staleEvidence == Strings.SortedSeq(m.stale)
  {
  }

  // ---------------------------------------------------------------- claims: first occurrence wins

  function FindingIds(findings: seq<Finding>): (ids: seq<string>)
    ensures |ids| == |findings| && forall i :: 0 <= i < |findings| ==> ids[i] == findings[i].claimId
  {
    seq(|findings|, i requires 0 <= i < |findings| => findings[i].claimId)
  }

  /** All findings in delivery order. */
  function FindingStream(packets: seq<Packet>): seq<Finding> {
    if packets == [] then [] else FindingStream(packets[..|packets| - 1]) + packets[|packets| - 1].findings
  }

  /** f is in the stream and no earlier finding makes the same claim. */
  ghost predicate IsFirst(stream: seq<Finding>, f: Finding) {
    exists i :: 0 <= i < |stream| && stream[i] == f && f.claimId !in FindingIds(stream[..i])
  }

  function FirstOccurrences(stream: seq<Finding>): seq<Finding> {
    if stream == [] then []
    else
      var n := |stream| - 1;
      var r := FirstOccurrences(stream[..n]);
      if stream[n].claimId in FindingIds(r) then r else r + [stream[n]]
  }

  lemma {:induction false} FirstOccurrencesSound(stream: seq<Finding>)
    ensures var r := FirstOccurrences(stream);
      && Distinct(FindingIds(r))
      && (forall id :: id in FindingIds(r) <==> id in FindingIds(stream))
      && (forall f :: f in r ==> IsFirst(stream, f))
  {
    if stream != [] {
      var n := |stream| - 1;
      var r := FirstOccurrences(stream[..n]);
      FirstOccurrencesSound(stream[..n]);
      assert FindingIds(stream) == FindingIds(stream[..n]) + [stream[n].claimId];
      assert FindingIds(r + [stream[n]]) == FindingIds(r) + [stream[n].claimId];
      DistinctSnoc(FindingIds(r), stream[n].claimId);
      forall f | f in FirstOccurrences(stream) ensures IsFirst(stream, f) {
        if f in r {
          var i :| 0 <= i < n && stream[..n][i] == f && f.claimId !in FindingIds(stream[..n][..i]);
          assert stream[..n][..i] == stream[..i];
        }
      }
    }
  }

  ghost predicate ClaimsMatch(m: Merge) {
    forall id :: id in m.claims <==> id in FindingIds(Findings(m.ranked))
  }

  ghost predicate RanksFirsts(m: Merge, stream: seq<Finding>) {
    ClaimsMatch(m) && Findings(m.ranked) == FirstOccurrences(stream)
  }

  lemma AddFindingRanksFirst(m: Merge, stream: seq<Finding>, f: Finding, order: int)
    requires RanksFirsts(m, stream)
    ensures RanksFirsts(AddFinding(m, f, order), stream + [f])
  {
    assert (stream + [f])[..|stream|] == stream;
    if f.claimId !in m.claims {
      var item := Ranked(f, CitesPrimary(m, f), order);
      assert Findings(m.ranked + [item]) == Findings(m.ranked) + [f];
      assert FindingIds(Findings(m.ranked) + [f]) == FindingIds(Findings(m.ranked)) + [f.claimId];
    }
  }

  lemma {:induction false} AddAllFindingsRanksFirsts(m: Merge, stream: seq<Finding>, findings: seq<Finding>, packetIndex: nat)
    requires RanksFirsts(m, stream)
    ensures RanksFirsts(AddAllFindings(m, findings, packetIndex), stream + findings)
  {
    if findings == [] {
      assert stream + findings == stream;
    } else {
      var n := |findings| - 1;
      var part, f := findings[..n], findings[n];
      assert stream + findings == (stream + part) + [f];
      AddAllFindingsRanksFirsts(m, stream, part, packetIndex);
      AddFindingRanksFirst(AddAllFindings(m, part, packetIndex), stream + part, f, packetIndex * 1000 + n);
    }
  }

  lemma {:induction false} AddAllEvidenceKeepsClaims(m: Merge, evidence: seq<EvidenceRef>, policy: Policy)
    ensures AddAllEvidence(m, evidence, policy).claims == m.claims && AddAllEvidence(m, evidence, policy).ranked == m.ranked
  {
    if evidence != [] { AddAllEvidenceKeepsClaims(m, evidence[..|evidence| - 1], policy); }
  }

  function Noted(m: Merge, p: Packet): Merge {
    m.(missing := m.missing + Members(p.missingEvidence), conflicts := m.conflicts + Members(p.conflicts))
  }

  /** The ranked list holds exactly the first finding of every claim, in delivery order. */
  lemma {:induction false} MergedRanksFirsts(packets: seq<Packet>, policy: Policy)
    ensures ClaimsMatch(Merged(packets, policy))
    ensures Findings(Merged(packets, policy).ranked) == FirstOccurrences(FindingStream(packets))
  {
    if packets != [] {
      var n := |packets| - 1;
      var p, before := packets[n], Merged(packets[..n], policy);
      MergedRanksFirsts(packets[..n], policy);
      AddAllEvidenceKeepsClaims(Noted(before, p), p.evidence, policy);
      AddAllFindingsRanksFirsts(AddAllEvidence(Noted(before, p), p.evidence, policy), FindingStream(packets[..n]), p.findings, n);
    }
  }

  lemma {:induction false} DistinctMultiplicity(s: seq<string>, x: string)
    requires Distinct(s)
    ensures multiset(s)[x] == if x in s then 1 else 0
  {
    if s != [] {
      var n := |s| - 1;
      assert s == s[..n] + [s[n]];
      DistinctSnoc(s[..n], s[n]);
      DistinctMultiplicity(s[..n], x);
    }
  }

  lemma ClaimIdsOfFindings(items: seq<Ranked>)
    ensures ClaimIds(items) == FindingIds(Findings(items))
  {
  }

  lemma RankedClaimMultiplicity(packets: seq<Packet>, policy: Policy, id: string)
    ensures multiset(ClaimIds(Merged(packets, policy).ranked))[id] == if id in FindingIds(FindingStream(packets)) then 1 else 0
  {
    var ranked := Merged(packets, policy).ranked;
    MergedRanksFirsts(packets, policy);
    FirstOccurrencesSound(FindingStream(packets));
    ClaimIdsOfFindings(ranked);
    DistinctMultiplicity(ClaimIds(ranked), id);
  }

  /** Every claim delivered is kept or dropped, exactly once, and nothing else is. */
  lemma KeptAndDroppedPartitionClaims(packets: seq<Packet>, policy: Policy, c: Compiled, id: string)
    requires CompileSpec(packets, policy) == Ok(c)
    ensures multiset(FindingIds(c.findings))[id] + multiset(c.droppedForBudget)[id]
         == if id in FindingIds(FindingStream(packets)) then 1 else 0
  {
    var p := EffectivePolicy(policy);
    CompiledFields(packets, policy, c);
    RankedClaimMultiplicity(packets, p, id);
    PackingPartitions(Merged(packets, p).ranked, p.charsPerToken, p.tokenBudget);
  }

  lemma PackingPartitions(ranked: seq<Ranked>, charsPerToken: nat, budget: int)
    requires charsPerToken > 0
    ensures var p := Pack(StableSort(ranked), charsPerToken, budget);
      multiset(FindingIds(Findings(p.kept))) + multiset(p.dropped) == multiset(ClaimIds(ranked))
  {
    SortedClaimIds(ranked);
    PackPartitions(StableSort(ranked), charsPerToken, budget);
    ClaimIdsOfFindings(Pack(StableSort(ranked), charsPerToken, budget).kept);
  }

  lemma {:induction false} InsertedClaimIds(sorted: seq<Ranked>, x: Ranked)
    ensures multiset(ClaimIds(InsertRanked(sorted, x))) == multiset(ClaimIds(sorted)) + multiset{x.finding.claimId}
  {
    if sorted == [] {
      ClaimIdsSnoc([], x);
      assert [] + [x] == [x];
    } else {
      var before, last := sorted[..|sorted| - 1], sorted[|sorted| - 1];
      assert sorted == before + [last];
      ClaimIdsSnoc(sorted, x);
      ClaimIdsSnoc(before, last);
      InsertedClaimIds(before, x);
      ClaimIdsSnoc(InsertRanked(before, x), last);
    }
  }

  lemma {:induction false} SortedClaimIds(items: seq<Ranked>)
    ensures multiset(ClaimIds(StableSort(items))) == multiset(ClaimIds(items))
  {
    if items != [] {
      var before, last := items[..|items| - 1], items[|items| - 1];
      assert items == before + [last];
      SortedClaimIds(before);
      InsertedClaimIds(StableSort(before), last);
      ClaimIdsSnoc(before, last);
    }
  }

  lemma KeptItemIsRanked(packets: seq<Packet>, policy: Policy, item: Ranked)
    requires item in PackingOf(packets, policy).kept
    ensures item in Merged(packets, EffectivePolicy(policy)).ranked
  {
    var p := EffectivePolicy(policy);
    var ranked := Merged(packets, p).ranked;
    PackKeepsItems(StableSort(ranked), p.charsPerToken, p.tokenBudget);
    StableSortMembers(ranked, item);
  }

  /** A kept finding is the first one delivered for its claim, unaltered. */
  lemma KeptFindingIsFirst(packets: seq<Packet>, policy: Policy, c: Compiled, f: Finding)
    requires CompileSpec(packets, policy) == Ok(c) && f in c.findings
    ensures IsFirst(FindingStream(packets), f)
  {
    var kept, ranked := PackingOf(packets, policy).kept, Merged(packets, EffectivePolicy(policy)).ranked;
    var k :| 0 <= k < |kept| && kept[k].finding == f;
    KeptItemIsRanked(packets, policy, kept[k]);
    var j :| 0 <= j < |ranked| && ranked[j] == kept[k];
    assert Findings(ranked)[j] == f;
    MergedRanksFirsts(packets, EffectivePolicy(policy));
    FirstOccurrencesSound(FindingStream(packets));
  }

  // ---------------------------------------------------------------- budget

  function FindingsCost(findings: seq<Finding>): nat {
    if findings == [] then 0 else FindingsCost(findings[..|findings| - 1]) + Cost(findings[|findings| - 1])
  }

  lemma {:induction false} CostOfFindings(items: seq<Ranked>)
    ensures FindingsCost(Findings(items)) == TotalCost(items)
  {
    if items != [] {
      CostOfFindings(items[..|items| - 1]);
      assert Findings(items)[..|items| - 1] == Findings(items[..|items| - 1]);
    }
  }

  /** The estimate is the cost of what was kept, and it is within budget. */
  lemma CompiledWithinBudget(packets: seq<Packet>, policy: Policy, c: Compiled)
    requires CompileSpec(packets, policy) == Ok(c)
    ensures c.estimatedTokenCount == Tokens(FindingsCost(c.findings), EffectivePolicy(policy).charsPerToken)
    ensures c.estimatedTokenCount <= policy.tokenBudget
  {
    var p := EffectivePolicy(policy);
    PackWithinBudget(StableSort(Merged(packets, p).ranked), p.charsPerToken, p.tokenBudget);
    CostOfFindings(PackingOf(packets, policy).kept);
  }

  lemma PackingCost(items: seq<Ranked>, charsPerToken: nat, budget: int)
    requires charsPerToken > 0 && budget >= 0
    ensures FindingsCost(Findings(Pack(items, charsPerToken, budget).kept)) == Pack(items, charsPerToken, budget).usedChars
  {
    PackWithinBudget(items, charsPerToken, budget);
    CostOfFindings(Pack(items, charsPerToken, budget).kept);
  }

  /** The ranked item behind a finding that was not kept. */
  lemma DroppedItem(ranked: seq<Ranked>, kept: seq<Ranked>, f: Finding) returns (item: Ranked)
    requires f in Findings(ranked) && f !in Findings(kept)
    ensures item in StableSort(ranked) && item.finding == f && item !in kept
  {
    var j :| 0 <= j < |ranked| && Findings(ranked)[j] == f;
    item := ranked[j];
    StableSortMembers(ranked, item);
    forall k | 0 <= k < |kept| ensures kept[k] != item {
      assert Findings(kept)[k] == kept[k].finding;
    }
  }

  lemma PackingIsMaximal(items: seq<Ranked>, charsPerToken: nat, budget: int, item: Ranked, f: Finding, findings: seq<Finding>)
    requires charsPerToken > 0 && budget >= 0 && item in items && item.finding == f
    requires item !in Pack(items, charsPerToken, budget).kept && findings == Findings(Pack(items, charsPerToken, budget).kept)
    ensures Tokens(FindingsCost(findings) + Cost(f), charsPerToken) > budget
  {
    PackIsMaximal(items, charsPerToken, budget, item);
    PackingCost(items, charsPerToken, budget);
  }

  /** f does not fit beside these findings. */
  predicate Overflows(findings: seq<Finding>, f: Finding, policy: Policy) {
    Tokens(FindingsCost(findings) + Cost(f), EffectivePolicy(policy).charsPerToken) > policy.tokenBudget
  }

  lemma UnkeptOverflows(ranked: seq<Ranked>, charsPerToken: nat, budget: int, f: Finding, findings: seq<Finding>)
    requires charsPerToken > 0 && budget >= 0
    requires findings == Findings(Pack(StableSort(ranked), charsPerToken, budget).kept)
    requires f in Findings(ranked) && f !in findings
    ensures Tokens(FindingsCost(findings) + Cost(f), charsPerToken) > budget
  {
    var item := DroppedItem(ranked, Pack(StableSort(ranked), charsPerToken, budget).kept, f);
    PackingIsMaximal(StableSort(ranked), charsPerToken, budget, item, f, findings);
  }

  lemma DroppedOverflows(packets: seq<Packet>, policy: Policy, f: Finding)
    requires policy.tokenBudget > 0
    requires f in Findings(Merged(packets, EffectivePolicy(policy)).ranked) && f !in Findings(PackingOf(packets, policy).kept)
    ensures Overflows(Findings(PackingOf(packets, policy).kept), f, policy)
  {
    var p := EffectivePolicy(policy);
    UnkeptOverflows(Merged(packets, p).ranked, p.charsPerToken, p.tokenBudget, f, Findings(PackingOf(packets, policy).kept));
  }

  /** The first finding of a dropped claim would not fit beside everything that was kept. */
  lemma CompiledIsMaximal(packets: seq<Packet>, policy: Policy, c: Compiled, f: Finding)
    requires CompileSpec(packets, policy) == Ok(c)
    requires f in FirstOccurrences(FindingStream(packets)) && f !in c.findings
    ensures Overflows(c.findings, f, policy)
  {
    MergedRanksFirsts(packets, EffectivePolicy(policy));
    DroppedOverflows(packets, policy, f);
  }

  // ---------------------------------------------------------------- order

  /** The order key of finding i of packet p. */
  function OrderKey(p: nat, i: nat): nat { p * 1000 + i }

  function Sizes(packets: seq<Packet>): (sizes: seq<nat>)
    ensures |sizes| == |packets| && forall p :: 0 <= p < |packets| ==> sizes[p] == |packets[p].findings|
  {
    seq(|packets|, p requires 0 <= p < |packets| => |packets[p].findings|)
  }

  /** Keys follow delivery order for every pair of findings in packets of these sizes. */
  ghost predicate KeysFollowDelivery(sizes: seq<nat>) {
    forall p, i, q, j :: 0 <= p < q < |sizes| && 0 <= i < sizes[p] && 0 <= j < sizes[q] ==> OrderKey(p, i) <= OrderKey(q, j)
  }

  /** No packet is so large that its last key passes the first key of a later one: a caller can check this before compiling. */
  ghost predicate SizesFollow(sizes: seq<nat>) {
    forall p, q :: 0 <= p < q < |sizes| && sizes[q] > 0 ==> sizes[p] <= (q - p) * 1000 + 1
  }

  /** The sizes alone decide whether keys follow delivery. */
  lemma KeysFollowDeliveryIff(sizes: seq<nat>)
    ensures KeysFollowDelivery(sizes) <==> SizesFollow(sizes)
  {
    if KeysFollowDelivery(sizes) {
      forall p, q | 0 <= p < q < |sizes| && sizes[q] > 0 ensures sizes[p] <= (q - p) * 1000 + 1 {
        if sizes[p] > 0 {
          assert OrderKey(p, sizes[p] - 1) <= OrderKey(q, 0);
        }
      }
    }
  }

  /** The item carries the key of some delivered finding. */
  ghost predicate Keyed(item: Ranked, sizes: seq<nat>) {
    exists p, i :: 0 <= p < |sizes| && 0 <= i < sizes[p] && item.order == OrderKey(p, i)
  }

  lemma {:induction false} AddAllFindingsKeyed(m: Merge, findings: seq<Finding>, packetIndex: nat, sizes: seq<nat>)
    requires packetIndex < |sizes| && |findings| <= sizes[packetIndex]
    requires forall item :: item in m.ranked ==> Keyed(item, sizes)
    ensures forall item :: item in AddAllFindings(m, findings, packetIndex).ranked ==> Keyed(item, sizes)
  {
    if findings != [] {
      AddAllFindingsKeyed(m, findings[..|findings| - 1], packetIndex, sizes);
      assert OrderKey(packetIndex, |findings| - 1) == packetIndex * 1000 + (|findings| - 1);
    }
  }

  lemma KeyedInMore(item: Ranked, sizes: seq<nat>, more: seq<nat>)
    requires Keyed(item, sizes) && sizes <= more
    ensures Keyed(item, more)
  {
    var p, i :| 0 <= p < |sizes| && 0 <= i < sizes[p] && item.order == OrderKey(p, i);
    assert more[p] == sizes[p];
  }

  lemma {:induction false} MergedKeyed(packets: seq<Packet>, policy: Policy)
    ensures forall item :: item in Merged(packets, policy).ranked ==> Keyed(item, Sizes(packets))
  {
    if packets != [] {
      var n := |packets| - 1;
      var p, before := packets[n], Merged(packets[..n], policy);
      MergedKeyed(packets[..n], policy);
      AddAllEvidenceKeepsClaims(Noted(before, p), p.evidence, policy);
      forall item | item in before.ranked ensures Keyed(item, Sizes(packets)) {
        KeyedInMore(item, Sizes(packets[..n]), Sizes(packets));
      }
      AddAllFindingsKeyed(AddAllEvidence(Noted(before, p), p.evidence, policy), p.findings, n, Sizes(packets));
    }
  }

  /** Order keys never fall along the ranked list. */
  ghost predicate OrdersAscend(ranked: seq<Ranked>) {
    forall i, j :: 0 <= i < j < |ranked| ==> ranked[i].order <= ranked[j].order
  }

  ghost predicate OrdersBelow(ranked: seq<Ranked>, bound: int) {
    forall i :: 0 <= i < |ranked| ==> ranked[i].order <= bound
  }

  lemma {:induction false} AddAllFindingsAscends(m: Merge, findings: seq<Finding>, packetIndex: nat)
    requires OrdersAscend(m.ranked) && OrdersBelow(m.ranked, packetIndex * 1000) && findings != []
    ensures var ranked := AddAllFindings(m, findings, packetIndex).ranked;
      OrdersAscend(ranked) && OrdersBelow(ranked, packetIndex * 1000 + |findings| - 1)
  {
    if |findings| > 1 { AddAllFindingsAscends(m, findings[..|findings| - 1], packetIndex); }
  }

  /** A packet with findings has its first key above all keys before it. */
  lemma EarlierKeysBelow(packets: seq<Packet>, policy: Policy)
    requires packets != [] && packets[|packets| - 1].findings != [] && KeysFollowDelivery(Sizes(packets))
    ensures OrdersBelow(Merged(packets[..|packets| - 1], policy).ranked, (|packets| - 1) * 1000)
  {
    var n := |packets| - 1;
    var ranked := Merged(packets[..n], policy).ranked;
    MergedKeyed(packets[..n], policy);
    forall k | 0 <= k < |ranked| ensures ranked[k].order <= n * 1000 {
      assert ranked[k] in ranked;
      var p, i :| 0 <= p < n && 0 <= i < Sizes(packets[..n])[p] && ranked[k].order == OrderKey(p, i);
      assert Sizes(packets)[p] == Sizes(packets[..n])[p];
      assert OrderKey(p, i) <= OrderKey(n, 0);
    }
  }

  lemma {:induction false} MergedOrdersAscend(packets: seq<Packet>, policy: Policy)
    requires KeysFollowDelivery(Sizes(packets))
    ensures OrdersAscend(Merged(packets, policy).ranked)
  {
    if packets != [] {
      var n := |packets| - 1;
      var p, before := packets[n], Merged(packets[..n], policy);
      assert Sizes(packets[..n]) == Sizes(packets)[..n];
      MergedOrdersAscend(packets[..n], policy);
      AddAllEvidenceKeepsClaims(Noted(before, p), p.evidence, policy);
      if p.findings != [] {
        EarlierKeysBelow(packets, policy);
        AddAllFindingsAscends(AddAllEvidence(Noted(before, p), p.evidence, policy), p.findings, n);
      }
    }
  }

  /** The kept list never falls in rank. */
  lemma KeptInRankOrder(packets: seq<Packet>, policy: Policy, i: nat, j: nat)
    requires i < j < |PackingOf(packets, policy).kept|
    ensures Rank(PackingOf(packets, policy).kept[i]) <= Rank(PackingOf(packets, policy).kept[j])
  {
    var p := EffectivePolicy(policy);
    var sorted := StableSort(Merged(packets, p).ranked);
    PackKeepsOrder(sorted, p.charsPerToken, p.tokenBudget, i, j);
    StableSortSorts(Merged(packets, p).ranked);
  }

  lemma PrecedesAntisymmetric(s: seq<Ranked>, a: Ranked, b: Ranked)
    requires Distinct(s) && Precedes(s, a, b)
    ensures !Precedes(s, b, a)
  {
  }

  lemma {:induction false} InsertDistinct(sorted: seq<Ranked>, x: Ranked)
    requires Distinct(sorted) && x !in sorted
    ensures Distinct(InsertRanked(sorted, x))
  {
    DistinctSnoc(sorted, x);
    if sorted != [] && KeyLess(x, sorted[|sorted| - 1]) {
      var n := |sorted| - 1;
      InsertDistinct(sorted[..n], x);
      InsertMembers(sorted[..n], x, sorted[n]);
      DistinctSnoc(InsertRanked(sorted[..n], x), sorted[n]);
    }
  }

  lemma {:induction false} StableSortDistinct(items: seq<Ranked>)
    requires Distinct(items)
    ensures Distinct(StableSort(items))
  {
    if items != [] {
      var n := |items| - 1;
      assert items == items[..n] + [items[n]];
      DistinctSnoc(items[..n], items[n]);
      StableSortDistinct(items[..n]);
      StableSortMembers(items[..n], items[n]);
      InsertDistinct(StableSort(items[..n]), items[n]);
    }
  }

  lemma RankedDistinct(packets: seq<Packet>, policy: Policy)
    ensures Distinct(Merged(packets, policy).ranked)
  {
    var ranked := Merged(packets, policy).ranked;
    MergedRanksFirsts(packets, policy);
    FirstOccurrencesSound(FindingStream(packets));
    forall i, j | 0 <= i < j < |ranked| ensures ranked[i] != ranked[j] {
      assert FindingIds(Findings(ranked))[i] != FindingIds(Findings(ranked))[j];
    }
  }

  /** Of two items of equal rank, the sort puts the earlier one first exactly when its key is not the greater one. */
  lemma TieFollowsKeys(ranked: seq<Ranked>, a: nat, b: nat)
    requires Distinct(ranked) && a < b < |ranked| && Rank(ranked[a]) == Rank(ranked[b])
    ensures Precedes(StableSort(ranked), ranked[a], ranked[b]) <==> ranked[a].order <= ranked[b].order
  {
    if ranked[a].order <= ranked[b].order {
      StableSortIsStable(ranked, a, b);
    } else if Precedes(StableSort(ranked), ranked[a], ranked[b]) {
      StableSortSorts(ranked);
      assert KeyLess(ranked[b], ranked[a]);
    }
  }

  /** Kept items of equal rank stand in delivery order: the order of the list of first occurrences. */
  ghost predicate TiesFollowDelivery(ranked: seq<Ranked>, kept: seq<Ranked>) {
    forall a, b :: 0 <= a < b < |ranked| && Rank(ranked[a]) == Rank(ranked[b]) && ranked[a] in kept && ranked[b] in kept ==>
      Precedes(kept, ranked[a], ranked[b])
  }

  lemma KeptFollowsSorted(sorted: seq<Ranked>, charsPerToken: nat, budget: int, x: Ranked, y: Ranked)
    requires charsPerToken > 0 && Precedes(Pack(sorted, charsPerToken, budget).kept, x, y)
    ensures Precedes(sorted, x, y)
  {
    var kept := Pack(sorted, charsPerToken, budget).kept;
    var i, j :| 0 <= i < j < |kept| && kept[i] == x && kept[j] == y;
    PackKeepsOrder(sorted, charsPerToken, budget, i, j);
  }

  lemma EitherPrecedes(s: seq<Ranked>, x: Ranked, y: Ranked)
    requires x in s && y in s && x != y
    ensures Precedes(s, x, y) || Precedes(s, y, x)
  {
    var i :| 0 <= i < |s| && s[i] == x;
    var j :| 0 <= j < |s| && s[j] == y;
  }

  /** Packing keeps the order of what it keeps. */
  lemma KeptPairOrder(sorted: seq<Ranked>, charsPerToken: nat, budget: int, x: Ranked, y: Ranked)
    requires charsPerToken > 0 && Distinct(sorted) && x != y
    requires x in Pack(sorted, charsPerToken, budget).kept && y in Pack(sorted, charsPerToken, budget).kept
    ensures Precedes(Pack(sorted, charsPerToken, budget).kept, x, y) <==> Precedes(sorted, x, y)
  {
    var kept := Pack(sorted, charsPerToken, budget).kept;
    EitherPrecedes(kept, x, y);
    if Precedes(kept, x, y) {
      KeptFollowsSorted(sorted, charsPerToken, budget, x, y);
    } else {
      KeptFollowsSorted(sorted, charsPerToken, budget, y, x);
      PrecedesAntisymmetric(sorted, y, x);
    }
  }

  /** Exactly when, for any packets and any budget: no kept item has a greater key than a later one of its rank. */
  lemma TiesFollowKeys(packets: seq<Packet>, policy: Policy)
    ensures var ranked, kept := Merged(packets, EffectivePolicy(policy)).ranked, PackingOf(packets, policy).kept;
      TiesFollowDelivery(ranked, kept) <==>
        forall a, b :: 0 <= a < b < |ranked| && Rank(ranked[a]) == Rank(ranked[b]) && ranked[a] in kept && ranked[b] in kept ==>
          ranked[a].order <= ranked[b].order
  {
    var p := EffectivePolicy(policy);
    var ranked, kept := Merged(packets, p).ranked, PackingOf(packets, policy).kept;
    RankedDistinct(packets, p);
    StableSortDistinct(ranked);
    forall a, b | 0 <= a < b < |ranked| && Rank(ranked[a]) == Rank(ranked[b]) && ranked[a] in kept && ranked[b] in kept
      ensures Precedes(kept, ranked[a], ranked[b]) <==> ranked[a].order <= ranked[b].order
    {
      TieFollowsKeys(ranked, a, b);
      KeptPairOrder(StableSort(ranked), p.charsPerToken, p.tokenBudget, ranked[a], ranked[b]);
    }
  }

  /** With packet sizes that follow, ties in rank are kept in delivery order, whatever the claims, ranks and budget. */
  lemma TiesInDeliveryOrder(packets: seq<Packet>, policy: Policy)
    requires SizesFollow(Sizes(packets))
    ensures TiesFollowDelivery(Merged(packets, EffectivePolicy(policy)).ranked, PackingOf(packets, policy).kept)
  {
    KeysFollowDeliveryIff(Sizes(packets));
    MergedOrdersAscend(packets, EffectivePolicy(policy));
    TiesFollowKeys(packets, policy);
  }

  // ---------------------------------------------------------------- evidence

  lemma {:induction false} RefusalNone(packets: seq<Packet>, n: nat, policy: Policy, i: nat)
    requires i < n <= |packets| && Refusal(packets, n, policy).None?
    ensures PacketRefusal(packets, i, policy).None?
  {
    if i < n - 1 { RefusalNone(packets, n - 1, policy, i); }
  }

  /** The compiler's own evidence checks, which repeat the validator's, never fire. */
  lemma EvidenceChecksSubsumed(packets: seq<Packet>, i: nat, policy: Policy, e: EvidenceRef)
    requires i < |packets| && PacketRefusal(packets, i, policy).None? && e in packets[i].evidence
    ensures e.evidenceId != "" && e.contentSha != "" && e.asOf != ZERO_TIME && e.asOf <= policy.asOf
  {
    assert EvidenceOk(e, packets[i].scopeAsOf);
  }

  /** Every evidence id that a merged claim cites is held: references resolve inside their own packet. */
  ghost predicate Closed(m: Merge) {
    forall item, ref :: item in m.ranked && ref in item.finding.evidenceRefs ==> ref in m.evidence
  }

  ghost predicate HeldNotAfter(m: Merge, asOf: Time) {
    forall id :: id in m.evidence ==> m.evidence[id].asOf <= asOf
  }

  lemma {:induction false} AddAllFindingsCloses(m: Merge, findings: seq<Finding>, packetIndex: nat)
    requires Closed(m)
    requires forall f, ref :: f in findings && ref in f.evidenceRefs ==> ref in m.evidence
    ensures Closed(AddAllFindings(m, findings, packetIndex))
    ensures AddAllFindings(m, findings, packetIndex).evidence == m.evidence
  {
    if findings != [] {
      var n := |findings| - 1;
      assert findings == findings[..n] + [findings[n]];
      AddAllFindingsCloses(m, findings[..n], packetIndex);
    }
  }

  lemma {:induction false} AddAllEvidenceDated(m: Merge, evidence: seq<EvidenceRef>, policy: Policy)
    requires HeldNotAfter(m, policy.asOf)
    requires forall e :: e in evidence ==> e.asOf <= policy.asOf
    ensures HeldNotAfter(AddAllEvidence(m, evidence, policy), policy.asOf)
  {
    if evidence != [] {
      var n := |evidence| - 1;
      assert evidence == evidence[..n] + [evidence[n]];
      AddAllEvidenceDated(m, evidence[..n], policy);
    }
  }

  lemma {:induction false} MergedCloses(packets: seq<Packet>, n: nat, policy: Policy)
    requires n <= |packets| && Refusal(packets, n, policy).None?
    ensures Closed(Merged(packets[..n], policy)) && HeldNotAfter(Merged(packets[..n], policy), policy.asOf)
  {
    if n > 0 {
      var p, before := packets[n - 1], Merged(packets[..n - 1], policy);
      MergedCloses(packets, n - 1, policy);
      assert packets[..n][..n - 1] == packets[..n - 1];
      var noted := Noted(before, p);
      var withEvidence := AddAllEvidence(noted, p.evidence, policy);
      AddAllEvidenceKeepsClaims(noted, p.evidence, policy);
      AddAllEvidenceExtends(noted, p.evidence, policy);
      AddAllEvidenceHolds(noted, p.evidence, policy);
      HeldKnowsAllIds(noted.evidence, p.evidence);
      forall e | e in p.evidence ensures e.asOf <= policy.asOf { EvidenceChecksSubsumed(packets, n - 1, policy, e); }
      AddAllEvidenceDated(noted, p.evidence, policy);
      forall f, ref | f in p.findings && ref in f.evidenceRefs ensures ref in withEvidence.evidence {
        ReferenceResolvesInPacket(p, f, ref);
        var k :| 0 <= k < |p.evidence| && p.evidence[k].evidenceId == ref;
        assert p.evidence[k] in p.evidence;
      }
      AddAllFindingsCloses(withEvidence, p.findings, n - 1);
    }
  }

  lemma ReferenceResolvesInPacket(p: Packet, f: Finding, ref: string)
    requires Accepted(p) && f in p.findings && ref in f.evidenceRefs
    ensures ref in EvidenceIds(p.evidence)
  {
    assert FindingAccepted(f, p);
  }

  ghost predicate Listed(evidence: seq<EvidenceRef>, id: string) {
    exists e :: e in evidence && e.evidenceId == id
  }

  lemma LookupMembers(held: map<string, EvidenceRef>, ids: seq<string>)
    requires forall id :: id in ids ==> id in held
    requires forall id :: id in held ==> held[id].evidenceId == id
    ensures EvidenceIds(Lookup(held, ids)) == ids
    ensures forall id :: Listed(Lookup(held, ids), id) <==> id in ids
  {
    var evidence := Lookup(held, ids);
    assert forall i :: 0 <= i < |ids| ==> ids[i] in ids && evidence[i].evidenceId == ids[i];
    forall id ensures Listed(evidence, id) <==> id in ids {
      if id in ids {
        var i :| 0 <= i < |ids| && ids[i] == id;
        assert evidence[i] in evidence;
      }
    }
  }

  lemma CitedIsHeld(packets: seq<Packet>, policy: Policy, id: string)
    requires Closed(Merged(packets, EffectivePolicy(policy)))
    requires Cites(Findings(PackingOf(packets, policy).kept), id)
    ensures id in Merged(packets, EffectivePolicy(policy)).evidence
  {
    var kept := PackingOf(packets, policy).kept;
    var k :| 0 <= k < |kept| && id in Findings(kept)[k].evidenceRefs;
    KeptItemIsRanked(packets, policy, kept[k]);
  }

  lemma CompiledMergeCloses(packets: seq<Packet>, policy: Policy)
    requires Refusal(packets, |packets|, policy).None?
    ensures var m := Merged(packets, EffectivePolicy(policy)); Closed(m) && HeldNotAfter(m, policy.asOf)
  {
    RefusalIgnoresCharsPerToken(packets, |packets|, policy);
    assert packets[..|packets|] == packets;
    MergedCloses(packets, |packets|, EffectivePolicy(policy));
  }

  /**
   * The evidence list is reference-closed: its ids are exactly those cited by kept findings, in
   * strictly increasing order, and none of it is dated after the policy's as-of.
   */
  lemma EvidenceIsExactlyCited(packets: seq<Packet>, policy: Policy, c: Compiled)
    requires CompileSpec(packets, policy) == Ok(c)
    ensures forall id :: Listed(c.evidence, id) <==> Cites(c.findings, id)
    ensures Strings.StrictlySorted(EvidenceIds(c.evidence))
    ensures forall e :: e in c.evidence ==> e.asOf <= policy.asOf
  {
    CompiledFields(packets, policy, c);
    CompiledMergeCloses(packets, policy);
    MergedConsistent(packets, EffectivePolicy(policy));
    forall id | Cites(c.findings, id) ensures id in Merged(packets, EffectivePolicy(policy)).evidence {
      CitedIsHeld(packets, policy, id);
    }
    var m := Merged(packets, EffectivePolicy(policy));
    LookupMembers(m.evidence, Strings.SortedSeq(CitedIds(m, c.findings)));
    forall e | e in c.evidence ensures e.asOf <= policy.asOf {
      LookupOrigin(m.evidence, Strings.SortedSeq(CitedIds(m, c.findings)), e);
    }
  }

  // ---------------------------------------------------------------- staleness

  /** An id is stale exactly when some accepted copy of it (one with the content that won) is too old. */
  ghost predicate HasOldCopy(m: Merge, stream: seq<EvidenceRef>, id: string, policy: Policy) {
    && id in m.evidence
    && exists e :: e in stream && e.evidenceId == id && e.contentSha == m.evidence[id].contentSha && IsStale(e, policy)
  }

  ghost predicate StaleExact(m: Merge, stream: seq<EvidenceRef>, policy: Policy) {
    forall id :: id in m.stale <==> HasOldCopy(m, stream, id, policy)
  }

  lemma AddEvidenceStaleExact(m: Merge, stream: seq<EvidenceRef>, e: EvidenceRef, policy: Policy)
    requires StaleExact(m, stream, policy) && forall x :: x in stream ==> x.evidenceId in m.evidence
    ensures StaleExact(AddEvidence(m, e, policy), stream + [e], policy)
  {
    var after := AddEvidence(m, e, policy);
    forall id ensures id in after.stale <==> HasOldCopy(after, stream + [e], id, policy) {
      if HasOldCopy(m, stream, id, policy) {
        var x :| x in stream && x.evidenceId == id && x.contentSha == m.evidence[id].contentSha && IsStale(x, policy);
        assert x in stream + [e];
      }
      if HasOldCopy(after, stream + [e], id, policy) {
        var x :| x in stream + [e] && x.evidenceId == id && x.contentSha == after.evidence[id].contentSha && IsStale(x, policy);
        if x in stream { assert HasOldCopy(m, stream, id, policy); }
      }
      if id == e.evidenceId && IsStale(e, policy) && after != m.(conflicts := after.conflicts) {
        assert e in stream + [e];
      }
    }
  }

  lemma {:induction false} AddAllEvidenceStaleExact(m: Merge, stream: seq<EvidenceRef>, evidence: seq<EvidenceRef>, policy: Policy)
    requires StaleExact(m, stream, policy) && forall x :: x in stream ==> x.evidenceId in m.evidence
    ensures StaleExact(AddAllEvidence(m, evidence, policy), stream + evidence, policy)
    ensures forall x :: x in stream + evidence ==> x.evidenceId in AddAllEvidence(m, evidence, policy).evidence
  {
    if evidence == [] {
      assert stream + evidence == stream;
    } else {
      var n := |evidence| - 1;
      AddAllEvidenceStaleExact(m, stream, evidence[..n], policy);
      AddEvidenceStaleExact(AddAllEvidence(m, evidence[..n], policy), stream + evidence[..n], evidence[n], policy);
      assert stream + evidence == stream + evidence[..n] + [evidence[n]];
    }
  }

  lemma {:induction false} MergedStaleExact(packets: seq<Packet>, policy: Policy)
    ensures StaleExact(Merged(packets, policy), EvidenceStream(packets), policy)
    ensures forall x :: x in EvidenceStream(packets) ==> x.evidenceId in Merged(packets, policy).evidence
  {
    if packets != [] {
      var n := |packets| - 1;
      var p, before := packets[n], Merged(packets[..n], policy);
      MergedStaleExact(packets[..n], policy);
      AddAllEvidenceStaleExact(Noted(before, p), EvidenceStream(packets[..n]), p.evidence, policy);
      AddAllFindingsKeepsEvidence(AddAllEvidence(Noted(before, p), p.evidence, policy), p.findings, n);
    }
  }

  lemma HeldOldIsStale(packets: seq<Packet>, policy: Policy, id: string)
    requires var m := Merged(packets, policy); id in m.evidence && IsStale(m.evidence[id], policy)
    ensures id in Merged(packets, policy).stale
  {
    var m, stream := Merged(packets, policy), EvidenceStream(packets);
    MergedStaleExact(packets, policy);
    MergedHoldsStream(packets, policy);
    HeldIsLastCopy(stream, id);
    LastCopyInStream(stream, id, m.evidence[id].contentSha);
    assert HasOldCopy(m, stream, id, policy);
  }

  /** Stale evidence in the output is always flagged. */
  lemma OldEvidenceIsFlagged(packets: seq<Packet>, policy: Policy, c: Compiled, e: EvidenceRef)
    requires CompileSpec(packets, policy) == Ok(c) && e in c.evidence && IsStale(e, policy)
    ensures e.evidenceId in c.staleEvidence
  {
    var m := Merged(packets, EffectivePolicy(policy));
    CompiledFields(packets, policy, c);
    MergedConsistent(packets, EffectivePolicy(policy));
    LookupOrigin(m.evidence, Strings.SortedSeq(CitedIds(m, c.findings)), e);
    HeldOldIsStale(packets, EffectivePolicy(policy), e.evidenceId);
  }

  lemma LookupOrigin(held: map<string, EvidenceRef>, ids: seq<string>, e: EvidenceRef)
    requires forall id :: id in ids ==> id in held
    requires forall id :: id in held ==> held[id].evidenceId == id
    requires e in Lookup(held, ids)
    ensures e.evidenceId in held && held[e.evidenceId] == e
  {
    var i :| 0 <= i < |ids| && Lookup(held, ids)[i] == e;
    assert ids[i] in ids;
  }

  lemma {:induction false} LastCopyInStream(stream: seq<EvidenceRef>, id: string, sha: string)
    ensures var r := LastCopy(stream, id, sha); r.Some? ==> r.value in stream && r.value.evidenceId == id && r.value.contentSha == sha
  {
    if stream != [] {
      LastCopyInStream(stream[..|stream| - 1], id, sha);
      assert stream == stream[..|stream| - 1] + [stream[|stream| - 1]];
    }
  }

  /** Some delivered item with this id, and with the content that was delivered first under it, is too old. */
  ghost predicate SomeCopyOld(stream: seq<EvidenceRef>, id: string, policy: Policy) {
    && FirstCopy(stream, id).Some?
    && exists e :: e in stream && e.evidenceId == id && e.contentSha == FirstCopy(stream, id).value.contentSha && IsStale(e, policy)
  }

  /** The last delivered item with this id and that content is not too old. */
  predicate LastCopyFresh(stream: seq<EvidenceRef>, id: string, policy: Policy) {
    && FirstCopy(stream, id).Some?
    && var last := LastCopy(stream, id, FirstCopy(stream, id).value.contentSha); last.Some? && !IsStale(last.value, policy)
  }

  lemma OldCopyIsDelivered(m: Merge, stream: seq<EvidenceRef>, id: string, policy: Policy)
    requires m.evidence == HoldEvidence(map[], stream)
    ensures HasOldCopy(m, stream, id, policy) <==> SomeCopyOld(stream, id, policy)
  {
    HeldHasFirstContent(stream, id);
  }

  /** The flag can be read off the evidence as it was delivered. */
  lemma FlaggedIffSomeCopyOld(packets: seq<Packet>, policy: Policy, c: Compiled, id: string)
    requires CompileSpec(packets, policy) == Ok(c)
    ensures id in c.staleEvidence <==> SomeCopyOld(EvidenceStream(packets), id, EffectivePolicy(policy))
  {
    var p := EffectivePolicy(policy);
    CompiledFields(packets, policy, c);
    MergedStaleExact(packets, p);
    MergedHoldsStream(packets, p);
    OldCopyIsDelivered(Merged(packets, p), EvidenceStream(packets), id, p);
  }

  ghost predicate ListedFresh(evidence: seq<EvidenceRef>, id: string, policy: Policy) {
    exists e :: e in evidence && e.evidenceId == id && !IsStale(e, policy)
  }

  /** A cited item is listed as the last delivered copy of the content that came first. */
  lemma ListedIsLastCopy(packets: seq<Packet>, policy: Policy, c: Compiled, e: EvidenceRef)
    requires CompileSpec(packets, policy) == Ok(c) && e in c.evidence
    ensures var stream, id := EvidenceStream(packets), e.evidenceId;
      FirstCopy(stream, id).Some? && LastCopy(stream, id, FirstCopy(stream, id).value.contentSha) == Some(e)
  {
    var m, stream := Merged(packets, EffectivePolicy(policy)), EvidenceStream(packets);
    CompiledFields(packets, policy, c);
    MergedConsistent(packets, EffectivePolicy(policy));
    LookupOrigin(m.evidence, Strings.SortedSeq(CitedIds(m, c.findings)), e);
    MergedHoldsStream(packets, EffectivePolicy(policy));
    HeldHasFirstContent(stream, e.evidenceId);
    HeldIsLastCopy(stream, e.evidenceId);
  }

  /** Exactly when a flagged id is listed with a copy that is not too old. */
  lemma FlaggedAndFreshIff(packets: seq<Packet>, policy: Policy, c: Compiled, id: string)
    requires CompileSpec(packets, policy) == Ok(c)
    ensures var p, stream := EffectivePolicy(policy), EvidenceStream(packets);
      id in c.staleEvidence && ListedFresh(c.evidence, id, p)
      <==> Cites(c.findings, id) && SomeCopyOld(stream, id, p) && LastCopyFresh(stream, id, p)
  {
    FlaggedIffSomeCopyOld(packets, policy, c, id);
    EvidenceIsExactlyCited(packets, policy, c);
    if Cites(c.findings, id) {
      assert Listed(c.evidence, id);
      var e :| e in c.evidence && e.evidenceId == id;
      ListedIsLastCopy(packets, policy, c, e);
    }
    if ListedFresh(c.evidence, id, EffectivePolicy(policy)) {
      var e :| e in c.evidence && e.evidenceId == id && !IsStale(e, EffectivePolicy(policy));
      ListedIsLastCopy(packets, policy, c, e);
    }
  }

  // ---------------------------------------------------------------- duplicate delivery

  lemma {:induction false} RefusalOfPrefix(packets: seq<Packet>, more: seq<Packet>, n: nat, policy: Policy)
    requires n <= |packets|
    ensures Refusal(packets + more, n, policy) == Refusal(packets, n, policy)
  {
    if n > 0 { RefusalOfPrefix(packets, more, n - 1, policy); }
  }

  lemma {:induction false} RefusalOfCopy(packets: seq<Packet>, n: nat, policy: Policy)
    requires n <= |packets| && Refusal(packets, |packets|, policy).None?
    ensures Refusal(packets + packets, |packets| + n, policy).None?
  {
    if n == 0 {
      RefusalOfPrefix(packets, packets, |packets|, policy);
    } else {
      RefusalOfCopy(packets, n - 1, policy);
      RefusalNone(packets, |packets|, policy, n - 1);
      assert (packets + packets)[|packets| + n - 1] == packets[n - 1];
    }
  }

  lemma RefusalOfTwice(packets: seq<Packet>, policy: Policy)
    ensures Refusal(packets + packets, |packets + packets|, policy) == Refusal(packets, |packets|, policy)
  {
    if Refusal(packets, |packets|, policy).Some? {
      RefusalOfPrefix(packets, packets, |packets|, policy);
      RefusalPersists(packets + packets, |packets|, |packets + packets|, policy);
    } else {
      RefusalOfCopy(packets, |packets|, policy);
    }
  }

  /** Delivering every packet a second time changes nothing at all, refusals included. */
  lemma DuplicateDeliveryHarmless(packets: seq<Packet>, policy: Policy)
    ensures CompileSpec(packets + packets, policy) == CompileSpec(packets, policy)
  {
    if packets == [] {
      assert packets + packets == packets;
    } else {
      DuplicateDeliveryMerges(packets, EffectivePolicy(policy));
      RefusalOfTwice(packets, policy);
      assert (packets + packets)[0] == packets[0];
      assert PackingOf(packets + packets, policy) == PackingOf(packets, policy);
    }
  }
}
