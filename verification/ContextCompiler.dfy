/**
 * The context compiler: merge, rank, and pack greedily into a token budget. Compile is proved
 * against CompileSpec; what the output means is proved about CompileSpec.
 */
module ContextCompiler {
  import opened Common
  import opened Instants
  import opened ContextPacket
  import opened ContextMerge
  import Strings

  datatype Compiled = Compiled(
    runId: string, asOf: Time, findings: seq<Finding>, evidence: seq<EvidenceRef>, conflicts: seq<string>,
    missingEvidence: seq<string>, staleEvidence: seq<string>, droppedForBudget: seq<string>, estimatedTokenCount: int)

  datatype CompileError = NoPackets | BadPolicy | InvalidPacket(i: nat) | DifferentRun(i: nat) | FutureScope(i: nat)

  // ---------------------------------------------------------------- ranking

  function Rank(item: Ranked): int {
    match item.finding.claimType
    case Fact => if item.primary then 0 else 2
    case Calculation => 1
    case Inference => 3
    case _ => 4
  }

  /** The comparison handed to the stable sort. */
  predicate KeyLess(a: Ranked, b: Ranked) {
    if Rank(a) != Rank(b) then Rank(a) < Rank(b) else a.order < b.order
  }

  /** x goes after every entry that it does not beat. */
  function InsertRanked(sorted: seq<Ranked>, x: Ranked): (r: seq<Ranked>)
    ensures multiset(r) == multiset(sorted) + multiset{x}
  {
    if sorted == [] then [x]
    else
      var n := |sorted| - 1;
      assert sorted == sorted[..n] + [sorted[n]];
      if KeyLess(x, sorted[n]) then InsertRanked(sorted[..n], x) + [sorted[n]] else sorted + [x]
  }

  /** sort.SliceStable with KeyLess. */
  function StableSort(items: seq<Ranked>): (r: seq<Ranked>)
    ensures multiset(r) == multiset(items)
  {
    if items == [] then []
    else
      var n := |items| - 1;
      assert items == items[..n] + [items[n]];
      InsertRanked(StableSort(items[..n]), items[n])
  }

  /** a stands somewhere before b. */
  ghost predicate Precedes<T>(s: seq<T>, a: T, b: T) {
    exists i, j :: 0 <= i < j < |s| && s[i] == a && s[j] == b
  }

  lemma PrecedesSnoc<T>(s: seq<T>, x: T, a: T, b: T)
    ensures Precedes(s, a, b) ==> Precedes(s + [x], a, b)
    ensures a in s ==> Precedes(s + [x], a, x)
  {
    var t := s + [x];
    if Precedes(s, a, b) {
      var i, j :| 0 <= i < j < |s| && s[i] == a && s[j] == b;
      assert t[i] == a && t[j] == b;
    }
    if a in s {
      var i :| 0 <= i < |s| && s[i] == a;
      assert t[i] == a && t[|s|] == x;
    }
  }

  lemma {:induction false} InsertKeepsOrder(sorted: seq<Ranked>, x: Ranked, a: Ranked, b: Ranked)
    requires Precedes(sorted, a, b)
    ensures Precedes(InsertRanked(sorted, x), a, b)
  {
    var n := |sorted| - 1;
    var i, j :| 0 <= i < j < |sorted| && sorted[i] == a && sorted[j] == b;
    if KeyLess(x, sorted[n]) {
      var r := InsertRanked(sorted[..n], x);
      if j < n {
        assert sorted[..n][i] == a && sorted[..n][j] == b;
        InsertKeepsOrder(sorted[..n], x, a, b);
      } else {
        assert sorted[..n][i] == a;
        InsertMembers(sorted[..n], x, a);
      }
      PrecedesSnoc(r, sorted[n], a, b);
    } else {
      PrecedesSnoc(sorted, x, a, b);
    }
  }

  lemma InsertMembers(sorted: seq<Ranked>, x: Ranked, y: Ranked)
    ensures y in InsertRanked(sorted, x) <==> y == x || y in sorted
  {
    var r := InsertRanked(sorted, x);
    assert y in r <==> y in multiset(r);
    assert y in sorted <==> y in multiset(sorted);
  }

  ghost predicate IsSorted(s: seq<Ranked>) {
    forall i, j :: 0 <= i < j < |s| ==> !KeyLess(s[j], s[i])
  }

  lemma {:induction false} InsertSorted(sorted: seq<Ranked>, x: Ranked)
    requires IsSorted(sorted)
    ensures IsSorted(InsertRanked(sorted, x))
  {
    if sorted != [] {
      var n := |sorted| - 1;
      if KeyLess(x, sorted[n]) {
        InsertSorted(sorted[..n], x);
        var r := InsertRanked(sorted[..n], x);
        forall y | y in r ensures !KeyLess(sorted[n], y) { InsertMembers(sorted[..n], x, y); }
      }
    }
  }

  /** The newcomer lands after every entry that it does not beat. */
  lemma {:induction false} InsertAfterPeers(sorted: seq<Ranked>, x: Ranked, a: Ranked)
    requires IsSorted(sorted) && a in sorted && !KeyLess(x, a)
    ensures Precedes(InsertRanked(sorted, x), a, x)
  {
    var n := |sorted| - 1;
    if KeyLess(x, sorted[n]) {
      assert a != sorted[n];
      assert a in sorted[..n];
      InsertAfterPeers(sorted[..n], x, a);
      PrecedesSnoc(InsertRanked(sorted[..n], x), sorted[n], a, x);
    } else {
      PrecedesSnoc(sorted, x, a, x);
    }
  }

  lemma {:induction false} StableSortSorts(items: seq<Ranked>)
    ensures IsSorted(StableSort(items))
  {
    if items != [] {
      var n := |items| - 1;
      StableSortSorts(items[..n]);
      InsertSorted(StableSort(items[..n]), items[n]);
    }
  }

  lemma StableSortMembers(items: seq<Ranked>, x: Ranked)
    ensures x in StableSort(items) <==> x in items
  {
    assert x in StableSort(items) <==> x in multiset(StableSort(items));
    assert x in items <==> x in multiset(items);
  }

  /** Stability: an earlier item that the later one does not beat stays in front of it. */
  lemma {:induction false} StableSortIsStable(items: seq<Ranked>, i: nat, j: nat)
    requires i < j < |items| && !KeyLess(items[j], items[i])
    ensures Precedes(StableSort(items), items[i], items[j])
  {
    var before, last := items[..|items| - 1], items[|items| - 1];
    assert before[i] == items[i];
    if j < |items| - 1 {
      assert before[j] == items[j];
      StableSortIsStable(before, i, j);
      InsertKeepsOrder(StableSort(before), last, items[i], items[j]);
    } else {
      StableSortSorts(before);
      StableSortMembers(before, items[i]);
      InsertAfterPeers(StableSort(before), last, items[i]);
    }
  }

  // ---------------------------------------------------------------- packing

  function Cost(f: Finding): nat {
    Strings.Utf8Length(f.statement) + 32
  }

  /** How many tokens of charsPerToken characters it takes to cover chars characters. */
  function Tokens(chars: nat, charsPerToken: nat): nat
    requires charsPerToken > 0
  {
    if chars == 0 then 0
    else if chars <= charsPerToken then 1
    else 1 + Tokens(chars - charsPerToken, charsPerToken)
  }

  /** The compiler computes it by integer division. */
  lemma {:induction false} TokensIsCeilingDivision(chars: nat, charsPerToken: nat)
    requires charsPerToken > 0
    ensures Tokens(chars, charsPerToken) == (chars + charsPerToken - 1) / charsPerToken
  {
    if chars > charsPerToken {
      TokensIsCeilingDivision(chars - charsPerToken, charsPerToken);
      DivisionStep(chars - 1, charsPerToken);
    } else {
      DivisionRange(chars, charsPerToken);
    }
  }

  /** The quotient is determined by n == d * q + r with r in range. */
  lemma QuotientUnique(n: int, d: nat, q: int, r: int)
    requires 0 <= r < d && n == d * q + r
    ensures n / d == q
  {
    var p, s := n / d, n % d;
    ProductGap(d, p, q);
    ProductGap(d, q, p);
  }

  lemma {:induction false} ProductGap(d: nat, p: int, q: int)
    ensures p < q ==> d * p + d <= d * q
    decreases q - p
  {
    if p < q {
      assert d * q == d * (q - 1) + d;
      if p < q - 1 { ProductGap(d, p, q - 1); }
    }
  }

  lemma DivisionStep(a: nat, d: nat)
    requires d > 0
    ensures (a + d) / d == a / d + 1
  {
    assert d * (a / d + 1) == d * (a / d) + d;
    QuotientUnique(a + d, d, a / d + 1, a % d);
  }

  lemma DivisionRange(chars: nat, d: nat)
    requires 0 < d && chars <= d
    ensures (chars + d - 1) / d == if chars == 0 then 0 else 1
  {
    if chars == 0 {
      QuotientUnique(d - 1, d, 0, d - 1);
    } else {
      QuotientUnique(chars + d - 1, d, 1, chars - 1);
    }
  }

  datatype Packing = Packing(kept: seq<Ranked>, dropped: seq<string>, usedChars: nat)

  function Pack(items: seq<Ranked>, charsPerToken: nat, budget: int): Packing
    requires charsPerToken > 0
  {
    if items == [] then Packing([], [], 0)
    else
      var n := |items| - 1;
      var p, item := Pack(items[..n], charsPerToken, budget), items[n];
      if Tokens(p.usedChars + Cost(item.finding), charsPerToken) > budget then p.(dropped := p.dropped + [item.finding.claimId])
      else p.(kept := p.kept + [item], usedChars := p.usedChars + Cost(item.finding))
  }

  function TotalCost(items: seq<Ranked>): nat {
    if items == [] then 0 else TotalCost(items[..|items| - 1]) + Cost(items[|items| - 1].finding)
  }

  function ClaimIds(items: seq<Ranked>): (ids: seq<string>)
    ensures |ids| == |items| && forall i :: 0 <= i < |items| ==> ids[i] == items[i].finding.claimId
  {
    seq(|items|, i requires 0 <= i < |items| => items[i].finding.claimId)
  }

  lemma {:induction false} TokensMonotone(a: nat, b: nat, charsPerToken: nat)
    requires charsPerToken > 0 && a <= b
    ensures Tokens(a, charsPerToken) <= Tokens(b, charsPerToken)
  {
    if a > charsPerToken { TokensMonotone(a - charsPerToken, b - charsPerToken, charsPerToken); }
  }

  lemma TotalCostSnoc(items: seq<Ranked>, item: Ranked)
    ensures TotalCost(items + [item]) == TotalCost(items) + Cost(item.finding)
  {
    assert (items + [item])[..|items|] == items;
  }

  predicate FitsBeside(p: Packing, item: Ranked, charsPerToken: nat, budget: int)
    requires charsPerToken > 0
  {
    Tokens(p.usedChars + Cost(item.finding), charsPerToken) <= budget
  }

  /** The last item is kept when it fits beside what was kept so far, and dropped otherwise. */
  lemma PackLast(items: seq<Ranked>, charsPerToken: nat, budget: int)
    requires charsPerToken > 0 && items != []
    ensures var before, item := Pack(items[..|items| - 1], charsPerToken, budget), items[|items| - 1];
      Pack(items, charsPerToken, budget) ==
        if FitsBeside(before, item, charsPerToken, budget) then
          before.(kept := before.kept + [item], usedChars := before.usedChars + Cost(item.finding))
        else before.(dropped := before.dropped + [item.finding.claimId])
  {
  }

  /** Either way, what is used afterwards is what was used before, or it fits. */
  lemma PackTakesOrDrops(items: seq<Ranked>, charsPerToken: nat, budget: int)
    requires charsPerToken > 0 && items != []
    ensures var before, p, item := Pack(items[..|items| - 1], charsPerToken, budget), Pack(items, charsPerToken, budget), items[|items| - 1];
      || (p.kept == before.kept && p.usedChars == before.usedChars)
      || (p.kept == before.kept + [item] && p.usedChars == before.usedChars + Cost(item.finding)
          && Tokens(p.usedChars, charsPerToken) <= budget)
  {
    PackLast(items, charsPerToken, budget);
  }

  /** The character count is that of the kept findings, and it stays within budget. */
  lemma {:induction false} PackWithinBudget(items: seq<Ranked>, charsPerToken: nat, budget: int)
    requires charsPerToken > 0 && budget >= 0
    ensures var p := Pack(items, charsPerToken, budget);
      p.usedChars == TotalCost(p.kept) && Tokens(p.usedChars, charsPerToken) <= budget
  {
    if items != [] {
      PackWithinBudget(items[..|items| - 1], charsPerToken, budget);
      PackTakesOrDrops(items, charsPerToken, budget);
      TotalCostSnoc(Pack(items[..|items| - 1], charsPerToken, budget).kept, items[|items| - 1]);
    }
  }

  lemma ClaimIdsSnoc(items: seq<Ranked>, item: Ranked)
    ensures multiset(ClaimIds(items + [item])) == multiset(ClaimIds(items)) + multiset{item.finding.claimId}
  {
    assert ClaimIds(items + [item]) == ClaimIds(items) + [item.finding.claimId];
  }

  /** Nothing lost and nothing invented. */
  lemma {:induction false} PackPartitions(items: seq<Ranked>, charsPerToken: nat, budget: int)
    requires charsPerToken > 0
    ensures var p := Pack(items, charsPerToken, budget);
      multiset(ClaimIds(p.kept)) + multiset(p.dropped) == multiset(ClaimIds(items))
  {
    if items != [] {
      var before, item := items[..|items| - 1], items[|items| - 1];
      var p := Pack(before, charsPerToken, budget);
      PackPartitions(before, charsPerToken, budget);
      PackLast(items, charsPerToken, budget);
      assert items == before + [item];
      ClaimIdsSnoc(before, item);
      ClaimIdsSnoc(p.kept, item);
      assert multiset(p.dropped + [item.finding.claimId]) == multiset(p.dropped) + multiset{item.finding.claimId};
    }
  }

  /** Maximality: a dropped finding does not fit beside everything finally kept. */
  lemma {:induction false} PackIsMaximal(items: seq<Ranked>, charsPerToken: nat, budget: int, item: Ranked)
    requires charsPerToken > 0 && item in items
    ensures var p := Pack(items, charsPerToken, budget);
      item in p.kept || Tokens(p.usedChars + Cost(item.finding), charsPerToken) > budget
  {
    var n := |items| - 1;
    var before, after := Pack(items[..n], charsPerToken, budget), Pack(items, charsPerToken, budget);
    PackLast(items, charsPerToken, budget);
    if item != items[n] {
      assert item in items[..n];
      PackIsMaximal(items[..n], charsPerToken, budget, item);
      TokensMonotone(before.usedChars + Cost(item.finding), after.usedChars + Cost(item.finding), charsPerToken);
      assert item in before.kept ==> item in after.kept;
    }
  }

  lemma {:induction false} PackKeepsItems(items: seq<Ranked>, charsPerToken: nat, budget: int)
    requires charsPerToken > 0
    ensures forall x :: x in Pack(items, charsPerToken, budget).kept ==> x in items
  {
    if items != [] {
      PackKeepsItems(items[..|items| - 1], charsPerToken, budget);
      assert items == items[..|items| - 1] + [items[|items| - 1]];
    }
  }

  /** Kept items stand in the order of the list they were taken from. */
  lemma {:induction false} PackKeepsOrder(items: seq<Ranked>, charsPerToken: nat, budget: int, i: nat, j: nat)
    requires charsPerToken > 0 && i < j < |Pack(items, charsPerToken, budget).kept|
    ensures Precedes(items, Pack(items, charsPerToken, budget).kept[i], Pack(items, charsPerToken, budget).kept[j])
  {
    var n := |items| - 1;
    var before, after := Pack(items[..n], charsPerToken, budget), Pack(items, charsPerToken, budget);
    assert items == items[..n] + [items[n]];
    if j < |before.kept| {
      PackKeepsOrder(items[..n], charsPerToken, budget, i, j);
      PrecedesSnoc(items[..n], items[n], after.kept[i], after.kept[j]);
    } else {
      PackKeepsItems(items[..n], charsPerToken, budget);
      PrecedesSnoc(items[..n], items[n], after.kept[i], after.kept[j]);
    }
  }

  // ---------------------------------------------------------------- the whole compilation

  function EffectivePolicy(policy: Policy): Policy {
    if policy.charsPerToken <= 0 then policy.(charsPerToken := 4) else policy
  }

  ghost function PacketRefusal(packets: seq<Packet>, i: nat, policy: Policy): Option<CompileError>
    requires i < |packets|
  {
    if !Accepted(packets[i]) then Some(InvalidPacket(i))
    else if packets[i].runId != packets[0].runId then Some(DifferentRun(i))
    else if packets[i].scopeAsOf > policy.asOf then Some(FutureScope(i))
    else None
  }

  /** The refusal of the first refused packet among the first n. */
  ghost function Refusal(packets: seq<Packet>, n: nat, policy: Policy): Option<CompileError>
    requires n <= |packets|
  {
    if n == 0 then None
    else
      var earlier := Refusal(packets, n - 1, policy);
      if earlier.Some? then earlier else PacketRefusal(packets, n - 1, policy)
  }

  function Findings(items: seq<Ranked>): (f: seq<Finding>)
    ensures |f| == |items| && forall i :: 0 <= i < |items| ==> f[i] == items[i].finding
  {
    seq(|items|, i requires 0 <= i < |items| => items[i].finding)
  }

  predicate Cites(findings: seq<Finding>, id: string) {
    exists f :: f in findings && id in f.evidenceRefs
  }

  ghost function CitedIds(m: Merge, findings: seq<Finding>): set<string> {
    set id | id in m.evidence && Cites(findings, id)
  }

  function Lookup(evidence: map<string, EvidenceRef>, ids: seq<string>): (r: seq<EvidenceRef>)
    requires forall id :: id in ids ==> id in evidence
    ensures |r| == |ids| && forall i :: 0 <= i < |ids| ==> r[i] == evidence[ids[i]]
  {
    seq(|ids|, i requires 0 <= i < |ids| => assert ids[i] in ids; evidence[ids[i]])
  }

  ghost function PackingOf(packets: seq<Packet>, policy: Policy): Packing {
    var p := EffectivePolicy(policy);
    Pack(StableSort(Merged(packets, p).ranked), p.charsPerToken, p.tokenBudget)
  }

  ghost function Finish(packets: seq<Packet>, policy: Policy): Compiled
    requires packets != []
  {
    var p := EffectivePolicy(policy);
    var m, packing := Merged(packets, p), PackingOf(packets, policy);
    var findings := Findings(packing.kept);
    Compiled(
      packets[0].runId, p.asOf, findings, Lookup(m.evidence, Strings.SortedSeq(CitedIds(m, findings))),
      Strings.SortedSeq(m.conflicts), Strings.SortedSeq(m.missing), Strings.SortedSeq(m.stale),
      packing.dropped, Tokens(packing.usedChars, p.charsPerToken))
  }

  ghost function CompileSpec(packets: seq<Packet>, policy: Policy): Result<Compiled, CompileError> {
    if packets == [] then Err(NoPackets)
    else if policy.asOf == ZERO_TIME || policy.tokenBudget <= 0 then Err(BadPolicy)
    else
      match Refusal(packets, |packets|, policy)
      case Some(e) => Err(e)
      case None => Ok(Finish(packets, policy))
  }

  lemma {:induction false} RefusalPersists(packets: seq<Packet>, n: nat, k: nat, policy: Policy)
    requires n <= k <= |packets| && Refusal(packets, n, policy).Some?
    ensures Refusal(packets, k, policy) == Refusal(packets, n, policy)
    decreases k - n
  {
    if n < k { RefusalPersists(packets, n, k - 1, policy); }
  }

  /** The first packet refused decides the refusal of the whole list. */
  lemma RefusalStops(packets: seq<Packet>, i: nat, policy: Policy)
    requires i < |packets| && Refusal(packets, i, policy).None?
    ensures PacketRefusal(packets, i, policy) == Refusal(packets, i + 1, policy)
    ensures PacketRefusal(packets, i, policy).Some? ==> Refusal(packets, |packets|, policy) == PacketRefusal(packets, i, policy)
  {
    if Refusal(packets, i + 1, policy).Some? { RefusalPersists(packets, i + 1, |packets|, policy); }
  }

  method AbsorbPacket(m: Merge, packet: Packet, packetIndex: nat, policy: Policy) returns (r: Merge)
    ensures r == AddPacket(m, packet, packetIndex, policy)
  {
    r := m.(missing := m.missing + Members(packet.missingEvidence), conflicts := m.conflicts + Members(packet.conflicts));
    ghost var noted := r;
    for j := 0 to |packet.evidence|
      invariant r == AddAllEvidence(noted, packet.evidence[..j], policy)
    {
      var e := packet.evidence[j];
      assert packet.evidence[..j + 1][..j] == packet.evidence[..j];
      if e.evidenceId in r.evidence && r.evidence[e.evidenceId].contentSha != e.contentSha {
        r := r.(conflicts := r.conflicts + {EvidenceConflict(e.evidenceId)});
      } else {
        r := r.(evidence := r.evidence[e.evidenceId := e],
                primary := r.primary[e.evidenceId := IsPrimary(e.sourceType, policy.primarySources)]);
        if IsStale(e, policy) {
          r := r.(stale := r.stale + {e.evidenceId});
        }
      }
    }
    assert packet.evidence[..|packet.evidence|] == packet.evidence;
    ghost var withEvidence := r;
    for j := 0 to |packet.findings|
      invariant r == AddAllFindings(withEvidence, packet.findings[..j], packetIndex)
    {
      var f := packet.findings[j];
      assert packet.findings[..j + 1][..j] == packet.findings[..j];
      if f.claimId in r.claims {
        if r.claims[f.claimId].statement != f.statement || r.claims[f.claimId].claimType != f.claimType {
          r := r.(conflicts := r.conflicts + {ClaimConflict(f.claimId)});
        }
      } else {
        var primary := CitesPrimary(r, f);
        r := r.(claims := r.claims[f.claimId := f], ranked := r.ranked + [Ranked(f, primary, packetIndex * 1000 + j)]);
      }
    }
    assert packet.findings[..|packet.findings|] == packet.findings;
  }

  /** The budget loop. */
  method PackGreedily(ranked: seq<Ranked>, charsPerToken: nat, budget: int) returns (findings: seq<Finding>, dropped: seq<string>, usedChars: nat)
    requires charsPerToken > 0
    ensures var p := Pack(ranked, charsPerToken, budget);
      findings == Findings(p.kept) && dropped == p.dropped && usedChars == p.usedChars
  {
    findings, dropped, usedChars := [], [], 0;
    ghost var p := Pack([], charsPerToken, budget);
    for i := 0 to |ranked|
      invariant p == Pack(ranked[..i], charsPerToken, budget)
      invariant findings == Findings(p.kept) && dropped == p.dropped && usedChars == p.usedChars
    {
      var cost := Strings.Utf8Length(ranked[i].finding.statement) + 32;
      assert ranked[..i + 1][..i] == ranked[..i];
      p := Pack(ranked[..i + 1], charsPerToken, budget);
      TokensIsCeilingDivision(usedChars + cost, charsPerToken);
      if (usedChars + cost + charsPerToken - 1) / charsPerToken > budget {
        dropped := dropped + [ranked[i].finding.claimId];
      } else {
        findings := findings + [ranked[i].finding];
        usedChars := usedChars + cost;
      }
    }
    assert ranked[..|ranked|] == ranked;
  }

  /** The main loop: validate, then absorb. */
  lemma MergedSnoc(packets: seq<Packet>, i: nat, policy: Policy)
    requires i < |packets|
    ensures Merged(packets[..i + 1], policy) == AddPacket(Merged(packets[..i], policy), packets[i], i, policy)
  {
    assert packets[..i + 1][..i] == packets[..i];
  }

  /** The checks at the head of the main loop. */
  method RefusePacket(packets: seq<Packet>, i: nat, policy: Policy) returns (error: Option<CompileError>)
    requires i < |packets|
    ensures error == PacketRefusal(packets, i, policy)
  {
    var valid := ValidateContextPacket(packets[i]);
    if !valid { return Some(InvalidPacket(i)); }
    if packets[i].runId != packets[0].runId { return Some(DifferentRun(i)); }
    if packets[i].scopeAsOf > policy.asOf { return Some(FutureScope(i)); }
    return None;
  }

  method MergePackets(packets: seq<Packet>, policy: Policy) returns (m: Merge, error: Option<CompileError>)
    ensures error == Refusal(packets, |packets|, policy)
    ensures error.None? ==> m == Merged(packets, policy)
  {
    m := EMPTY;
    for i := 0 to |packets|
      invariant Refusal(packets, i, policy) == None
      invariant m == Merged(packets[..i], policy)
    {
      error := RefusePacket(packets, i, policy);
      RefusalStops(packets, i, policy);
      if error.Some? { return; }
      MergedSnoc(packets, i, policy);
      m := AbsorbPacket(m, packets[i], i, policy);
    }
    assert packets[..|packets|] == packets;
    return m, None;
  }

  /** The evidence loop and its sort: map iteration order does not show. */
  method CollectEvidence(m: Merge, findings: seq<Finding>) returns (evidence: seq<EvidenceRef>)
    ensures evidence == Lookup(m.evidence, Strings.SortedSeq(CitedIds(m, findings)))
  {
    var cited: set<string> := {};
    var todo := m.evidence.Keys;
    while todo != {}
      invariant todo <= m.evidence.Keys
      invariant forall id :: id in cited <==> id in m.evidence && id !in todo && Cites(findings, id)
      decreases |todo|
    {
      var id :| id in todo;
      todo := todo - {id};
      if Cites(findings, id) { cited := cited + {id}; }
    }
    assert cited == CitedIds(m, findings);
    var ids := Strings.SortedKeys(cited);
    evidence := Lookup(m.evidence, ids);
  }

  lemma {:induction false} RefusalIgnoresCharsPerToken(packets: seq<Packet>, n: nat, policy: Policy)
    requires n <= |packets|
    ensures Refusal(packets, n, EffectivePolicy(policy)) == Refusal(packets, n, policy)
  {
    if n > 0 { RefusalIgnoresCharsPerToken(packets, n - 1, policy); }
  }

  /** Everything after the main loop. */
  method AssembleContext(packets: seq<Packet>, policy: Policy, m: Merge) returns (c: Compiled)
    requires packets != [] && m == Merged(packets, EffectivePolicy(policy))
    ensures c == Finish(packets, policy)
  {
    var p := EffectivePolicy(policy);
    var findings, dropped, usedChars := PackGreedily(StableSort(m.ranked), p.charsPerToken, p.tokenBudget);
    var evidence := CollectEvidence(m, findings);
    var conflicts := Strings.SortedKeys(m.conflicts);
    var missing := Strings.SortedKeys(m.missing);
    var stale := Strings.SortedKeys(m.stale);
    TokensIsCeilingDivision(usedChars, p.charsPerToken);
    c := Compiled(packets[0].runId, p.asOf, findings, evidence, conflicts, missing, stale,
                  dropped, (usedChars + p.charsPerToken - 1) / p.charsPerToken);
  }

  method Compile(packets: seq<Packet>, policy: Policy) returns (r: Result<Compiled, CompileError>)
    ensures r == CompileSpec(packets, policy)
  {
    if |packets| == 0 { return Err(NoPackets); }
    if policy.asOf == ZERO_TIME || policy.tokenBudget <= 0 { return Err(BadPolicy); }
    RefusalIgnoresCharsPerToken(packets, |packets|, policy);
    var m, error := MergePackets(packets, EffectivePolicy(policy));
    if error.Some? { return Err(error.value); }
    var c := AssembleContext(packets, policy, m);
    return Ok(c);
  }
}
