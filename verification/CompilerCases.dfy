/** Packet lists that Compile accepts and that show where its promises end. */
module CompilerCases {
  import opened Common
  import opened Envelope
  import opened Graphs
  import opened ContextPacket
  import opened ContextMerge
  import opened ContextCompiler
  import opened CompiledContext
  import opened DeliveryOrder
  import Strings

  /** An inference with this claim id that rests on evidence "e" and assumption "a". */
  function Inferred(id: string): Finding {
    Finding(id, Inference, NoOrigin, "statement", ["e"], [], [], ["a"], 0.5, 1)
  }

  /** A packet of such inferences around one item of evidence. */
  function Delivery(ids: seq<string>, evidence: EvidenceRef): Packet {
    Packet(SCHEMA_VERSION_V1, "packet", "run", "step", "role", "objective", 1000,
           seq(|ids|, i requires 0 <= i < |ids| => Inferred(ids[i])), [evidence], [], None, [], ["a"], [], [])
  }

  function Copy(asOf: int): EvidenceRef {
    EvidenceRef("e", "filing", "here", "sha", asOf)
  }

  lemma OneLetter(c: char)
    requires !Strings.IsSpace(c)
    ensures Strings.TrimSpace([c]) == [c] && !Strings.Blank([c])
  {
    assert Strings.TrimLeft([c]) == [c];
  }

  lemma SingletonIsUnique(c: char)
    requires !Strings.IsSpace(c)
    ensures UniqueTrimmed([[c]]) && Trimmed([[c]]) == [[c]]
  {
    OneLetter(c);
  }

  lemma InferredResolves(id: string, packet: Packet)
    requires id != "" && packet.scopeAsOf >= 1 && packet.assumptions == ["a"] && EvidenceIds(packet.evidence) == ["e"]
    ensures FindingAccepted(Inferred(id), packet)
  {
    SingletonIsUnique('e');
    SingletonIsUnique('a');
    assert !Strings.IsSpace("statement"[0]);
  }

  lemma DeliveryAccepted(ids: seq<string>, asOf: int)
    requires (forall id :: id in ids ==> id != "") && 1 <= asOf <= 1000
    ensures Accepted(Delivery(ids, Copy(asOf)))
  {
    var packet := Delivery(ids, Copy(asOf));
    SingletonIsUnique('a');
    HeaderNamed(packet);
    assert EvidenceOk(Copy(asOf), 1000) by { EvidenceNamed(asOf); }
    assert EvidenceIds(packet.evidence) == ["e"];
    forall f | f in packet.findings ensures FindingAccepted(f, packet) {
      var i :| 0 <= i < |ids| && packet.findings[i] == f;
      assert ids[i] in ids;
      InferredResolves(ids[i], packet);
    }
  }

  lemma HeaderNamed(packet: Packet)
    requires exists ids, e :: packet == Delivery(ids, e)
    ensures HeaderOk(packet)
  {
    assert !Strings.IsSpace("packet"[0]) && !Strings.IsSpace("run"[0]) && !Strings.IsSpace("step"[0]);
    assert !Strings.IsSpace("role"[0]) && !Strings.IsSpace("objective"[0]);
  }

  lemma EvidenceNamed(asOf: int)
    requires 1 <= asOf <= 1000
    ensures EvidenceOk(Copy(asOf), 1000)
  {
    assert !Strings.IsSpace("e"[0]) && !Strings.IsSpace("filing"[0]) && !Strings.IsSpace("here"[0]) && !Strings.IsSpace("sha"[0]);
  }

  /** Two such packets are compiled under every policy of that date with a positive budget. */
  lemma DeliveriesCompile(first: seq<string>, second: seq<string>, asOf1: int, asOf2: int, policy: Policy)
    requires (forall id :: id in first ==> id != "") && (forall id :: id in second ==> id != "")
    requires 1 <= asOf1 <= 1000 && 1 <= asOf2 <= 1000 && policy.asOf == 1000 && policy.tokenBudget > 0
    ensures var packets := [Delivery(first, Copy(asOf1)), Delivery(second, Copy(asOf2))];
      CompileSpec(packets, policy) == Ok(Finish(packets, policy))
  {
    var packets := [Delivery(first, Copy(asOf1)), Delivery(second, Copy(asOf2))];
    DeliveryAccepted(first, asOf1);
    DeliveryAccepted(second, asOf2);
    assert PacketRefusal(packets, 0, policy).None? && PacketRefusal(packets, 1, policy).None?;
    assert Refusal(packets, 1, policy).None?;
    assert Refusal(packets, 2, policy).None?;
  }

  // ---------------------------------------------------------------- large packets

  /** Claim ids x, xx, xxx, ... */
  function Names(n: nat): (ids: seq<string>)
    ensures |ids| == n && forall i :: 0 <= i < n ==> |ids[i]| == i + 1 && ids[i][0] == 'x'
  {
    seq(n, i requires 0 <= i < n => seq(i + 1, _ => 'x'))
  }

  lemma StreamOfTwo(p: Packet, q: Packet)
    ensures FindingStream([p, q]) == p.findings + q.findings
  {
    assert [p, q][..1] == [p] && [p][..0] == [];
    assert FindingStream([p]) == [] + p.findings;
  }

  lemma NamesAreDistinct(n: nat, stream: seq<Finding>)
    requires |stream| == n + 1 && stream[n].claimId == "y"
    requires forall i :: 0 <= i < n ==> stream[i].claimId == Names(n)[i]
    ensures Distinct(FindingIds(stream))
  {
    forall i, j | 0 <= i < j < |stream| ensures FindingIds(stream)[i] != FindingIds(stream)[j] {
      if j == n { assert FindingIds(stream)[i][0] == 'x'; } else { assert |FindingIds(stream)[i]| == i + 1; }
    }
  }

  lemma AllInferences(packets: seq<Packet>, policy: Policy)
    requires forall f :: f in FindingStream(packets) ==> f.claimType == Inference
    requires Distinct(FindingIds(FindingStream(packets)))
    ensures OneRank(Merged(packets, policy).ranked)
  {
    var ranked := Merged(packets, policy).ranked;
    RankedIsStream(packets, policy);
    forall item | item in ranked ensures Rank(item) == 3 {
      var k :| 0 <= k < |ranked| && ranked[k] == item;
      assert Findings(ranked)[k] in FindingStream(packets);
    }
  }

  /** n inferences in a first packet, one in a second. */
  function LargeDelivery(n: nat): (packets: seq<Packet>)
    ensures |packets| == 2 && |packets[0].findings| == n && |packets[1].findings| == 1
  {
    [Delivery(Names(n), Copy(1)), Delivery(["y"], Copy(1))]
  }

  function AmplePolicy(packets: seq<Packet>): Policy {
    Policy(1000, 0, Tokens(FindingsCost(FindingStream(packets)), 1) + 1, 1, [])
  }

  lemma LargeDeliveryStream(n: nat)
    ensures Distinct(FindingIds(FindingStream(LargeDelivery(n))))
    ensures forall f :: f in FindingStream(LargeDelivery(n)) ==> f.claimType == Inference
  {
    var packets := LargeDelivery(n);
    StreamOfTwo(packets[0], packets[1]);
    NamesAreDistinct(n, FindingStream(packets));
  }

  lemma LargeDeliveryCompiles(n: nat, policy: Policy)
    requires policy.asOf == 1000 && policy.tokenBudget > 0
    ensures CompileSpec(LargeDelivery(n), policy) == Ok(Finish(LargeDelivery(n), policy))
  {
    DeliveriesCompile(Names(n), ["y"], 1, 1, policy);
  }

  lemma LargeSizes(packets: seq<Packet>)
    requires |packets| == 2 && |packets[1].findings| == 1
    ensures SizesFollow(Sizes(packets)) <==> |packets[0].findings| <= 1001
  {
    assert Sizes(packets)[0] == |packets[0].findings| && Sizes(packets)[1] == 1;
  }

  /** A packet of more than 1001 inferences before another: all are kept, but not in delivery order. */
  lemma LargePacketsAreReordered(n: nat)
    ensures var packets := LargeDelivery(n); var r := CompileSpec(packets, AmplePolicy(packets));
      && r.Ok? && r.value.droppedForBudget == []
      && (r.value.findings == FindingStream(packets) <==> n <= 1001)
  {
    var packets := LargeDelivery(n);
    var policy := AmplePolicy(packets);
    LargeDeliveryStream(n);
    AllInferences(packets, EffectivePolicy(policy));
    LargeDeliveryCompiles(n, policy);
    ListedAsDeliveredIff(packets, policy, Finish(packets, policy));
    LargeSizes(packets);
  }

  // ---------------------------------------------------------------- renewed evidence

  lemma HoldTwo(a: EvidenceRef, b: EvidenceRef)
    requires a.evidenceId == b.evidenceId && a.contentSha == b.contentSha
    ensures HoldEvidence(map[], [a, b]) == map[b.evidenceId := b]
  {
    var stream := [a, b];
    assert stream[..1] == [a] && stream[..1][..0] == [];
    assert HoldEvidence(map[], stream[..1]) == map[a.evidenceId := a];
  }

  lemma EvidenceOfTwo(p: Packet, q: Packet)
    ensures EvidenceStream([p, q]) == p.evidence + q.evidence
  {
    assert [p, q][..1] == [p] && [p][..0] == [];
    assert EvidenceStream([p]) == [] + p.evidence;
  }

  lemma HeldAfterTwo(packets: seq<Packet>, policy: Policy, a: EvidenceRef, b: EvidenceRef)
    requires |packets| == 2 && packets[0].evidence == [a] && packets[1].evidence == [b]
    requires a.evidenceId == b.evidenceId && a.contentSha == b.contentSha
    ensures EvidenceStream(packets) == [a, b]
    ensures Merged(packets, policy).evidence == map[b.evidenceId := b]
  {
    assert packets == [packets[0], packets[1]] && [a] + [b] == [a, b];
    EvidenceOfTwo(packets[0], packets[1]);
    HoldTwo(a, b);
    MergedHoldsStream(packets, policy);
  }

  lemma OneIsCheap(f: Finding)
    requires |f.statement| <= 9
    ensures Tokens(FindingsCost([f]), 4) <= 100
  {
    assert [f][..0] == [];
    TokensIsCeilingDivision(FindingsCost([f]), 4);
  }

  lemma OneInStream(packets: seq<Packet>, f: Finding)
    requires |packets| == 2 && packets[0].findings == [] && packets[1].findings == [f]
    ensures FindingStream(packets) == [f] && Distinct(FindingIds(FindingStream(packets)))
  {
    assert packets == [packets[0], packets[1]];
    StreamOfTwo(packets[0], packets[1]);
  }

  lemma SortOfOne(ranked: seq<Ranked>)
    requires |ranked| == 1
    ensures StableSort(ranked) == ranked
  {
    assert ranked == [ranked[0]] && ranked[..0] == [];
  }

  /** A single affordable finding is kept. */
  lemma OneIsPacked(packets: seq<Packet>, policy: Policy, f: Finding)
    requires FindingStream(packets) == [f] && policy.charsPerToken == 4 && Tokens(FindingsCost([f]), 4) <= policy.tokenBudget
    ensures Findings(PackingOf(packets, policy).kept) == [f]
  {
    var ranked := Merged(packets, policy).ranked;
    RankedIsStream(packets, policy);
    assert |Findings(ranked)| == 1;
    SortOfOne(ranked);
    AffordedIsKept(ranked, 4, policy.tokenBudget);
  }

  lemma OnlyOneListed(evidence: seq<EvidenceRef>, only: EvidenceRef)
    requires Listed(evidence, only.evidenceId) && Strings.StrictlySorted(EvidenceIds(evidence))
    requires forall e :: e in evidence ==> e == only
    ensures evidence == [only]
  {
    if |evidence| > 1 {
      assert evidence[0] in evidence && evidence[1] in evidence;
      assert Strings.Less(EvidenceIds(evidence)[0], EvidenceIds(evidence)[1]);
      Strings.LessTotal(only.evidenceId, only.evidenceId);
      assert false;
    }
  }

  lemma HeldIsListed(packets: seq<Packet>, policy: Policy, c: Compiled, held: EvidenceRef)
    requires CompileSpec(packets, policy) == Ok(c) && c.findings == [Inferred("y")]
    requires held.evidenceId == "e" && Merged(packets, EffectivePolicy(policy)).evidence == map["e" := held]
    ensures c.evidence == [held]
  {
    var m := Merged(packets, EffectivePolicy(policy));
    CompiledFields(packets, policy, c);
    EvidenceIsExactlyCited(packets, policy, c);
    assert Cites(c.findings, "e") by { assert c.findings[0] in c.findings; }
    forall e | e in c.evidence ensures e == held {
      LookupOrigin(m.evidence, Strings.SortedSeq(CitedIds(m, c.findings)), e);
    }
    OnlyOneListed(c.evidence, held);
  }

  /** Of two items of equal content under one id the first one is old. */
  lemma FirstOfTwoOld(a: EvidenceRef, b: EvidenceRef, policy: Policy)
    requires a.evidenceId == b.evidenceId && a.contentSha == b.contentSha && IsStale(a, policy)
    ensures SomeCopyOld([a, b], a.evidenceId, policy)
  {
    var stream := [a, b];
    assert stream[..1] == [a] && stream[..1][..0] == [];
    assert FirstCopy(stream[..1], a.evidenceId) == Some(a);
    assert stream[0] in stream;
  }

  /** An old copy of the item, then a finding that cites a fresh one of equal content. */
  function Renewal(): seq<Packet> {
    [Delivery([], Copy(1)), Delivery(["y"], Copy(999))]
  }

  const RENEWAL_POLICY := Policy(1000, 10, 100, 4, [])

  lemma RenewalEvidence()
    ensures EvidenceStream(Renewal()) == [Copy(1), Copy(999)]
    ensures Merged(Renewal(), EffectivePolicy(RENEWAL_POLICY)).evidence == map["e" := Copy(999)]
  {
    HeldAfterTwo(Renewal(), EffectivePolicy(RENEWAL_POLICY), Copy(1), Copy(999));
  }

  lemma RenewalFindings()
    ensures Findings(PackingOf(Renewal(), RENEWAL_POLICY).kept) == [Inferred("y")]
  {
    OneInStream(Renewal(), Inferred("y"));
    OneIsCheap(Inferred("y"));
    OneIsPacked(Renewal(), RENEWAL_POLICY, Inferred("y"));
  }

  lemma RenewalCompiles()
    ensures CompileSpec(Renewal(), RENEWAL_POLICY) == Ok(Finish(Renewal(), RENEWAL_POLICY))
  {
    DeliveriesCompile([], ["y"], 1, 999, RENEWAL_POLICY);
  }

  /** An old copy followed by a fresh one of equal content: the id is flagged, and the copy listed is the fresh one. */
  lemma FlaggedMayBeFresh() returns (packets: seq<Packet>, policy: Policy, renewed: EvidenceRef)
    ensures CompileSpec(packets, policy).Ok?
    ensures CompileSpec(packets, policy).value.evidence == [renewed] && !IsStale(renewed, policy)
    ensures renewed.evidenceId in CompileSpec(packets, policy).value.staleEvidence
  {
    packets, policy, renewed := Renewal(), RENEWAL_POLICY, Copy(999);
    var c := Finish(packets, policy);
    RenewalCompiles();
    RenewalEvidence();
    RenewalFindings();
    CompiledFields(packets, policy, c);
    HeldIsListed(packets, policy, c, renewed);
    FirstOfTwoOld(Copy(1), renewed, EffectivePolicy(policy));
    FlaggedIffSomeCopyOld(packets, policy, c, "e");
  }
}
