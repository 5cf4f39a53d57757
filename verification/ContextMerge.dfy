/**
 * The merging half of the context compiler: packets are absorbed one by one into a set of maps,
 * with first-wins rules for claims and for evidence identity.
 */
module ContextMerge {
  import opened Common
  import opened Instants
  import opened ContextPacket

  /** maxEvidenceAge is a duration in nanoseconds; zero or less switches staleness off. */
  datatype Policy = Policy(asOf: Time, maxEvidenceAge: int, tokenBudget: int, charsPerToken: int, primarySources: seq<string>)

  datatype Ranked = Ranked(finding: Finding, primary: bool, order: int)

  /** The working maps of one compilation. */
  datatype Merge = Merge(
    evidence: map<string, EvidenceRef>, primary: map<string, bool>, claims: map<string, Finding>, ranked: seq<Ranked>,
    conflicts: set<string>, missing: set<string>, stale: set<string>)

  const EMPTY := Merge(map[], map[], map[], [], {}, {}, {})

  function Lower(c: char): char {
    if 'A' <= c <= 'Z' then (c as int + 32) as char else c
  }

  /** strings.EqualFold on ASCII. */
  predicate EqualFold(a: string, b: string) {
    |a| == |b| && forall i :: 0 <= i < |a| ==> Lower(a[i]) == Lower(b[i])
  }

  predicate IsPrimary(source: string, primarySources: seq<string>) {
    exists p :: p in primarySources && EqualFold(source, p)
  }

  predicate IsStale(e: EvidenceRef, policy: Policy) {
    policy.maxEvidenceAge > 0 && Since(policy.asOf, e.asOf) > policy.maxEvidenceAge
  }

  function EvidenceConflict(id: string): string { "evidence_identity:" + id }

  function ClaimConflict(id: string): string { "claim_identity:" + id }

  function AddEvidence(m: Merge, e: EvidenceRef, policy: Policy): Merge {
    if e.evidenceId in m.evidence && m.evidence[e.evidenceId].contentSha != e.contentSha then
      m.(conflicts := m.conflicts + {EvidenceConflict(e.evidenceId)})
    else
      m.(evidence := m.evidence[e.evidenceId := e],
         primary := m.primary[e.evidenceId := IsPrimary(e.sourceType, policy.primarySources)],
         stale := if IsStale(e, policy) then m.stale + {e.evidenceId} else m.stale)
  }

  predicate SameClaim(f: Finding, g: Finding) {
    f.statement == g.statement && f.claimType == g.claimType
  }

  predicate CitesPrimary(m: Merge, f: Finding) {
    exists ref :: ref in f.evidenceRefs && ref in m.primary && m.primary[ref]
  }

  function AddFinding(m: Merge, f: Finding, order: int): Merge {
    if f.claimId in m.claims then
      if SameClaim(m.claims[f.claimId], f) then m else m.(conflicts := m.conflicts + {ClaimConflict(f.claimId)})
    else
      m.(claims := m.claims[f.claimId := f], ranked := m.ranked + [Ranked(f, CitesPrimary(m, f), order)])
  }

  function AddAllEvidence(m: Merge, evidence: seq<EvidenceRef>, policy: Policy): Merge {
    if evidence == [] then m
    else AddEvidence(AddAllEvidence(m, evidence[..|evidence| - 1], policy), evidence[|evidence| - 1], policy)
  }

  function AddAllFindings(m: Merge, findings: seq<Finding>, packetIndex: nat): Merge {
    if findings == [] then m
    else
      var n := |findings| - 1;
      AddFinding(AddAllFindings(m, findings[..n], packetIndex), findings[n], packetIndex * 1000 + n)
  }

  function Members(s: seq<string>): set<string> {
    set x | x in s
  }

  function AddPacket(m: Merge, p: Packet, packetIndex: nat, policy: Policy): Merge {
    var noted := m.(missing := m.missing + Members(p.missingEvidence), conflicts := m.conflicts + Members(p.conflicts));
    AddAllFindings(AddAllEvidence(noted, p.evidence, policy), p.findings, packetIndex)
  }

  /** The maps after the main loop. */
  function Merged(packets: seq<Packet>, policy: Policy): Merge {
    if packets == [] then EMPTY
    else
      var n := |packets| - 1;
      AddPacket(Merged(packets[..n], policy), packets[n], n, policy)
  }

  // ---------------------------------------------------------------- first wins: nothing settled is revisited

  /** m1 has everything m has; identities that m fixed are the same in m1. */
  ghost predicate Extends(m: Merge, m1: Merge) {
    && m.conflicts <= m1.conflicts && m.missing <= m1.missing && m.stale <= m1.stale
    && (forall id :: id in m.claims ==> id in m1.claims && m1.claims[id] == m.claims[id])
    && (forall id :: id in m.evidence ==> id in m1.evidence && m1.evidence[id].contentSha == m.evidence[id].contentSha)
  }

  lemma {:induction false} AddAllEvidenceExtends(m: Merge, evidence: seq<EvidenceRef>, policy: Policy)
    ensures Extends(m, AddAllEvidence(m, evidence, policy))
  {
    if evidence != [] { AddAllEvidenceExtends(m, evidence[..|evidence| - 1], policy); }
  }

  lemma {:induction false} AddAllFindingsExtends(m: Merge, findings: seq<Finding>, packetIndex: nat)
    ensures Extends(m, AddAllFindings(m, findings, packetIndex))
  {
    if findings != [] { AddAllFindingsExtends(m, findings[..|findings| - 1], packetIndex); }
  }

  /** e has been absorbed: its identity is fixed, and its conflict or staleness is on record. */
  ghost predicate EvidenceSettled(m: Merge, e: EvidenceRef, policy: Policy) {
    && e.evidenceId in m.evidence
    && (m.evidence[e.evidenceId].contentSha != e.contentSha ==> EvidenceConflict(e.evidenceId) in m.conflicts)
    && (m.evidence[e.evidenceId].contentSha == e.contentSha && IsStale(e, policy) ==> e.evidenceId in m.stale)
  }

  ghost predicate FindingSettled(m: Merge, f: Finding) {
    f.claimId in m.claims && (!SameClaim(m.claims[f.claimId], f) ==> ClaimConflict(f.claimId) in m.conflicts)
  }

  ghost predicate Settled(m: Merge, p: Packet, policy: Policy) {
    && Members(p.missingEvidence) <= m.missing && Members(p.conflicts) <= m.conflicts
    && (forall e :: e in p.evidence ==> EvidenceSettled(m, e, policy))
    && (forall f :: f in p.findings ==> FindingSettled(m, f))
  }

  lemma SettledStays(m: Merge, m1: Merge, p: Packet, policy: Policy)
    requires Settled(m, p, policy) && Extends(m, m1)
    ensures Settled(m1, p, policy)
  {
    forall e | e in p.evidence ensures EvidenceSettled(m1, e, policy) { assert EvidenceSettled(m, e, policy); }
    forall f | f in p.findings ensures FindingSettled(m1, f) { assert FindingSettled(m, f); }
  }

  lemma {:induction false} AddAllEvidenceSettles(m: Merge, evidence: seq<EvidenceRef>, policy: Policy)
    ensures forall e :: e in evidence ==> EvidenceSettled(AddAllEvidence(m, evidence, policy), e, policy)
  {
    if evidence != [] {
      var n := |evidence| - 1;
      AddAllEvidenceSettles(m, evidence[..n], policy);
      var before, after := AddAllEvidence(m, evidence[..n], policy), AddAllEvidence(m, evidence, policy);
      assert evidence == evidence[..n] + [evidence[n]];
      forall e | e in evidence ensures EvidenceSettled(after, e, policy) {
        if e in evidence[..n] { assert EvidenceSettled(before, e, policy); }
      }
    }
  }

  lemma {:induction false} AddAllFindingsSettles(m: Merge, findings: seq<Finding>, packetIndex: nat)
    ensures forall f :: f in findings ==> FindingSettled(AddAllFindings(m, findings, packetIndex), f)
  {
    if findings != [] {
      var n := |findings| - 1;
      AddAllFindingsSettles(m, findings[..n], packetIndex);
      var before, after := AddAllFindings(m, findings[..n], packetIndex), AddAllFindings(m, findings, packetIndex);
      assert findings == findings[..n] + [findings[n]];
      forall f | f in findings ensures FindingSettled(after, f) {
        if f in findings[..n] { assert FindingSettled(before, f); }
      }
    }
  }

  lemma AddPacketSettles(m: Merge, p: Packet, packetIndex: nat, policy: Policy)
    ensures Extends(m, AddPacket(m, p, packetIndex, policy))
    ensures Settled(AddPacket(m, p, packetIndex, policy), p, policy)
  {
    var noted := m.(missing := m.missing + Members(p.missingEvidence), conflicts := m.conflicts + Members(p.conflicts));
    var withEvidence := AddAllEvidence(noted, p.evidence, policy);
    var done := AddAllFindings(withEvidence, p.findings, packetIndex);
    AddAllEvidenceExtends(noted, p.evidence, policy);
    AddAllEvidenceSettles(noted, p.evidence, policy);
    AddAllFindingsExtends(withEvidence, p.findings, packetIndex);
    AddAllFindingsSettles(withEvidence, p.findings, packetIndex);
    forall e | e in p.evidence ensures EvidenceSettled(done, e, policy) { assert EvidenceSettled(withEvidence, e, policy); }
  }

  lemma {:induction false} MergedSettles(packets: seq<Packet>, policy: Policy)
    ensures forall p :: p in packets ==> Settled(Merged(packets, policy), p, policy)
  {
    if packets != [] {
      var n := |packets| - 1;
      MergedSettles(packets[..n], policy);
      var before, after := Merged(packets[..n], policy), Merged(packets, policy);
      AddPacketSettles(before, packets[n], n, policy);
      assert packets == packets[..n] + [packets[n]];
      forall p | p in packets ensures Settled(after, p, policy) {
        if p in packets[..n] { SettledStays(before, after, p, policy); }
      }
    }
  }

  /** Equal up to which of several equal-hash copies of an evidence item is held. */
  ghost predicate Agree(m: Merge, m1: Merge) {
    && m.claims == m1.claims && m.ranked == m1.ranked && m.conflicts == m1.conflicts
    && m.missing == m1.missing && m.stale == m1.stale && m.evidence.Keys == m1.evidence.Keys
    && forall id :: id in m.evidence ==> m.evidence[id].contentSha == m1.evidence[id].contentSha
  }

  lemma {:induction false} SettledEvidenceChangesNothing(m: Merge, evidence: seq<EvidenceRef>, policy: Policy)
    requires forall e :: e in evidence ==> EvidenceSettled(m, e, policy)
    ensures Agree(m, AddAllEvidence(m, evidence, policy))
  {
    if evidence != [] {
      var n := |evidence| - 1;
      SettledEvidenceChangesNothing(m, evidence[..n], policy);
      assert EvidenceSettled(m, evidence[n], policy);
    }
  }

  lemma {:induction false} SettledFindingsChangeNothing(m: Merge, findings: seq<Finding>, packetIndex: nat)
    requires forall f :: f in findings ==> FindingSettled(m, f)
    ensures AddAllFindings(m, findings, packetIndex) == m
  {
    if findings != [] {
      var n := |findings| - 1;
      SettledFindingsChangeNothing(m, findings[..n], packetIndex);
      assert FindingSettled(m, findings[n]);
    }
  }

  lemma SettledPacketChangesNothing(m: Merge, p: Packet, packetIndex: nat, policy: Policy)
    requires Settled(m, p, policy)
    ensures Agree(m, AddPacket(m, p, packetIndex, policy))
  {
    var noted := m.(missing := m.missing + Members(p.missingEvidence), conflicts := m.conflicts + Members(p.conflicts));
    assert noted == m;
    SettledEvidenceChangesNothing(m, p.evidence, policy);
    var withEvidence := AddAllEvidence(m, p.evidence, policy);
    forall f | f in p.findings ensures FindingSettled(withEvidence, f) { assert FindingSettled(m, f); }
    SettledFindingsChangeNothing(withEvidence, p.findings, packetIndex);
  }

  lemma {:induction false} SecondCopyAgrees(packets: seq<Packet>, copy: seq<Packet>, policy: Policy)
    requires forall p :: p in copy ==> p in packets
    ensures Agree(Merged(packets, policy), Merged(packets + copy, policy))
  {
    if copy == [] {
      assert packets + copy == packets;
    } else {
      var n := |copy| - 1;
      SecondCopyAgrees(packets, copy[..n], policy);
      assert (packets + copy)[..|packets| + n] == packets + copy[..n];
      var once, before := Merged(packets, policy), Merged(packets + copy[..n], policy);
      MergedSettles(packets, policy);
      assert copy[n] in packets;
      SettledStays(once, before, copy[n], policy);
      SettledPacketChangesNothing(before, copy[n], |packets| + n, policy);
    }
  }

  // ---------------------------------------------------------------- which copy of an evidence item is held

  function HoldEvidence(held: map<string, EvidenceRef>, evidence: seq<EvidenceRef>): map<string, EvidenceRef> {
    if evidence == [] then held
    else
      var e, before := evidence[|evidence| - 1], HoldEvidence(held, evidence[..|evidence| - 1]);
      if e.evidenceId in before && before[e.evidenceId].contentSha != e.contentSha then before
      else before[e.evidenceId := e]
  }

  function EvidenceStream(packets: seq<Packet>): seq<EvidenceRef> {
    if packets == [] then [] else EvidenceStream(packets[..|packets| - 1]) + packets[|packets| - 1].evidence
  }

  /** The last item in the stream with this id and this content. */
  function LastCopy(evidence: seq<EvidenceRef>, id: string, sha: string): Option<EvidenceRef> {
    if evidence == [] then None
    else
      var e := evidence[|evidence| - 1];
      if e.evidenceId == id && e.contentSha == sha then Some(e) else LastCopy(evidence[..|evidence| - 1], id, sha)
  }

  /** The first item in the stream with this id: its content is the one that wins. */
  function FirstCopy(evidence: seq<EvidenceRef>, id: string): Option<EvidenceRef> {
    if evidence == [] then None
    else
      var earlier, e := FirstCopy(evidence[..|evidence| - 1], id), evidence[|evidence| - 1];
      if earlier.Some? then earlier else if e.evidenceId == id then Some(e) else None
  }

  /** From nothing, exactly the ids of the stream are held, each with the content that came first. */
  lemma {:induction false} HeldHasFirstContent(evidence: seq<EvidenceRef>, id: string)
    ensures var held := HoldEvidence(map[], evidence); id in held <==> FirstCopy(evidence, id).Some?
    ensures var held := HoldEvidence(map[], evidence);
      id in held && FirstCopy(evidence, id).Some? ==> held[id].contentSha == FirstCopy(evidence, id).value.contentSha
  {
    if evidence != [] { HeldHasFirstContent(evidence[..|evidence| - 1], id); }
  }

  lemma {:induction false} HoldEvidenceConcat(held: map<string, EvidenceRef>, a: seq<EvidenceRef>, b: seq<EvidenceRef>)
    ensures HoldEvidence(held, a + b) == HoldEvidence(HoldEvidence(held, a), b)
  {
    if b == [] {
      assert a + b == a;
    } else {
      assert (a + b)[..|a + b| - 1] == a + b[..|b| - 1];
      HoldEvidenceConcat(held, a, b[..|b| - 1]);
    }
  }

  lemma {:induction false} AddAllEvidenceHolds(m: Merge, evidence: seq<EvidenceRef>, policy: Policy)
    ensures AddAllEvidence(m, evidence, policy).evidence == HoldEvidence(m.evidence, evidence)
  {
    if evidence != [] { AddAllEvidenceHolds(m, evidence[..|evidence| - 1], policy); }
  }

  lemma {:induction false} AddAllFindingsKeepsEvidence(m: Merge, findings: seq<Finding>, packetIndex: nat)
    ensures AddAllFindings(m, findings, packetIndex).evidence == m.evidence
    ensures AddAllFindings(m, findings, packetIndex).primary == m.primary
    ensures AddAllFindings(m, findings, packetIndex).stale == m.stale
  {
    if findings != [] { AddAllFindingsKeepsEvidence(m, findings[..|findings| - 1], packetIndex); }
  }

  lemma {:induction false} MergedHoldsStream(packets: seq<Packet>, policy: Policy)
    ensures Merged(packets, policy).evidence == HoldEvidence(map[], EvidenceStream(packets))
  {
    if packets != [] {
      var n := |packets| - 1;
      var p, before := packets[n], Merged(packets[..n], policy);
      MergedHoldsStream(packets[..n], policy);
      var noted := before.(missing := before.missing + Members(p.missingEvidence), conflicts := before.conflicts + Members(p.conflicts));
      AddAllEvidenceHolds(noted, p.evidence, policy);
      AddAllFindingsKeepsEvidence(AddAllEvidence(noted, p.evidence, policy), p.findings, n);
      HoldEvidenceConcat(map[], EvidenceStream(packets[..n]), p.evidence);
    }
  }

  lemma {:induction false} StreamConcat(a: seq<Packet>, b: seq<Packet>)
    ensures EvidenceStream(a + b) == EvidenceStream(a) + EvidenceStream(b)
  {
    if b == [] {
      assert a + b == a;
    } else {
      assert (a + b)[..|a + b| - 1] == a + b[..|b| - 1];
      StreamConcat(a, b[..|b| - 1]);
    }
  }

  /** From nothing, the copy held is the last one with the content that came first. */
  lemma {:induction false} HeldIsLastCopy(evidence: seq<EvidenceRef>, id: string)
    ensures var held := HoldEvidence(map[], evidence);
      id in held ==> LastCopy(evidence, id, held[id].contentSha) == Some(held[id])
  {
    if evidence != [] { HeldIsLastCopy(evidence[..|evidence| - 1], id); }
  }

  /** Over a map that knows all ids, content stays put and the last equal copy is held. */
  lemma {:induction false} ReplayHoldsLastCopy(held: map<string, EvidenceRef>, evidence: seq<EvidenceRef>, id: string)
    requires forall e :: e in evidence ==> e.evidenceId in held
    requires id in held
    ensures var after := HoldEvidence(held, evidence);
      && after.Keys == held.Keys && after[id].contentSha == held[id].contentSha
      && after[id] == match LastCopy(evidence, id, held[id].contentSha) { case Some(e) => e case None => held[id] }
  {
    if evidence != [] { ReplayHoldsLastCopy(held, evidence[..|evidence| - 1], id); }
  }

  lemma {:induction false} HeldKnowsAllIds(held: map<string, EvidenceRef>, evidence: seq<EvidenceRef>)
    ensures forall e :: e in evidence ==> e.evidenceId in HoldEvidence(held, evidence)
    ensures held.Keys <= HoldEvidence(held, evidence).Keys
  {
    if evidence != [] {
      HeldKnowsAllIds(held, evidence[..|evidence| - 1]);
      assert evidence == evidence[..|evidence| - 1] + [evidence[|evidence| - 1]];
    }
  }

  lemma ReplayIsIdentity(evidence: seq<EvidenceRef>)
    ensures HoldEvidence(HoldEvidence(map[], evidence), evidence) == HoldEvidence(map[], evidence)
  {
    var held := HoldEvidence(map[], evidence);
    var after := HoldEvidence(held, evidence);
    HeldKnowsAllIds(map[], evidence);
    HeldKnowsAllIds(held, evidence);
    forall id | id in held ensures id in after && after[id] == held[id] {
      HeldIsLastCopy(evidence, id);
      ReplayHoldsLastCopy(held, evidence, id);
    }
    if evidence != [] {
      ReplayHoldsLastCopy(held, evidence, evidence[0].evidenceId);
    }
  }

  // ---------------------------------------------------------------- consistency of the maps

  ghost predicate Consistent(m: Merge, policy: Policy) {
    && m.primary.Keys == m.evidence.Keys
    && (forall id :: id in m.evidence ==>
          m.evidence[id].evidenceId == id && m.primary[id] == IsPrimary(m.evidence[id].sourceType, policy.primarySources))
  }

  lemma {:induction false} AddAllEvidenceConsistent(m: Merge, evidence: seq<EvidenceRef>, policy: Policy)
    requires Consistent(m, policy)
    ensures Consistent(AddAllEvidence(m, evidence, policy), policy)
  {
    if evidence != [] { AddAllEvidenceConsistent(m, evidence[..|evidence| - 1], policy); }
  }

  lemma {:induction false} MergedConsistent(packets: seq<Packet>, policy: Policy)
    ensures Consistent(Merged(packets, policy), policy)
  {
    if packets != [] {
      var n := |packets| - 1;
      var p, before := packets[n], Merged(packets[..n], policy);
      MergedConsistent(packets[..n], policy);
      var noted := before.(missing := before.missing + Members(p.missingEvidence), conflicts := before.conflicts + Members(p.conflicts));
      AddAllEvidenceConsistent(noted, p.evidence, policy);
      AddAllFindingsKeepsEvidence(AddAllEvidence(noted, p.evidence, policy), p.findings, n);
    }
  }

  /** Delivering every packet twice leaves the very same maps. */
  lemma DuplicateDeliveryMerges(packets: seq<Packet>, policy: Policy)
    ensures Merged(packets + packets, policy) == Merged(packets, policy)
  {
    var once, twice := Merged(packets, policy), Merged(packets + packets, policy);
    SecondCopyAgrees(packets, packets, policy);
    MergedHoldsStream(packets, policy);
    MergedHoldsStream(packets + packets, policy);
    StreamConcat(packets, packets);
    HoldEvidenceConcat(map[], EvidenceStream(packets), EvidenceStream(packets));
    ReplayIsIdentity(EvidenceStream(packets));
    MergedConsistent(packets, policy);
    MergedConsistent(packets + packets, policy);
    assert once.primary == twice.primary;
  }
}
