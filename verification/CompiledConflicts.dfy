/** The conflicts and the missing evidence of a compiled context, in terms of the delivered packets. */
module CompiledConflicts {
  import opened Common
  import opened ContextPacket
  import opened ContextMerge
  import opened ContextCompiler
  import opened CompiledContext
  import Strings

  /** Two delivered items share this id but not their content. */
  ghost predicate EvidenceClash(stream: seq<EvidenceRef>, id: string) {
    exists i, j :: 0 <= i < j < |stream| && stream[i].evidenceId == stream[j].evidenceId == id
      && stream[i].contentSha != stream[j].contentSha
  }

  /** Two delivered findings share this claim but not their statement and type. */
  ghost predicate ClaimClash(stream: seq<Finding>, id: string) {
    exists i, j :: 0 <= i < j < |stream| && stream[i].claimId == stream[j].claimId == id
      && (stream[i].statement != stream[j].statement || stream[i].claimType != stream[j].claimType)
  }

  /** A conflict is one that a packet delivered, or names an evidence id or a claim that clashes. */
  ghost predicate IsConflict(delivered: set<string>, evidence: seq<EvidenceRef>, findings: seq<Finding>, s: string) {
    || s in delivered
    || (exists id :: s == "evidence_identity:" + id && EvidenceClash(evidence, id))
    || (exists id :: s == "claim_identity:" + id && ClaimClash(findings, id))
  }

  ghost predicate ConflictsAre(m: Merge, delivered: set<string>, evidence: seq<EvidenceRef>, findings: seq<Finding>) {
    && (forall s :: s in m.conflicts <==> IsConflict(delivered, evidence, findings, s))
    && (forall e :: e in evidence ==> e.evidenceId in m.evidence)
    && (forall id :: id in m.evidence ==> Delivers(evidence, id, m.evidence[id].contentSha))
    && (forall f :: f in findings ==> f.claimId in m.claims)
    && (forall id :: id in m.claims ==> m.claims[id].claimId == id && m.claims[id] in findings)
  }

  ghost predicate Delivers(evidence: seq<EvidenceRef>, id: string, sha: string) {
    exists e :: e in evidence && e.evidenceId == id && e.contentSha == sha
  }

  lemma EvidenceClashSnoc(stream: seq<EvidenceRef>, e: EvidenceRef, id: string, held: Option<string>)
    requires held.None? <==> forall x :: x in stream ==> x.evidenceId != e.evidenceId
    requires held.Some? ==> Delivers(stream, e.evidenceId, held.value)
    ensures EvidenceClash(stream + [e], id) <==> EvidenceClash(stream, id) || (id == e.evidenceId && held.Some? && held.value != e.contentSha)
  {
    var all := stream + [e];
    if EvidenceClash(stream, id) {
      var i, j :| 0 <= i < j < |stream| && stream[i].evidenceId == stream[j].evidenceId == id && stream[i].contentSha != stream[j].contentSha;
      assert all[i] == stream[i] && all[j] == stream[j];
    }
    if id == e.evidenceId && held.Some? && held.value != e.contentSha {
      var x :| x in stream && x.evidenceId == id && x.contentSha == held.value;
      var i :| 0 <= i < |stream| && stream[i] == x;
      assert all[i] == x && all[|stream|] == e;
    }
    if EvidenceClash(all, id) && !EvidenceClash(stream, id) { LastClashes(stream, e, id, held); }
  }

  lemma LastClashes(stream: seq<EvidenceRef>, e: EvidenceRef, id: string, held: Option<string>)
    requires held.None? <==> forall x :: x in stream ==> x.evidenceId != e.evidenceId
    requires held.Some? ==> Delivers(stream, e.evidenceId, held.value)
    requires EvidenceClash(stream + [e], id) && !EvidenceClash(stream, id)
    ensures id == e.evidenceId && held.Some? && held.value != e.contentSha
  {
    var all := stream + [e];
    var i, j :| 0 <= i < j < |all| && all[i].evidenceId == all[j].evidenceId == id && all[i].contentSha != all[j].contentSha;
    assert j == |stream|;
    assert stream[i] in stream;
    var x :| x in stream && x.evidenceId == id && x.contentSha == held.value;
    var h :| 0 <= h < |stream| && stream[h] == x;
    assert h == i || stream[h].contentSha == stream[i].contentSha;
  }

  lemma ClaimClashSnoc(stream: seq<Finding>, f: Finding, id: string, known: Option<Finding>)
    requires known.None? <==> forall x :: x in stream ==> x.claimId != f.claimId
    requires known.Some? ==> known.value in stream && known.value.claimId == f.claimId
    ensures ClaimClash(stream + [f], id) <==>
      ClaimClash(stream, id) || (id == f.claimId && known.Some? && (known.value.statement != f.statement || known.value.claimType != f.claimType))
  {
    var all := stream + [f];
    if ClaimClash(stream, id) {
      var i, j :| 0 <= i < j < |stream| && stream[i].claimId == stream[j].claimId == id
        && (stream[i].statement != stream[j].statement || stream[i].claimType != stream[j].claimType);
      assert all[i] == stream[i] && all[j] == stream[j];
    }
    if id == f.claimId && known.Some? && (known.value.statement != f.statement || known.value.claimType != f.claimType) {
      var i :| 0 <= i < |stream| && stream[i] == known.value;
      assert all[i] == known.value && all[|stream|] == f;
    }
    if ClaimClash(all, id) && !ClaimClash(stream, id) { LastClaimClashes(stream, f, id, known); }
  }

  lemma LastClaimClashes(stream: seq<Finding>, f: Finding, id: string, known: Option<Finding>)
    requires known.None? <==> forall x :: x in stream ==> x.claimId != f.claimId
    requires known.Some? ==> known.value in stream && known.value.claimId == f.claimId
    requires ClaimClash(stream + [f], id) && !ClaimClash(stream, id)
    ensures id == f.claimId && known.Some? && (known.value.statement != f.statement || known.value.claimType != f.claimType)
  {
    var all := stream + [f];
    var i, j :| 0 <= i < j < |all| && all[i].claimId == all[j].claimId == id
      && (all[i].statement != all[j].statement || all[i].claimType != all[j].claimType);
    assert j == |stream|;
    assert stream[i] in stream;
    var h :| 0 <= h < |stream| && stream[h] == known.value;
    assert h == i || (stream[h].statement == stream[i].statement && stream[h].claimType == stream[i].claimType);
  }

  lemma {:induction false} EvidenceStep(m: Merge, e: EvidenceRef, policy: Policy, delivered: set<string>, stream: seq<EvidenceRef>, findings: seq<Finding>)
    requires ConflictsAre(m, delivered, stream, findings)
    ensures ConflictsAre(AddEvidence(m, e, policy), delivered, stream + [e], findings)
  {
    var after := AddEvidence(m, e, policy);
    var held := if e.evidenceId in m.evidence then Some(m.evidence[e.evidenceId].contentSha) else None;
    EvidenceStepDelivers(m, e, policy, stream);
    HeldOption(m, stream, e.evidenceId, held);
    forall id
      ensures EvidenceClash(stream + [e], id) <==> EvidenceClash(stream, id) || (id == e.evidenceId && held.Some? && held.value != e.contentSha)
    {
      EvidenceClashSnoc(stream, e, id, held);
    }
    forall s ensures s in after.conflicts <==> IsConflict(delivered, stream + [e], findings, s) {
      EvidenceStepConflict(m, e, policy, delivered, stream, findings, held, s);
    }
  }

  lemma {:induction false} HeldOption(m: Merge, stream: seq<EvidenceRef>, id: string, held: Option<string>)
    requires (forall e :: e in stream ==> e.evidenceId in m.evidence)
    requires (forall x :: x in m.evidence ==> Delivers(stream, x, m.evidence[x].contentSha))
    requires held == if id in m.evidence then Some(m.evidence[id].contentSha) else None
    ensures held.None? <==> forall x :: x in stream ==> x.evidenceId != id
    ensures held.Some? ==> Delivers(stream, id, held.value)
  {
  }

  lemma {:induction false} EvidenceStepDelivers(m: Merge, e: EvidenceRef, policy: Policy, stream: seq<EvidenceRef>)
    requires (forall x :: x in stream ==> x.evidenceId in m.evidence)
    requires (forall id :: id in m.evidence ==> Delivers(stream, id, m.evidence[id].contentSha))
    ensures forall x :: x in stream + [e] ==> x.evidenceId in AddEvidence(m, e, policy).evidence
    ensures forall id :: id in AddEvidence(m, e, policy).evidence ==> Delivers(stream + [e], id, AddEvidence(m, e, policy).evidence[id].contentSha)
  {
    var after := AddEvidence(m, e, policy);
    forall id | id in after.evidence ensures Delivers(stream + [e], id, after.evidence[id].contentSha) {
      if id in m.evidence {
        var x :| x in stream && x.evidenceId == id && x.contentSha == m.evidence[id].contentSha;
        assert x in stream + [e];
      }
      assert e in stream + [e];
    }
  }

  lemma {:induction false} EvidenceStepConflict(m: Merge, e: EvidenceRef, policy: Policy, delivered: set<string>, stream: seq<EvidenceRef>,
                                               findings: seq<Finding>, held: Option<string>, s: string)
    requires s in m.conflicts <==> IsConflict(delivered, stream, findings, s)
    requires held == if e.evidenceId in m.evidence then Some(m.evidence[e.evidenceId].contentSha) else None
    requires forall id ::
      EvidenceClash(stream + [e], id) <==> EvidenceClash(stream, id) || (id == e.evidenceId && held.Some? && held.value != e.contentSha)
    ensures s in AddEvidence(m, e, policy).conflicts <==> IsConflict(delivered, stream + [e], findings, s)
  {
  }

  lemma {:induction false} FindingStep(m: Merge, f: Finding, order: int, delivered: set<string>, evidence: seq<EvidenceRef>, stream: seq<Finding>)
    requires ConflictsAre(m, delivered, evidence, stream)
    ensures ConflictsAre(AddFinding(m, f, order), delivered, evidence, stream + [f])
  {
    var after := AddFinding(m, f, order);
    var known := if f.claimId in m.claims then Some(m.claims[f.claimId]) else None;
    KnownOption(m, stream, f.claimId, known);
    forall id
      ensures ClaimClash(stream + [f], id) <==>
        ClaimClash(stream, id) || (id == f.claimId && known.Some? && (known.value.statement != f.statement || known.value.claimType != f.claimType))
    {
      ClaimClashSnoc(stream, f, id, known);
    }
    forall s ensures s in after.conflicts <==> IsConflict(delivered, evidence, stream + [f], s) {
      FindingStepConflict(m, f, order, delivered, evidence, stream, known, s);
    }
    assert f in stream + [f];
  }

  lemma {:induction false} KnownOption(m: Merge, stream: seq<Finding>, id: string, known: Option<Finding>)
    requires (forall f :: f in stream ==> f.claimId in m.claims)
    requires (forall x :: x in m.claims ==> m.claims[x].claimId == x && m.claims[x] in stream)
    requires known == if id in m.claims then Some(m.claims[id]) else None
    ensures known.None? <==> forall x :: x in stream ==> x.claimId != id
    ensures known.Some? ==> known.value in stream && known.value.claimId == id
  {
  }

  lemma {:induction false} FindingStepConflict(m: Merge, f: Finding, order: int, delivered: set<string>, evidence: seq<EvidenceRef>,
                                              stream: seq<Finding>, known: Option<Finding>, s: string)
    requires s in m.conflicts <==> IsConflict(delivered, evidence, stream, s)
    requires known == if f.claimId in m.claims then Some(m.claims[f.claimId]) else None
    requires forall id ::
      ClaimClash(stream + [f], id) <==>
        ClaimClash(stream, id) || (id == f.claimId && known.Some? && (known.value.statement != f.statement || known.value.claimType != f.claimType))
    ensures s in AddFinding(m, f, order).conflicts <==> IsConflict(delivered, evidence, stream + [f], s)
  {
  }

  lemma Snoc<T>(a: seq<T>, b: seq<T>)
    requires b != []
    ensures (a + b[..|b| - 1]) + [b[|b| - 1]] == a + b
  {
  }

  lemma {:induction false} EvidenceSteps(m: Merge, list: seq<EvidenceRef>, policy: Policy, delivered: set<string>, stream: seq<EvidenceRef>, findings: seq<Finding>)
    requires ConflictsAre(m, delivered, stream, findings)
    ensures ConflictsAre(AddAllEvidence(m, list, policy), delivered, stream + list, findings)
  {
    if list == [] {
      assert stream + list == stream;
    } else {
      var n := |list| - 1;
      EvidenceSteps(m, list[..n], policy, delivered, stream, findings);
      EvidenceStep(AddAllEvidence(m, list[..n], policy), list[n], policy, delivered, stream + list[..n], findings);
      Snoc(stream, list);
    }
  }

  lemma {:induction false} FindingSteps(m: Merge, list: seq<Finding>, packetIndex: nat, delivered: set<string>, evidence: seq<EvidenceRef>, stream: seq<Finding>)
    requires ConflictsAre(m, delivered, evidence, stream)
    ensures ConflictsAre(AddAllFindings(m, list, packetIndex), delivered, evidence, stream + list)
  {
    if list == [] {
      assert stream + list == stream;
    } else {
      var n := |list| - 1;
      FindingSteps(m, list[..n], packetIndex, delivered, evidence, stream);
      FindingStep(AddAllFindings(m, list[..n], packetIndex), list[n], packetIndex * 1000 + n, delivered, evidence, stream + list[..n]);
      Snoc(stream, list);
    }
  }

  /** The conflicts that the packets deliver. */
  ghost function DeliveredConflicts(packets: seq<Packet>): set<string> {
    set p, i | 0 <= p < |packets| && 0 <= i < |packets[p].conflicts| :: packets[p].conflicts[i]
  }

  ghost function DeliveredMissing(packets: seq<Packet>): set<string> {
    set p, i | 0 <= p < |packets| && 0 <= i < |packets[p].missingEvidence| :: packets[p].missingEvidence[i]
  }

  lemma {:induction false} DeliveredConflictsSnoc(packets: seq<Packet>)
    requires packets != []
    ensures var n := |packets| - 1; DeliveredConflicts(packets) == DeliveredConflicts(packets[..n]) + Members(packets[n].conflicts)
  {
    var n := |packets| - 1;
    forall s | s in DeliveredConflicts(packets[..n]) + Members(packets[n].conflicts) ensures s in DeliveredConflicts(packets) {
      if s in DeliveredConflicts(packets[..n]) {
        var p, i :| 0 <= p < n && 0 <= i < |packets[..n][p].conflicts| && packets[..n][p].conflicts[i] == s;
        assert packets[p].conflicts[i] == s;
      } else {
        var i :| 0 <= i < |packets[n].conflicts| && packets[n].conflicts[i] == s;
      }
    }
    forall s | s in DeliveredConflicts(packets) ensures s in DeliveredConflicts(packets[..n]) + Members(packets[n].conflicts) {
      var p, i :| 0 <= p < |packets| && 0 <= i < |packets[p].conflicts| && packets[p].conflicts[i] == s;
      if p < n { assert packets[..n][p].conflicts[i] == s; }
    }
  }

  lemma {:induction false} DeliveredMissingSnoc(packets: seq<Packet>)
    requires packets != []
    ensures var n := |packets| - 1; DeliveredMissing(packets) == DeliveredMissing(packets[..n]) + Members(packets[n].missingEvidence)
  {
    var n := |packets| - 1;
    forall s | s in DeliveredMissing(packets[..n]) + Members(packets[n].missingEvidence) ensures s in DeliveredMissing(packets) {
      if s in DeliveredMissing(packets[..n]) {
        var p, i :| 0 <= p < n && 0 <= i < |packets[..n][p].missingEvidence| && packets[..n][p].missingEvidence[i] == s;
        assert packets[p].missingEvidence[i] == s;
      } else {
        var i :| 0 <= i < |packets[n].missingEvidence| && packets[n].missingEvidence[i] == s;
      }
    }
    forall s | s in DeliveredMissing(packets) ensures s in DeliveredMissing(packets[..n]) + Members(packets[n].missingEvidence) {
      var p, i :| 0 <= p < |packets| && 0 <= i < |packets[p].missingEvidence| && packets[p].missingEvidence[i] == s;
      if p < n { assert packets[..n][p].missingEvidence[i] == s; }
    }
  }

  lemma {:induction false} NotedConflicts(m: Merge, p: Packet, delivered: set<string>, evidence: seq<EvidenceRef>, findings: seq<Finding>)
    requires ConflictsAre(m, delivered, evidence, findings)
    ensures ConflictsAre(Noted(m, p), delivered + Members(p.conflicts), evidence, findings)
  {
  }

  lemma {:induction false} MergedConflicts(packets: seq<Packet>, policy: Policy)
    ensures ConflictsAre(Merged(packets, policy), DeliveredConflicts(packets), EvidenceStream(packets), FindingStream(packets))
  {
    if packets != [] {
      var n := |packets| - 1;
      var p, before := packets[n], Merged(packets[..n], policy);
      MergedConflicts(packets[..n], policy);
      DeliveredConflictsSnoc(packets);
      var delivered := DeliveredConflicts(packets);
      NotedConflicts(before, p, DeliveredConflicts(packets[..n]), EvidenceStream(packets[..n]), FindingStream(packets[..n]));
      EvidenceSteps(Noted(before, p), p.evidence, policy, delivered, EvidenceStream(packets[..n]), FindingStream(packets[..n]));
      FindingSteps(AddAllEvidence(Noted(before, p), p.evidence, policy), p.findings, n, delivered, EvidenceStream(packets), FindingStream(packets[..n]));
    }
  }

  lemma {:induction false} KeepsMissing(m: Merge, p: Packet, n: nat, policy: Policy)
    ensures AddPacket(m, p, n, policy).missing == m.missing + Members(p.missingEvidence)
  {
    EvidenceKeepsMissing(Noted(m, p), p.evidence, policy);
    FindingsKeepMissing(AddAllEvidence(Noted(m, p), p.evidence, policy), p.findings, n);
  }

  lemma {:induction false} EvidenceKeepsMissing(m: Merge, list: seq<EvidenceRef>, policy: Policy)
    ensures AddAllEvidence(m, list, policy).missing == m.missing
  {
    if list != [] { EvidenceKeepsMissing(m, list[..|list| - 1], policy); }
  }

  lemma {:induction false} FindingsKeepMissing(m: Merge, list: seq<Finding>, n: nat)
    ensures AddAllFindings(m, list, n).missing == m.missing
  {
    if list != [] { FindingsKeepMissing(m, list[..|list| - 1], n); }
  }

  lemma {:induction false} MergedMissing(packets: seq<Packet>, policy: Policy)
    ensures Merged(packets, policy).missing == DeliveredMissing(packets)
  {
    if packets != [] {
      var n := |packets| - 1;
      MergedMissing(packets[..n], policy);
      DeliveredMissingSnoc(packets);
      KeepsMissing(Merged(packets[..n], policy), packets[n], n, policy);
    }
  }

  /** The conflicts listed are exactly the delivered ones and the clashes; the missing evidence exactly what was reported missing. */
  lemma ConflictTerms(packets: seq<Packet>, policy: Policy, c: Compiled)
    requires CompileSpec(packets, policy) == Ok(c)
    ensures forall s :: s in c.conflicts <==> IsConflict(DeliveredConflicts(packets), EvidenceStream(packets), FindingStream(packets), s)
    ensures forall s :: s in c.missingEvidence <==> exists p, i :: 0 <= p < |packets| && 0 <= i < |packets[p].missingEvidence| && packets[p].missingEvidence[i] == s
    ensures Strings.StrictlySorted(c.conflicts) && Strings.StrictlySorted(c.missingEvidence) && Strings.StrictlySorted(c.staleEvidence)
  {
    MergedConflicts(packets, EffectivePolicy(policy));
    MergedMissing(packets, EffectivePolicy(policy));
    assert DeliveredMissing(packets) == Merged(packets, EffectivePolicy(policy)).missing;
  }
}
