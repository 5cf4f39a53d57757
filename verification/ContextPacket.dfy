/** Context packets and the validator that resolves every reference inside one packet. */
module ContextPacket {
  import opened Common
  import opened Envelope
  import opened Graphs
  import opened Instants
  import NumericalContext
  import Strings

  datatype EvidenceRef = EvidenceRef(evidenceId: string, sourceType: string, locator: string, contentSha: string, asOf: Time)

  datatype ClaimType = Fact | Calculation | Inference | Hypothesis | OtherClaim(name: string)

  datatype Origin = NoOrigin | Deterministic | SourceExtraction | OtherOrigin(name: string)

  datatype Finding = Finding(
    claimId: string, claimType: ClaimType, origin: Origin, statement: string,
    evidenceRefs: seq<string>, calculationRefs: seq<string>, numericalRefs: seq<string>, assumptionRefs: seq<string>,
    confidence: real, validAsOf: Time)

  /** A calculation receipt, with the verdict of its own validator. */
  datatype Receipt = Receipt(receiptId: string, sourceAsOf: Time, wellFormed: bool)

  datatype Packet = Packet(
    schemaVersion: string, packetId: string, runId: string, stepId: string, specialistRole: string, objective: string,
    scopeAsOf: Time, findings: seq<Finding>, evidence: seq<EvidenceRef>, receipts: seq<Receipt>,
    numericalContext: Option<NumericalContext.Context>, counterevidence: seq<Finding>,
    assumptions: seq<string>, missingEvidence: seq<string>, conflicts: seq<string>)

  // ---------------------------------------------------------------- meaning

  function Trimmed(values: seq<string>): (t: seq<string>)
    ensures |t| == |values| && forall i :: 0 <= i < |values| ==> t[i] == Strings.TrimSpace(values[i])
  {
    seq(|values|, i requires 0 <= i < |values| => Strings.TrimSpace(values[i]))
  }

  /** No entry is blank and no two entries are equal once trimmed. */
  ghost predicate UniqueTrimmed(values: seq<string>) {
    Distinct(Trimmed(values)) && forall v :: v in values ==> !Strings.Blank(v)
  }

  predicate EvidenceOk(e: EvidenceRef, scopeAsOf: Time) {
    && !Strings.Blank(e.evidenceId) && !Strings.Blank(e.sourceType) && !Strings.Blank(e.locator) && !Strings.Blank(e.contentSha)
    && e.asOf != ZERO_TIME && e.asOf <= scopeAsOf
  }

  predicate FindingOk(f: Finding) {
    && f.claimId != "" && !Strings.Blank(f.statement)
    && 0.0 <= f.confidence <= 1.0 && f.validAsOf != ZERO_TIME
    && !f.origin.OtherOrigin?
    && (f.origin == Deterministic ==> f.claimType == Calculation)
    && (f.origin == SourceExtraction ==> f.claimType == Fact)
    && match f.claimType
       case Fact => f.evidenceRefs != []
       case Calculation => f.calculationRefs != []
       case Inference => f.evidenceRefs + f.calculationRefs + f.numericalRefs != [] && f.assumptionRefs != []
       case Hypothesis => f.evidenceRefs + f.calculationRefs + f.numericalRefs + f.assumptionRefs != []
       case OtherClaim(_) => false
  }

  function EvidenceIds(evidence: seq<EvidenceRef>): (ids: seq<string>)
    ensures |ids| == |evidence| && forall i :: 0 <= i < |evidence| ==> ids[i] == evidence[i].evidenceId
  {
    seq(|evidence|, i requires 0 <= i < |evidence| => evidence[i].evidenceId)
  }

  function ReceiptIds(receipts: seq<Receipt>): (ids: seq<string>)
    ensures |ids| == |receipts| && forall i :: 0 <= i < |receipts| ==> ids[i] == receipts[i].receiptId
  {
    seq(|receipts|, i requires 0 <= i < |receipts| => receipts[i].receiptId)
  }

  /** What findings may refer to by numerical_refs. */
  function NumericalIds(packet: Packet): seq<string> {
    if packet.numericalContext.None? then []
    else
      var context := packet.numericalContext.value;
      NumericalContext.VariableIds(context.variables) + NumericalContext.RelationIds(context.relations)
  }

  predicate Within(refs: seq<string>, known: seq<string>) {
    forall ref :: ref in refs ==> ref in known
  }

  /** Every reference of the finding names something in the same packet, and no list repeats itself. */
  ghost predicate Resolves(f: Finding, packet: Packet) {
    && UniqueTrimmed(f.evidenceRefs) && UniqueTrimmed(f.calculationRefs)
    && UniqueTrimmed(f.numericalRefs) && UniqueTrimmed(f.assumptionRefs)
    && Within(f.evidenceRefs, EvidenceIds(packet.evidence))
    && Within(f.assumptionRefs, Trimmed(packet.assumptions))
    && Within(f.calculationRefs, ReceiptIds(packet.receipts))
    && Within(f.numericalRefs, NumericalIds(packet))
  }

  ghost predicate FindingAccepted(f: Finding, packet: Packet) {
    FindingOk(f) && f.validAsOf <= packet.scopeAsOf && Resolves(f, packet)
  }

  predicate HeaderOk(packet: Packet) {
    && EnvelopeOk(packet.schemaVersion, packet.packetId, packet.runId)
    && !Strings.Blank(packet.stepId) && !Strings.Blank(packet.specialistRole) && !Strings.Blank(packet.objective)
    && packet.scopeAsOf != ZERO_TIME
  }

  ghost predicate ReceiptsOk(packet: Packet) {
    && Distinct(ReceiptIds(packet.receipts))
    && forall r :: r in packet.receipts ==> r.wellFormed && r.sourceAsOf <= packet.scopeAsOf
  }

  ghost predicate NumericalOk(packet: Packet) {
    packet.numericalContext.Some? ==>
      var context := packet.numericalContext.value;
      && context.runId == packet.runId && context.asOf <= packet.scopeAsOf && NumericalContext.Accepted(context)
      && (forall v :: v in context.variables ==> Within(v.receiptRefs, ReceiptIds(packet.receipts)))
      && (forall r :: r in context.relations ==> Within(r.receiptRefs, ReceiptIds(packet.receipts)))
  }

  ghost predicate EvidenceListOk(packet: Packet) {
    Distinct(EvidenceIds(packet.evidence)) && forall e :: e in packet.evidence ==> EvidenceOk(e, packet.scopeAsOf)
  }

  ghost predicate ConflictsOk(packet: Packet) {
    Distinct(packet.conflicts) && forall c :: c in packet.conflicts ==> !Strings.Blank(c)
  }

  /** The declarative meaning of a nil error. */
  ghost predicate Accepted(packet: Packet) {
    && HeaderOk(packet) && EvidenceListOk(packet) && UniqueTrimmed(packet.assumptions)
    && ReceiptsOk(packet) && NumericalOk(packet) && ConflictsOk(packet)
    && (forall f :: f in packet.findings ==> FindingAccepted(f, packet))
    && (forall f :: f in packet.counterevidence ==> FindingAccepted(f, packet))
  }

  // ---------------------------------------------------------------- the validator

  /** The seen-map loop over trimmed values. */
  method CheckUniqueTrimmed(values: seq<string>) returns (ok: bool)
    ensures ok <==> UniqueTrimmed(values)
  {
    var seen: set<string> := {};
    for i := 0 to |values|
      invariant forall t :: t in seen <==> t in Trimmed(values[..i])
      invariant UniqueTrimmed(values[..i])
    {
      var value := Strings.TrimSpace(values[i]);
      assert Trimmed(values[..i + 1]) == Trimmed(values[..i]) + [value];
      DistinctSnoc(Trimmed(values[..i]), value);
      if value == "" { return false; }
      if value in seen {
        var k :| 0 <= k < i && Trimmed(values[..i])[k] == value;
        assert Trimmed(values)[k] == Trimmed(values)[i];
        return false;
      }
      seen := seen + {value};
    }
    assert values[..|values|] == values;
    return true;
  }

  method CheckDistinctNonBlank(values: seq<string>) returns (ok: bool)
    ensures ok <==> Distinct(values) && forall v :: v in values ==> !Strings.Blank(v)
  {
    var seen: set<string> := {};
    for i := 0 to |values|
      invariant forall v :: v in seen <==> v in values[..i]
      invariant Distinct(values[..i]) && forall v :: v in values[..i] ==> !Strings.Blank(v)
    {
      assert values[..i + 1] == values[..i] + [values[i]];
      DistinctSnoc(values[..i], values[i]);
      if Strings.Blank(values[i]) || values[i] in seen { return false; }
      seen := seen + {values[i]};
    }
    assert values[..|values|] == values;
    return true;
  }

  method CheckDistinct(values: seq<string>) returns (ok: bool)
    ensures ok <==> Distinct(values)
  {
    var seen: set<string> := {};
    for i := 0 to |values|
      invariant forall v :: v in seen <==> v in values[..i]
      invariant Distinct(values[..i])
    {
      assert values[..i + 1] == values[..i] + [values[i]];
      DistinctSnoc(values[..i], values[i]);
      if values[i] in seen { return false; }
      seen := seen + {values[i]};
    }
    assert values[..|values|] == values;
    return true;
  }

  method CheckResolves(f: Finding, packet: Packet) returns (ok: bool)
    ensures ok <==> Resolves(f, packet)
  {
    ok := CheckUniqueTrimmed(f.evidenceRefs);
    if !ok { return; }
    ok := CheckUniqueTrimmed(f.calculationRefs);
    if !ok { return; }
    ok := CheckUniqueTrimmed(f.numericalRefs);
    if !ok { return; }
    ok := CheckUniqueTrimmed(f.assumptionRefs);
    if !ok { return; }
    ok := && Within(f.evidenceRefs, EvidenceIds(packet.evidence))
          && Within(f.assumptionRefs, Trimmed(packet.assumptions))
          && Within(f.calculationRefs, ReceiptIds(packet.receipts))
          && Within(f.numericalRefs, NumericalIds(packet));
  }

  method CheckFindings(findings: seq<Finding>, packet: Packet) returns (ok: bool)
    ensures ok <==> forall f :: f in findings ==> FindingAccepted(f, packet)
  {
    for i := 0 to |findings|
      invariant forall k :: 0 <= k < i ==> FindingAccepted(findings[k], packet)
    {
      var resolved := CheckResolves(findings[i], packet);
      if !FindingOk(findings[i]) || findings[i].validAsOf > packet.scopeAsOf || !resolved {
        assert !FindingAccepted(findings[i], packet);
        return false;
      }
    }
    return true;
  }

  method CheckNumerical(packet: Packet) returns (ok: bool)
    ensures ok <==> NumericalOk(packet)
  {
    if packet.numericalContext.None? { return true; }
    var context := packet.numericalContext.value;
    if context.runId != packet.runId || context.asOf > packet.scopeAsOf { return false; }
    var fault := NumericalContext.ValidateNumericalContext(context);
    if fault.Some? { return false; }
    return
      && (forall v :: v in context.variables ==> Within(v.receiptRefs, ReceiptIds(packet.receipts)))
      && (forall r :: r in context.relations ==> Within(r.receiptRefs, ReceiptIds(packet.receipts)));
  }

  method ValidateContextPacket(packet: Packet) returns (ok: bool)
    ensures ok <==> Accepted(packet)
  {
    if !HeaderOk(packet) { return false; }
    var distinct := CheckDistinct(EvidenceIds(packet.evidence));
    if !distinct || exists e :: e in packet.evidence && !EvidenceOk(e, packet.scopeAsOf) { return false; }
    ok := CheckUniqueTrimmed(packet.assumptions);
    if !ok { return; }
    distinct := CheckDistinct(ReceiptIds(packet.receipts));
    if !distinct || exists r :: r in packet.receipts && !(r.wellFormed && r.sourceAsOf <= packet.scopeAsOf) { return false; }
    ok := CheckNumerical(packet);
    if !ok { return; }
    ok := CheckFindings(packet.findings, packet);
    if !ok { return; }
    ok := CheckFindings(packet.counterevidence, packet);
    if !ok { return; }
    ok := CheckDistinctNonBlank(packet.conflicts);
  }
}
