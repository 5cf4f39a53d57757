/** What an accepted context packet is, in terms of its fields alone, and where each reference of a finding leads. */
module PacketTerms {
  import opened Common
  import opened Graphs
  import opened Instants
  import opened ContextPacket
  import NumericalContext
  import NumericalTerms
  import Strings

  // ---------------------------------------------------------------- the terms

  /** The values are written, and differ by more than white space at their ends. */
  ghost predicate ValuesMeet(values: seq<string>) {
    && (forall i :: 0 <= i < |values| ==> Strings.Written(values[i]))
    && forall i, j :: 0 <= i < j < |values| ==> Strings.TrimSpace(values[i]) != Strings.TrimSpace(values[j])
  }

  ghost predicate HeaderMeets(p: Packet) {
    && p.schemaVersion == "signalforge/v1" && Strings.Written(p.packetId) && Strings.Written(p.runId)
    && Strings.Written(p.stepId) && Strings.Written(p.specialistRole) && Strings.Written(p.objective) && p.scopeAsOf != 0
  }

  ghost predicate EvidenceMeets(e: EvidenceRef, p: Packet) {
    && Strings.Written(e.evidenceId) && Strings.Written(e.sourceType) && Strings.Written(e.locator) && Strings.Written(e.contentSha)
    && e.asOf != 0 && e.asOf <= p.scopeAsOf
  }

  ghost predicate EvidenceListMeets(p: Packet) {
    && (forall i :: 0 <= i < |p.evidence| ==> EvidenceMeets(p.evidence[i], p))
    && forall i, j :: 0 <= i < j < |p.evidence| ==> p.evidence[i].evidenceId != p.evidence[j].evidenceId
  }

  ghost predicate ReceiptListMeets(p: Packet) {
    && (forall i :: 0 <= i < |p.receipts| ==> p.receipts[i].wellFormed && p.receipts[i].sourceAsOf <= p.scopeAsOf)
    && forall i, j :: 0 <= i < j < |p.receipts| ==> p.receipts[i].receiptId != p.receipts[j].receiptId
  }

  /** Some receipt of the packet has this id. */
  ghost predicate IsReceipt(p: Packet, id: string) {
    exists i :: 0 <= i < |p.receipts| && p.receipts[i].receiptId == id
  }

  ghost predicate IsEvidence(p: Packet, id: string) {
    exists i :: 0 <= i < |p.evidence| && p.evidence[i].evidenceId == id
  }

  /** The reference is an assumption of the packet without the white space at its ends. */
  ghost predicate IsAssumption(p: Packet, ref: string) {
    exists i :: 0 <= i < |p.assumptions| && Strings.TrimSpace(p.assumptions[i]) == ref
  }

  /** Some variable or relation of the packet's numerical context has this id. */
  ghost predicate IsNumerical(p: Packet, id: string) {
    && p.numericalContext.Some?
    && var c := p.numericalContext.value;
    || (exists i :: 0 <= i < |c.variables| && c.variables[i].variableId == id)
    || (exists i :: 0 <= i < |c.relations| && c.relations[i].relationId == id)
  }

  ghost predicate NumericalMeets(p: Packet) {
    p.numericalContext.Some? ==> ContextMeets(p, p.numericalContext.value)
  }

  ghost predicate ContextMeets(p: Packet, c: NumericalContext.Context) {
    c.runId == p.runId && c.asOf <= p.scopeAsOf && NumericalTerms.Meets(c) && VariablesCite(p, c) && RelationsCite(p, c)
  }

  ghost predicate VariablesCite(p: Packet, c: NumericalContext.Context) {
    forall i, id :: 0 <= i < |c.variables| && id in c.variables[i].receiptRefs ==> IsReceipt(p, id)
  }

  ghost predicate RelationsCite(p: Packet, c: NumericalContext.Context) {
    forall i, id :: 0 <= i < |c.relations| && id in c.relations[i].receiptRefs ==> IsReceipt(p, id)
  }

  /** What each kind of claim has to cite. */
  predicate Supported(f: Finding) {
    || (f.claimType == Fact && |f.evidenceRefs| > 0)
    || (f.claimType == Calculation && |f.calculationRefs| > 0)
    || (f.claimType == Inference && |f.assumptionRefs| > 0
        && (|f.evidenceRefs| > 0 || |f.calculationRefs| > 0 || |f.numericalRefs| > 0))
    || (f.claimType == Hypothesis
        && (|f.evidenceRefs| > 0 || |f.calculationRefs| > 0 || |f.numericalRefs| > 0 || |f.assumptionRefs| > 0))
  }

  /** Calculations may be marked deterministic and facts as extracted; any claim may go without a mark. */
  predicate OriginFits(f: Finding) {
    || f.origin == NoOrigin
    || (f.origin == Deterministic && f.claimType == Calculation)
    || (f.origin == SourceExtraction && f.claimType == Fact)
  }

  ghost predicate FindingMeets(f: Finding, p: Packet) {
    && f.claimId != "" && Strings.Written(f.statement) && 0.0 <= f.confidence && f.confidence <= 1.0
    && f.validAsOf != 0 && f.validAsOf <= p.scopeAsOf && OriginFits(f) && Supported(f) && Refers(f, p)
  }

  /** Every reference leads to something in the packet, and none is repeated. */
  ghost predicate Refers(f: Finding, p: Packet) {
    && ValuesMeet(f.evidenceRefs) && ValuesMeet(f.calculationRefs) && ValuesMeet(f.numericalRefs) && ValuesMeet(f.assumptionRefs)
    && (forall ref :: ref in f.evidenceRefs ==> IsEvidence(p, ref))
    && (forall ref :: ref in f.calculationRefs ==> IsReceipt(p, ref))
    && (forall ref :: ref in f.numericalRefs ==> IsNumerical(p, ref))
    && (forall ref :: ref in f.assumptionRefs ==> IsAssumption(p, ref))
  }

  ghost predicate ConflictsMeet(p: Packet) {
    && (forall i :: 0 <= i < |p.conflicts| ==> Strings.Written(p.conflicts[i]))
    && forall i, j :: 0 <= i < j < |p.conflicts| ==> p.conflicts[i] != p.conflicts[j]
  }

  ghost predicate Meets(p: Packet) {
    && HeaderMeets(p) && EvidenceListMeets(p) && ValuesMeet(p.assumptions) && ReceiptListMeets(p) && NumericalMeets(p) && ConflictsMeet(p)
    && (forall i :: 0 <= i < |p.findings| ==> FindingMeets(p.findings[i], p))
    && forall i :: 0 <= i < |p.counterevidence| ==> FindingMeets(p.counterevidence[i], p)
  }

  // ---------------------------------------------------------------- the validator says the same

  lemma WrittenTerms(s: string)
    ensures Strings.Blank(s) <==> !Strings.Written(s)
  {
  }

  lemma ValuesTerms(values: seq<string>)
    ensures UniqueTrimmed(values) <==> ValuesMeet(values)
  {
    forall v ensures Strings.Blank(v) <==> !Strings.Written(v) { WrittenTerms(v); }
    var t := Trimmed(values);
    assert Distinct(t) <==> forall i, j :: 0 <= i < j < |values| ==> Strings.TrimSpace(values[i]) != Strings.TrimSpace(values[j]) by {
      assert forall i :: 0 <= i < |values| ==> t[i] == Strings.TrimSpace(values[i]);
    }
  }

  lemma HeaderTerms(p: Packet)
    ensures HeaderOk(p) <==> HeaderMeets(p)
  {
    forall v ensures Strings.Blank(v) <==> !Strings.Written(v) { WrittenTerms(v); }
  }

  lemma EvidenceTerms(p: Packet)
    ensures EvidenceListOk(p) <==> EvidenceListMeets(p)
  {
    forall v ensures Strings.Blank(v) <==> !Strings.Written(v) { WrittenTerms(v); }
    var ids := EvidenceIds(p.evidence);
    assert forall i :: 0 <= i < |p.evidence| ==> ids[i] == p.evidence[i].evidenceId;
    assert forall e :: EvidenceOk(e, p.scopeAsOf) <==> EvidenceMeets(e, p);
  }

  lemma ReceiptTerms(p: Packet)
    ensures ReceiptsOk(p) <==> ReceiptListMeets(p)
  {
    var ids := ReceiptIds(p.receipts);
    assert forall i :: 0 <= i < |p.receipts| ==> ids[i] == p.receipts[i].receiptId;
  }

  lemma ConflictsTerms(p: Packet)
    ensures ConflictsOk(p) <==> ConflictsMeet(p)
  {
    forall v ensures Strings.Blank(v) <==> !Strings.Written(v) { WrittenTerms(v); }
  }

  lemma ReceiptIdTerms(p: Packet, id: string)
    ensures id in ReceiptIds(p.receipts) <==> IsReceipt(p, id)
  {
    var ids := ReceiptIds(p.receipts);
    assert forall i :: 0 <= i < |p.receipts| ==> ids[i] == p.receipts[i].receiptId;
  }

  lemma EvidenceIdTerms(p: Packet, id: string)
    ensures id in EvidenceIds(p.evidence) <==> IsEvidence(p, id)
  {
    var ids := EvidenceIds(p.evidence);
    assert forall i :: 0 <= i < |p.evidence| ==> ids[i] == p.evidence[i].evidenceId;
  }

  lemma AssumptionTerms(p: Packet, ref: string)
    ensures ref in Trimmed(p.assumptions) <==> IsAssumption(p, ref)
  {
    var t := Trimmed(p.assumptions);
    assert forall i :: 0 <= i < |t| ==> t[i] == Strings.TrimSpace(p.assumptions[i]);
  }

  lemma NumericalIdTerms(p: Packet, id: string)
    ensures id in NumericalIds(p) <==> IsNumerical(p, id)
  {
    if p.numericalContext.Some? {
      var c := p.numericalContext.value;
      var vs, rs := NumericalContext.VariableIds(c.variables), NumericalContext.RelationIds(c.relations);
      assert forall i :: 0 <= i < |vs| ==> vs[i] == c.variables[i].variableId;
      assert forall i :: 0 <= i < |rs| ==> rs[i] == c.relations[i].relationId;
      assert id in vs + rs <==> id in vs || id in rs;
    }
  }

  lemma VariableRefsTerms(p: Packet, c: NumericalContext.Context)
    ensures (forall v :: v in c.variables ==> Within(v.receiptRefs, ReceiptIds(p.receipts))) <==> VariablesCite(p, c)
  {
    forall id ensures id in ReceiptIds(p.receipts) <==> IsReceipt(p, id) { ReceiptIdTerms(p, id); }
  }

  lemma RelationRefsTerms(p: Packet, c: NumericalContext.Context)
    ensures (forall r :: r in c.relations ==> Within(r.receiptRefs, ReceiptIds(p.receipts))) <==> RelationsCite(p, c)
  {
    forall id ensures id in ReceiptIds(p.receipts) <==> IsReceipt(p, id) { ReceiptIdTerms(p, id); }
  }

  lemma NumericalMeetsTerms(p: Packet)
    ensures NumericalOk(p) <==> NumericalMeets(p)
  {
    if p.numericalContext.Some? {
      NumericalTerms.AcceptedIffMeets(p.numericalContext.value);
      VariableRefsTerms(p, p.numericalContext.value);
      RelationRefsTerms(p, p.numericalContext.value);
    }
  }

  lemma RefersTerms(f: Finding, p: Packet)
    ensures Resolves(f, p) <==> Refers(f, p)
  {
    forall values ensures UniqueTrimmed(values) <==> ValuesMeet(values) { ValuesTerms(values); }
    forall id ensures id in ReceiptIds(p.receipts) <==> IsReceipt(p, id) { ReceiptIdTerms(p, id); }
    forall id ensures id in EvidenceIds(p.evidence) <==> IsEvidence(p, id) { EvidenceIdTerms(p, id); }
    forall id ensures id in NumericalIds(p) <==> IsNumerical(p, id) { NumericalIdTerms(p, id); }
    forall ref ensures ref in Trimmed(p.assumptions) <==> IsAssumption(p, ref) { AssumptionTerms(p, ref); }
  }

  lemma FindingTerms(f: Finding, p: Packet)
    ensures FindingAccepted(f, p) <==> FindingMeets(f, p)
  {
    WrittenTerms(f.statement);
    RefersTerms(f, p);
    SupportTerms(f);
  }

  lemma SupportTerms(f: Finding)
    ensures OriginFits(f) && Supported(f) <==>
      && !f.origin.OtherOrigin?
      && (f.origin == Deterministic ==> f.claimType == Calculation)
      && (f.origin == SourceExtraction ==> f.claimType == Fact)
      && match f.claimType
         case Fact => f.evidenceRefs != []
         case Calculation => f.calculationRefs != []
         case Inference => f.evidenceRefs + f.calculationRefs + f.numericalRefs != [] && f.assumptionRefs != []
         case Hypothesis => f.evidenceRefs + f.calculationRefs + f.numericalRefs + f.assumptionRefs != []
         case OtherClaim(_) => false
  {
    var three := f.evidenceRefs + f.calculationRefs + f.numericalRefs;
    assert |three| == |f.evidenceRefs| + |f.calculationRefs| + |f.numericalRefs|;
    assert |three + f.assumptionRefs| == |three| + |f.assumptionRefs|;
  }

  /** A packet is accepted exactly when its fields meet the terms; so every reference of its findings leads somewhere in it. */
  lemma AcceptedIffMeets(p: Packet)
    ensures Accepted(p) <==> Meets(p)
  {
    HeaderTerms(p);
    EvidenceTerms(p);
    ValuesTerms(p.assumptions);
    ReceiptTerms(p);
    NumericalMeetsTerms(p);
    ConflictsTerms(p);
    forall f ensures FindingAccepted(f, p) <==> FindingMeets(f, p) { FindingTerms(f, p); }
    FindingsTerms(p.findings, p);
    FindingsTerms(p.counterevidence, p);
  }

  lemma FindingsTerms(findings: seq<Finding>, p: Packet)
    ensures (forall f :: f in findings ==> FindingMeets(f, p)) <==> forall i :: 0 <= i < |findings| ==> FindingMeets(findings[i], p)
  {
  }
}
