/** Which requests and receipts are well-formed, field by field. */
module ComparabilityRecords {
  import opened Common
  import opened Instants
  import opened Comparability
  import opened Strings

  // ---------------------------------------------------------------- operands

  predicate Hex64(s: string) {
    |s| == 64 && forall i :: 0 <= i < |s| ==> s[i] in "0123456789abcdef"
  }

  /** An instant of the years 0 to 9999, in nanoseconds from the first day of year 1. */
  predicate HasYear(t: Time) {
    -31_622_400_000_000_000 <= t < 315_537_897_600_000_000_000
  }

  predicate EachWritten(fields: seq<string>) {
    forall i :: 0 <= i < |fields| ==> fields[i] != ""
  }

  predicate FieldsMeet(o: Operand) {
    && EachWritten([o.companyId, o.canonicalMetricId, o.metricVersion, o.taxonomyConcept, o.value, o.unit, o.signPolicy,
                    o.dimensionalIdentity, o.periodType, o.accountingPerimeter, o.definitionId, o.restatementState, o.supersessionState])
    && |o.sourceObservationIds| > 0 && |o.sourceHashes| > 0 && forall h :: h in o.sourceHashes ==> Hex64(h)
  }

  /** Known and retrieved by then, of a period that has ended, filed by then; a duration starts before it ends, an instant has no start. */
  predicate TimesMeet(o: Operand, asOf: Time) {
    && o.fiscalEnd != 0 && o.filingDate != 0 && o.availableAt != 0 && o.retrievedAt != 0
    && o.availableAt <= o.retrievedAt && o.availableAt <= asOf && o.filingDate <= asOf && o.fiscalEnd <= asOf
    && match o.fiscalStart
       case Some(start) => o.periodType != "instant" && (o.periodType == "duration" ==> start < o.fiscalEnd)
       case None => o.periodType != "duration"
  }

  /** parts[0];parts[1];...  */
  function Chain(parts: seq<string>): string {
    if |parts| == 0 then [] else if |parts| == 1 then parts[0] else Chain(parts[..|parts| - 1]) + ";" + parts[|parts| - 1]
  }

  /** What an accounting input adds to the perimeter. */
  function Mark(a: Authority): string {
    a.inputId + "=" + a.accountingPerimeter
  }

  predicate InputMeets(a: Authority) {
    EachWritten([a.inputId, a.canonicalInput, a.mappingKey, a.taxonomyConcept, a.accountingPerimeter, a.disposition, a.productLabel])
  }

  ghost predicate InputsMeet(inputs: seq<Authority>) {
    && (forall i :: 0 <= i < |inputs| ==> InputMeets(inputs[i]))
    && forall i, j :: 0 <= i < j < |inputs| ==> inputs[i].inputId != inputs[j].inputId
  }

  /** The perimeter is the marks of the inputs in order, between semicolons. */
  ghost predicate ChainsMarks(perimeter: string, inputs: seq<Authority>) {
    exists parts :: Sorted(parts) && multiset(parts) == Marks(inputs) && perimeter == Chain(parts)
  }

  ghost predicate AuthorityMeets(o: Operand) {
    && o.productLabel != "" && o.outputClass in {"authoritative", "context_only"} && |o.accountingInputs| > 0
    && InputsMeet(o.accountingInputs) && ChainsMarks(o.accountingPerimeter, o.accountingInputs)
    && (o.pairRankingEligible <==>
        o.outputClass == "authoritative" && forall i :: 0 <= i < |o.accountingInputs| ==> o.accountingInputs[i].pairRankingEligible)
  }

  function Marks(inputs: seq<Authority>): multiset<string> {
    if inputs == [] then multiset{} else Marks(inputs[..|inputs| - 1]) + multiset{Mark(inputs[|inputs| - 1])}
  }

  ghost predicate OperandMeets(o: Operand, asOf: Time, v2: bool) {
    FieldsMeet(o) && TimesMeet(o, asOf) && (v2 ==> AuthorityMeets(o))
  }

  /** Each operand on its own, one metric, different companies, and two operands are not of one security. */
  ghost predicate OperandsMeet(operands: seq<Operand>, asOf: Time, v2: bool) {
    && (forall i :: 0 <= i < |operands| ==> OperandMeets(operands[i], asOf, v2))
    && (forall i, j :: 0 <= i < j < |operands| ==>
          operands[i].companyId != operands[j].companyId && operands[i].canonicalMetricId == operands[j].canonicalMetricId)
    && (|operands| == 2 ==> operands[0].securityId == "" || operands[0].securityId != operands[1].securityId)
  }

  lemma HexTerms(s: string)
    ensures ValidHash(s) <==> Hex64(s)
  {
    forall i | 0 <= i < |s| ensures s[i] in "0123456789abcdef" <==> '0' <= s[i] <= '9' || 'a' <= s[i] <= 'f' { HexDigit(s[i]); }
  }

  lemma HexDigit(c: char)
    ensures c in "0123456789abcdef" <==> '0' <= c <= '9' || 'a' <= c <= 'f'
  {
    var d := "0123456789abcdef";
    if '0' <= c <= '9' { assert d[c as int - '0' as int] == c; }
    if 'a' <= c <= 'f' { assert d[c as int - 'a' as int + 10] == c; }
  }

  lemma FieldsTerms(o: Operand)
    ensures Complete(o) <==> FieldsMeet(o) && o.fiscalEnd != 0 && o.filingDate != 0
  {
    var f := [o.companyId, o.canonicalMetricId, o.metricVersion, o.taxonomyConcept, o.value, o.unit, o.signPolicy,
              o.dimensionalIdentity, o.periodType, o.accountingPerimeter, o.definitionId, o.restatementState, o.supersessionState];
    assert EachWritten(f) <==> (f[0] != "" && f[1] != "" && f[2] != "" && f[3] != "" && f[4] != "" && f[5] != "" && f[6] != ""
                                && f[7] != "" && f[8] != "" && f[9] != "" && f[10] != "" && f[11] != "" && f[12] != "");
    forall h ensures ValidHash(h) <==> Hex64(h) { HexTerms(h); }
    assert (forall i :: 0 <= i < |o.sourceHashes| ==> ValidHash(o.sourceHashes[i])) <==> forall h :: h in o.sourceHashes ==> Hex64(h);
  }

  lemma TimesTerms(o: Operand, asOf: Time)
    ensures Timely(o, asOf) && o.fiscalEnd != 0 && o.filingDate != 0 <==> TimesMeet(o, asOf)
  {
  }

  lemma {:induction false} ChainSnoc(parts: seq<string>, x: string)
    requires parts != []
    ensures Chain(parts + [x]) == Chain(parts) + ";" + x
  {
    assert (parts + [x])[..|parts|] == parts;
  }

  lemma {:induction false} ChainCons(x: string, parts: seq<string>)
    requires parts != []
    ensures Chain([x] + parts) == x + ";" + Chain(parts)
  {
    var n := |parts| - 1;
    if n == 0 {
      assert ([x] + parts)[..1] == [x];
    } else {
      assert ([x] + parts)[..n + 1] == [x] + parts[..n];
      ChainCons(x, parts[..n]);
    }
  }

  lemma {:induction false} JoinTerms(parts: seq<string>)
    ensures Join(parts) == Chain(parts)
  {
    if |parts| > 1 {
      JoinTerms(parts[1..]);
      ChainCons(parts[0], parts[1..]);
      assert parts == [parts[0]] + parts[1..];
    }
  }

  lemma {:induction false} MarksTerms(inputs: seq<Authority>)
    ensures multiset(Signature(inputs)) == Marks(inputs)
  {
    if inputs != [] {
      var n := |inputs| - 1;
      MarksTerms(inputs[..n]);
      assert Signature(inputs) == Signature(inputs[..n]) + [Mark(inputs[n])];
    }
  }

  lemma {:induction false} SortedUnique(p: seq<string>, q: seq<string>)
    requires Sorted(p) && Sorted(q) && multiset(p) == multiset(q)
    ensures p == q
  {
    assert |p| == |multiset(p)| == |multiset(q)| == |q|;
    if p != [] {
      SameFirst(p, q);
      TailOf(p);
      TailOf(q);
      SortedUnique(p[1..], q[1..]);
      assert p == [p[0]] + p[1..] && q == [q[0]] + q[1..];
    }
  }

  lemma TailOf(p: seq<string>)
    requires p != [] && Sorted(p)
    ensures Sorted(p[1..]) && multiset(p[1..]) == multiset(p) - multiset{p[0]}
  {
    assert p == [p[0]] + p[1..];
  }

  lemma SameFirst(p: seq<string>, q: seq<string>)
    requires p != [] && q != [] && Sorted(p) && Sorted(q) && multiset(p) == multiset(q)
    ensures p[0] == q[0]
  {
    assert p[0] in multiset(q) && q[0] in multiset(p);
    FirstIsLeast(p, q[0]);
    FirstIsLeast(q, p[0]);
    LessTotal(p[0], q[0]);
  }

  lemma FirstIsLeast(p: seq<string>, x: string)
    requires Sorted(p) && x in p
    ensures !Less(x, p[0])
  {
    var i :| 0 <= i < |p| && p[i] == x;
    LessTotal(p[0], p[0]);
  }

  lemma PerimeterTerms(o: Operand)
    ensures Join(SortStrings(Signature(o.accountingInputs))) == o.accountingPerimeter
      <==> ChainsMarks(o.accountingPerimeter, o.accountingInputs)
  {
    var sorted := SortStrings(Signature(o.accountingInputs));
    MarksTerms(o.accountingInputs);
    JoinTerms(sorted);
    assert Sorted(sorted) && multiset(sorted) == Marks(o.accountingInputs);
    forall parts | Sorted(parts) && multiset(parts) == Marks(o.accountingInputs) ensures parts == sorted { SortedUnique(parts, sorted); }
  }

  lemma InputTerms(a: Authority)
    ensures AuthorityComplete(a) <==> InputMeets(a)
  {
    var f := [a.inputId, a.canonicalInput, a.mappingKey, a.taxonomyConcept, a.accountingPerimeter, a.disposition, a.productLabel];
    assert EachWritten(f) <==> (f[0] != "" && f[1] != "" && f[2] != "" && f[3] != "" && f[4] != "" && f[5] != "" && f[6] != "");
  }

  lemma InputsTerms(inputs: seq<Authority>)
    ensures InputsOk(inputs) <==> InputsMeet(inputs)
  {
    forall i | 0 <= i < |inputs| ensures AuthorityComplete(inputs[i]) <==> InputMeets(inputs[i]) { InputTerms(inputs[i]); }
  }

  lemma AuthorityTerms(o: Operand)
    ensures Authorised(o) <==> AuthorityMeets(o)
  {
    PerimeterTerms(o);
    InputsTerms(o.accountingInputs);
  }

  lemma OperandTerms(o: Operand, asOf: Time, v2: bool)
    ensures OperandOk(o, asOf, v2) <==> OperandMeets(o, asOf, v2)
  {
    FieldsTerms(o);
    TimesTerms(o, asOf);
    AuthorityTerms(o);
  }

  /** validateComparisonOperands accepts exactly the lists that meet the terms. */
  lemma OperandsTerms(operands: seq<Operand>, asOf: Time, v2: bool)
    ensures OperandsOk(operands, asOf, v2) <==> OperandsMeet(operands, asOf, v2)
  {
    forall i | 0 <= i < |operands| ensures OperandOk(operands[i], asOf, v2) <==> OperandMeets(operands[i], asOf, v2) {
      OperandTerms(operands[i], asOf, v2);
    }
  }

  // ---------------------------------------------------------------- requests and receipts

  predicate YearsMeet(operands: seq<Operand>) {
    forall i :: 0 <= i < |operands| ==> var o := operands[i];
      && HasYear(o.availableAt) && HasYear(o.retrievedAt) && HasYear(o.fiscalEnd) && HasYear(o.filingDate)
      && (o.fiscalStart.Some? ==> HasYear(o.fiscalStart.value)) && (o.marketDate.Some? ==> HasYear(o.marketDate.value))
  }

  lemma YearTerms(operands: seq<Operand>)
    ensures AllEncodable(operands) <==> YearsMeet(operands)
  {
    assert forall t :: InCalendar(t) <==> HasYear(t);
  }

  /** What is asked of a request: a schema, names, a date, two operands, and its own hash. */
  ghost predicate RequestMeets(q: Request, h: Hashing) {
    && q.schemaVersion in {"signalforge/metric-comparability-request/v1", "signalforge/metric-comparability-request/v2"}
    && EachWritten([q.requestId, q.runId, q.laneId, q.reviewerPolicyVersion]) && q.asOf != 0
    && |q.operands| == 2 && OperandsMeet(q.operands, q.asOf, q.schemaVersion == "signalforge/metric-comparability-request/v2")
    && HasYear(q.asOf) && YearsMeet(q.operands) && Hex64(q.requestSha256) && q.requestSha256 == h.request(q.(requestSha256 := ""))
  }

  lemma RequestTerms(q: Request, h: Hashing)
    ensures RequestOk(q, h) <==> RequestMeets(q, h)
  {
    var f := [q.requestId, q.runId, q.laneId, q.reviewerPolicyVersion];
    assert EachWritten(f) <==> (f[0] != "" && f[1] != "" && f[2] != "" && f[3] != "");
    OperandsTerms(q.operands, q.asOf, IsV2(q));
    HexTerms(q.requestSha256);
    YearTerms(q.operands);
  }

  /** Evaluate answers exactly such requests of the policy's version, at a time that is not before their date. */
  lemma EvaluableTerms(q: Request, generatedAt: Time, p: Policy, h: Hashing)
    ensures Evaluable(q, generatedAt, p, h) <==> (
      && RequestMeets(q, h) && p.version != "" && p.version == q.reviewerPolicyVersion
      && generatedAt != 0 && q.asOf <= generatedAt && HasYear(generatedAt))
  {
    RequestTerms(q, h);
  }

  /** What each disposition asks of the rest of a receipt. */
  ghost predicate DispositionMeets(r: Receipt) {
    match r.disposition
    case Comparable => (forall i :: 0 <= i < |r.invariants| ==> r.invariants[i].passed) && |r.requiredCaveatIds| == 0 && |r.reasonCodes| == 0
    case ComparableWithCaveat => |r.requiredCaveatIds| > 0
    case ContextOnly => r.schemaVersion == "signalforge/metric-comparability-receipt/v2" && |r.requiredCaveatIds| > 0 && |r.reasonCodes| > 0
    case NotComparable => (exists i :: 0 <= i < |r.invariants| && !r.invariants[i].passed) && |r.reasonCodes| > 0
    case OtherDisposition(_) => false
  }

  ghost predicate ReceiptMeets(r: Receipt, h: Hashing) {
    && r.schemaVersion in {"signalforge/metric-comparability-receipt/v1", "signalforge/metric-comparability-receipt/v2"}
    && EachWritten([r.receiptId, r.requestId, r.runId, r.laneId, r.reviewerPolicyVersion])
    && r.asOf != 0 && r.generatedAt != 0 && r.asOf <= r.generatedAt
    && |r.invariants| > 0 && (forall i :: 0 <= i < |r.invariants| ==> r.invariants[i].id != "")
    && OperandsMeet(r.operands, r.asOf, r.schemaVersion == "signalforge/metric-comparability-receipt/v2")
    && DispositionMeets(r) && HasYear(r.asOf) && HasYear(r.generatedAt) && YearsMeet(r.operands)
    && Hex64(r.requestSha256) && Hex64(r.receiptSha256) && r.receiptSha256 == h.receipt(r.(receiptSha256 := ""))
  }

  /** The validator accepts exactly the receipts that meet the terms. */
  lemma ReceiptTerms(r: Receipt, h: Hashing)
    ensures ReceiptOk(r, h) <==> ReceiptMeets(r, h)
  {
    var f := [r.receiptId, r.requestId, r.runId, r.laneId, r.reviewerPolicyVersion];
    assert EachWritten(f) <==> (f[0] != "" && f[1] != "" && f[2] != "" && f[3] != "" && f[4] != "");
    OperandsTerms(r.operands, r.asOf, r.schemaVersion == RECEIPT_V2);
    HexTerms(r.requestSha256);
    HexTerms(r.receiptSha256);
    YearTerms(r.operands);
    assert DispositionOk(r) <==> DispositionMeets(r);
  }
}
