/**
 * Comparability receipts: the evaluator that writes them and the validator that accepts them. Record
 * hashes are functions of the record; times are instants in nanoseconds.
 */
module Comparability {
  import opened Common
  import opened Instants
  import opened Strings

  const RECEIPT_V1 := "signalforge/metric-comparability-receipt/v1"
  const RECEIPT_V2 := "signalforge/metric-comparability-receipt/v2"
  const REQUEST_V1 := "signalforge/metric-comparability-request/v1"
  const REQUEST_V2 := "signalforge/metric-comparability-request/v2"
  const DAY := 24 * 3600 * 1_000_000_000

  datatype Authority = Authority(
    inputId: string, canonicalInput: string, mappingKey: string, taxonomyConcept: string,
    accountingPerimeter: string, disposition: string, productLabel: string, pairRankingEligible: bool)

  datatype Operand = Operand(
    companyId: string, securityId: string, sourceObservationIds: seq<string>, sourceHashes: seq<string>,
    availableAt: Time, retrievedAt: Time, canonicalMetricId: string, metricVersion: string,
    taxonomyConcept: string, extensionMappingId: string, value: string, unit: string, currency: string,
    scale: int, signPolicy: string, dimensionalIdentity: string, periodType: string,
    fiscalStart: Option<Time>, fiscalEnd: Time, filingDate: Time, marketDate: Option<Time>,
    accountingPerimeter: string, accountingInputs: seq<Authority>, outputClass: string, productLabel: string,
    pairRankingEligible: bool, definitionId: string, restatementState: string, supersessionState: string)

  datatype Request = Request(
    schemaVersion: string, requestId: string, runId: string, laneId: string, asOf: Time,
    reviewerPolicyVersion: string, operands: seq<Operand>, requestSha256: string)

  datatype Invariant = Invariant(id: string, passed: bool)

  datatype Disposition = Comparable | ComparableWithCaveat | ContextOnly | NotComparable | OtherDisposition(name: string)

  datatype Receipt = Receipt(
    schemaVersion: string, receiptId: string, requestId: string, runId: string, laneId: string, asOf: Time,
    operands: seq<Operand>, disposition: Disposition, invariants: seq<Invariant>, requiredCaveatIds: seq<string>,
    reasonCodes: seq<string>, reviewerPolicyVersion: string, requestSha256: string, generatedAt: Time, receiptSha256: string)

  datatype Policy = Policy(
    version: string, requireExactPeriod: bool, allowAnnualPeriodCaveat: bool, maxFiscalEndDeltaDays: int, requireExactMarketDate: bool)

  const DEFAULT_POLICY := Policy("metric-comparability/v1", true, false, 0, true)
  const ANNUAL_DURATION_POLICY := Policy("metric-comparability-annual-duration/v1", false, true, 190, true)

  // ---------------------------------------------------------------- hashes and operands

  /** A lowercase SHA-256 in hexadecimal. */
  predicate ValidHash(s: string) {
    |s| == 64 && forall i :: 0 <= i < 64 ==> '0' <= s[i] <= '9' || 'a' <= s[i] <= 'f'
  }

  /** Instants of the years 0 to 9999, which alone have a JSON form; instants count from the first day of year 1. */
  predicate InCalendar(t: Time) {
    -366 * DAY <= t < 3_652_059 * DAY
  }

  predicate OptionalInCalendar(t: Option<Time>) {
    t.Some? ==> InCalendar(t.value)
  }

  predicate OperandEncodable(o: Operand) {
    && InCalendar(o.availableAt) && InCalendar(o.retrievedAt) && InCalendar(o.fiscalEnd) && InCalendar(o.filingDate)
    && OptionalInCalendar(o.fiscalStart) && OptionalInCalendar(o.marketDate)
  }

  predicate AllEncodable(operands: seq<Operand>) {
    forall i :: 0 <= i < |operands| ==> OperandEncodable(operands[i])
  }

  /** How records are hashed, with their own hash field cleared; the hash is always well-formed. */
  datatype Hashing = Hashing(request: Request -> string, receipt: Receipt -> string)

  ghost predicate HashingOk(h: Hashing) {
    (forall r :: ValidHash(h.request(r))) && (forall r :: ValidHash(h.receipt(r)))
  }

  predicate Complete(o: Operand) {
    && o.companyId != "" && o.canonicalMetricId != "" && o.metricVersion != "" && o.taxonomyConcept != "" && o.value != ""
    && o.unit != "" && o.signPolicy != "" && o.dimensionalIdentity != "" && o.periodType != ""
    && o.fiscalEnd != ZERO_TIME && o.filingDate != ZERO_TIME
    && o.accountingPerimeter != "" && o.definitionId != "" && o.restatementState != "" && o.supersessionState != ""
    && o.sourceObservationIds != [] && o.sourceHashes != []
    && forall i :: 0 <= i < |o.sourceHashes| ==> ValidHash(o.sourceHashes[i])
  }

  /** Point-in-time availability and the shape of the period. */
  predicate Timely(o: Operand, asOf: Time) {
    && o.availableAt != ZERO_TIME && o.retrievedAt != ZERO_TIME
    && o.availableAt <= o.retrievedAt && o.availableAt <= asOf && o.filingDate <= asOf && o.fiscalEnd <= asOf
    && (o.periodType == "duration" ==> o.fiscalStart.Some? && o.fiscalStart.value < o.fiscalEnd)
    && (o.periodType == "instant" ==> o.fiscalStart.None?)
  }

  predicate AuthorityComplete(a: Authority) {
    && a.inputId != "" && a.canonicalInput != "" && a.mappingKey != "" && a.taxonomyConcept != ""
    && a.accountingPerimeter != "" && a.disposition != "" && a.productLabel != ""
  }

  function Signature(inputs: seq<Authority>): seq<string> {
    seq(|inputs|, i requires 0 <= i < |inputs| => inputs[i].inputId + "=" + inputs[i].accountingPerimeter)
  }

  function Join(parts: seq<string>): string {
    if parts == [] then "" else if |parts| == 1 then parts[0] else parts[0] + ";" + Join(parts[1..])
  }

  predicate AllEligible(inputs: seq<Authority>) {
    forall i :: 0 <= i < |inputs| ==> inputs[i].pairRankingEligible
  }

  predicate InputsOk(inputs: seq<Authority>) {
    && (forall i :: 0 <= i < |inputs| ==> AuthorityComplete(inputs[i]))
    && forall i, j :: 0 <= i < j < |inputs| ==> inputs[i].inputId != inputs[j].inputId
  }

  /** Under v2 every operand carries its accounting inputs, and its eligibility is what they and its class give. */
  predicate Authorised(o: Operand) {
    && o.productLabel != "" && o.accountingInputs != []
    && InputsOk(o.accountingInputs)
    && Join(SortStrings(Signature(o.accountingInputs))) == o.accountingPerimeter
    && (o.pairRankingEligible <==> o.outputClass == "authoritative" && AllEligible(o.accountingInputs))
    && (o.outputClass == "authoritative" || o.outputClass == "context_only")
  }

  predicate OperandOk(o: Operand, asOf: Time, v2: bool) {
    Complete(o) && Timely(o, asOf) && (v2 ==> Authorised(o))
  }

  /** What validateComparisonOperands accepts. */
  predicate OperandsOk(operands: seq<Operand>, asOf: Time, v2: bool) {
    && (forall i :: 0 <= i < |operands| ==> OperandOk(operands[i], asOf, v2))
    && (forall i, j :: 0 <= i < j < |operands| ==>
          operands[i].companyId != operands[j].companyId && operands[i].canonicalMetricId == operands[j].canonicalMetricId)
    && (|operands| == 2 && operands[0].securityId != "" ==> operands[0].securityId != operands[1].securityId)
  }

  /** The first n inputs are in order, and these are their ids. */
  ghost predicate InputsSeen(inputs: seq<Authority>, n: nat, seen: set<string>)
    requires n <= |inputs|
  {
    && (forall k :: 0 <= k < n ==> AuthorityComplete(inputs[k]))
    && (forall x :: x in seen <==> exists k :: 0 <= k < n && inputs[k].inputId == x)
    && forall k, l :: 0 <= k < l < n ==> inputs[k].inputId != inputs[l].inputId
  }

  lemma InputsGrow(inputs: seq<Authority>, n: nat, seen: set<string>)
    requires n < |inputs| && InputsSeen(inputs, n, seen)
    ensures AuthorityComplete(inputs[n]) && inputs[n].inputId !in seen ==> InputsSeen(inputs, n + 1, seen + {inputs[n].inputId})
    ensures !AuthorityComplete(inputs[n]) || inputs[n].inputId in seen ==> !InputsOk(inputs)
  {
  }

  /** The inner loop over the accounting inputs of one operand. */
  method CheckInputs(inputs: seq<Authority>) returns (ok: bool, signature: seq<string>, eligible: bool)
    ensures ok <==> InputsOk(inputs)
    ensures ok ==> signature == Signature(inputs) && (eligible <==> AllEligible(inputs))
  {
    signature, eligible := [], true;
    var seen: set<string> := {};
    for i := 0 to |inputs|
      invariant signature == Signature(inputs)[..i] && InputsSeen(inputs, i, seen)
      invariant eligible <==> forall k :: 0 <= k < i ==> inputs[k].pairRankingEligible
    {
      var a := inputs[i];
      InputsGrow(inputs, i, seen);
      if !AuthorityComplete(a) || a.inputId in seen { return false, signature, eligible; }
      seen := seen + {a.inputId};
      eligible := eligible && a.pairRankingEligible;
      assert Signature(inputs)[i] == a.inputId + "=" + a.accountingPerimeter;
      signature := signature + [a.inputId + "=" + a.accountingPerimeter];
    }
    return true, signature, eligible;
  }

  method CheckAuthority(o: Operand) returns (ok: bool)
    ensures ok <==> Authorised(o)
  {
    if o.outputClass == "" || o.productLabel == "" || o.accountingInputs == [] { return false; }
    var inputsOk, signature, eligible := CheckInputs(o.accountingInputs);
    if !inputsOk { return false; }
    var expectedRanking := o.outputClass == "authoritative" && eligible;
    if Join(SortStrings(signature)) != o.accountingPerimeter || o.pairRankingEligible != expectedRanking { return false; }
    return o.outputClass == "authoritative" || o.outputClass == "context_only";
  }

  method CheckOperand(o: Operand, asOf: Time, requireAuthority: bool) returns (ok: bool)
    ensures ok <==> OperandOk(o, asOf, requireAuthority)
  {
    if !Complete(o) || !Timely(o, asOf) { return false; }
    ok := true;
    if requireAuthority {
      ok := CheckAuthority(o);
    }
  }

  predicate AllOk(operands: seq<Operand>, n: nat, asOf: Time, v2: bool)
    requires n <= |operands|
  {
    forall i :: 0 <= i < n ==> OperandOk(operands[i], asOf, v2)
  }

  /** The companies of the first n operands, no two the same. */
  ghost predicate Companies(operands: seq<Operand>, n: nat, companies: set<string>)
    requires n <= |operands|
  {
    && (forall x :: x in companies <==> exists k :: 0 <= k < n && operands[k].companyId == x)
    && forall k, l :: 0 <= k < l < n ==> operands[k].companyId != operands[l].companyId
  }

  lemma CompaniesGrow(operands: seq<Operand>, n: nat, companies: set<string>)
    requires n < |operands| && Companies(operands, n, companies)
    ensures operands[n].companyId !in companies ==> Companies(operands, n + 1, companies + {operands[n].companyId})
    ensures operands[n].companyId in companies ==> exists k :: 0 <= k < n && operands[k].companyId == operands[n].companyId
  {
  }

  ghost predicate OneMetric(operands: seq<Operand>, n: nat, metricId: string)
    requires n <= |operands|
  {
    forall k :: 0 <= k < n ==> operands[k].canonicalMetricId == metricId
  }

  lemma OkNamesMetric(o: Operand, asOf: Time, v2: bool)
    requires OperandOk(o, asOf, v2)
    ensures o.canonicalMetricId != ""
  {
  }

  /** An operand at fault, a company seen before or another metric refuses the whole list. */
  lemma OperandRefused(operands: seq<Operand>, i: nat, companies: set<string>, metricId: string, asOf: Time, v2: bool)
    requires i < |operands| && Companies(operands, i, companies) && OneMetric(operands, i, metricId)
    requires !OperandOk(operands[i], asOf, v2) || operands[i].companyId in companies || (i > 0 && operands[i].canonicalMetricId != metricId)
    ensures !OperandsOk(operands, asOf, v2)
  {
    if i > 0 { assert operands[0].canonicalMetricId == metricId; }
  }

  lemma OperandsPass(operands: seq<Operand>, companies: set<string>, metricId: string, asOf: Time, v2: bool)
    requires AllOk(operands, |operands|, asOf, v2) && Companies(operands, |operands|, companies)
    requires OneMetric(operands, |operands|, metricId)
    ensures OperandsOk(operands, asOf, v2) <==> !(|operands| == 2 && operands[0].securityId != "" && operands[0].securityId == operands[1].securityId)
  {
  }

  /** validateComparisonOperands */
  method ValidateComparisonOperands(operands: seq<Operand>, asOf: Time, requireAuthority: bool) returns (ok: bool)
    ensures ok <==> OperandsOk(operands, asOf, requireAuthority)
  {
    var companies: set<string>, metricId := {}, "";
    for i := 0 to |operands|
      invariant AllOk(operands, i, asOf, requireAuthority) && Companies(operands, i, companies) && OneMetric(operands, i, metricId)
      invariant i == 0 <==> metricId == ""
    {
      var o := operands[i];
      var fine := CheckOperand(o, asOf, requireAuthority);
      if !fine || o.companyId in companies {
        OperandRefused(operands, i, companies, metricId, asOf, requireAuthority);
        return false;
      }
      CompaniesGrow(operands, i, companies);
      OkNamesMetric(o, asOf, requireAuthority);
      ghost var before := companies;
      companies := companies + {o.companyId};
      if metricId == "" {
        metricId := o.canonicalMetricId;
      } else if o.canonicalMetricId != metricId {
        OperandRefused(operands, i, before, metricId, asOf, requireAuthority);
        return false;
      }
    }
    OperandsPass(operands, companies, metricId, asOf, requireAuthority);
    return !(|operands| == 2 && operands[0].securityId != "" && operands[0].securityId == operands[1].securityId);
  }

  // ---------------------------------------------------------------- the validators

  predicate IsV2(r: Request) { r.schemaVersion == REQUEST_V2 }

  predicate RequestOk(r: Request, h: Hashing) {
    && (r.schemaVersion == REQUEST_V1 || r.schemaVersion == REQUEST_V2)
    && r.requestId != "" && r.runId != "" && r.laneId != "" && r.asOf != ZERO_TIME && r.reviewerPolicyVersion != ""
    && |r.operands| == 2 && OperandsOk(r.operands, r.asOf, IsV2(r))
    && ValidHash(r.requestSha256) && InCalendar(r.asOf) && AllEncodable(r.operands)
    && h.request(r.(requestSha256 := "")) == r.requestSha256
  }

  function FailedIds(invariants: seq<Invariant>): (ids: seq<string>)
    ensures |ids| <= |invariants|
    ensures ids == [] <==> forall i :: 0 <= i < |invariants| ==> invariants[i].passed
  {
    if invariants == [] then []
    else
      assert invariants == [invariants[0]] + invariants[1..];
      (if invariants[0].passed then [] else [invariants[0].id]) + FailedIds(invariants[1..])
  }

  predicate DispositionOk(r: Receipt) {
    match r.disposition
    case Comparable => FailedIds(r.invariants) == [] && r.requiredCaveatIds == [] && r.reasonCodes == []
    case ComparableWithCaveat => r.requiredCaveatIds != []
    case ContextOnly => r.schemaVersion == RECEIPT_V2 && r.requiredCaveatIds != [] && r.reasonCodes != []
    case NotComparable => FailedIds(r.invariants) != [] && r.reasonCodes != []
    case OtherDisposition(_) => false
  }

  /** What ValidateMetricComparabilityReceipt accepts. */
  predicate ReceiptOk(r: Receipt, h: Hashing) {
    && (r.schemaVersion == RECEIPT_V1 || r.schemaVersion == RECEIPT_V2)
    && r.receiptId != "" && r.requestId != "" && r.runId != "" && r.laneId != ""
    && r.asOf != ZERO_TIME && r.generatedAt != ZERO_TIME && r.asOf <= r.generatedAt
    && r.reviewerPolicyVersion != "" && r.invariants != [] && ValidHash(r.requestSha256)
    && OperandsOk(r.operands, r.asOf, r.schemaVersion == RECEIPT_V2)
    && AllNamed(r.invariants)
    && DispositionOk(r)
    && ValidHash(r.receiptSha256) && InCalendar(r.asOf) && InCalendar(r.generatedAt) && AllEncodable(r.operands)
    && h.receipt(r.(receiptSha256 := "")) == r.receiptSha256
  }

  /** ValidateMetricComparabilityReceipt, which counts the failed invariants while it checks their ids. */
  method ValidateMetricComparabilityReceipt(r: Receipt, h: Hashing) returns (ok: bool)
    ensures ok <==> ReceiptOk(r, h)
  {
    if (r.schemaVersion != RECEIPT_V1 && r.schemaVersion != RECEIPT_V2) || r.receiptId == "" || r.requestId == "" || r.runId == ""
      || r.laneId == "" || r.asOf == ZERO_TIME || r.generatedAt == ZERO_TIME || r.generatedAt < r.asOf
      || r.reviewerPolicyVersion == "" || r.invariants == [] || !ValidHash(r.requestSha256) {
      return false;
    }
    var operandsOk := ValidateComparisonOperands(r.operands, r.asOf, r.schemaVersion == RECEIPT_V2);
    if !operandsOk { return false; }
    var failed := 0;
    for i := 0 to |r.invariants|
      invariant forall k :: 0 <= k < i ==> r.invariants[k].id != ""
      invariant failed >= 0 && (failed == 0 <==> forall k :: 0 <= k < i ==> r.invariants[k].passed)
    {
      if r.invariants[i].id == "" { return false; }
      if !r.invariants[i].passed { failed := failed + 1; }
    }
    assert failed == 0 <==> FailedIds(r.invariants) == [];
    match r.disposition {
      case Comparable => if failed != 0 || r.requiredCaveatIds != [] || r.reasonCodes != [] { return false; }
      case ComparableWithCaveat => if r.requiredCaveatIds == [] { return false; }
      case ContextOnly => if r.schemaVersion != RECEIPT_V2 || r.requiredCaveatIds == [] || r.reasonCodes == [] { return false; }
      case NotComparable => if failed == 0 || r.reasonCodes == [] { return false; }
      case OtherDisposition(_) => return false;
    }
    if !ValidHash(r.receiptSha256) { return false; }
    return InCalendar(r.asOf) && InCalendar(r.generatedAt) && AllEncodable(r.operands)
      && h.receipt(r.(receiptSha256 := "")) == r.receiptSha256;
  }

  // ---------------------------------------------------------------- the checks of the evaluator

  /** strings.Split for one character */
  function Split(s: string, c: char): (parts: seq<string>)
    ensures parts != []
  {
    if s == [] then [[]]
    else
      var rest := Split(s[1..], c);
      if s[0] == c then [[]] + rest else [[s[0]] + rest[0]] + rest[1..]
  }

  /** The perimeter named by one part: what follows its first equals sign, or the whole part. */
  function PerimeterOf(part: string): string {
    var pieces := Split(part, '=');
    if |pieces| == 1 then part else AfterFirst(part)
  }

  function AfterFirst(s: string): string {
    if s == [] then [] else if s[0] == '=' then s[1..] else AfterFirst(s[1..])
  }

  const RANKING_PERIMETERS: set<string> := {"consolidated", "consolidated_periodic_filing"}

  const REVIEWED_PERIMETERS: set<string> := RANKING_PERIMETERS + {
    "company_reported_property_and_equipment_cash_purchases",
    "company_reported_cash_capital_expenditures",
    "company_reported_property_equipment_and_intangible_assets"
  }

  predicate Reviewed(value: string) {
    var parts := Split(value, ';');
    forall i :: 0 <= i < |parts| ==> PerimeterOf(parts[i]) in REVIEWED_PERIMETERS
  }

  predicate RankingEligible(value: string) {
    var parts := Split(value, ';');
    forall i :: 0 <= i < |parts| ==> PerimeterOf(parts[i]) in RANKING_PERIMETERS
  }

  predicate ActiveRestatement(state: string) {
    state == "not_restated" || state == "restated_current" || state == "active_amendment_chain"
  }

  predicate AnnualDuration(o: Operand) {
    && o.periodType == "duration" && o.fiscalStart.Some?
    && 330 * DAY <= Since(o.fiscalEnd, o.fiscalStart.value) <= 380 * DAY
  }

  /** Negation in 64 bits: the smallest duration is its own negative. */
  function AbsoluteDuration(d: int): int {
    if d < 0 && d != MIN_DURATION then -d else d
  }

  function Wrap64(n: int): int {
    (n + 0x8000_0000_0000_0000) % 0x1_0000_0000_0000_0000 - 0x8000_0000_0000_0000
  }

  function EndDeltaLimit(p: Policy): int {
    Wrap64(p.maxFiscalEndDeltaDays * DAY)
  }

  predicate EndsWithinLimit(l: Operand, r: Operand, p: Policy) {
    AbsoluteDuration(Since(l.fiscalEnd, r.fiscalEnd)) <= EndDeltaLimit(p)
  }

  predicate UsesAnnualPeriods(p: Policy) {
    !p.requireExactPeriod && p.allowAnnualPeriodCaveat
  }

  function ChecksBefore(l: Operand, r: Operand): seq<Invariant> {
    [ Invariant("distinct_issuers", l.companyId != r.companyId),
      Invariant("same_metric", l.canonicalMetricId == r.canonicalMetricId),
      Invariant("same_metric_version", l.metricVersion == r.metricVersion),
      Invariant("same_unit", l.unit == r.unit),
      Invariant("same_currency", l.currency == r.currency),
      Invariant("same_scale", l.scale == r.scale),
      Invariant("same_sign_policy", l.signPolicy == r.signPolicy),
      Invariant("same_dimensions", l.dimensionalIdentity == r.dimensionalIdentity) ]
  }

  /** The one check that looks at the left operand alone. */
  function ConsolidatedCheck(l: Operand): Invariant {
    Invariant("consolidated_dimensions", l.dimensionalIdentity == "consolidated")
  }

  predicate EligiblePair(l: Operand, r: Operand, v2: bool) {
    if v2 then l.pairRankingEligible && r.pairRankingEligible
    else RankingEligible(l.accountingPerimeter) && RankingEligible(r.accountingPerimeter)
  }

  function ChecksAfter(l: Operand, r: Operand, v2: bool): seq<Invariant> {
    [ Invariant("same_period_type", l.periodType == r.periodType),
      Invariant("same_definition", l.definitionId == r.definitionId),
      Invariant("same_accounting_perimeter", l.accountingPerimeter == r.accountingPerimeter),
      Invariant("reviewed_accounting_perimeter", Reviewed(l.accountingPerimeter) && Reviewed(r.accountingPerimeter)),
      Invariant("ranking_eligible_accounting_perimeter", EligiblePair(l, r, v2)),
      Invariant("same_restatement_state", l.restatementState == r.restatementState),
      Invariant("active_restatement_chain", ActiveRestatement(l.restatementState) && ActiveRestatement(r.restatementState)),
      Invariant("active_supersession", l.supersessionState == "active" && r.supersessionState == "active") ]
  }

  function ExactPeriodChecks(l: Operand, r: Operand): seq<Invariant> {
    [ Invariant("same_fiscal_end", l.fiscalEnd == r.fiscalEnd), Invariant("same_fiscal_start", l.fiscalStart == r.fiscalStart) ]
  }

  function AnnualPeriodCheck(l: Operand, r: Operand): Invariant {
    Invariant("annual_duration_periods", AnnualDuration(l) && AnnualDuration(r))
  }

  /** The check whose outcome can depend on the order of operands whose ends are centuries apart. */
  function EndDeltaCheck(l: Operand, r: Operand, p: Policy): Invariant {
    Invariant("bounded_fiscal_end_delta", EndsWithinLimit(l, r, p))
  }

  function PeriodChecks(l: Operand, r: Operand, p: Policy): seq<Invariant> {
    if p.requireExactPeriod then ExactPeriodChecks(l, r)
    else if p.allowAnnualPeriodCaveat then [AnnualPeriodCheck(l, r), EndDeltaCheck(l, r, p)]
    else []
  }

  function MarketChecks(l: Operand, r: Operand, p: Policy): seq<Invariant> {
    if p.requireExactMarketDate && (l.marketDate.Some? || r.marketDate.Some?) then
      [ Invariant("same_market_observation_date", l.marketDate == r.marketDate),
        Invariant("security_identity_present", l.securityId != "" && r.securityId != "") ]
    else []
  }

  predicate ReviewedMapping(l: Operand, r: Operand) {
    l.extensionMappingId != "" && l.extensionMappingId == r.extensionMappingId
  }

  function TaxonomyChecks(l: Operand, r: Operand): seq<Invariant> {
    if l.taxonomyConcept != r.taxonomyConcept then [Invariant("reviewed_taxonomy_mapping", ReviewedMapping(l, r))] else []
  }

  function Checks(l: Operand, r: Operand, p: Policy, v2: bool): seq<Invariant> {
    ChecksBefore(l, r) + [ConsolidatedCheck(l)] + ChecksAfter(l, r, v2) + PeriodChecks(l, r, p) + LaterChecks(l, r, p)
  }

  function LaterChecks(l: Operand, r: Operand, p: Policy): seq<Invariant> {
    MarketChecks(l, r, p) + TaxonomyChecks(l, r)
  }

  function PeriodCaveats(l: Operand, r: Operand, p: Policy): seq<string> {
    if UsesAnnualPeriods(p) && AnnualDuration(l) && AnnualDuration(r) && (l.fiscalEnd != r.fiscalEnd || l.fiscalStart != r.fiscalStart)
    then ["different_fiscal_periods"] else []
  }

  function Caveats(l: Operand, r: Operand, p: Policy): seq<string> {
    PeriodCaveats(l, r, p)
    + (if l.filingDate != r.filingDate then ["different_filing_dates"] else [])
    + (if l.taxonomyConcept != r.taxonomyConcept && ReviewedMapping(l, r) then ["reviewed_taxonomy_mapping_applied"] else [])
  }

  predicate OnlyContext(l: Operand, r: Operand, v2: bool) {
    v2 && (l.outputClass == "context_only" || r.outputClass == "context_only" || !l.pairRankingEligible || !r.pairRankingEligible)
  }

  datatype Verdict = Verdict(disposition: Disposition, caveats: seq<string>, reasons: seq<string>)

  function Judge(l: Operand, r: Operand, p: Policy, v2: bool): Verdict {
    var failed := FailedIds(Checks(l, r, p, v2));
    var caveats := Caveats(l, r, p);
    if OnlyContext(l, r, v2) then
      Verdict(ContextOnly, SortStrings(caveats + ["non_ranking_context_only"]), SortStrings(failed + ["context_only_accounting_authority"]))
    else if failed != [] then Verdict(NotComparable, [], SortStrings(failed))
    else Verdict(if caveats != [] then ComparableWithCaveat else Comparable, SortStrings(caveats), [])
  }

  function Unhashed(q: Request, generatedAt: Time, p: Policy): Receipt
    requires |q.operands| == 2 && |q.requestSha256| >= 24
  {
    var l, r := q.operands[0], q.operands[1];
    var verdict := Judge(l, r, p, IsV2(q));
    Receipt(if IsV2(q) then RECEIPT_V2 else RECEIPT_V1, "comparability-" + q.requestSha256[..24], q.requestId, q.runId, q.laneId, q.asOf,
            q.operands, verdict.disposition, Checks(l, r, p, IsV2(q)), verdict.caveats, verdict.reasons, p.version, q.requestSha256, generatedAt, "")
  }

  function Hashed(r: Receipt, h: Hashing): Receipt {
    r.(receiptSha256 := h.receipt(r.(receiptSha256 := "")))
  }

  predicate Evaluable(q: Request, generatedAt: Time, p: Policy, h: Hashing) {
    && RequestOk(q, h) && p.version != "" && q.reviewerPolicyVersion == p.version
    && generatedAt != ZERO_TIME && q.asOf <= generatedAt && InCalendar(generatedAt)
  }

  // ---------------------------------------------------------------- Evaluate

  /** The period group: its checks and its caveat. */
  method AssessPeriods(l: Operand, r: Operand, p: Policy) returns (invariants: seq<Invariant>, caveats: seq<string>)
    ensures invariants == PeriodChecks(l, r, p) && caveats == PeriodCaveats(l, r, p)
  {
    invariants, caveats := [], [];
    if p.requireExactPeriod {
      invariants := ExactPeriodChecks(l, r);
    } else if p.allowAnnualPeriodCaveat {
      var annualPeriods := AnnualDuration(l) && AnnualDuration(r);
      invariants := [Invariant("annual_duration_periods", annualPeriods), EndDeltaCheck(l, r, p)];
      if annualPeriods && (l.fiscalEnd != r.fiscalEnd || l.fiscalStart != r.fiscalStart) {
        caveats := ["different_fiscal_periods"];
      }
    }
  }

  /** The checks and caveats are appended one group after the other. */
  method Assess(l: Operand, r: Operand, p: Policy, v2: bool) returns (invariants: seq<Invariant>, caveats: seq<string>)
    ensures invariants == Checks(l, r, p, v2) && caveats == Caveats(l, r, p)
  {
    invariants := ChecksBefore(l, r) + [ConsolidatedCheck(l)] + ChecksAfter(l, r, v2);
    var periods, periodCaveats := AssessPeriods(l, r, p);
    var later := MarketChecks(l, r, p);
    caveats := periodCaveats;
    if l.filingDate != r.filingDate { caveats := caveats + ["different_filing_dates"]; }
    var taxonomy: seq<Invariant> := [];
    if l.taxonomyConcept != r.taxonomyConcept {
      taxonomy := [Invariant("reviewed_taxonomy_mapping", ReviewedMapping(l, r))];
      if ReviewedMapping(l, r) { caveats := caveats + ["reviewed_taxonomy_mapping_applied"]; }
    }
    invariants := invariants + periods + (later + taxonomy);
  }

  /** The verdict from the failed checks and the caveats, both sorted. */
  method Draw(l: Operand, r: Operand, p: Policy, v2: bool, invariants: seq<Invariant>, found: seq<string>) returns (verdict: Verdict)
    requires invariants == Checks(l, r, p, v2) && found == Caveats(l, r, p)
    ensures verdict == Judge(l, r, p, v2)
  {
    var reasons, caveats, disposition := FailedIds(invariants), found, Comparable;
    if OnlyContext(l, r, v2) {
      disposition := ContextOnly;
      reasons := reasons + ["context_only_accounting_authority"];
      caveats := caveats + ["non_ranking_context_only"];
    } else if reasons != [] {
      disposition, caveats := NotComparable, [];
    } else if caveats != [] {
      disposition := ComparableWithCaveat;
    }
    return Verdict(disposition, SortStrings(caveats), SortStrings(reasons));
  }

  method Evaluate(q: Request, generatedAt: Time, p: Policy, h: Hashing) returns (receipt: Result<Receipt, string>)
    ensures receipt.Ok? <==> Evaluable(q, generatedAt, p, h)
    ensures receipt.Ok? ==> receipt.value == Hashed(Unhashed(q, generatedAt, p), h)
  {
    if !RequestOk(q, h) { return Err("metric comparability request is invalid"); }
    if p.version == "" || q.reviewerPolicyVersion != p.version { return Err("comparison policy version is missing or mismatched"); }
    if generatedAt == ZERO_TIME || generatedAt < q.asOf { return Err("receipt generation time cannot precede request as_of"); }
    var l, r, v2 := q.operands[0], q.operands[1], IsV2(q);
    var invariants, caveats := Assess(l, r, p, v2);
    var verdict := Draw(l, r, p, v2, invariants, caveats);
    if !InCalendar(generatedAt) { return Err("the receipt has no JSON form"); }
    var schema := if v2 then RECEIPT_V2 else RECEIPT_V1;
    var written := Receipt(schema, "comparability-" + q.requestSha256[..24], q.requestId, q.runId, q.laneId, q.asOf,
                           q.operands, verdict.disposition, invariants, verdict.caveats, verdict.reasons, p.version, q.requestSha256, generatedAt, "");
    return Ok(Hashed(written, h));
  }

  // ---------------------------------------------------------------- what a receipt is worth

  predicate AllNamed(invariants: seq<Invariant>) {
    forall i :: 0 <= i < |invariants| ==> invariants[i].id != ""
  }

  lemma LaterChecksNamed(l: Operand, r: Operand, p: Policy)
    ensures AllNamed(PeriodChecks(l, r, p)) && AllNamed(LaterChecks(l, r, p))
  {
  }

  lemma NamedParts(a: seq<Invariant>, b: seq<Invariant>, c: seq<Invariant>, d: seq<Invariant>, e: seq<Invariant>)
    requires AllNamed(a) && AllNamed(b) && AllNamed(c) && AllNamed(d) && AllNamed(e)
    ensures AllNamed(a + b + c + d + e)
  {
  }

  lemma FirstChecksNamed(l: Operand, r: Operand, v2: bool)
    ensures AllNamed(ChecksBefore(l, r)) && AllNamed(ChecksAfter(l, r, v2))
  {
  }

  lemma ChecksNamed(l: Operand, r: Operand, p: Policy, v2: bool)
    ensures Checks(l, r, p, v2) != [] && AllNamed(Checks(l, r, p, v2))
  {
    FirstChecksNamed(l, r, v2);
    LaterChecksNamed(l, r, p);
    NamedParts(ChecksBefore(l, r), [ConsolidatedCheck(l)], ChecksAfter(l, r, v2), PeriodChecks(l, r, p), LaterChecks(l, r, p));
  }

  /** Every receipt the evaluator returns is accepted by the validator. */
  lemma EvaluatedIsAccepted(q: Request, generatedAt: Time, p: Policy, h: Hashing)
    requires HashingOk(h) && Evaluable(q, generatedAt, p, h)
    ensures ReceiptOk(Hashed(Unhashed(q, generatedAt, p), h), h)
  {
    var r := Unhashed(q, generatedAt, p);
    ChecksNamed(q.operands[0], q.operands[1], p, IsV2(q));
    assert Hashed(r, h).(receiptSha256 := "") == r;
  }

  predicate IsReleasable(d: Disposition) {
    d == Comparable || d == ComparableWithCaveat
  }

  lemma FailsInside(a: seq<Invariant>, b: seq<Invariant>, c: seq<Invariant>, d: seq<Invariant>)
    requires FailedIds(b) != []
    ensures FailedIds(a + b + c + d) != []
  {
    var i :| 0 <= i < |b| && !b[i].passed;
    assert !(a + b + c + d)[|a| + i].passed;
  }

  lemma IneligibleFails(l: Operand, r: Operand, p: Policy, v2: bool)
    requires !EligiblePair(l, r, v2)
    ensures FailedIds(Checks(l, r, p, v2)) != []
  {
    assert !ChecksAfter(l, r, v2)[4].passed;
    FailsInside(ChecksBefore(l, r) + [ConsolidatedCheck(l)], ChecksAfter(l, r, v2), PeriodChecks(l, r, p), LaterChecks(l, r, p));
  }

  lemma ContextIsIneligible(l: Operand, r: Operand)
    requires Authorised(l) && Authorised(r) && OnlyContext(l, r, true)
    ensures !EligiblePair(l, r, true)
  {
  }

  /** Between well-formed operands only failed checks keep a comparison from release. */
  lemma JudgedReleasable(l: Operand, r: Operand, p: Policy, v2: bool)
    requires OnlyContext(l, r, v2) ==> !EligiblePair(l, r, v2)
    ensures IsReleasable(Judge(l, r, p, v2).disposition) <==> FailedIds(Checks(l, r, p, v2)) == []
    ensures IsReleasable(Judge(l, r, p, v2).disposition) ==> EligiblePair(l, r, v2)
  {
    if !EligiblePair(l, r, v2) {
      IneligibleFails(l, r, p, v2);
    }
    JudgeReleases(l, r, p, v2);
  }

  lemma JudgeReleases(l: Operand, r: Operand, p: Policy, v2: bool)
    ensures IsReleasable(Judge(l, r, p, v2).disposition) <==> FailedIds(Checks(l, r, p, v2)) == [] && !OnlyContext(l, r, v2)
  {
  }

  /** A receipt is releasable exactly when no invariant failed; under v2 every accounting input on both sides is then eligible. */
  lemma ReleasableMeans(q: Request, generatedAt: Time, p: Policy, h: Hashing)
    requires Evaluable(q, generatedAt, p, h)
    ensures var r := Unhashed(q, generatedAt, p);
      && (IsReleasable(r.disposition) <==> FailedIds(r.invariants) == [])
      && (IsReleasable(r.disposition) && IsV2(q) ==> AllEligible(q.operands[0].accountingInputs) && AllEligible(q.operands[1].accountingInputs))
  {
    var l, r, v2 := q.operands[0], q.operands[1], IsV2(q);
    assert OperandOk(l, q.asOf, v2) && OperandOk(r, q.asOf, v2);
    if OnlyContext(l, r, v2) {
      ContextIsIneligible(l, r);
    }
    JudgedReleasable(l, r, p, v2);
  }

  /** The validator alone does not give this: a caveated receipt is accepted whatever its invariants say. */
  lemma ValidatorTrustsCaveats(r: Receipt, h: Hashing, invariants: seq<Invariant>)
    requires HashingOk(h) && ReceiptOk(r, h) && r.disposition == ComparableWithCaveat
    requires invariants != [] && AllNamed(invariants)
    ensures ReceiptOk(Hashed(r.(invariants := invariants), h), h)
  {
    var changed := r.(invariants := invariants);
    assert Hashed(changed, h).(receiptSha256 := "") == changed.(receiptSha256 := "");
  }

  // ---------------------------------------------------------------- swapping the operands

  /** The day limit is an even number of nanoseconds, so it is never the largest duration. */
  lemma LimitBelowMax(p: Policy)
    ensures MIN_DURATION <= EndDeltaLimit(p) < MAX_DURATION
  {
    var n := p.maxFiscalEndDeltaDays * DAY;
    assert n == 2 * (p.maxFiscalEndDeltaDays * (DAY / 2));
    EvenWrap(p.maxFiscalEndDeltaDays * (DAY / 2));
  }

  lemma EvenWrap(half: int)
    ensures MIN_DURATION <= Wrap64(2 * half) < MAX_DURATION
  {
  }

  /** Period ends less than 2^63 nanoseconds apart, about 292 years. */
  predicate EndsComparable(l: Operand, r: Operand) {
    MIN_DURATION < l.fiscalEnd - r.fiscalEnd < -MIN_DURATION
  }

  /** What the end-delta check means: the distance is within the limit, or the left end is centuries before the right one. */
  lemma EndDeltaMeans(l: Operand, r: Operand, p: Policy)
    ensures EndsWithinLimit(l, r, p) <==>
      l.fiscalEnd - r.fiscalEnd <= MIN_DURATION || -EndDeltaLimit(p) <= l.fiscalEnd - r.fiscalEnd <= EndDeltaLimit(p)
  {
    LimitBelowMax(p);
  }

  lemma EndDeltaSwaps(l: Operand, r: Operand, p: Policy)
    ensures EndsWithinLimit(l, r, p) == EndsWithinLimit(r, l, p) <==> EndsComparable(l, r)
  {
    LimitBelowMax(p);
  }

  /** The check of one side agrees with that of the other, and the end-delta check has no saturated distance to look at. */
  predicate SwapsEvenly(l: Operand, r: Operand, p: Policy) {
    && (l.dimensionalIdentity == "consolidated" <==> r.dimensionalIdentity == "consolidated")
    && (UsesAnnualPeriods(p) ==> EndsComparable(l, r))
  }

  lemma {:induction false} FailedConcat(a: seq<Invariant>, b: seq<Invariant>)
    ensures FailedIds(a + b) == FailedIds(a) + FailedIds(b)
  {
    if a == [] {
      assert a + b == b;
    } else {
      assert (a + b)[1..] == a[1..] + b;
      FailedConcat(a[1..], b);
    }
  }

  function FailedOne(i: Invariant): multiset<string> {
    if i.passed then multiset{} else multiset{i.id}
  }

  function SidedEndDelta(l: Operand, r: Operand, p: Policy): multiset<string> {
    if UsesAnnualPeriods(p) then FailedOne(EndDeltaCheck(l, r, p)) else multiset{}
  }

  /** What can fail for one order of the operands and not for the other. */
  function SidedFailures(l: Operand, r: Operand, p: Policy): multiset<string> {
    FailedOne(ConsolidatedCheck(l)) + SidedEndDelta(l, r, p)
  }

  lemma FailedSingle(i: Invariant)
    ensures multiset(FailedIds([i])) == FailedOne(i)
  {
    assert [i][1..] == [];
  }

  function SharedPeriods(l: Operand, r: Operand, p: Policy): seq<Invariant> {
    if p.requireExactPeriod then ExactPeriodChecks(l, r) else if p.allowAnnualPeriodCaveat then [AnnualPeriodCheck(l, r)] else []
  }

  lemma PeriodFailures(l: Operand, r: Operand, p: Policy)
    ensures multiset(FailedIds(PeriodChecks(l, r, p))) == multiset(FailedIds(SharedPeriods(l, r, p))) + SidedEndDelta(l, r, p)
    ensures SharedPeriods(l, r, p) == SharedPeriods(r, l, p)
  {
    if UsesAnnualPeriods(p) {
      FailedConcat([AnnualPeriodCheck(l, r)], [EndDeltaCheck(l, r, p)]);
      assert PeriodChecks(l, r, p) == [AnnualPeriodCheck(l, r)] + [EndDeltaCheck(l, r, p)];
      FailedSingle(EndDeltaCheck(l, r, p));
    }
  }

  /** The failures of a list of five parts. */
  lemma FailedParts(a: seq<Invariant>, b: seq<Invariant>, c: seq<Invariant>, d: seq<Invariant>, e: seq<Invariant>)
    ensures FailedIds(a + b + c + d + e) == FailedIds(a) + FailedIds(b) + FailedIds(c) + FailedIds(d) + FailedIds(e)
  {
    FailedConcat(a + b + c + d, e);
    FailedConcat(a + b + c, d);
    FailedConcat(a + b, c);
    FailedConcat(a, b);
  }

  /** What fails whichever operand comes first. */
  function SharedFailures(l: Operand, r: Operand, p: Policy, v2: bool): multiset<string> {
    multiset(FailedIds(ChecksBefore(l, r))) + multiset(FailedIds(ChecksAfter(l, r, v2)))
    + multiset(FailedIds(SharedPeriods(l, r, p))) + multiset(FailedIds(LaterChecks(l, r, p)))
  }

  lemma SharedFailuresSwap(l: Operand, r: Operand, p: Policy, v2: bool)
    ensures SharedFailures(l, r, p, v2) == SharedFailures(r, l, p, v2)
  {
    assert ChecksBefore(l, r) == ChecksBefore(r, l);
    assert ChecksAfter(l, r, v2) == ChecksAfter(r, l, v2);
    PeriodFailures(l, r, p);
    LaterChecksSwap(l, r, p);
  }

  lemma LaterChecksSwap(l: Operand, r: Operand, p: Policy)
    ensures LaterChecks(l, r, p) == LaterChecks(r, l, p)
  {
    assert MarketChecks(l, r, p) == MarketChecks(r, l, p);
    assert TaxonomyChecks(l, r) == TaxonomyChecks(r, l);
  }

  /** The failures are the shared ones and at most two that depend on the order. */
  lemma FailuresSplit(l: Operand, r: Operand, p: Policy, v2: bool)
    ensures multiset(FailedIds(Checks(l, r, p, v2)))
         == SharedFailures(l, r, p, v2) + SidedFailures(l, r, p)
  {
    FailedParts(ChecksBefore(l, r), [ConsolidatedCheck(l)], ChecksAfter(l, r, v2), PeriodChecks(l, r, p), LaterChecks(l, r, p));
    FailedSingle(ConsolidatedCheck(l));
    PeriodFailures(l, r, p);
  }

  lemma EvenChecksSwap(l: Operand, r: Operand, p: Policy, v2: bool)
    requires SwapsEvenly(l, r, p)
    ensures Checks(l, r, p, v2) == Checks(r, l, p, v2)
  {
    EndDeltaSwaps(l, r, p);
    assert ChecksBefore(l, r) == ChecksBefore(r, l);
    assert ChecksAfter(l, r, v2) == ChecksAfter(r, l, v2);
    assert PeriodChecks(l, r, p) == PeriodChecks(r, l, p);
    LaterChecksSwap(l, r, p);
  }

  lemma CaveatsSwap(l: Operand, r: Operand, p: Policy)
    ensures Caveats(l, r, p) == Caveats(r, l, p)
  {
  }

  lemma FailuresOfBoth(l: Operand, r: Operand, p: Policy, v2: bool) returns (common: multiset<string>)
    ensures multiset(FailedIds(Checks(l, r, p, v2))) == common + SidedFailures(l, r, p)
    ensures multiset(FailedIds(Checks(r, l, p, v2))) == common + SidedFailures(r, l, p)
  {
    common := SharedFailures(l, r, p, v2);
    FailuresSplit(l, r, p, v2);
    FailuresSplit(r, l, p, v2);
    SharedFailuresSwap(l, r, p, v2);
  }

  lemma UnevenFailuresDiffer(l: Operand, r: Operand, p: Policy, v2: bool)
    requires !SwapsEvenly(l, r, p)
    ensures multiset(FailedIds(Checks(l, r, p, v2))) != multiset(FailedIds(Checks(r, l, p, v2)))
  {
    var common := FailuresOfBoth(l, r, p, v2);
    OddOnesDiffer(l, r, p);
    Cancels(common, SidedFailures(l, r, p), SidedFailures(r, l, p));
  }

  lemma OddOnesDiffer(l: Operand, r: Operand, p: Policy)
    requires !SwapsEvenly(l, r, p)
    ensures SidedFailures(l, r, p) != SidedFailures(r, l, p)
  {
    EndDeltaSwaps(l, r, p);
    var mine, yours := SidedFailures(l, r, p), SidedFailures(r, l, p);
    assert "consolidated_dimensions" != "bounded_fiscal_end_delta";
    assert mine["consolidated_dimensions"] == if l.dimensionalIdentity == "consolidated" then 0 else 1;
    assert yours["consolidated_dimensions"] == if r.dimensionalIdentity == "consolidated" then 0 else 1;
    assert UsesAnnualPeriods(p) ==> mine["bounded_fiscal_end_delta"] == if EndsWithinLimit(l, r, p) then 0 else 1;
    assert UsesAnnualPeriods(p) ==> yours["bounded_fiscal_end_delta"] == if EndsWithinLimit(r, l, p) then 0 else 1;
  }

  lemma Cancels(common: multiset<string>, a: multiset<string>, b: multiset<string>)
    ensures common + a == common + b ==> a == b
  {
    assert (common + a) - common == a;
    assert (common + b) - common == b;
  }

  /**
   * Swapping the operands leaves the reasons as they are exactly when both or neither are consolidated and,
   * under the annual-period policy, the period ends are less than about 292 years apart.
   */
  lemma SwapKeepsReasons(l: Operand, r: Operand, p: Policy, v2: bool)
    ensures Judge(l, r, p, v2).reasons == Judge(r, l, p, v2).reasons <==> SwapsEvenly(l, r, p)
  {
    if SwapsEvenly(l, r, p) {
      EvenChecksSwap(l, r, p, v2);
    } else {
      UnevenFailuresDiffer(l, r, p, v2);
      ReasonsHoldFailures(l, r, p, v2);
      ReasonsHoldFailures(r, l, p, v2);
      if OnlyContext(l, r, v2) {
        Cancels(multiset{"context_only_accounting_authority"}, multiset(FailedIds(Checks(l, r, p, v2))), multiset(FailedIds(Checks(r, l, p, v2))));
      }
    }
  }

  lemma ReasonsHoldFailures(l: Operand, r: Operand, p: Policy, v2: bool)
    ensures multiset(Judge(l, r, p, v2).reasons)
         == (if OnlyContext(l, r, v2) then multiset{"context_only_accounting_authority"} else multiset{}) + multiset(FailedIds(Checks(l, r, p, v2)))
  {
  }

  /** Nothing fails exactly when nothing shared fails, the left operand is consolidated and the ends pass their check. */
  lemma NothingFailsIff(l: Operand, r: Operand, p: Policy, v2: bool)
    ensures FailedIds(Checks(l, r, p, v2)) == [] <==>
      SharedFailures(l, r, p, v2) == multiset{} && l.dimensionalIdentity == "consolidated" && (UsesAnnualPeriods(p) ==> EndsWithinLimit(l, r, p))
  {
    FailuresSplit(l, r, p, v2);
    EmptyMultiset(FailedIds(Checks(l, r, p, v2)));
    SidedEmptyIff(l, r, p);
    EmptySum(SharedFailures(l, r, p, v2), SidedFailures(l, r, p));
  }

  lemma SidedEmptyIff(l: Operand, r: Operand, p: Policy)
    ensures SidedFailures(l, r, p) == multiset{} <==>
      l.dimensionalIdentity == "consolidated" && (UsesAnnualPeriods(p) ==> EndsWithinLimit(l, r, p))
  {
    EmptySum(FailedOne(ConsolidatedCheck(l)), SidedEndDelta(l, r, p));
    OneIsEmptyIff(ConsolidatedCheck(l));
    OneIsEmptyIff(EndDeltaCheck(l, r, p));
  }

  lemma OneIsEmptyIff(i: Invariant)
    ensures FailedOne(i) == multiset{} <==> i.passed
  {
    assert !i.passed ==> i.id in FailedOne(i);
  }

  lemma EmptySum(a: multiset<string>, b: multiset<string>)
    ensures a + b == multiset{} <==> a == multiset{} && b == multiset{}
  {
    if a + b == multiset{} {
      assert forall x :: a[x] + b[x] == (a + b)[x];
    }
  }

  lemma EmptyMultiset(s: seq<string>)
    ensures multiset(s) == multiset{} <==> s == []
  {
    assert s != [] ==> s[0] in multiset(s);
  }

  lemma DimensionsFailBefore(l: Operand, r: Operand)
    requires l.dimensionalIdentity != r.dimensionalIdentity
    ensures FailedIds(ChecksBefore(l, r)) != []
  {
    assert !ChecksBefore(l, r)[7].passed;
  }

  /** Different dimensions are a shared failure. */
  lemma NothingSharedSameDimensions(l: Operand, r: Operand, p: Policy, v2: bool)
    ensures SharedFailures(l, r, p, v2) == multiset{} ==> l.dimensionalIdentity == r.dimensionalIdentity
  {
    var before := FailedIds(ChecksBefore(l, r));
    var rest := multiset(FailedIds(ChecksAfter(l, r, v2))) + multiset(FailedIds(SharedPeriods(l, r, p))) + multiset(FailedIds(LaterChecks(l, r, p)));
    assert SharedFailures(l, r, p, v2) == multiset(before) + rest;
    EmptySum(multiset(before), rest);
    EmptyMultiset(before);
    if l.dimensionalIdentity != r.dimensionalIdentity { DimensionsFailBefore(l, r); }
  }

  /** Period ends too far apart to be told apart decide the disposition only where nothing else does. */
  ghost predicate EndsDoNotDecide(l: Operand, r: Operand, p: Policy, v2: bool) {
    UsesAnnualPeriods(p) && !EndsComparable(l, r) ==>
      OnlyContext(l, r, v2) || SharedFailures(l, r, p, v2) != multiset{} || l.dimensionalIdentity != "consolidated"
  }

  lemma FailingSwaps(l: Operand, r: Operand, p: Policy, v2: bool)
    requires !OnlyContext(l, r, v2)
    ensures (FailedIds(Checks(l, r, p, v2)) == [] <==> FailedIds(Checks(r, l, p, v2)) == []) <==> EndsDoNotDecide(l, r, p, v2)
  {
    NothingFailsIff(l, r, p, v2);
    NothingFailsIff(r, l, p, v2);
    SharedFailuresSwap(l, r, p, v2);
    EndDeltaSwaps(l, r, p);
    NothingSharedSameDimensions(l, r, p, v2);
  }

  /** The disposition is decided by the authority, by whether anything failed, and by whether there are caveats. */
  lemma DispositionOf(l: Operand, r: Operand, p: Policy, v2: bool)
    ensures var d := Judge(l, r, p, v2).disposition;
      d == if OnlyContext(l, r, v2) then ContextOnly else if FailedIds(Checks(l, r, p, v2)) != [] then NotComparable
           else if Caveats(l, r, p) != [] then ComparableWithCaveat else Comparable
  {
  }

  /**
   * Swapping the operands keeps the disposition exactly when, under the annual policy, the period ends are less
   * than 2^63 ns apart, or the pair is context-only, or something fails whichever operand comes first.
   */
  lemma SwapKeepsDisposition(l: Operand, r: Operand, p: Policy, v2: bool)
    ensures Judge(l, r, p, v2).disposition == Judge(r, l, p, v2).disposition <==> EndsDoNotDecide(l, r, p, v2)
  {
    DispositionOf(l, r, p, v2);
    DispositionOf(r, l, p, v2);
    CaveatsSwap(l, r, p);
    if !OnlyContext(l, r, v2) {
      FailingSwaps(l, r, p, v2);
    }
  }

  lemma CaveatsOf(l: Operand, r: Operand, p: Policy, v2: bool)
    ensures Judge(l, r, p, v2).caveats ==
      if OnlyContext(l, r, v2) then SortStrings(Caveats(l, r, p) + ["non_ranking_context_only"])
      else if Judge(l, r, p, v2).disposition == NotComparable then [] else SortStrings(Caveats(l, r, p))
  {
  }

  /** With the disposition the caveats are kept too. */
  lemma SwapKeepsCaveats(l: Operand, r: Operand, p: Policy, v2: bool)
    requires Judge(l, r, p, v2).disposition == Judge(r, l, p, v2).disposition
    ensures Judge(l, r, p, v2).caveats == Judge(r, l, p, v2).caveats
  {
    CaveatsSwap(l, r, p);
    CaveatsOf(l, r, p, v2);
    CaveatsOf(r, l, p, v2);
  }

  /** When the left end is centuries before the right one and nothing else fails, the pair is released, but not when swapped. */
  lemma CenturiesApartDependOnOrder(l: Operand, r: Operand, p: Policy, v2: bool)
    requires UsesAnnualPeriods(p) && l.fiscalEnd - r.fiscalEnd <= MIN_DURATION
    requires IsReleasable(Judge(l, r, p, v2).disposition)
    ensures Judge(r, l, p, v2).disposition == NotComparable
  {
    UnevenFailuresDiffer(l, r, p, v2);
    assert FailedIds(Checks(l, r, p, v2)) == [];
  }

  // ---------------------------------------------------------------- two pairs that show it

  /** An instant of the year 2024. */
  const NOW: Time := 63_871_000_000_000_000_000

  /** A filing of one year's figures that end at this instant. */
  function Sample(company: string, dimensions: string, perimeter: string, end: Time): Operand {
    Operand(company, "", ["observation"], [seq(64, _ => '0')], NOW, NOW, "revenue", "v1", "Revenues", "", "100", "USD", "USD", 0, "positive",
            dimensions, "duration", Some(end - 365 * DAY), end, NOW, None, perimeter, [], "", "", false, "definition", "not_restated", "active")
  }

  lemma SamplesOk(l: Operand, r: Operand, a: string, b: string, dimL: string, dimR: string, perimeter: string, endL: Time, endR: Time)
    requires l == Sample(a, dimL, perimeter, endL) && r == Sample(b, dimR, perimeter, endR)
    requires a != "" && b != "" && a != b && dimL != "" && dimR != "" && perimeter != ""
    requires endL != ZERO_TIME && endR != ZERO_TIME && endL <= NOW && endR <= NOW
    ensures OperandsOk([l, r], NOW, false) && OperandsOk([r, l], NOW, false)
  {
    assert ValidHash(seq(64, _ => '0'));
    assert OperandOk(l, NOW, false) && OperandOk(r, NOW, false);
  }

  /** A v1 request for this pair, with its hash. */
  function PairRequest(l: Operand, r: Operand, p: Policy, h: Hashing): Request {
    var q := Request(REQUEST_V1, "request", "run", "lane", NOW, p.version, [l, r], "");
    q.(requestSha256 := h.request(q))
  }

  lemma PairIsEvaluable(l: Operand, r: Operand, p: Policy, h: Hashing)
    requires HashingOk(h) && OperandsOk([l, r], NOW, false) && OperandEncodable(l) && OperandEncodable(r) && p.version != ""
    ensures Evaluable(PairRequest(l, r, p, h), NOW, p, h)
  {
    var q := PairRequest(l, r, p, h);
    var bare := Request(REQUEST_V1, "request", "run", "lane", NOW, p.version, [l, r], "");
    assert q.(requestSha256 := "") == bare;
    assert REQUEST_V1 != REQUEST_V2;
  }

  lemma SampleIsEncodable(company: string, dimensions: string, perimeter: string, end: Time)
    requires NOW + MIN_DURATION <= end <= NOW
    ensures OperandEncodable(Sample(company, dimensions, perimeter, end))
  {
  }

  /** One consolidated operand: two valid requests for the same pair, with different reasons. */
  lemma ReasonsCanChange(h: Hashing, perimeter: string) returns (q: Request, swapped: Request)
    requires HashingOk(h) && perimeter != ""
    ensures |swapped.operands| == 2 && q.operands == [swapped.operands[1], swapped.operands[0]]
    ensures Evaluable(q, NOW, DEFAULT_POLICY, h) && Evaluable(swapped, NOW, DEFAULT_POLICY, h)
    ensures Unhashed(q, NOW, DEFAULT_POLICY).reasonCodes != Unhashed(swapped, NOW, DEFAULT_POLICY).reasonCodes
  {
    var l, r := Sample("A", "consolidated", perimeter, NOW), Sample("B", "segment", perimeter, NOW);
    SamplesOk(l, r, "A", "B", "consolidated", "segment", perimeter, NOW, NOW);
    SampleIsEncodable("A", "consolidated", perimeter, NOW);
    SampleIsEncodable("B", "segment", perimeter, NOW);
    PairIsEvaluable(l, r, DEFAULT_POLICY, h);
    PairIsEvaluable(r, l, DEFAULT_POLICY, h);
    q, swapped := PairRequest(l, r, DEFAULT_POLICY, h), PairRequest(r, l, DEFAULT_POLICY, h);
    SwapKeepsReasons(l, r, DEFAULT_POLICY, false);
  }

  lemma {:induction false} SplitWhole(s: string, c: char)
    requires c !in s
    ensures Split(s, c) == [s]
  {
    if s != [] {
      assert s[0] in s;
      SplitWhole(s[1..], c);
      assert [s[0]] + s[1..] == s;
    }
  }

  /** A plain perimeter of the ranking list is eligible and reviewed. */
  lemma PlainPerimeter(s: string)
    requires s in RANKING_PERIMETERS && ';' !in s && '=' !in s
    ensures RankingEligible(s) && Reviewed(s)
  {
    SplitWhole(s, ';');
    SplitWhole(s, '=');
  }

  lemma SamplesPassFirst(l: Operand, r: Operand, perimeter: string, endL: Time, endR: Time)
    requires l == Sample("A", "consolidated", perimeter, endL) && r == Sample("B", "consolidated", perimeter, endR)
    ensures FailedIds(ChecksBefore(l, r)) == [] && FailedIds([ConsolidatedCheck(l)]) == []
  {
  }

  lemma SamplesPassAfter(l: Operand, r: Operand, perimeter: string, endL: Time, endR: Time)
    requires l == Sample("A", "consolidated", perimeter, endL) && r == Sample("B", "consolidated", perimeter, endR)
    requires RankingEligible(perimeter) && Reviewed(perimeter)
    ensures FailedIds(ChecksAfter(l, r, false)) == []
  {
  }

  lemma SamplesAreAnnual(l: Operand, r: Operand, perimeter: string, endL: Time, endR: Time)
    requires l == Sample("A", "consolidated", perimeter, endL) && r == Sample("B", "consolidated", perimeter, endR) && endL != endR
    ensures var p := ANNUAL_DURATION_POLICY;
      FailedIds(PeriodChecks(l, r, p)) == FailedIds([EndDeltaCheck(l, r, p)]) && LaterChecks(l, r, p) == [] && Caveats(l, r, p) != []
  {
    var p := ANNUAL_DURATION_POLICY;
    FailedConcat([AnnualPeriodCheck(l, r)], [EndDeltaCheck(l, r, p)]);
    assert PeriodChecks(l, r, p) == [AnnualPeriodCheck(l, r)] + [EndDeltaCheck(l, r, p)];
  }

  lemma OnlyEndDeltaCanFail(l: Operand, r: Operand, perimeter: string, endL: Time, endR: Time)
    requires l == Sample("A", "consolidated", perimeter, endL) && r == Sample("B", "consolidated", perimeter, endR) && endL != endR
    requires RankingEligible(perimeter) && Reviewed(perimeter)
    ensures FailedIds(Checks(l, r, ANNUAL_DURATION_POLICY, false)) == FailedIds([EndDeltaCheck(l, r, ANNUAL_DURATION_POLICY)])
  {
    var p := ANNUAL_DURATION_POLICY;
    SamplesPassFirst(l, r, perimeter, endL, endR);
    SamplesPassAfter(l, r, perimeter, endL, endR);
    SamplesAreAnnual(l, r, perimeter, endL, endR);
    FailedParts(ChecksBefore(l, r), [ConsolidatedCheck(l)], ChecksAfter(l, r, false), PeriodChecks(l, r, p), LaterChecks(l, r, p));
  }

  lemma SomePlainPerimeter() returns (s: string)
    ensures s in RANKING_PERIMETERS && ';' !in s && '=' !in s && s != ""
  {
    s := "consolidated";
  }

  /** Under the annual policy the left-hand end of 1732 passes its check and the right-hand one does not. */
  lemma FarSamplesJudged(l: Operand, r: Operand, perimeter: string)
    requires perimeter in RANKING_PERIMETERS && ';' !in perimeter && '=' !in perimeter && perimeter != ""
    requires l == Sample("A", "consolidated", perimeter, NOW + MIN_DURATION) && r == Sample("B", "consolidated", perimeter, NOW)
    ensures Judge(l, r, ANNUAL_DURATION_POLICY, false).disposition == ComparableWithCaveat
    ensures Judge(r, l, ANNUAL_DURATION_POLICY, false).disposition == NotComparable
  {
    var p := ANNUAL_DURATION_POLICY;
    PlainPerimeter(perimeter);
    OnlyEndDeltaCanFail(l, r, perimeter, NOW + MIN_DURATION, NOW);
    assert EndDeltaCheck(l, r, p).passed;
    SamplesAreAnnual(l, r, perimeter, NOW + MIN_DURATION, NOW);
    CenturiesApartDependOnOrder(l, r, p, false);
  }

  /** Year-ends of 1732 and 2024 under the annual policy: one request is released, the same one swapped is refused. */
  lemma ReleaseCanDependOnOrder(h: Hashing) returns (q: Request, swapped: Request)
    requires HashingOk(h)
    ensures |swapped.operands| == 2 && q.operands == [swapped.operands[1], swapped.operands[0]]
    ensures Evaluable(q, NOW, ANNUAL_DURATION_POLICY, h) && Evaluable(swapped, NOW, ANNUAL_DURATION_POLICY, h)
    ensures Unhashed(q, NOW, ANNUAL_DURATION_POLICY).disposition == ComparableWithCaveat
    ensures Unhashed(swapped, NOW, ANNUAL_DURATION_POLICY).disposition == NotComparable
  {
    var p := ANNUAL_DURATION_POLICY;
    var perimeter := SomePlainPerimeter();
    var l, r := Sample("A", "consolidated", perimeter, NOW + MIN_DURATION), Sample("B", "consolidated", perimeter, NOW);
    SamplesOk(l, r, "A", "B", "consolidated", "consolidated", perimeter, NOW + MIN_DURATION, NOW);
    SampleIsEncodable("A", "consolidated", perimeter, NOW + MIN_DURATION);
    SampleIsEncodable("B", "consolidated", perimeter, NOW);
    PairIsEvaluable(l, r, p, h);
    PairIsEvaluable(r, l, p, h);
    q, swapped := PairRequest(l, r, p, h), PairRequest(r, l, p, h);
    FarSamplesJudged(l, r, perimeter);
  }

  lemma SomeReleasedReceipt(h: Hashing) returns (r: Receipt)
    requires HashingOk(h)
    ensures ReceiptOk(r, h) && r.disposition == ComparableWithCaveat
  {
    var q, _ := ReleaseCanDependOnOrder(h);
    r := Hashed(Unhashed(q, NOW, ANNUAL_DURATION_POLICY), h);
    EvaluatedIsAccepted(q, NOW, ANNUAL_DURATION_POLICY, h);
  }

  /** The validator accepts a released receipt whose only invariant failed. */
  lemma FailedReceiptAccepted(h: Hashing, failed: Invariant) returns (r: Receipt)
    requires HashingOk(h) && failed.id != "" && !failed.passed
    ensures ReceiptOk(r, h) && IsReleasable(r.disposition) && r.invariants == [failed] && FailedIds(r.invariants) != []
  {
    var released := SomeReleasedReceipt(h);
    ValidatorTrustsCaveats(released, h, [failed]);
    r := Hashed(released.(invariants := [failed]), h);
  }
}
