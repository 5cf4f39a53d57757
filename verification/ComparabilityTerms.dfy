/** What a comparability receipt says, in terms of the fields of the two operands and of the policy. */
module ComparabilityTerms {
  import opened Common
  import opened Instants
  import opened Comparability
  import opened Strings

  // ---------------------------------------------------------------- perimeters

  predicate Lacks(s: string, c: char, i: int, j: int)
    requires 0 <= i <= j <= |s|
  {
    forall k :: i <= k < j ==> s[k] != c
  }

  /** s[i..j] is a whole part of s between the characters c. */
  predicate IsPart(s: string, c: char, i: int, j: int) {
    && 0 <= i <= j <= |s| && Lacks(s, c, i, j)
    && (i == 0 || s[i - 1] == c) && (j == |s| || s[j] == c)
  }

  ghost predicate HasPart(s: string, c: char, from: int, part: string) {
    exists i, j :: from <= i && IsPart(s, c, i, j) && part == s[i..j]
  }

  /** Where the first part ends. */
  function FirstEnd(s: string, c: char): (f: int)
    ensures 0 <= f <= |s| && IsPart(s, c, 0, f) && Split(s, c)[0] == s[0..f]
  {
    if s == [] || s[0] == c then 0
    else
      var f := FirstEnd(s[1..], c);
      assert forall k :: 1 <= k <= f ==> s[k] == s[1..][k - 1];
      assert s[0..f + 1] == [s[0]] + s[1..][0..f];
      f + 1
  }

  lemma OnlyFirstPart(s: string, c: char, j: int)
    requires IsPart(s, c, 0, j)
    ensures j == FirstEnd(s, c)
  {
  }

  lemma PartOfTail(s: string, c: char, i: int, j: int)
    requires s != [] && 0 < i <= j <= |s|
    ensures s[i..j] == s[1..][i - 1..j - 1]
    ensures i > 1 || s[0] == c ==> (IsPart(s, c, i, j) <==> IsPart(s[1..], c, i - 1, j - 1))
    ensures i == 1 && s[0] != c ==> !IsPart(s, c, i, j)
  {
    assert forall k :: 1 <= k < |s| ==> s[k] == s[1..][k - 1];
  }

  lemma PartInTail(s: string, c: char, part: string)
    requires s != [] && HasPart(s, c, 1, part)
    ensures HasPart(s[1..], c, 1, part) || (s[0] == c && part == Split(s[1..], c)[0])
  {
    var i, j :| 1 <= i && IsPart(s, c, i, j) && part == s[i..j];
    PartOfTail(s, c, i, j);
    if i == 1 { OnlyFirstPart(s[1..], c, j - 1); }
  }

  lemma PartFromTail(s: string, c: char, part: string)
    requires s != [] && (HasPart(s[1..], c, 1, part) || (s[0] == c && part == Split(s[1..], c)[0]))
    ensures HasPart(s, c, 1, part)
  {
    if HasPart(s[1..], c, 1, part) {
      var i, j :| 1 <= i && IsPart(s[1..], c, i, j) && part == s[1..][i..j];
      PartOfTail(s, c, i + 1, j + 1);
    } else {
      PartOfTail(s, c, 1, FirstEnd(s[1..], c) + 1);
    }
  }

  /** The later parts of a split are the parts that start later. */
  lemma {:induction false} LaterPartsAre(s: string, c: char, part: string)
    ensures part in Split(s, c)[1..] <==> HasPart(s, c, 1, part)
  {
    if s != [] {
      var rest := Split(s[1..], c);
      LaterPartsAre(s[1..], c, part);
      if HasPart(s, c, 1, part) { PartInTail(s, c, part); } else if part in Split(s, c)[1..] { SplitTail(s, c, part); PartFromTail(s, c, part); }
      SplitTail(s, c, part);
    }
  }

  lemma SplitTail(s: string, c: char, part: string)
    requires s != []
    ensures part in Split(s, c)[1..] <==> part in Split(s[1..], c)[1..] || (s[0] == c && part == Split(s[1..], c)[0])
  {
    var rest := Split(s[1..], c);
    if s[0] == c {
      assert Split(s, c)[1..] == rest && rest == [rest[0]] + rest[1..];
    } else {
      assert Split(s, c)[1..] == rest[1..];
    }
  }

  lemma PartsAre(s: string, c: char, part: string)
    ensures part in Split(s, c) <==> HasPart(s, c, 0, part)
  {
    var parts := Split(s, c);
    LaterPartsAre(s, c, part);
    assert parts == [parts[0]] + parts[1..];
    assert IsPart(s, c, 0, FirstEnd(s, c));
    if HasPart(s, c, 0, part) {
      var i, j :| 0 <= i && IsPart(s, c, i, j) && part == s[i..j];
      if i == 0 { OnlyFirstPart(s, c, j); }
    }
  }

  /** What a part names: what follows its first equals sign, or the whole part when it has none. */
  ghost predicate Names(part: string, name: string) {
    || (Lacks(part, '=', 0, |part|) && name == part)
    || exists k :: 0 <= k < |part| && part[k] == '=' && Lacks(part, '=', 0, k) && name == part[k + 1..]
  }

  lemma AfterFirstTerms(s: string, k: int)
    requires 0 <= k < |s| && s[k] == '=' && Lacks(s, '=', 0, k)
    ensures AfterFirst(s) == s[k + 1..]
  {
    if k > 0 {
      assert forall i :: 1 <= i < |s| ==> s[i] == s[1..][i - 1];
      AfterFirstTerms(s[1..], k - 1);
      assert s[1..][k..] == s[k + 1..];
    }
  }

  lemma NamesTerms(part: string, name: string)
    ensures Names(part, name) <==> name == PerimeterOf(part)
  {
    var f := FirstEnd(part, '=');
    if f == |part| {
      NoLaterPart(part, '=');
    } else {
      AfterFirstTerms(part, f);
      LaterPart(part, '=', f);
      assert Names(part, part[f + 1..]);
      forall k | 0 <= k < |part| && part[k] == '=' && Lacks(part, '=', 0, k) ensures k == f {}
    }
  }

  lemma NoLaterPart(s: string, c: char)
    requires FirstEnd(s, c) == |s|
    ensures |Split(s, c)| == 1
  {
    if s != [] { NoLaterPart(s[1..], c); }
  }

  lemma LaterPart(s: string, c: char, f: int)
    requires f == FirstEnd(s, c) < |s|
    ensures |Split(s, c)| > 1
  {
    if s[0] != c { LaterPart(s[1..], c, f - 1); }
  }

  const RANKED_NAMES: set<string> := {"consolidated", "consolidated_periodic_filing"}

  const REVIEWED_NAMES: set<string> := {
    "consolidated", "consolidated_periodic_filing",
    "company_reported_property_and_equipment_cash_purchases",
    "company_reported_cash_capital_expenditures",
    "company_reported_property_equipment_and_intangible_assets"
  }

  /** Every part of the perimeter between semicolons names one of these. */
  ghost predicate AllName(perimeter: string, names: set<string>) {
    forall i, j :: IsPart(perimeter, ';', i, j) ==> PartNamed(perimeter[i..j], names)
  }

  ghost predicate PartNamed(part: string, names: set<string>) {
    exists name :: name in names && Names(part, name)
  }

  lemma PartNamedTerms(part: string, names: set<string>)
    ensures PerimeterOf(part) in names <==> PartNamed(part, names)
  {
    NamesTerms(part, PerimeterOf(part));
    forall name | Names(part, name) ensures name == PerimeterOf(part) { NamesTerms(part, name); }
  }

  lemma PerimeterTerms(perimeter: string, names: set<string>, parts: seq<string>)
    requires parts == Split(perimeter, ';')
    ensures (forall i :: 0 <= i < |parts| ==> PerimeterOf(parts[i]) in names) <==> AllName(perimeter, names)
  {
    if forall i :: 0 <= i < |parts| ==> PerimeterOf(parts[i]) in names {
      forall i, j | IsPart(perimeter, ';', i, j) ensures PartNamed(perimeter[i..j], names) {
        assert HasPart(perimeter, ';', 0, perimeter[i..j]);
        PartsAre(perimeter, ';', perimeter[i..j]);
        var k :| 0 <= k < |parts| && parts[k] == perimeter[i..j];
        PartNamedTerms(parts[k], names);
      }
    }
    if AllName(perimeter, names) {
      forall k | 0 <= k < |parts| ensures PerimeterOf(parts[k]) in names {
        assert parts[k] in parts;
        PartsAre(perimeter, ';', parts[k]);
        var i, j :| 0 <= i && IsPart(perimeter, ';', i, j) && parts[k] == perimeter[i..j];
        PartNamedTerms(parts[k], names);
      }
    }
  }

  lemma ReviewedTerms(perimeter: string)
    ensures Reviewed(perimeter) <==> AllName(perimeter, REVIEWED_NAMES)
    ensures RankingEligible(perimeter) <==> AllName(perimeter, RANKED_NAMES)
  {
    SameNames();
    ReviewedIs(perimeter, REVIEWED_NAMES);
    RankedIs(perimeter, RANKED_NAMES);
  }

  lemma ReviewedIs(perimeter: string, names: set<string>)
    requires names == REVIEWED_PERIMETERS
    ensures Reviewed(perimeter) <==> AllName(perimeter, names)
  {
    PerimeterTerms(perimeter, names, Split(perimeter, ';'));
  }

  lemma RankedIs(perimeter: string, names: set<string>)
    requires names == RANKING_PERIMETERS
    ensures RankingEligible(perimeter) <==> AllName(perimeter, names)
  {
    PerimeterTerms(perimeter, names, Split(perimeter, ';'));
  }

  lemma SameNames()
    ensures REVIEWED_PERIMETERS == REVIEWED_NAMES && RANKING_PERIMETERS == RANKED_NAMES
  {
  }

  // ---------------------------------------------------------------- periods

  /** A duration of 330 to 380 days, in nanoseconds. */
  predicate IsAnnual(o: Operand) {
    && o.periodType == "duration" && o.fiscalStart.Some?
    && 330 * 86_400_000_000_000 <= o.fiscalEnd - o.fiscalStart.value <= 380 * 86_400_000_000_000
  }

  lemma AnnualTerms(o: Operand)
    ensures AnnualDuration(o) <==> IsAnnual(o)
  {
  }

  /** limit is so many days in nanoseconds, as a signed number of 64 bits. */
  predicate DayLimit(days: int, limit: int) {
    -0x8000_0000_0000_0000 <= limit < 0x8000_0000_0000_0000 && (limit - days * 86_400_000_000_000) % 0x1_0000_0000_0000_0000 == 0
  }

  /** The ends are no further apart than the limit, or the left one is at least 2^63 nanoseconds before the right one. */
  ghost predicate EndsNear(l: Operand, r: Operand, p: Policy) {
    exists limit :: DayLimit(p.maxFiscalEndDeltaDays, limit)
      && (l.fiscalEnd - r.fiscalEnd <= -0x8000_0000_0000_0000 || -limit <= l.fiscalEnd - r.fiscalEnd <= limit)
  }

  lemma WrapTerms(n: int)
    ensures -0x8000_0000_0000_0000 <= Wrap64(n) < 0x8000_0000_0000_0000 && (Wrap64(n) - n) % 0x1_0000_0000_0000_0000 == 0
  {
    var m := n + 0x8000_0000_0000_0000;
    assert Wrap64(n) - n == -(m / 0x1_0000_0000_0000_0000) * 0x1_0000_0000_0000_0000;
  }

  lemma LimitUnique(days: int, a: int, b: int)
    requires DayLimit(days, a) && DayLimit(days, b)
    ensures a == b
  {
  }

  lemma NearTerms(l: Operand, r: Operand, p: Policy)
    ensures EndsWithinLimit(l, r, p) <==> EndsNear(l, r, p)
  {
    WrapTerms(p.maxFiscalEndDeltaDays * DAY);
    assert DayLimit(p.maxFiscalEndDeltaDays, EndDeltaLimit(p));
    EndDeltaMeans(l, r, p);
    forall limit | DayLimit(p.maxFiscalEndDeltaDays, limit) ensures limit == EndDeltaLimit(p) {
      LimitUnique(p.maxFiscalEndDeltaDays, limit, EndDeltaLimit(p));
    }
  }

  // ---------------------------------------------------------------- reasons

  /** The identities of the two operands that must agree, each with the reason for a mismatch. */
  predicate Mismatch(l: Operand, r: Operand, reason: string) {
    || (reason == "distinct_issuers" && l.companyId == r.companyId)
    || (reason == "same_metric" && l.canonicalMetricId != r.canonicalMetricId)
    || (reason == "same_metric_version" && l.metricVersion != r.metricVersion)
    || (reason == "same_unit" && l.unit != r.unit)
    || (reason == "same_currency" && l.currency != r.currency)
    || (reason == "same_scale" && l.scale != r.scale)
    || (reason == "same_sign_policy" && l.signPolicy != r.signPolicy)
    || (reason == "same_dimensions" && l.dimensionalIdentity != r.dimensionalIdentity)
  }

  predicate IsActive(o: Operand) {
    o.restatementState == "not_restated" || o.restatementState == "restated_current" || o.restatementState == "active_amendment_chain"
  }

  /** What the two operands mean by their metric: definition, perimeter, eligibility and the state of their filings. */
  ghost predicate MeaningDiffers(l: Operand, r: Operand, v2: bool, reason: string) {
    SubjectDiffers(l, r, reason) || StandingBroken(l, r, v2, reason)
  }

  /** Period type, definition and perimeter, which has to be reviewed. */
  ghost predicate SubjectDiffers(l: Operand, r: Operand, reason: string) {
    || (reason == "same_period_type" && l.periodType != r.periodType)
    || (reason == "same_definition" && l.definitionId != r.definitionId)
    || (reason == "same_accounting_perimeter" && l.accountingPerimeter != r.accountingPerimeter)
    || (reason == "reviewed_accounting_perimeter"
        && !(AllName(l.accountingPerimeter, REVIEWED_NAMES) && AllName(r.accountingPerimeter, REVIEWED_NAMES)))
  }

  /** Eligibility for ranking, restatement and supersession. */
  ghost predicate StandingBroken(l: Operand, r: Operand, v2: bool, reason: string) {
    || (reason == "ranking_eligible_accounting_perimeter" && !RanksBoth(l, r, v2))
    || (reason == "same_restatement_state" && l.restatementState != r.restatementState)
    || (reason == "active_restatement_chain" && !(IsActive(l) && IsActive(r)))
    || (reason == "active_supersession" && !(l.supersessionState == "active" && r.supersessionState == "active"))
  }

  /** Under v2 the operands say so themselves, before that their perimeters do. */
  ghost predicate RanksBoth(l: Operand, r: Operand, v2: bool) {
    if v2 then l.pairRankingEligible && r.pairRankingEligible
    else AllName(l.accountingPerimeter, RANKED_NAMES) && AllName(r.accountingPerimeter, RANKED_NAMES)
  }

  /** What the policy demands of periods and market dates, and what differing taxonomy concepts demand of their mapping. */
  ghost predicate PolicyBroken(l: Operand, r: Operand, p: Policy, reason: string) {
    || (reason == "same_fiscal_end" && p.requireExactPeriod && l.fiscalEnd != r.fiscalEnd)
    || (reason == "same_fiscal_start" && p.requireExactPeriod && l.fiscalStart != r.fiscalStart)
    || (reason == "annual_duration_periods" && !p.requireExactPeriod && p.allowAnnualPeriodCaveat && !(IsAnnual(l) && IsAnnual(r)))
    || (reason == "bounded_fiscal_end_delta" && !p.requireExactPeriod && p.allowAnnualPeriodCaveat && !EndsNear(l, r, p))
    || (reason == "same_market_observation_date" && p.requireExactMarketDate && l.marketDate != r.marketDate)
    || (reason == "security_identity_present" && p.requireExactMarketDate && (l.marketDate.Some? || r.marketDate.Some?)
        && (l.securityId == "" || r.securityId == ""))
    || (reason == "reviewed_taxonomy_mapping" && l.taxonomyConcept != r.taxonomyConcept
        && (l.extensionMappingId == "" || l.extensionMappingId != r.extensionMappingId))
  }

  /** Everything that stands against a comparison; only the left operand is asked whether it is consolidated. */
  ghost predicate Against(l: Operand, r: Operand, p: Policy, v2: bool, reason: string) {
    || Mismatch(l, r, reason)
    || (reason == "consolidated_dimensions" && l.dimensionalIdentity != "consolidated")
    || MeaningDiffers(l, r, v2, reason)
    || PolicyBroken(l, r, p, reason)
  }

  ghost predicate FailsAs(checks: seq<Invariant>, reason: string) {
    exists i :: 0 <= i < |checks| && !checks[i].passed && checks[i].id == reason
  }

  lemma {:induction false} FailedTerms(checks: seq<Invariant>, reason: string)
    ensures reason in FailedIds(checks) <==> FailsAs(checks, reason)
  {
    if checks != [] {
      var rest := checks[1..];
      FailedTerms(rest, reason);
      if FailsAs(checks, reason) {
        var i :| 0 <= i < |checks| && !checks[i].passed && checks[i].id == reason;
        if i > 0 { assert rest[i - 1] == checks[i]; }
      }
      if FailsAs(rest, reason) {
        var i :| 0 <= i < |rest| && !rest[i].passed && rest[i].id == reason;
        assert checks[i + 1] == rest[i];
      }
    }
  }

  lemma MismatchTerms(l: Operand, r: Operand, reason: string)
    ensures FailsAs(ChecksBefore(l, r), reason) <==> Mismatch(l, r, reason)
  {
    var checks := ChecksBefore(l, r);
    assert |checks| == 8;
    Eight(checks, reason);
  }

  lemma Eight(checks: seq<Invariant>, reason: string)
    requires |checks| == 8
    ensures FailsAs(checks, reason) <==>
      || (!checks[0].passed && checks[0].id == reason) || (!checks[1].passed && checks[1].id == reason)
      || (!checks[2].passed && checks[2].id == reason) || (!checks[3].passed && checks[3].id == reason)
      || (!checks[4].passed && checks[4].id == reason) || (!checks[5].passed && checks[5].id == reason)
      || (!checks[6].passed && checks[6].id == reason) || (!checks[7].passed && checks[7].id == reason)
  {
  }

  lemma Four(checks: seq<Invariant>, reason: string)
    requires |checks| == 4
    ensures FailsAs(checks, reason) <==>
      || (!checks[0].passed && checks[0].id == reason) || (!checks[1].passed && checks[1].id == reason)
      || (!checks[2].passed && checks[2].id == reason) || (!checks[3].passed && checks[3].id == reason)
  {
  }

  lemma FailsInHalves(checks: seq<Invariant>, n: nat, reason: string)
    requires n <= |checks|
    ensures FailsAs(checks, reason) <==> FailsAs(checks[..n], reason) || FailsAs(checks[n..], reason)
  {
    if i :| 0 <= i < |checks| && !checks[i].passed && checks[i].id == reason {
      assert if i < n then checks[..n][i] == checks[i] else checks[n..][i - n] == checks[i];
    }
  }

  lemma SubjectTerms(l: Operand, r: Operand, v2: bool, reason: string)
    ensures FailsAs(ChecksAfter(l, r, v2)[..4], reason) <==> SubjectDiffers(l, r, reason)
  {
    ReviewedTerms(l.accountingPerimeter);
    ReviewedTerms(r.accountingPerimeter);
    Four(ChecksAfter(l, r, v2)[..4], reason);
  }

  lemma EligibleTerms(l: Operand, r: Operand, v2: bool)
    ensures EligiblePair(l, r, v2) <==> RanksBoth(l, r, v2)
  {
    ReviewedTerms(l.accountingPerimeter);
    ReviewedTerms(r.accountingPerimeter);
  }

  lemma StandingTerms(l: Operand, r: Operand, v2: bool, reason: string)
    ensures FailsAs(ChecksAfter(l, r, v2)[4..], reason) <==> StandingBroken(l, r, v2, reason)
  {
    EligibleTerms(l, r, v2);
    Four(ChecksAfter(l, r, v2)[4..], reason);
  }

  lemma MeaningTerms(l: Operand, r: Operand, v2: bool, reason: string)
    ensures FailsAs(ChecksAfter(l, r, v2), reason) <==> MeaningDiffers(l, r, v2, reason)
  {
    FailsInHalves(ChecksAfter(l, r, v2), 4, reason);
    SubjectTerms(l, r, v2, reason);
    StandingTerms(l, r, v2, reason);
  }

  lemma One(check: Invariant, reason: string)
    ensures FailsAs([check], reason) <==> !check.passed && check.id == reason
  {
    assert [check][0] == check;
  }

  lemma Two(a: Invariant, b: Invariant, reason: string)
    ensures FailsAs([a, b], reason) <==> (!a.passed && a.id == reason) || (!b.passed && b.id == reason)
  {
    assert [a, b][0] == a && [a, b][1] == b;
  }

  lemma PeriodTerms(l: Operand, r: Operand, p: Policy, reason: string)
    ensures FailsAs(PeriodChecks(l, r, p), reason) <==>
      || (reason == "same_fiscal_end" && p.requireExactPeriod && l.fiscalEnd != r.fiscalEnd)
      || (reason == "same_fiscal_start" && p.requireExactPeriod && l.fiscalStart != r.fiscalStart)
      || (reason == "annual_duration_periods" && !p.requireExactPeriod && p.allowAnnualPeriodCaveat && !(IsAnnual(l) && IsAnnual(r)))
      || (reason == "bounded_fiscal_end_delta" && !p.requireExactPeriod && p.allowAnnualPeriodCaveat && !EndsNear(l, r, p))
  {
    AnnualTerms(l);
    AnnualTerms(r);
    NearTerms(l, r, p);
    if p.requireExactPeriod {
      Two(Invariant("same_fiscal_end", l.fiscalEnd == r.fiscalEnd), Invariant("same_fiscal_start", l.fiscalStart == r.fiscalStart), reason);
    } else if p.allowAnnualPeriodCaveat {
      Two(AnnualPeriodCheck(l, r), EndDeltaCheck(l, r, p), reason);
    }
  }

  lemma MarketTerms(l: Operand, r: Operand, p: Policy, reason: string)
    ensures FailsAs(MarketChecks(l, r, p), reason) <==>
      || (reason == "same_market_observation_date" && p.requireExactMarketDate && l.marketDate != r.marketDate)
      || (reason == "security_identity_present" && p.requireExactMarketDate && (l.marketDate.Some? || r.marketDate.Some?)
          && (l.securityId == "" || r.securityId == ""))
  {
    if p.requireExactMarketDate && (l.marketDate.Some? || r.marketDate.Some?) {
      Two(Invariant("same_market_observation_date", l.marketDate == r.marketDate),
          Invariant("security_identity_present", l.securityId != "" && r.securityId != ""), reason);
    }
  }

  lemma TaxonomyTerms(l: Operand, r: Operand, reason: string)
    ensures FailsAs(TaxonomyChecks(l, r), reason) <==>
      reason == "reviewed_taxonomy_mapping" && l.taxonomyConcept != r.taxonomyConcept
      && (l.extensionMappingId == "" || l.extensionMappingId != r.extensionMappingId)
  {
    if l.taxonomyConcept != r.taxonomyConcept { One(Invariant("reviewed_taxonomy_mapping", ReviewedMapping(l, r)), reason); }
  }

  lemma FailedJoin(a: seq<Invariant>, b: seq<Invariant>, reason: string)
    ensures reason in FailedIds(a + b) <==> reason in FailedIds(a) || reason in FailedIds(b)
  {
    FailedConcat(a, b);
  }

  lemma FirstAgainst(l: Operand, r: Operand, v2: bool, reason: string)
    ensures reason in FailedIds(ChecksBefore(l, r) + [ConsolidatedCheck(l)] + ChecksAfter(l, r, v2)) <==>
      || Mismatch(l, r, reason) || (reason == "consolidated_dimensions" && l.dimensionalIdentity != "consolidated")
      || MeaningDiffers(l, r, v2, reason)
  {
    var a, b, c := ChecksBefore(l, r), [ConsolidatedCheck(l)], ChecksAfter(l, r, v2);
    FailedJoin(a + b, c, reason);
    FailedJoin(a, b, reason);
    FailedTerms(a, reason);
    FailedTerms(b, reason);
    FailedTerms(c, reason);
    MismatchTerms(l, r, reason);
    One(ConsolidatedCheck(l), reason);
    MeaningTerms(l, r, v2, reason);
  }

  lemma LaterAgainst(l: Operand, r: Operand, p: Policy, reason: string)
    ensures reason in FailedIds(PeriodChecks(l, r, p)) || reason in FailedIds(LaterChecks(l, r, p)) <==> PolicyBroken(l, r, p, reason)
  {
    FailedJoin(MarketChecks(l, r, p), TaxonomyChecks(l, r), reason);
    FailedTerms(PeriodChecks(l, r, p), reason);
    FailedTerms(MarketChecks(l, r, p), reason);
    FailedTerms(TaxonomyChecks(l, r), reason);
    PeriodTerms(l, r, p, reason);
    MarketTerms(l, r, p, reason);
    TaxonomyTerms(l, r, reason);
  }

  /** A check fails under exactly these reasons. */
  lemma AgainstTerms(l: Operand, r: Operand, p: Policy, v2: bool, reason: string)
    ensures reason in FailedIds(Checks(l, r, p, v2)) <==> Against(l, r, p, v2, reason)
  {
    var first, periods := ChecksBefore(l, r) + [ConsolidatedCheck(l)] + ChecksAfter(l, r, v2), PeriodChecks(l, r, p);
    FailedJoin(first + periods, LaterChecks(l, r, p), reason);
    FailedJoin(first, periods, reason);
    FirstAgainst(l, r, v2, reason);
    LaterAgainst(l, r, p, reason);
  }

  // ---------------------------------------------------------------- the receipt

  /** Under v2 an operand of the context class, or one that is not eligible, makes the comparison one for context only. */
  predicate ForContext(l: Operand, r: Operand, v2: bool) {
    v2 && (l.outputClass == "context_only" || r.outputClass == "context_only" || !l.pairRankingEligible || !r.pairRankingEligible)
  }

  /** What a reader has to be told. */
  ghost predicate Caveat(l: Operand, r: Operand, p: Policy, v2: bool, caveat: string) {
    || (caveat == "different_fiscal_periods" && !p.requireExactPeriod && p.allowAnnualPeriodCaveat && IsAnnual(l) && IsAnnual(r)
        && (l.fiscalEnd != r.fiscalEnd || l.fiscalStart != r.fiscalStart))
    || (caveat == "different_filing_dates" && l.filingDate != r.filingDate)
    || (caveat == "reviewed_taxonomy_mapping_applied" && l.taxonomyConcept != r.taxonomyConcept
        && l.extensionMappingId != "" && l.extensionMappingId == r.extensionMappingId)
    || (caveat == "non_ranking_context_only" && ForContext(l, r, v2))
  }

  ghost predicate Unopposed(l: Operand, r: Operand, p: Policy, v2: bool) {
    forall reason :: !Against(l, r, p, v2, reason)
  }

  lemma UnopposedTerms(l: Operand, r: Operand, p: Policy, v2: bool)
    ensures FailedIds(Checks(l, r, p, v2)) == [] <==> Unopposed(l, r, p, v2)
  {
    var failed := FailedIds(Checks(l, r, p, v2));
    forall reason ensures reason in failed <==> Against(l, r, p, v2, reason) { AgainstTerms(l, r, p, v2, reason); }
    if failed != [] { assert failed[0] in failed; }
  }

  lemma CaveatTerms(l: Operand, r: Operand, p: Policy, caveat: string)
    requires caveat != "non_ranking_context_only"
    ensures caveat in Caveats(l, r, p) <==> Caveat(l, r, p, false, caveat)
  {
    AnnualTerms(l);
    AnnualTerms(r);
    var a := PeriodCaveats(l, r, p);
    var b := if l.filingDate != r.filingDate then ["different_filing_dates"] else [];
    var c := if l.taxonomyConcept != r.taxonomyConcept && ReviewedMapping(l, r) then ["reviewed_taxonomy_mapping_applied"] else [];
    InThree(a, b, c, caveat);
  }

  lemma InThree(a: seq<string>, b: seq<string>, c: seq<string>, x: string)
    ensures x in a + b + c <==> x in a || x in b || x in c
  {
  }

  lemma OwnCaveats(l: Operand, r: Operand, p: Policy)
    ensures "non_ranking_context_only" !in Caveats(l, r, p)
  {
    var a := PeriodCaveats(l, r, p);
    var b := if l.filingDate != r.filingDate then ["different_filing_dates"] else [];
    var c := if l.taxonomyConcept != r.taxonomyConcept && ReviewedMapping(l, r) then ["reviewed_taxonomy_mapping_applied"] else [];
    InThree(a, b, c, "non_ranking_context_only");
  }

  /** The verdict: for context only, refused for what stands against it, or released with or without caveats. */
  ghost predicate VerdictTerms(l: Operand, r: Operand, p: Policy, v2: bool, v: Verdict) {
    && (v.disposition == ContextOnly <==> ForContext(l, r, v2))
    && (v.disposition == NotComparable <==> !ForContext(l, r, v2) && !Unopposed(l, r, p, v2))
    && (v.disposition == Comparable <==>
        !ForContext(l, r, v2) && Unopposed(l, r, p, v2) && forall caveat :: !Caveat(l, r, p, v2, caveat))
    && (v.disposition == ComparableWithCaveat <==>
        !ForContext(l, r, v2) && Unopposed(l, r, p, v2) && exists caveat :: Caveat(l, r, p, v2, caveat))
    && (forall reason :: reason in v.reasons <==>
        Against(l, r, p, v2, reason) || (reason == "context_only_accounting_authority" && ForContext(l, r, v2)))
    && (forall caveat :: caveat in v.caveats <==> v.disposition != NotComparable && Caveat(l, r, p, v2, caveat))
    && Sorted(v.reasons) && Sorted(v.caveats)
  }

  lemma ReasonsAre(l: Operand, r: Operand, p: Policy, v2: bool)
    ensures forall reason :: reason in Judge(l, r, p, v2).reasons <==>
      Against(l, r, p, v2, reason) || (reason == "context_only_accounting_authority" && ForContext(l, r, v2))
  {
    var failed := FailedIds(Checks(l, r, p, v2));
    forall reason ensures reason in failed <==> Against(l, r, p, v2, reason) { AgainstTerms(l, r, p, v2, reason); }
  }

  lemma FoundIs(l: Operand, r: Operand, p: Policy, caveat: string)
    ensures caveat in Caveats(l, r, p) <==> Caveat(l, r, p, false, caveat)
  {
    if caveat == "non_ranking_context_only" { OwnCaveats(l, r, p); } else { CaveatTerms(l, r, p, caveat); }
  }

  lemma SomeFound(l: Operand, r: Operand, p: Policy)
    ensures Caveats(l, r, p) != [] <==> exists caveat :: Caveat(l, r, p, false, caveat)
  {
    var found := Caveats(l, r, p);
    forall caveat ensures caveat in found <==> Caveat(l, r, p, false, caveat) { FoundIs(l, r, p, caveat); }
    if found != [] { assert found[0] in found; }
  }

  lemma JudgedCaveats(l: Operand, r: Operand, p: Policy, v2: bool)
    ensures var v := Judge(l, r, p, v2);
      && (v.disposition == ContextOnly <==> ForContext(l, r, v2))
      && v.caveats == if ForContext(l, r, v2) then SortStrings(Caveats(l, r, p) + ["non_ranking_context_only"])
                      else if v.disposition == NotComparable then [] else SortStrings(Caveats(l, r, p))
  {
  }

  lemma InSorted(q: seq<string>, x: string, y: string)
    ensures y in SortStrings(q) <==> y in q
    ensures y in SortStrings(q + [x]) <==> y in q || y == x
  {
  }

  lemma CaveatIs(l: Operand, r: Operand, p: Policy, v2: bool, caveat: string)
    ensures caveat in Judge(l, r, p, v2).caveats <==> Judge(l, r, p, v2).disposition != NotComparable && Caveat(l, r, p, v2, caveat)
  {
    JudgedCaveats(l, r, p, v2);
    FoundIs(l, r, p, caveat);
    InSorted(Caveats(l, r, p), "non_ranking_context_only", caveat);
  }

  lemma CaveatsAre(l: Operand, r: Operand, p: Policy, v2: bool)
    ensures forall caveat :: caveat in Judge(l, r, p, v2).caveats <==>
      Judge(l, r, p, v2).disposition != NotComparable && Caveat(l, r, p, v2, caveat)
    ensures Caveats(l, r, p) != [] <==> exists caveat :: Caveat(l, r, p, false, caveat)
  {
    SomeFound(l, r, p);
    forall caveat
      ensures caveat in Judge(l, r, p, v2).caveats <==> Judge(l, r, p, v2).disposition != NotComparable && Caveat(l, r, p, v2, caveat)
    {
      CaveatIs(l, r, p, v2, caveat);
    }
  }

  /** What a verdict needs to be the right one. */
  ghost predicate DrawnFrom(l: Operand, r: Operand, p: Policy, v2: bool, v: Verdict) {
    && v.disposition == (if ForContext(l, r, v2) then ContextOnly
                         else if !Unopposed(l, r, p, v2) then NotComparable
                         else if exists caveat :: Caveat(l, r, p, false, caveat) then ComparableWithCaveat else Comparable)
    && (forall reason :: reason in v.reasons <==>
        Against(l, r, p, v2, reason) || (reason == "context_only_accounting_authority" && ForContext(l, r, v2)))
    && (forall caveat :: caveat in v.caveats <==> v.disposition != NotComparable && Caveat(l, r, p, v2, caveat))
    && Sorted(v.reasons) && Sorted(v.caveats)
  }

  lemma DrawnIsRight(l: Operand, r: Operand, p: Policy, v2: bool, v: Verdict)
    requires DrawnFrom(l, r, p, v2, v)
    ensures VerdictTerms(l, r, p, v2, v)
  {
    assert !ForContext(l, r, v2) ==> forall caveat :: Caveat(l, r, p, v2, caveat) <==> Caveat(l, r, p, false, caveat);
  }

  lemma DispositionTerms(l: Operand, r: Operand, p: Policy, v2: bool)
    ensures Judge(l, r, p, v2).disposition == (
      if ForContext(l, r, v2) then ContextOnly
      else if !Unopposed(l, r, p, v2) then NotComparable
      else if exists caveat :: Caveat(l, r, p, false, caveat) then ComparableWithCaveat else Comparable)
  {
    UnopposedTerms(l, r, p, v2);
    SomeFound(l, r, p);
  }

  lemma JudgeTerms(l: Operand, r: Operand, p: Policy, v2: bool)
    ensures VerdictTerms(l, r, p, v2, Judge(l, r, p, v2))
  {
    var v := Judge(l, r, p, v2);
    assert DrawnFrom(l, r, p, v2, v) by {
      DispositionTerms(l, r, p, v2);
      ReasonsAre(l, r, p, v2);
      CaveatsAre(l, r, p, v2);
    }
    DrawnIsRight(l, r, p, v2, v);
  }

  /** What Evaluate writes down for a request it evaluates. */
  lemma ReceiptTerms(q: Request, generatedAt: Time, p: Policy, h: Hashing)
    requires Evaluable(q, generatedAt, p, h)
    ensures var r := Unhashed(q, generatedAt, p); var v2 := q.schemaVersion == "signalforge/metric-comparability-request/v2";
      && r.schemaVersion == (if v2 then "signalforge/metric-comparability-receipt/v2" else "signalforge/metric-comparability-receipt/v1")
      && r.receiptId == "comparability-" + q.requestSha256[..24] && r.requestId == q.requestId && r.runId == q.runId
      && r.laneId == q.laneId && r.asOf == q.asOf && r.generatedAt == generatedAt && r.requestSha256 == q.requestSha256
      && r.operands == q.operands && r.reviewerPolicyVersion == p.version
      && VerdictTerms(q.operands[0], q.operands[1], p, v2, Verdict(r.disposition, r.requiredCaveatIds, r.reasonCodes))
      && forall reason :: FailsAs(r.invariants, reason) <==> Against(q.operands[0], q.operands[1], p, v2, reason)
  {
    var l, r, v2 := q.operands[0], q.operands[1], IsV2(q);
    JudgeTerms(l, r, p, v2);
    forall reason ensures FailsAs(Checks(l, r, p, v2), reason) <==> Against(l, r, p, v2, reason) {
      AgainstTerms(l, r, p, v2, reason);
      FailedTerms(Checks(l, r, p, v2), reason);
    }
  }

  // ---------------------------------------------------------------- which pairs are released

  /** Different companies, and the same measure in the same terms. */
  predicate SameMeasure(l: Operand, r: Operand) {
    && l.companyId != r.companyId && l.canonicalMetricId == r.canonicalMetricId && l.metricVersion == r.metricVersion
    && l.unit == r.unit && l.currency == r.currency && l.scale == r.scale && l.signPolicy == r.signPolicy
    && l.dimensionalIdentity == r.dimensionalIdentity
  }

  /** The same period type, definition, perimeter and restatement state, all of them reviewed, eligible and active. */
  ghost predicate SameMeaning(l: Operand, r: Operand, v2: bool) {
    && l.periodType == r.periodType && l.definitionId == r.definitionId && l.accountingPerimeter == r.accountingPerimeter
    && AllName(l.accountingPerimeter, REVIEWED_NAMES) && AllName(r.accountingPerimeter, REVIEWED_NAMES)
    && RanksBoth(l, r, v2)
    && l.restatementState == r.restatementState && IsActive(l) && IsActive(r)
    && l.supersessionState == "active" && r.supersessionState == "active"
  }

  /** One period, or two years whose ends are near; one market date, of known securities; one taxonomy concept, or one reviewed mapping. */
  ghost predicate PolicyKept(l: Operand, r: Operand, p: Policy) {
    && (p.requireExactPeriod ==> l.fiscalEnd == r.fiscalEnd && l.fiscalStart == r.fiscalStart)
    && (!p.requireExactPeriod && p.allowAnnualPeriodCaveat ==> IsAnnual(l) && IsAnnual(r) && EndsNear(l, r, p))
    && (p.requireExactMarketDate ==> l.marketDate == r.marketDate && (l.marketDate.Some? ==> l.securityId != "" && r.securityId != ""))
    && (l.taxonomyConcept != r.taxonomyConcept ==> l.extensionMappingId == r.extensionMappingId && l.extensionMappingId != "")
  }

  lemma SameMeasureTerms(l: Operand, r: Operand)
    ensures SameMeasure(l, r) <==> forall reason :: !Mismatch(l, r, reason)
  {
    if l.companyId == r.companyId { assert Mismatch(l, r, "distinct_issuers"); }
    else if l.canonicalMetricId != r.canonicalMetricId { assert Mismatch(l, r, "same_metric"); }
    else if l.metricVersion != r.metricVersion { assert Mismatch(l, r, "same_metric_version"); }
    else if l.unit != r.unit { assert Mismatch(l, r, "same_unit"); }
    else if l.currency != r.currency { assert Mismatch(l, r, "same_currency"); }
    else if l.scale != r.scale { assert Mismatch(l, r, "same_scale"); }
    else if l.signPolicy != r.signPolicy { assert Mismatch(l, r, "same_sign_policy"); }
    else if l.dimensionalIdentity != r.dimensionalIdentity { assert Mismatch(l, r, "same_dimensions"); }
  }

  lemma SameSubject(l: Operand, r: Operand)
    requires forall reason :: !SubjectDiffers(l, r, reason)
    ensures l.periodType == r.periodType && l.definitionId == r.definitionId && l.accountingPerimeter == r.accountingPerimeter
    ensures AllName(l.accountingPerimeter, REVIEWED_NAMES) && AllName(r.accountingPerimeter, REVIEWED_NAMES)
  {
    assert !SubjectDiffers(l, r, "same_period_type") && !SubjectDiffers(l, r, "same_definition");
    assert !SubjectDiffers(l, r, "same_accounting_perimeter") && !SubjectDiffers(l, r, "reviewed_accounting_perimeter");
  }

  lemma GoodStanding(l: Operand, r: Operand, v2: bool)
    requires forall reason :: !StandingBroken(l, r, v2, reason)
    ensures RanksBoth(l, r, v2) && l.restatementState == r.restatementState && IsActive(l) && IsActive(r)
    ensures l.supersessionState == "active" && r.supersessionState == "active"
  {
    assert !StandingBroken(l, r, v2, "ranking_eligible_accounting_perimeter") && !StandingBroken(l, r, v2, "same_restatement_state");
    assert !StandingBroken(l, r, v2, "active_restatement_chain") && !StandingBroken(l, r, v2, "active_supersession");
  }

  lemma SameMeaningTerms(l: Operand, r: Operand, v2: bool)
    ensures SameMeaning(l, r, v2) <==> forall reason :: !MeaningDiffers(l, r, v2, reason)
  {
    if forall reason :: !MeaningDiffers(l, r, v2, reason) {
      assert forall reason :: SubjectDiffers(l, r, reason) ==> MeaningDiffers(l, r, v2, reason);
      assert forall reason :: StandingBroken(l, r, v2, reason) ==> MeaningDiffers(l, r, v2, reason);
      SameSubject(l, r);
      GoodStanding(l, r, v2);
    }
  }

  lemma PolicyKeptTerms(l: Operand, r: Operand, p: Policy)
    ensures PolicyKept(l, r, p) <==> forall reason :: !PolicyBroken(l, r, p, reason)
  {
    if p.requireExactPeriod && l.fiscalEnd != r.fiscalEnd { assert PolicyBroken(l, r, p, "same_fiscal_end"); }
    else if p.requireExactPeriod && l.fiscalStart != r.fiscalStart { assert PolicyBroken(l, r, p, "same_fiscal_start"); }
    else if !p.requireExactPeriod && p.allowAnnualPeriodCaveat && !(IsAnnual(l) && IsAnnual(r)) {
      assert PolicyBroken(l, r, p, "annual_duration_periods");
    }
    else if !p.requireExactPeriod && p.allowAnnualPeriodCaveat && !EndsNear(l, r, p) { assert PolicyBroken(l, r, p, "bounded_fiscal_end_delta"); }
    else if p.requireExactMarketDate && l.marketDate != r.marketDate { assert PolicyBroken(l, r, p, "same_market_observation_date"); }
    else if p.requireExactMarketDate && l.marketDate.Some? && (l.securityId == "" || r.securityId == "") {
      assert PolicyBroken(l, r, p, "security_identity_present");
    }
    else if l.taxonomyConcept != r.taxonomyConcept && (l.extensionMappingId == "" || l.extensionMappingId != r.extensionMappingId) {
      assert PolicyBroken(l, r, p, "reviewed_taxonomy_mapping");
    }
  }

  lemma UnopposedParts(l: Operand, r: Operand, p: Policy, v2: bool)
    requires Unopposed(l, r, p, v2)
    ensures (forall reason :: !Mismatch(l, r, reason)) && l.dimensionalIdentity == "consolidated"
    ensures (forall reason :: !MeaningDiffers(l, r, v2, reason)) && forall reason :: !PolicyBroken(l, r, p, reason)
  {
    assert !Against(l, r, p, v2, "consolidated_dimensions");
    forall reason ensures !Mismatch(l, r, reason) && !MeaningDiffers(l, r, v2, reason) && !PolicyBroken(l, r, p, reason) {
      assert !Against(l, r, p, v2, reason);
    }
  }

  lemma NothingAgainst(l: Operand, r: Operand, p: Policy, v2: bool)
    requires (forall reason :: !Mismatch(l, r, reason)) && l.dimensionalIdentity == "consolidated"
    requires (forall reason :: !MeaningDiffers(l, r, v2, reason)) && forall reason :: !PolicyBroken(l, r, p, reason)
    ensures Unopposed(l, r, p, v2)
  {
  }

  /** The fields agree, are in order and keep the policy. */
  ghost predicate Fits(l: Operand, r: Operand, p: Policy, v2: bool) {
    SameMeasure(l, r) && l.dimensionalIdentity == "consolidated" && SameMeaning(l, r, v2) && PolicyKept(l, r, p)
  }

  lemma FitsTerms(l: Operand, r: Operand, p: Policy, v2: bool)
    ensures Unopposed(l, r, p, v2) <==> Fits(l, r, p, v2)
  {
    SameMeasureTerms(l, r);
    SameMeaningTerms(l, r, v2);
    PolicyKeptTerms(l, r, p);
    if Unopposed(l, r, p, v2) { UnopposedParts(l, r, p, v2); }
    if Fits(l, r, p, v2) { NothingAgainst(l, r, p, v2); }
  }

  /** A pair is released exactly when it fits and its accounting is not for context only. */
  lemma ReleasedTerms(l: Operand, r: Operand, p: Policy, v2: bool)
    ensures Judge(l, r, p, v2).disposition in {Comparable, ComparableWithCaveat} <==> !ForContext(l, r, v2) && Fits(l, r, p, v2)
  {
    UnopposedTerms(l, r, p, v2);
    FitsTerms(l, r, p, v2);
  }
}
