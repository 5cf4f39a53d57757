/** What an accepted numerical context is, in terms of the fields of its variables and relations alone. */
module NumericalTerms {
  import opened Common
  import opened Graphs
  import opened Instants
  import opened NumericalContext
  import Envelope
  import Strings

  // ---------------------------------------------------------------- the terms

  predicate HeaderMeets(c: Context) {
    && c.schemaVersion == "signalforge/v1" && Strings.Written(c.contextId) && Strings.Written(c.runId)
    && c.version == "numerical-silence/v1" && c.asOf != 0 && |c.variables| > 0
  }

  /** A fiscal period has a start before its end, which is no later than the context; the other bases have no dates. */
  predicate PeriodMeets(v: Variable, asOf: Time) {
    || (v.periodBasis == FiscalExact && v.periodStart.Some? && v.periodEnd.Some?
        && v.periodStart.value < v.periodEnd.value && v.periodEnd.value <= asOf)
    || (v.periodBasis in {AnalysisAsOf, NominalLabel} && v.periodStart == None && v.periodEnd == None)
  }

  /** An actual value is not normalised and cites evidence; a derived view names its method, formula and receipts. */
  predicate KindMeets(v: Variable) {
    || (v.valueKind == Actual && v.normalization == MethodNone && |v.evidenceRefs| > 0)
    || (v.valueKind == DerivedView
        && v.normalization in {CommonSize, TemporalGrowth, Cagr, IndexBase100, PeerPercentile, ZScore,
                               ScenarioOutput, MarketStatistic, Multiple, AbsoluteDerived}
        && v.formulaVersion != "" && |v.receiptRefs| > 0
        && (v.normalization == IndexBase100 ==> |v.baselineRefs| > 0)
        && (v.normalization in {PeerPercentile, ZScore} ==> v.cohortId != ""))
  }

  predicate VariableMeets(v: Variable, asOf: Time) {
    && "" !in {v.variableId, v.entityId, v.metricId, v.period, v.comparisonKey, v.value.unit}
    && v.asOf != 0 && v.asOf <= asOf && (v.value.asOf == None || v.value.asOf.value <= asOf)
    && v.value.value.Finite? && PeriodMeets(v, asOf) && KindMeets(v)
  }

  predicate SameClass(a: Variable, b: Variable) {
    a.value.unit == b.value.unit && a.value.currency == b.value.currency && a.periodBasis == b.periodBasis && a.comparisonKey == b.comparisonKey
  }

  /** A relation between variables that cannot be compared: no difference, and a warning. */
  predicate IncomparableMeets(r: Relation, a: Variable, b: Variable) {
    r.operator == Incomparable && !SameClass(a, b) && |r.warnings| > 0 && r.difference == None
  }

  /** The tolerance, where none counts as zero. */
  predicate TolerancesTo(r: Relation, t: real) {
    r.tolerance == Some(Finite(t)) || (r.tolerance == None && t == 0.0)
  }

  /** The difference is the distance of the values, and the operator is the order of the values beyond the tolerance. */
  predicate OrderMeets(operator: Operator, a: real, b: real, difference: real, t: real) {
    && t >= 0.0 && difference >= 0.0 && (difference == a - b || difference == b - a)
    && ((operator == GreaterThan && a - b > t) || (operator == LessThan && b - a > t)
        || (operator == EqualWithinTolerance && a - b <= t && b - a <= t))
  }

  ghost predicate ComparableMeets(r: Relation, a: Variable, b: Variable) {
    && SameClass(a, b) && r.difference.Some? && |r.receiptRefs| > 0
    && a.value.value.Finite? && b.value.value.Finite? && r.difference.value.value.Finite?
    && r.difference.value.unit == a.value.unit && r.difference.value.currency == a.value.currency
    && exists t :: TolerancesTo(r, t) && OrderMeets(r.operator, a.value.value.v, b.value.value.v, r.difference.value.value.v, t)
  }

  /** The two sides are different variables of the relation's metric. */
  predicate Sides(r: Relation, a: Variable, b: Variable) {
    a.variableId == r.left != r.right == b.variableId && a.metricId == b.metricId == r.metricId
  }

  ghost predicate ComparisonMeets(r: Relation, a: Variable, b: Variable) {
    if r.comparable then ComparableMeets(r, a, b) else IncomparableMeets(r, a, b)
  }

  ghost predicate RelationMeets(c: Context, r: Relation) {
    && "" !in {r.relationId, r.metricId, r.left, r.right, r.formulaVersion}
    && (forall v :: v in c.variables ==> v.variableId != r.relationId)
    && exists a, b :: a in c.variables && b in c.variables && Sides(r, a, b) && ComparisonMeets(r, a, b)
  }

  ghost predicate Meets(c: Context) {
    && HeaderMeets(c)
    && (forall v :: v in c.variables ==> VariableMeets(v, c.asOf))
    && (forall i, j :: 0 <= i < j < |c.variables| ==> c.variables[i].variableId != c.variables[j].variableId)
    && (forall v, id :: v in c.variables && id in v.baselineRefs ==> exists w :: w in c.variables && w.variableId == id)
    && (forall i, j :: 0 <= i < j < |c.relations| ==> c.relations[i].relationId != c.relations[j].relationId)
    && forall r :: r in c.relations ==> RelationMeets(c, r)
  }

  // ---------------------------------------------------------------- the validator says the same

  lemma WrittenTerms(s: string)
    ensures Strings.Blank(s) <==> !Strings.Written(s)
  {
  }

  lemma HeaderTerms(c: Context)
    ensures HeaderOk(c) <==> HeaderMeets(c)
  {
    WrittenTerms(c.contextId);
    WrittenTerms(c.runId);
  }

  lemma VariableTerms(v: Variable, asOf: Time)
    ensures VariableOk(v, asOf) <==> VariableMeets(v, asOf)
  {
    KindTerms(v);
    assert PeriodOk(v, asOf) <==> PeriodMeets(v, asOf);
  }

  lemma KindTerms(v: Variable)
    ensures KindMeets(v) <==>
      if v.valueKind == Actual then v.normalization == MethodNone && v.evidenceRefs != []
      else
        && v.valueKind == DerivedView && !v.normalization.OtherMethod? && v.normalization != MethodNone
        && v.formulaVersion != "" && v.receiptRefs != []
        && (v.normalization == IndexBase100 ==> v.baselineRefs != [])
        && (v.normalization == PeerPercentile || v.normalization == ZScore ==> v.cohortId != "")
  {
  }

  lemma OrderTerms(operator: Operator, a: real, b: real, d: real, t: real)
    requires t >= 0.0
    ensures OrderMeets(operator, a, b, d, t) <==> d == Abs(a - b) && operator == ExpectedOperator(a, b, t)
  {
  }

  lemma ToleranceTerms(r: Relation, t: real)
    ensures TolerancesTo(r, t) <==> Tolerance(r) == Finite(t)
  {
  }

  lemma SidesTerms(r: Relation, variables: VariableMap)
    requires r.left in variables && r.right in variables && r.left != r.right
    requires variables[r.left].variableId == r.left && variables[r.right].variableId == r.right
    ensures RelationOk(r, variables) <==>
      var a, b := variables[r.left], variables[r.right];
      "" !in {r.relationId, r.metricId, r.left, r.right, r.formulaVersion} && Sides(r, a, b) && ComparisonMeets(r, a, b)
  {
    var a, b := variables[r.left], variables[r.right];
    if r.comparable {
      forall t ensures TolerancesTo(r, t) <==> Tolerance(r) == Finite(t) { ToleranceTerms(r, t); }
      if Tolerance(r).Finite? && a.value.value.Finite? && b.value.value.Finite? && r.difference.Some? && r.difference.value.value.Finite? {
        var t := Tolerance(r).v;
        if t >= 0.0 { OrderTerms(r.operator, a.value.value.v, b.value.value.v, r.difference.value.value.v, t); }
      }
    }
  }

  lemma OneOfAnId(variables: seq<Variable>, v: Variable, w: Variable)
    requires Distinct(VariableIds(variables)) && v in variables && w in variables && v.variableId == w.variableId
    ensures v == w
  {
    var ids := VariableIds(variables);
    var i :| 0 <= i < |variables| && variables[i] == v;
    var j :| 0 <= j < |variables| && variables[j] == w;
    assert ids[i] == ids[j];
  }

  lemma IdListed(variables: seq<Variable>, v: Variable)
    requires v in variables
    ensures v.variableId in VariableIds(variables)
  {
    var i :| 0 <= i < |variables| && variables[i] == v;
    assert VariableIds(variables)[i] == v.variableId;
  }

  lemma Looked(variables: seq<Variable>, v: Variable)
    requires Distinct(VariableIds(variables)) && v in variables
    ensures v.variableId in VariableMapOf(variables) && VariableMapOf(variables)[v.variableId] == v
  {
    IdListed(variables, v);
    OneOfAnId(variables, v, VariableMapOf(variables)[v.variableId]);
  }

  lemma Known(variables: seq<Variable>, id: string)
    ensures id in VariableMapOf(variables) <==> exists w :: w in variables && w.variableId == id
  {
    if id in VariableIds(variables) {
      var i :| 0 <= i < |variables| && VariableIds(variables)[i] == id;
      assert variables[i] in variables;
    }
    if w :| w in variables && w.variableId == id {
      var i :| 0 <= i < |variables| && variables[i] == w;
      assert VariableIds(variables)[i] == id;
    }
  }

  lemma RelationTerms(c: Context, r: Relation)
    requires Distinct(VariableIds(c.variables))
    ensures Admissible(r, VariableMapOf(c.variables)) <==> RelationMeets(c, r)
  {
    var variables := VariableMapOf(c.variables);
    Known(c.variables, r.relationId);
    if r.left in variables && r.right in variables && r.left != r.right {
      SidesTerms(r, variables);
    }
    forall a, b | a in c.variables && b in c.variables && Sides(r, a, b)
      ensures r.left in variables && r.right in variables && a == variables[r.left] && b == variables[r.right]
    {
      Looked(c.variables, a);
      Looked(c.variables, b);
    }
  }

  lemma DistinctTerms(ids: seq<string>, n: nat)
    requires |ids| == n
    ensures Distinct(ids) <==> forall i, j :: 0 <= i < j < n ==> ids[i] != ids[j]
  {
  }

  /** A context is accepted exactly when its fields meet the terms. */
  lemma AcceptedIffMeets(c: Context)
    ensures Accepted(c) <==> Meets(c)
  {
    HeaderTerms(c);
    forall v ensures VariableOk(v, c.asOf) <==> VariableMeets(v, c.asOf) { VariableTerms(v, c.asOf); }
    forall id ensures id in VariableMapOf(c.variables) <==> exists w :: w in c.variables && w.variableId == id { Known(c.variables, id); }
    VariableIdsTerms(c.variables);
    RelationIdsTerms(c.relations);
    if Distinct(VariableIds(c.variables)) {
      forall r | r in c.relations ensures Admissible(r, VariableMapOf(c.variables)) <==> RelationMeets(c, r) { RelationTerms(c, r); }
    }
  }

  lemma VariableIdsTerms(variables: seq<Variable>)
    ensures Distinct(VariableIds(variables)) <==>
      forall i, j :: 0 <= i < j < |variables| ==> variables[i].variableId != variables[j].variableId
  {
    var ids := VariableIds(variables);
    assert forall i :: 0 <= i < |variables| ==> variables[i].variableId == ids[i];
  }

  lemma RelationIdsTerms(relations: seq<Relation>)
    ensures Distinct(RelationIds(relations)) <==>
      forall i, j :: 0 <= i < j < |relations| ==> relations[i].relationId != relations[j].relationId
  {
    var ids := RelationIds(relations);
    assert forall i :: 0 <= i < |relations| ==> relations[i].relationId == ids[i];
  }
}
