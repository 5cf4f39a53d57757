/**
 * Numerical contexts: the validator of variables and relations, and the order that the relations
 * of an accepted context are guaranteed to describe. Decimals are exact.
 */
module NumericalContext {
  import opened Common
  import opened Envelope
  import opened Graphs
  import opened Instants

  const CONTEXT_VERSION_V1 := "numerical-silence/v1"

  /** A decimal literal as the parser sees it. */
  datatype Decimal = Finite(v: real) | NotFinite | Malformed

  datatype Quantity = Quantity(value: Decimal, unit: string, currency: string, asOf: Option<Time>)

  datatype PeriodBasis = FiscalExact | AnalysisAsOf | NominalLabel | OtherBasis(name: string)

  datatype ValueKind = Actual | DerivedView | OtherKind(name: string)

  datatype Method =
    | MethodNone | CommonSize | TemporalGrowth | Cagr | IndexBase100 | PeerPercentile | ZScore
    | ScenarioOutput | MarketStatistic | Multiple | AbsoluteDerived | OtherMethod(name: string)

  datatype Operator = GreaterThan | LessThan | EqualWithinTolerance | Incomparable | OtherOperator(name: string)

  datatype Variable = Variable(
    variableId: string, entityId: string, metricId: string, period: string,
    periodBasis: PeriodBasis, periodStart: Option<Time>, periodEnd: Option<Time>,
    comparisonKey: string, valueKind: ValueKind, value: Quantity, normalization: Method, formulaVersion: string,
    baselineRefs: seq<string>, cohortId: string, evidenceRefs: seq<string>, receiptRefs: seq<string>, asOf: Time)

  /** A blank tolerance (None) reads as zero. */
  datatype Relation = Relation(
    relationId: string, metricId: string, left: string, operator: Operator, right: string,
    difference: Option<Quantity>, tolerance: Option<Decimal>, comparable: bool, formulaVersion: string,
    receiptRefs: seq<string>, warnings: seq<string>)

  datatype Context = Context(
    schemaVersion: string, contextId: string, runId: string, version: string, asOf: Time,
    variables: seq<Variable>, relations: seq<Relation>)

  datatype Fault =
    | BadHeader | BadVariable(i: nat) | DuplicateVariable(i: nat) | UnknownBaseline(i: nat, j: nat)
    | DuplicateRelation(i: nat) | CollidingRelation(i: nat) | BadRelation(i: nat)

  type VariableMap = map<string, Variable>

  // ---------------------------------------------------------------- single records

  predicate PeriodOk(v: Variable, contextAsOf: Time) {
    match v.periodBasis
    case FiscalExact =>
      v.periodStart.Some? && v.periodEnd.Some? && v.periodStart.value < v.periodEnd.value <= contextAsOf
    case OtherBasis(_) => false
    case _ => v.periodStart.None? && v.periodEnd.None?
  }

  predicate VariableOk(v: Variable, contextAsOf: Time) {
    && v.variableId != "" && v.entityId != "" && v.metricId != "" && v.period != "" && v.comparisonKey != ""
    && v.asOf != ZERO_TIME && v.asOf <= contextAsOf && (v.value.asOf.Some? ==> v.value.asOf.value <= contextAsOf)
    && PeriodOk(v, contextAsOf)
    && v.value.value.Finite? && v.value.unit != ""
    && (if v.valueKind == Actual then v.normalization == MethodNone && v.evidenceRefs != []
        else
          && v.valueKind == DerivedView && !v.normalization.OtherMethod? && v.normalization != MethodNone
          && v.formulaVersion != "" && v.receiptRefs != []
          && (v.normalization == IndexBase100 ==> v.baselineRefs != [])
          && (v.normalization == PeerPercentile || v.normalization == ZScore ==> v.cohortId != ""))
  }

  predicate VariablesComparable(left: Variable, right: Variable) {
    && left.value.unit == right.value.unit && left.value.currency == right.value.currency
    && left.periodBasis == right.periodBasis && left.comparisonKey == right.comparisonKey
  }

  function Tolerance(r: Relation): Decimal {
    if r.tolerance.None? then Finite(0.0) else r.tolerance.value
  }

  function Abs(x: real): real {
    if x < 0.0 then -x else x
  }

  /** The operator that the values and the tolerance call for. */
  function ExpectedOperator(left: real, right: real, tolerance: real): Operator {
    if Abs(left - right) <= tolerance then EqualWithinTolerance
    else if left > right then GreaterThan
    else LessThan
  }

  predicate RelationOk(r: Relation, variables: VariableMap) {
    && r.relationId != "" && r.metricId != "" && r.left != "" && r.right != "" && r.formulaVersion != ""
    && r.left != r.right && r.left in variables && r.right in variables
    && var left, right := variables[r.left], variables[r.right];
    && r.metricId == left.metricId == right.metricId
    && if !r.comparable then
         r.operator == Incomparable && !VariablesComparable(left, right) && r.warnings != [] && r.difference.None?
       else
         && VariablesComparable(left, right) && r.operator != Incomparable && r.difference.Some? && r.receiptRefs != []
         && left.value.value.Finite? && right.value.value.Finite?
         && Tolerance(r).Finite? && Tolerance(r).v >= 0.0
         && r.difference.value.value == Finite(Abs(left.value.value.v - right.value.value.v))
         && r.difference.value.unit == left.value.unit && r.difference.value.currency == left.value.currency
         && r.operator == ExpectedOperator(left.value.value.v, right.value.value.v, Tolerance(r).v)
  }

  // ---------------------------------------------------------------- whole contexts

  function VariableIds(variables: seq<Variable>): (ids: seq<string>)
    ensures |ids| == |variables| && forall i :: 0 <= i < |variables| ==> ids[i] == variables[i].variableId
  {
    seq(|variables|, i requires 0 <= i < |variables| => variables[i].variableId)
  }

  function RelationIds(relations: seq<Relation>): (ids: seq<string>)
    ensures |ids| == |relations| && forall i :: 0 <= i < |relations| ==> ids[i] == relations[i].relationId
  {
    seq(|relations|, i requires 0 <= i < |relations| => relations[i].relationId)
  }

  function VariableMapOf(variables: seq<Variable>): (m: VariableMap)
    ensures forall id :: id in m <==> id in VariableIds(variables)
    ensures forall id :: id in m ==> m[id] in variables && m[id].variableId == id
  {
    if variables == [] then map[]
    else
      var n := |variables| - 1;
      assert VariableIds(variables) == VariableIds(variables[..n]) + [variables[n].variableId];
      VariableMapOf(variables[..n])[variables[n].variableId := variables[n]]
  }

  predicate HeaderOk(context: Context) {
    && EnvelopeOk(context.schemaVersion, context.contextId, context.runId)
    && context.version == CONTEXT_VERSION_V1 && context.asOf != ZERO_TIME && context.variables != []
  }

  ghost predicate BaselinesOk(v: Variable, variables: VariableMap) {
    forall ref :: ref in v.baselineRefs ==> ref in variables
  }

  predicate Admissible(r: Relation, variables: VariableMap) {
    r.relationId !in variables && RelationOk(r, variables)
  }

  ghost predicate Accepted(context: Context) {
    var variables := VariableMapOf(context.variables);
    && HeaderOk(context)
    && (forall v :: v in context.variables ==> VariableOk(v, context.asOf))
    && Distinct(VariableIds(context.variables))
    && (forall v :: v in context.variables ==> BaselinesOk(v, variables))
    && Distinct(RelationIds(context.relations))
    && (forall r :: r in context.relations ==> Admissible(r, variables))
  }

  /** The first n variables are in order and distinct. */
  ghost predicate VariablesPass(context: Context, n: nat) {
    && n <= |context.variables|
    && (forall v :: v in context.variables[..n] ==> VariableOk(v, context.asOf))
    && Distinct(VariableIds(context.variables[..n]))
  }

  /** The baselines of the first n variables are known. */
  ghost predicate BaselinesPass(context: Context, n: nat) {
    && n <= |context.variables|
    && forall k :: 0 <= k < n ==> BaselinesOk(context.variables[k], VariableMapOf(context.variables))
  }

  /** The first n relations are admissible and distinct. */
  ghost predicate RelationsPass(relations: seq<Relation>, variables: VariableMap, n: nat) {
    && n <= |relations|
    && (forall r :: r in relations[..n] ==> Admissible(r, variables))
    && Distinct(RelationIds(relations[..n]))
  }

  ghost predicate VariableFault(context: Context, fault: Fault) {
    || (fault.BadVariable? && fault.i < |context.variables| && VariablesPass(context, fault.i)
        && !VariableOk(context.variables[fault.i], context.asOf))
    || (fault.DuplicateVariable? && fault.i < |context.variables| && VariablesPass(context, fault.i)
        && VariableOk(context.variables[fault.i], context.asOf)
        && context.variables[fault.i].variableId in VariableIds(context.variables[..fault.i]))
  }

  ghost predicate BaselineFault(context: Context, fault: Fault) {
    && fault.UnknownBaseline? && fault.i < |context.variables| && BaselinesPass(context, fault.i)
    && var refs, variables := context.variables[fault.i].baselineRefs, VariableMapOf(context.variables);
    && fault.j < |refs| && refs[fault.j] !in variables && forall k :: 0 <= k < fault.j ==> refs[k] in variables
  }

  ghost predicate RelationFault(relations: seq<Relation>, variables: VariableMap, fault: Fault) {
    && (fault.DuplicateRelation? || fault.CollidingRelation? || fault.BadRelation?)
    && fault.i < |relations| && RelationsPass(relations, variables, fault.i)
    && var r := relations[fault.i];
    if r.relationId in RelationIds(relations[..fault.i]) then fault.DuplicateRelation?
    else if r.relationId in variables then fault.CollidingRelation?
    else fault.BadRelation? && !RelationOk(r, variables)
  }

  /** The meaning of each refusal: this check failed and every check before it passed. */
  ghost predicate FaultHolds(context: Context, fault: Fault) {
    || (fault == BadHeader && !HeaderOk(context))
    || (HeaderOk(context) && VariableFault(context, fault))
    || (HeaderOk(context) && VariablesPass(context, |context.variables|) && BaselineFault(context, fault))
    || (HeaderOk(context) && VariablesPass(context, |context.variables|) && BaselinesPass(context, |context.variables|)
        && RelationFault(context.relations, VariableMapOf(context.variables), fault))
  }

  lemma RepeatEndsDistinct(ids: seq<string>, i: nat)
    requires i < |ids| && ids[i] in ids[..i]
    ensures !Distinct(ids)
  {
    var j :| 0 <= j < i && ids[..i][j] == ids[i];
  }

  /** A variable at fault is the first one: no longer list of variables passes. */
  lemma VariableFaultEnds(context: Context, fault: Fault, n: nat)
    requires VariableFault(context, fault) && fault.i < n <= |context.variables|
    ensures !VariablesPass(context, n)
  {
    var variables := context.variables[..n];
    assert variables[fault.i] == context.variables[fault.i] && variables[..fault.i] == context.variables[..fault.i];
    assert VariableIds(variables)[..fault.i] == VariableIds(variables[..fault.i]);
    if fault.DuplicateVariable? { RepeatEndsDistinct(VariableIds(variables), fault.i); }
  }

  lemma RelationFaultEnds(relations: seq<Relation>, variables: VariableMap, fault: Fault, n: nat)
    requires RelationFault(relations, variables, fault) && fault.i < n <= |relations|
    ensures !RelationsPass(relations, variables, n)
  {
    var first := relations[..n];
    assert first[fault.i] == relations[fault.i] && relations[fault.i] in first && first[..fault.i] == relations[..fault.i];
    assert RelationIds(first)[..fault.i] == RelationIds(first[..fault.i]);
    if fault.DuplicateRelation? { RepeatEndsDistinct(RelationIds(first), fault.i); }
  }

  /** Acceptance is passing every stage to its end. */
  lemma AcceptedIffAllPass(context: Context)
    ensures Accepted(context) <==> (
      && HeaderOk(context) && VariablesPass(context, |context.variables|) && BaselinesPass(context, |context.variables|)
      && RelationsPass(context.relations, VariableMapOf(context.variables), |context.relations|))
  {
    assert context.variables[..|context.variables|] == context.variables;
    assert context.relations[..|context.relations|] == context.relations;
    if BaselinesPass(context, |context.variables|) {
      forall v | v in context.variables ensures BaselinesOk(v, VariableMapOf(context.variables)) {
        var k :| 0 <= k < |context.variables| && context.variables[k] == v;
      }
    }
  }

  /** A refused context is not acceptable. */
  lemma FaultExcludesAcceptance(context: Context, fault: Fault)
    requires FaultHolds(context, fault)
    ensures !Accepted(context)
  {
    AcceptedIffAllPass(context);
    var variables := VariableMapOf(context.variables);
    if VariableFault(context, fault) { VariableFaultEnds(context, fault, |context.variables|); }
    if RelationFault(context.relations, variables, fault) {
      RelationFaultEnds(context.relations, variables, fault, |context.relations|);
    }
  }

  /** The refusal is a function of the context: no two different faults hold of one context. */
  lemma FaultUnique(context: Context, f: Fault, g: Fault)
    requires FaultHolds(context, f) && FaultHolds(context, g)
    ensures f == g
  {
    FaultNotLater(context, f, g);
    FaultNotLater(context, g, f);
  }

  /** How far the validator got before a refusal. */
  ghost function Phase(fault: Fault): nat {
    match fault
    case BadHeader => 0
    case BadVariable(_) | DuplicateVariable(_) => 1
    case UnknownBaseline(_, _) => 2
    case _ => 3
  }

  lemma FaultNotLater(context: Context, f: Fault, g: Fault)
    requires FaultHolds(context, f) && FaultHolds(context, g)
    ensures Phase(f) <= Phase(g)
    ensures Phase(f) == Phase(g) && Phase(f) > 0 ==> f.i <= g.i
    ensures Phase(f) == Phase(g) == 2 && f.i == g.i ==> f.j <= g.j
  {
    var n, variables := |context.variables|, VariableMapOf(context.variables);
    var reached := if Phase(f) == 1 then f.i else n;
    if VariableFault(context, g) && Phase(f) > 0 && g.i < reached { VariableFaultEnds(context, g, reached); }
    if RelationFault(context.relations, variables, g) && Phase(f) == 3 && g.i < f.i {
      RelationFaultEnds(context.relations, variables, g, f.i);
    }
  }

  method ValidateVariables(context: Context) returns (fault: Option<Fault>, variables: VariableMap)
    ensures fault.None? ==> VariablesPass(context, |context.variables|) && variables == VariableMapOf(context.variables)
    ensures fault.Some? ==> VariableFault(context, fault.value)
  {
    variables := map[];
    for i := 0 to |context.variables|
      invariant VariablesPass(context, i)
      invariant variables == VariableMapOf(context.variables[..i])
    {
      var v := context.variables[i];
      ghost var before, after := context.variables[..i], context.variables[..i + 1];
      assert after[..i] == before && after[i] == v && after == before + [v];
      assert VariableIds(after) == VariableIds(before) + [v.variableId];
      DistinctSnoc(VariableIds(before), v.variableId);
      if !VariableOk(v, context.asOf) { return Some(BadVariable(i)), variables; }
      if v.variableId in variables { return Some(DuplicateVariable(i)), variables; }
      variables := variables[v.variableId := v];
    }
    assert context.variables[..|context.variables|] == context.variables;
    return None, variables;
  }

  method ValidateBaselines(context: Context, variables: VariableMap) returns (fault: Option<Fault>)
    requires variables == VariableMapOf(context.variables)
    ensures fault.None? ==> BaselinesPass(context, |context.variables|)
    ensures fault.Some? ==> BaselineFault(context, fault.value)
  {
    for i := 0 to |context.variables|
      invariant BaselinesPass(context, i)
    {
      var refs := context.variables[i].baselineRefs;
      for j := 0 to |refs|
        invariant forall k :: 0 <= k < j ==> refs[k] in variables
      {
        if refs[j] !in variables { return Some(UnknownBaseline(i, j)); }
      }
    }
    return None;
  }

  method ValidateRelations(relations: seq<Relation>, variables: VariableMap) returns (fault: Option<Fault>)
    ensures fault.None? ==> RelationsPass(relations, variables, |relations|)
    ensures fault.Some? ==> RelationFault(relations, variables, fault.value)
  {
    var seen: set<string> := {};
    for i := 0 to |relations|
      invariant forall id :: id in seen <==> id in RelationIds(relations[..i])
      invariant RelationsPass(relations, variables, i)
    {
      var r := relations[i];
      assert relations[..i + 1] == relations[..i] + [r];
      assert RelationIds(relations[..i + 1]) == RelationIds(relations[..i]) + [r.relationId];
      DistinctSnoc(RelationIds(relations[..i]), r.relationId);
      if r.relationId in seen { return Some(DuplicateRelation(i)); }
      if r.relationId in variables { return Some(CollidingRelation(i)); }
      seen := seen + {r.relationId};
      if !RelationOk(r, variables) { return Some(BadRelation(i)); }
    }
    return None;
  }

  method ValidateNumericalContext(context: Context) returns (fault: Option<Fault>)
    ensures fault.None? <==> Accepted(context)
    ensures fault.Some? ==> FaultHolds(context, fault.value)
  {
    AcceptedIffAllPass(context);
    if !HeaderOk(context) { return Some(BadHeader); }
    var variables: VariableMap;
    fault, variables := ValidateVariables(context);
    if fault.Some? { FaultExcludesAcceptance(context, fault.value); return; }
    fault := ValidateBaselines(context, variables);
    if fault.Some? { FaultExcludesAcceptance(context, fault.value); return; }
    fault := ValidateRelations(context.relations, variables);
    if fault.Some? { FaultExcludesAcceptance(context, fault.value); return; }
  }

  // ---------------------------------------------------------------- the order an accepted context describes

  /** (a, b) says that a is the greater one: greater_than edges and reversed less_than edges. */
  ghost function StrictEdges(context: Context): Edges<string> {
    (set r | r in context.relations && r.operator == GreaterThan :: (r.left, r.right)) +
    (set r | r in context.relations && r.operator == LessThan :: (r.right, r.left))
  }

  ghost function ValueOf(context: Context, id: string): real {
    var variables := VariableMapOf(context.variables);
    if id in variables && variables[id].value.value.Finite? then variables[id].value.value.v else 0.0
  }

  /** Equality within tolerance as an edge in both directions. */
  ghost function EqualEdges(context: Context): Edges<string> {
    (set r | r in context.relations && r.operator == EqualWithinTolerance :: (r.left, r.right)) +
    (set r | r in context.relations && r.operator == EqualWithinTolerance :: (r.right, r.left))
  }

  ghost predicate ExactTolerances(context: Context) {
    forall r :: r in context.relations && r.operator == EqualWithinTolerance ==> Tolerance(r) == Finite(0.0)
  }

  /** Metric and comparability class of a variable; None for an unknown id. */
  ghost function ClassOf(context: Context, id: string): Option<(string, string, string, PeriodBasis, string)> {
    var variables := VariableMapOf(context.variables);
    if id in variables then
      var v := variables[id];
      Some((v.metricId, v.value.unit, v.value.currency, v.periodBasis, v.comparisonKey))
    else None
  }

  /** The absolute difference that a relation carries. */
  function Recorded(r: Relation): real {
    if r.difference.Some? && r.difference.value.value.Finite? then r.difference.value.value.v else 0.0
  }

  /** What one comparable relation of an accepted context says about its two variables. */
  lemma OperatorMeaning(context: Context, r: Relation)
    requires Accepted(context) && r in context.relations && r.operator != Incomparable
    ensures ClassOf(context, r.left).Some? && ClassOf(context, r.left) == ClassOf(context, r.right)
    ensures Recorded(r) == Abs(ValueOf(context, r.left) - ValueOf(context, r.right))
    ensures Tolerance(r).Finite? && 0.0 <= Tolerance(r).v
    ensures match r.operator
      case GreaterThan => ValueOf(context, r.left) > ValueOf(context, r.right) + Tolerance(r).v
      case LessThan => ValueOf(context, r.right) > ValueOf(context, r.left) + Tolerance(r).v
      case EqualWithinTolerance => Recorded(r) <= Tolerance(r).v
      case _ => false
  {
    assert Admissible(r, VariableMapOf(context.variables));
  }

  lemma StrictEdgeMeaning(context: Context, a: string, b: string)
    requires Accepted(context) && (a, b) in StrictEdges(context)
    ensures ValueOf(context, a) > ValueOf(context, b) && ClassOf(context, a) == ClassOf(context, b)
  {
    var r :| r in context.relations
      && ((r.operator == GreaterThan && (a, b) == (r.left, r.right)) || (r.operator == LessThan && (a, b) == (r.right, r.left)));
    OperatorMeaning(context, r);
  }

  lemma EqualEdgeMeaning(context: Context, a: string, b: string)
    requires Accepted(context) && (a, b) in EqualEdges(context)
    ensures ClassOf(context, a) == ClassOf(context, b)
    ensures ExactTolerances(context) ==> ValueOf(context, a) == ValueOf(context, b)
  {
    var r :| r in context.relations && r.operator == EqualWithinTolerance && ((a, b) == (r.left, r.right) || (a, b) == (r.right, r.left));
    OperatorMeaning(context, r);
  }

  /** The strict relations of an accepted context cannot chase each other in a circle. */
  lemma AcceptedOrderIsAcyclic(context: Context)
    requires Accepted(context)
    ensures !HasCycle(StrictEdges(context))
  {
    forall a, b | (a, b) in StrictEdges(context) ensures ValueOf(context, a) > ValueOf(context, b) {
      StrictEdgeMeaning(context, a, b);
    }
    DescendingEdgesHaveNoCycle(StrictEdges(context), id => ValueOf(context, id));
  }

  /** No two relations on a pair point in opposite directions, whichever way each is written. */
  lemma AcceptedOrderIsAntisymmetric(context: Context, a: string, b: string)
    requires Accepted(context) && (a, b) in StrictEdges(context)
    ensures (b, a) !in StrictEdges(context)
  {
    StrictEdgeMeaning(context, a, b);
    if (b, a) in StrictEdges(context) {
      StrictEdgeMeaning(context, b, a);
    }
  }

  /** A relation is marked comparable exactly when its variables share a comparability class. */
  lemma ComparableFlagIsClass(context: Context, r: Relation)
    requires Accepted(context) && r in context.relations
    ensures ClassOf(context, r.left).Some? && ClassOf(context, r.right).Some?
    ensures r.comparable <==> ClassOf(context, r.left) == ClassOf(context, r.right)
    ensures r.comparable <==> r.operator != Incomparable
  {
    assert Admissible(r, VariableMapOf(context.variables));
  }

  /** Variables linked by any chain of comparable relations are comparable with each other. */
  lemma LinkedVariablesShareClass(context: Context, p: seq<string>)
    requires Accepted(context) && p != [] && IsPath(StrictEdges(context) + EqualEdges(context), p)
    ensures ClassOf(context, p[0]) == ClassOf(context, p[|p| - 1])
  {
    var edges := StrictEdges(context) + EqualEdges(context);
    forall a, b | (a, b) in edges ensures ClassOf(context, a) == ClassOf(context, b) {
      if (a, b) in StrictEdges(context) { StrictEdgeMeaning(context, a, b); } else { EqualEdgeMeaning(context, a, b); }
    }
    PathStaysInClass(edges, id => ClassOf(context, id), p, |p| - 1);
  }

  /** With exact equality, no circle of strict and equal relations contains a strict one. */
  lemma ExactEqualityKeepsOrder(context: Context, p: seq<string>, i: nat)
    requires Accepted(context) && ExactTolerances(context)
    requires IsCycle(StrictEdges(context) + EqualEdges(context), p) && i < |p| - 1
    ensures (p[i], p[i + 1]) !in StrictEdges(context)
  {
    var edges := StrictEdges(context) + EqualEdges(context);
    forall a, b | (a, b) in edges ensures ValueOf(context, a) >= ValueOf(context, b) {
      if (a, b) in StrictEdges(context) { StrictEdgeMeaning(context, a, b); } else { EqualEdgeMeaning(context, a, b); }
    }
    CycleIsLevel(edges, id => ValueOf(context, id), p, i);
    if (p[i], p[i + 1]) in StrictEdges(context) {
      StrictEdgeMeaning(context, p[i], p[i + 1]);
    }
  }

  // ---------------------------------------------------------------- circles with tolerances

  /** A walk may take r from a to b: down a strict relation, or along an equality either way. */
  ghost predicate Joins(r: Relation, a: string, b: string) {
    match r.operator
    case GreaterThan => (a, b) == (r.left, r.right)
    case LessThan => (a, b) == (r.right, r.left)
    case EqualWithinTolerance => (a, b) == (r.left, r.right) || (a, b) == (r.right, r.left)
    case _ => false
  }

  ghost predicate IsWalk(context: Context, p: seq<string>, rs: seq<Relation>) {
    && |p| == |rs| + 1
    && forall i :: 0 <= i < |rs| ==> rs[i] in context.relations && Joins(rs[i], p[i], p[i + 1])
  }

  /** The recorded differences of the strict relations of a walk. */
  function Drops(rs: seq<Relation>): real {
    if rs == [] then 0.0
    else Drops(rs[..|rs| - 1]) + var r := rs[|rs| - 1]; if r.operator == EqualWithinTolerance then 0.0 else Recorded(r)
  }

  /** The recorded differences of its equalities. */
  function Drifts(rs: seq<Relation>): real {
    if rs == [] then 0.0
    else Drifts(rs[..|rs| - 1]) + var r := rs[|rs| - 1]; if r.operator == EqualWithinTolerance then Recorded(r) else 0.0
  }

  /** The tolerances of its equalities. */
  function Slack(rs: seq<Relation>): real {
    if rs == [] then 0.0
    else
      Slack(rs[..|rs| - 1]) +
      var r := rs[|rs| - 1]; if r.operator == EqualWithinTolerance && Tolerance(r).Finite? then Tolerance(r).v else 0.0
  }

  /** What the values of a walk owe to its relations. */
  ghost predicate Follows(values: seq<real>, rs: seq<Relation>) {
    && |values| == |rs| + 1
    && forall i :: 0 <= i < |rs| ==> StepFollows(values[i], values[i + 1], rs[i])
  }

  predicate StepFollows(a: real, b: real, r: Relation) {
    if r.operator == EqualWithinTolerance then
      Tolerance(r).Finite? && Recorded(r) <= Tolerance(r).v && a - b >= -Recorded(r)
    else a - b == Recorded(r) > 0.0
  }

  /** What one relation records: a strict one the exact drop, an equality at most its tolerance. */
  lemma JoinMeaning(context: Context, r: Relation, a: string, b: string)
    requires Accepted(context) && r in context.relations && Joins(r, a, b)
    ensures StepFollows(ValueOf(context, a), ValueOf(context, b), r)
  {
    OperatorMeaning(context, r);
  }

  /** Along a walk the value falls by the strict drops, up to what the equalities give back. */
  lemma {:induction false} WalkFalls(values: seq<real>, rs: seq<Relation>)
    requires Follows(values, rs)
    ensures values[0] - values[|rs|] >= Drops(rs) - Drifts(rs)
    ensures Drifts(rs) <= Slack(rs) && Drops(rs) >= 0.0
    ensures forall i :: 0 <= i < |rs| && rs[i].operator != EqualWithinTolerance ==> 0.0 < Recorded(rs[i]) <= Drops(rs)
  {
    if rs != [] {
      var n := |rs| - 1;
      assert forall i :: 0 <= i < n ==> rs[..n][i] == rs[i];
      WalkFalls(values[..n + 1], rs[..n]);
      assert StepFollows(values[n], values[n + 1], rs[n]);
    }
  }

  ghost function ValuesOf(context: Context, p: seq<string>): (values: seq<real>)
    ensures |values| == |p| && forall i :: 0 <= i < |p| ==> values[i] == ValueOf(context, p[i])
  {
    seq(|p|, i requires 0 <= i < |p| => ValueOf(context, p[i]))
  }

  lemma WalkFollows(context: Context, p: seq<string>, rs: seq<Relation>)
    requires Accepted(context) && IsWalk(context, p, rs)
    ensures Follows(ValuesOf(context, p), rs)
  {
    forall i | 0 <= i < |rs| ensures StepFollows(ValueOf(context, p[i]), ValueOf(context, p[i + 1]), rs[i]) {
      JoinMeaning(context, rs[i], p[i], p[i + 1]);
    }
  }

  /**
   * Around any circle, the differences that the strict relations record add up to no more than those of the
   * equalities, hence to no more than their tolerances.
   */
  lemma CircleDropsWithinTolerances(context: Context, p: seq<string>, rs: seq<Relation>)
    requires Accepted(context) && IsWalk(context, p, rs) && p[0] == p[|rs|]
    ensures Drops(rs) <= Drifts(rs) <= Slack(rs)
    ensures forall i :: 0 <= i < |rs| && rs[i].operator != EqualWithinTolerance ==> 0.0 < Recorded(rs[i]) <= Slack(rs)
  {
    WalkFollows(context, p, rs);
    WalkFalls(ValuesOf(context, p), rs);
  }
}
