/**
 * Discounted free cash flow over exact reals, and the sensitivity grid with its monotonicity flags.
 */
module Dcf {
  import opened Common

  datatype DcfFault = EmptyForecast | RateTooLow | GrowthTooHigh

  datatype DcfResult = DcfResult(enterpriseValue: real, explicitPresentValue: real, terminalPresentValue: real, presentValues: seq<real>)

  datatype Cell = Cell(discountRate: real, terminalGrowth: real, enterpriseValue: real)

  datatype GridFault = MissingAxis | CellFault(row: nat, column: nat, fault: DcfFault)

  datatype Grid = Grid(rows: nat, columns: nat, cells: seq<Cell>, monotonicDiscountRate: bool, monotonicTerminalGrowth: bool)

  // ---------------------------------------------------------------- the valuation formula

  function Pow(base: real, n: nat): real {
    if n == 0 then 1.0 else base * Pow(base, n - 1)
  }

  lemma {:induction false} PowPositive(base: real, n: nat)
    requires base > 0.0
    ensures Pow(base, n) > 0.0
  {
    if n > 0 { PowPositive(base, n - 1); }
  }

  /** What FCFFDCF demands of a rate and a growth rate. */
  predicate Admissible(rate: real, growth: real) {
    rate > -1.0 && rate > growth
  }

  /** The flow of period k (counted from 1) discounted to today. */
  function PresentValue(flow: real, rate: real, k: nat): real
    requires rate > -1.0
  {
    PowPositive(1.0 + rate, k);
    flow / Pow(1.0 + rate, k)
  }

  function ExplicitValue(forecast: seq<real>, rate: real): real
    requires rate > -1.0
  {
    if forecast == [] then 0.0
    else
      var n := |forecast|;
      ExplicitValue(forecast[..n - 1], rate) + PresentValue(forecast[n - 1], rate, n)
  }

  /** The value, at the end of the forecast, of the last flow growing forever. */
  function Perpetuity(flow: real, rate: real, growth: real): real
    requires rate > growth
  {
    flow * (1.0 + growth) / (rate - growth)
  }

  function TerminalValue(forecast: seq<real>, rate: real, growth: real): real
    requires forecast != [] && Admissible(rate, growth)
  {
    var n := |forecast|;
    PresentValue(Perpetuity(forecast[n - 1], rate, growth), rate, n)
  }

  function EnterpriseValue(forecast: seq<real>, rate: real, growth: real): real
    requires forecast != [] && Admissible(rate, growth)
  {
    ExplicitValue(forecast, rate) + TerminalValue(forecast, rate, growth)
  }

  function FirstFault(forecast: seq<real>, rate: real, growth: real): Option<DcfFault> {
    if forecast == [] then Some(EmptyForecast)
    else if rate <= -1.0 then Some(RateTooLow)
    else if rate <= growth then Some(GrowthTooHigh)
    else None
  }

  method FcffDcf(forecast: seq<real>, rate: real, growth: real) returns (r: Result<DcfResult, DcfFault>)
    ensures r.Err? <==> FirstFault(forecast, rate, growth).Some?
    ensures r.Err? ==> FirstFault(forecast, rate, growth) == Some(r.error)
    ensures r.Ok? ==>
      && r.value.enterpriseValue == EnterpriseValue(forecast, rate, growth)
      && r.value.explicitPresentValue == ExplicitValue(forecast, rate)
      && r.value.terminalPresentValue == TerminalValue(forecast, rate, growth)
      && |r.value.presentValues| == |forecast|
      && (forall i :: 0 <= i < |forecast| ==> r.value.presentValues[i] == PresentValue(forecast[i], rate, i + 1))
    ensures r.Ok? <==> forecast != [] && rate > -1.0 && rate > growth
    ensures r == Err(EmptyForecast) <==> forecast == []
    ensures r == Err(RateTooLow) <==> forecast != [] && rate <= -1.0
    ensures r == Err(GrowthTooHigh) <==> forecast != [] && -1.0 < rate <= growth
    ensures r.Ok? ==> Values(forecast, rate, growth, r.value)
  {
    if |forecast| == 0 { return Err(EmptyForecast); }
    if rate <= -1.0 { return Err(RateTooLow); }
    if rate <= growth { return Err(GrowthTooHigh); }
    var explicit_ := 0.0;
    var presentValues: seq<real> := [];
    for index := 0 to |forecast|
      invariant explicit_ == ExplicitValue(forecast[..index], rate)
      invariant |presentValues| == index
      invariant forall i :: 0 <= i < index ==> presentValues[i] == PresentValue(forecast[i], rate, i + 1)
    {
      var present := PresentValue(forecast[index], rate, index + 1);
      assert forecast[..index + 1][..index] == forecast[..index];
      explicit_ := explicit_ + present;
      presentValues := presentValues + [present];
    }
    assert forecast[..|forecast|] == forecast;
    var terminalValue := Perpetuity(forecast[|forecast| - 1], rate, growth);
    var terminalPresent := PresentValue(terminalValue, rate, |forecast|);
    SpecifiedValues(forecast, rate, growth, presentValues);
    return Ok(DcfResult(explicit_ + terminalPresent, explicit_, terminalPresent, presentValues));
  }

  // ---------------------------------------------------------------- monotonicity of the formula

  lemma CancelFactor(x: real, u: real, v: real)
    requires x != 0.0 && x * u == x * v
    ensures u == v
  {
    assert x * (u - v) == 0.0;
  }

  lemma ProductPositive(a: real, b: real)
    requires a > 0.0 && b > 0.0
    ensures a * b > 0.0
  {
  }

  /** q is a / b when its product with b is a. */
  lemma IsQuotient(a: real, b: real, q: real)
    requires b != 0.0 && q * b == a
    ensures q == a / b
  {
    assert (a / b) * b == a;
    CancelFactor(b, q, a / b);
  }

  /** A larger denominator makes a smaller quotient. */
  lemma QuotientOrder(a: real, small: real, large: real)
    requires a >= 0.0 && 0.0 < small <= large
    ensures a / large <= a / small
    ensures a > 0.0 && small < large ==> a / large < a / small
  {
    QuotientOrderBy(a, small, large, a / large, a / small);
  }

  lemma QuotientOrderBy(a: real, small: real, large: real, p: real, q: real)
    requires a >= 0.0 && 0.0 < small <= large
    requires p * large == a && q * small == a
    ensures p <= q
    ensures a > 0.0 && small < large ==> p < q
  {
    var u := p * small;
    FactorSign(p, large, a);
    FactorSign(q, small, a);
    if p > 0.0 && small < large {
      ScaleStrict(small, large, p, u, a);
    }
    FactorOrder(p, q, small, u, a);
  }

  // Products are named (ap == p * a and so on), so that only these lemmas reason about them.

  lemma ScaleStrict(a: real, b: real, p: real, ap: real, bp: real)
    requires a < b && p > 0.0 && ap == p * a && bp == p * b
    ensures ap < bp
  {
    ProductPositive(p, b - a);
    assert p * (b - a) == bp - ap;
  }

  lemma FactorOrder(p: real, q: real, d: real, pd: real, qd: real)
    requires d > 0.0 && pd == p * d && qd == q * d
    ensures pd < qd ==> p < q
    ensures pd <= qd ==> p <= q
  {
    if q < p { ScaleStrict(q, p, d, qd, pd); }
  }

  /** A factor has the sign of its product with a positive number. */
  lemma FactorSign(u: real, d: real, ud: real)
    requires d > 0.0 && ud == u * d
    ensures ud > 0.0 <==> u > 0.0
    ensures ud >= 0.0 <==> u >= 0.0
  {
    if u < 0.0 { ProductPositive(-u, d); }
    if u > 0.0 { ProductPositive(u, d); }
  }

  lemma Rearrange(m: real, x: real, s: real, p: real)
    ensures x * (m * (s * p)) == (m * (x * p)) * s
  {
    var sp := s * p;
    assert x * (m * sp) == m * (x * sp);
    assert x * sp == (x * p) * s;
    var xp := x * p;
    assert m * (xp * s) == (m * xp) * s;
  }

  /** The denominator of the folded form: spread is rate minus growth, base is one plus rate. */
  function Denominator(spread: real, base: real, n: nat): real
    requires n > 0
  {
    spread * Pow(base, n - 1)
  }

  lemma PresentValueMeaning(flow: real, rate: real, n: nat, x: real, p: real)
    requires rate > -1.0 && n > 0 && x == 1.0 + rate && p == Pow(x, n - 1)
    ensures PresentValue(flow, rate, n) * (x * p) == flow
  {
    PowPositive(x, n);
  }

  lemma PerpetuityMeaning(flow: real, rate: real, growth: real, s: real, x: real)
    requires rate > growth && s == rate - growth && x == 1.0 + rate
    ensures Perpetuity(flow, rate, growth) * s == flow * (x - s)
  {
  }

  /**
   * The last flow and the terminal value fold into one term: growth occurs in a single denominator,
   * and 1 + growth drops out.
   */
  lemma GordonForm(flow: real, rate: real, growth: real, n: nat)
    requires Admissible(rate, growth) && n > 0
    ensures Denominator(rate - growth, 1.0 + rate, n) > 0.0
    ensures PresentValue(flow, rate, n) + PresentValue(Perpetuity(flow, rate, growth), rate, n)
         == flow / Denominator(rate - growth, 1.0 + rate, n)
  {
    var x, s := 1.0 + rate, rate - growth;
    var p, t := Pow(x, n - 1), Perpetuity(flow, rate, growth);
    PowPositive(x, n - 1);
    ProductPositive(s, p);
    PresentValueMeaning(flow, rate, n, x, p);
    PresentValueMeaning(t, rate, n, x, p);
    PerpetuityMeaning(flow, rate, growth, s, x);
    GordonAlgebra(flow, x, s, p, PresentValue(flow, rate, n), PresentValue(t, rate, n), t);
  }

  lemma GordonAlgebra(flow: real, x: real, s: real, p: real, a: real, b: real, t: real)
    requires x != 0.0 && s * p != 0.0
    requires a * (x * p) == flow && b * (x * p) == t && t * s == flow * (x - s)
    ensures a + b == flow / (s * p)
  {
    assert (a + b) * (x * p) == flow + t;
    Rearrange(a + b, x, s, p);
    assert (flow + t) * s == flow * s + t * s;
    assert flow * s + flow * (x - s) == x * flow;
    CancelFactor(x, (a + b) * (s * p), flow);
    IsQuotient(flow, s * p, a + b);
  }

  lemma {:induction false} PowOrder(a: real, b: real, n: nat)
    requires 0.0 < a < b
    ensures 0.0 < Pow(a, n) <= Pow(b, n)
    ensures n > 0 ==> Pow(a, n) < Pow(b, n)
  {
    if n > 0 {
      PowOrder(a, b, n - 1);
      ProductOrder(a, Pow(a, n - 1), b, Pow(b, n - 1));
      assert Pow(a, n) == a * Pow(a, n - 1) && Pow(b, n) == b * Pow(b, n - 1);
    }
  }

  lemma ProductOrder(a: real, p: real, b: real, q: real)
    requires 0.0 < a < b && 0.0 < p <= q
    ensures 0.0 < a * p < b * q
  {
    ProductPositive(a, p);
    var ap, bp, bq := a * p, b * p, b * q;
    ScaleStrict(a, b, p, ap, bp);
    if p < q { ScaleStrict(p, q, b, bp, bq); }
  }

  /** Discounting a non-negative flow harder never makes it worth more. */
  lemma PresentValueFalls(flow: real, low: real, high: real, k: nat)
    requires flow >= 0.0 && -1.0 < low < high
    ensures PresentValue(flow, high, k) <= PresentValue(flow, low, k)
  {
    PowOrder(1.0 + low, 1.0 + high, k);
    QuotientOrder(flow, Pow(1.0 + low, k), Pow(1.0 + high, k));
  }

  ghost predicate NoneNegative(forecast: seq<real>) {
    forall i :: 0 <= i < |forecast| ==> forecast[i] >= 0.0
  }

  lemma {:induction false} ExplicitValueFalls(forecast: seq<real>, low: real, high: real)
    requires NoneNegative(forecast)
    requires -1.0 < low < high
    ensures ExplicitValue(forecast, high) <= ExplicitValue(forecast, low)
  {
    if forecast != [] {
      var before, last := forecast[..|forecast| - 1], forecast[|forecast| - 1];
      ExplicitValueFalls(before, low, high);
      PresentValueFalls(last, low, high, |forecast|);
    }
  }

  /** No flow is negative and the last one is positive. */
  ghost predicate Healthy(forecast: seq<real>) {
    forecast != [] && NoneNegative(forecast) && forecast[|forecast| - 1] > 0.0
  }

  /** The enterprise value with the last flow folded into the perpetuity. */
  lemma EnterpriseForm(forecast: seq<real>, rate: real, growth: real)
    requires forecast != [] && Admissible(rate, growth)
    ensures var n := |forecast|;
      && Denominator(rate - growth, 1.0 + rate, n) > 0.0
      && EnterpriseValue(forecast, rate, growth)
         == ExplicitValue(forecast[..n - 1], rate) + forecast[n - 1] / Denominator(rate - growth, 1.0 + rate, n)
  {
    GordonForm(forecast[|forecast| - 1], rate, growth, |forecast|);
  }

  lemma DenominatorOrder(small: real, low: real, large: real, high: real, n: nat)
    requires 0.0 < small < large && 0.0 < low <= high && n > 0
    ensures 0.0 < Denominator(small, low, n) < Denominator(large, high, n)
  {
    if low < high { PowOrder(low, high, n - 1); } else { PowPositive(low, n - 1); }
    ProductOrder(small, Pow(low, n - 1), large, Pow(high, n - 1));
  }

  /**
   * A higher discount rate makes a healthy forecast worth strictly less, at every growth rate the
   * formula accepts; growth below -1 is no exception.
   */
  lemma ValueFallsWithRate(forecast: seq<real>, low: real, high: real, growth: real)
    requires Healthy(forecast) && Admissible(low, growth) && low < high
    ensures Admissible(high, growth)
    ensures EnterpriseValue(forecast, high, growth) < EnterpriseValue(forecast, low, growth)
  {
    var n := |forecast|;
    EnterpriseForm(forecast, low, growth);
    EnterpriseForm(forecast, high, growth);
    ExplicitValueFalls(forecast[..n - 1], low, high);
    DenominatorOrder(low - growth, 1.0 + low, high - growth, 1.0 + high, n);
    QuotientOrder(forecast[n - 1], Denominator(low - growth, 1.0 + low, n), Denominator(high - growth, 1.0 + high, n));
  }

  /** A higher terminal growth makes it worth strictly more. */
  lemma ValueRisesWithGrowth(forecast: seq<real>, rate: real, low: real, high: real)
    requires Healthy(forecast) && Admissible(rate, high) && low < high
    ensures Admissible(rate, low)
    ensures EnterpriseValue(forecast, rate, low) < EnterpriseValue(forecast, rate, high)
  {
    var n := |forecast|;
    EnterpriseForm(forecast, rate, low);
    EnterpriseForm(forecast, rate, high);
    DenominatorOrder(rate - high, 1.0 + rate, rate - low, 1.0 + rate, n);
    QuotientOrder(forecast[n - 1], Denominator(rate - high, 1.0 + rate, n), Denominator(rate - low, 1.0 + rate, n));
  }

  // ---------------------------------------------------------------- what a valuation is, without the powers

  function Total(s: seq<real>): real {
    if s == [] then 0.0 else s[0] + Total(s[1..])
  }

  /** One unit at the end of each period is worth this much today: a period earlier, 1 + rate times as much. */
  ghost predicate Discounts(factors: seq<real>, rate: real) {
    && (factors != [] ==> factors[0] * (1.0 + rate) == 1.0)
    && forall i, j :: 0 <= i < j < |factors| && j == i + 1 ==> factors[j] * (1.0 + rate) == factors[i]
  }

  /** Each value is the flow times its factor. */
  ghost predicate Weighs(forecast: seq<real>, factors: seq<real>, values: seq<real>) {
    && |forecast| == |factors| == |values|
    && forall i :: 0 <= i < |forecast| ==> values[i] == forecast[i] * factors[i]
  }

  ghost predicate Discounted(forecast: seq<real>, rate: real, values: seq<real>) {
    exists factors :: Discounts(factors, rate) && Weighs(forecast, factors, values)
  }

  /** Today's worth of all flows that follow one of this worth and grow for ever. */
  predicate GrowsForever(value: real, rate: real, growth: real, terminal: real) {
    terminal * (rate - growth) == value * (1.0 + growth)
  }

  /** Each flow discounted on its own, and the last one also as the start of a flow that grows for ever. */
  ghost predicate Values(forecast: seq<real>, rate: real, growth: real, v: DcfResult) {
    && |v.presentValues| == |forecast| > 0
    && Discounted(forecast, rate, v.presentValues)
    && v.explicitPresentValue == Total(v.presentValues)
    && GrowsForever(v.presentValues[|forecast| - 1], rate, growth, v.terminalPresentValue)
    && v.enterpriseValue == v.explicitPresentValue + v.terminalPresentValue
  }

  // ---------------------------------------------------------------- the terms determine the valuation

  lemma {:induction false} FactorsUnique(f: seq<real>, g: seq<real>, rate: real, i: nat)
    requires rate > -1.0 && |f| == |g| && i < |f| && Discounts(f, rate) && Discounts(g, rate)
    ensures f[i] == g[i]
  {
    if i > 0 { FactorsUnique(f, g, rate, i - 1); }
    CancelFactor(1.0 + rate, f[i], g[i]);
  }

  lemma DiscountedUnique(forecast: seq<real>, rate: real, a: seq<real>, b: seq<real>)
    requires rate > -1.0 && Discounted(forecast, rate, a) && Discounted(forecast, rate, b)
    ensures a == b
  {
    var f :| Discounts(f, rate) && Weighs(forecast, f, a);
    var g :| Discounts(g, rate) && Weighs(forecast, g, b);
    forall i | 0 <= i < |forecast| ensures a[i] == b[i] { FactorsUnique(f, g, rate, i); }
  }

  lemma ValuesUnique(forecast: seq<real>, rate: real, growth: real, v: DcfResult, w: DcfResult)
    requires rate > -1.0 && rate > growth && Values(forecast, rate, growth, v) && Values(forecast, rate, growth, w)
    ensures v == w
  {
    DiscountedUnique(forecast, rate, v.presentValues, w.presentValues);
    CancelFactor(rate - growth, v.terminalPresentValue, w.terminalPresentValue);
  }

  lemma SameTimes(a: real, b: real, x: real)
    requires a == b
    ensures a * x == b * x
  {
  }

  /** f * g * x with g * x known. */
  lemma TimesStep(f: real, g: real, x: real, y: real)
    requires g * x == y
    ensures (f * g) * x == f * y
  {
    Regroup(f, g, x);
  }

  lemma CrossStep(f: real, g: real, a: real, b: real, x: real)
    requires b * x == a
    ensures f * (g * b) * x == g * (f * a)
  {
    TimesStep(f * g, b, x, a);
    Regroup(f, g, b);
    Regroup(f, g, a);
    Regroup(g, f, a);
  }

  /** The first flow is discounted once, and each next one once more than the one before it. */
  lemma DiscountSteps(forecast: seq<real>, rate: real, growth: real, v: DcfResult)
    requires Values(forecast, rate, growth, v)
    ensures v.presentValues[0] * (1.0 + rate) == forecast[0]
    ensures forall i, j :: 0 <= i < j < |forecast| && j == i + 1 ==>
      forecast[i] * v.presentValues[j] * (1.0 + rate) == forecast[j] * v.presentValues[i]
  {
    var factors :| Discounts(factors, rate) && Weighs(forecast, factors, v.presentValues);
    TimesStep(forecast[0], factors[0], 1.0 + rate, 1.0);
    forall i, j | 0 <= i < j < |forecast| && j == i + 1
      ensures forecast[i] * v.presentValues[j] * (1.0 + rate) == forecast[j] * v.presentValues[i]
    {
      CrossStep(forecast[i], forecast[j], factors[i], factors[j], 1.0 + rate);
    }
  }

  lemma GrowthCancels(value: real, terminal: real, rate: real, growth: real)
    requires terminal * (rate - growth) == value * (1.0 + growth)
    ensures (value + terminal) * (rate - growth) == value * (1.0 + rate)
  {
    assert (value + terminal) * (rate - growth) == value * (rate - growth) + terminal * (rate - growth);
  }

  /** A single flow is worth the flow over the difference of rate and growth. */
  lemma OneFlow(flow: real, rate: real, growth: real, v: DcfResult)
    requires Values([flow], rate, growth, v)
    ensures v.enterpriseValue * (rate - growth) == flow
  {
    DiscountSteps([flow], rate, growth, v);
    var value := v.presentValues[0];
    TotalSnoc([], value);
    assert [] + [value] == [value] == v.presentValues;
    assert v.explicitPresentValue == value;
    assert GrowsForever(value, rate, growth, v.terminalPresentValue);
    GrowthCancels(value, v.terminalPresentValue, rate, growth);
    SameTimes(v.enterpriseValue, value + v.terminalPresentValue, rate - growth);
  }

  // ---------------------------------------------------------------- the valuation meets the terms

  function Factor(rate: real, k: nat): real
    requires rate > -1.0
  {
    PresentValue(1.0, rate, k)
  }

  lemma FactorTimes(flow: real, rate: real, k: nat)
    requires rate > -1.0
    ensures PresentValue(flow, rate, k) == flow * Factor(rate, k)
  {
    PowPositive(1.0 + rate, k);
    var p := Pow(1.0 + rate, k);
    var unit := 1.0 / p;
    assert unit * p == 1.0;
    TimesUnit(flow, unit, p);
    IsQuotient(flow, p, flow * unit);
  }

  lemma TimesUnit(flow: real, unit: real, p: real)
    requires unit * p == 1.0
    ensures (flow * unit) * p == flow
  {
    assert (flow * unit) * p == flow * (unit * p);
  }

  lemma FactorStep(rate: real, k: nat)
    requires rate > -1.0
    ensures Factor(rate, k + 1) * (1.0 + rate) == Factor(rate, k)
    ensures Factor(rate, 0) == 1.0
  {
    var x := 1.0 + rate;
    var p := Pow(x, k);
    PowPositive(x, k);
    PowPositive(x, k + 1);
    var a := 1.0 / (x * p);
    assert a * (x * p) == 1.0;
    Regroup(a, x, p);
    IsQuotient(1.0, p, a * x);
  }

  lemma Regroup(a: real, x: real, p: real)
    ensures (a * x) * p == a * (x * p)
  {
  }

  lemma {:induction false} TotalSnoc(s: seq<real>, x: real)
    ensures Total(s + [x]) == Total(s) + x
  {
    if s == [] {
      assert [x][1..] == [];
    } else {
      assert (s + [x])[1..] == s[1..] + [x];
      TotalSnoc(s[1..], x);
    }
  }

  lemma {:induction false} ExplicitIsTotal(forecast: seq<real>, rate: real, values: seq<real>)
    requires rate > -1.0 && |values| == |forecast|
    requires forall i :: 0 <= i < |forecast| ==> values[i] == PresentValue(forecast[i], rate, i + 1)
    ensures ExplicitValue(forecast, rate) == Total(values)
  {
    if forecast != [] {
      var n := |forecast| - 1;
      ExplicitIsTotal(forecast[..n], rate, values[..n]);
      TotalSnoc(values[..n], values[n]);
      assert values == values[..n] + [values[n]];
    }
  }

  lemma TerminalTerms(last: real, rate: real, growth: real, n: nat, value: real, terminal: real)
    requires Admissible(rate, growth)
    requires value == PresentValue(last, rate, n) && terminal == PresentValue(Perpetuity(last, rate, growth), rate, n)
    ensures GrowsForever(value, rate, growth, terminal)
  {
    var t, d, s := Perpetuity(last, rate, growth), Factor(rate, n), rate - growth;
    FactorTimes(t, rate, n);
    FactorTimes(last, rate, n);
    assert t * s == last * (1.0 + growth);
    Swap(t, d, s);
    Swap(last, d, 1.0 + growth);
  }

  lemma Swap(a: real, b: real, c: real)
    ensures (a * b) * c == (a * c) * b
  {
  }

  lemma SpecifiedFactors(rate: real, n: nat) returns (factors: seq<real>)
    requires rate > -1.0
    ensures |factors| == n && Discounts(factors, rate) && forall i :: 0 <= i < n ==> factors[i] == Factor(rate, i + 1)
  {
    factors := seq(n, i requires 0 <= i < n => Factor(rate, i + 1));
    FactorStep(rate, 0);
    forall i, j | 0 <= i < j < n && j == i + 1 ensures factors[j] * (1.0 + rate) == factors[i] { FactorStep(rate, j); }
  }

  lemma SpecifiedDiscounted(forecast: seq<real>, rate: real, values: seq<real>)
    requires rate > -1.0 && |values| == |forecast|
    requires forall i :: 0 <= i < |forecast| ==> values[i] == PresentValue(forecast[i], rate, i + 1)
    ensures Discounted(forecast, rate, values)
  {
    var factors := SpecifiedFactors(rate, |forecast|);
    forall i | 0 <= i < |forecast| ensures values[i] == forecast[i] * factors[i] { FactorTimes(forecast[i], rate, i + 1); }
    assert Weighs(forecast, factors, values);
  }

  lemma MakesValues(forecast: seq<real>, rate: real, growth: real, values: seq<real>, terminal: real)
    requires forecast != [] && Discounted(forecast, rate, values) && |values| == |forecast|
    requires GrowsForever(values[|forecast| - 1], rate, growth, terminal)
    ensures Values(forecast, rate, growth, DcfResult(Total(values) + terminal, Total(values), terminal, values))
  {
  }

  lemma SpecifiedValues(forecast: seq<real>, rate: real, growth: real, values: seq<real>)
    requires forecast != [] && Admissible(rate, growth) && |values| == |forecast|
    requires forall i :: 0 <= i < |forecast| ==> values[i] == PresentValue(forecast[i], rate, i + 1)
    ensures Values(forecast, rate, growth, DcfResult(EnterpriseValue(forecast, rate, growth), ExplicitValue(forecast, rate),
                                                     TerminalValue(forecast, rate, growth), values))
  {
    SpecifiedDiscounted(forecast, rate, values);
    ExplicitIsTotal(forecast, rate, values);
    TerminalTerms(forecast[|forecast| - 1], rate, growth, |forecast|, values[|forecast| - 1], TerminalValue(forecast, rate, growth));
    MakesValues(forecast, rate, growth, values, TerminalValue(forecast, rate, growth));
  }

  lemma DiscountStep(factors: seq<real>, rate: real, i: nat)
    requires Discounts(factors, rate) && i + 1 < |factors|
    ensures factors[i + 1] * (1.0 + rate) == factors[i]
  {
  }

  /** The golden case: flows 10, 11 and 12 at 10% with 3% growth are worth 159.858 to the third decimal. */
  lemma GoldenValuation(v: DcfResult)
    requires Values([10.0, 11.0, 12.0], 0.10, 0.03, v)
    ensures 159.858 < v.enterpriseValue < 159.859 && 27.197 < v.explicitPresentValue < 27.198
  {
    var s := v.presentValues;
    var f :| Discounts(f, 0.10) && Weighs([10.0, 11.0, 12.0], f, s);
    DiscountStep(f, 0.10, 0);
    DiscountStep(f, 0.10, 1);
    TotalOfThree(s);
  }

  lemma TotalOfThree(s: seq<real>)
    requires |s| == 3
    ensures Total(s) == s[0] + s[1] + s[2]
  {
    var a := s[1..];
    var b := a[1..];
    assert a[0] == s[1] && b[0] == s[2] && b[1..] == [];
    assert Total(b) == b[0] + Total(b[1..]);
  }

  // ---------------------------------------------------------------- the grid

  /** Position of (row, column) in a row-major list. */
  function At(columns: nat, row: nat, column: nat): nat {
    row * columns + column
  }

  lemma {:induction false} AtOrder(columns: nat, i: nat, j: nat, row: nat, column: nat)
    requires j < columns && (i < row || (i == row && j < column))
    ensures At(columns, i, j) < At(columns, row, column)
    decreases row
  {
    if i < row {
      assert row * columns == (row - 1) * columns + columns;
      if i < row - 1 { AtOrder(columns, i, j, row - 1, 0); }
    }
  }

  /** (i, j) comes before (row, column) in row-major order. */
  predicate Before(i: nat, j: nat, row: nat, column: nat) {
    i < row || (i == row && j < column)
  }

  /** Value of a cell; zero where the formula refuses. */
  ghost function ValueAt(forecast: seq<real>, rates: seq<real>, growths: seq<real>, i: nat, j: nat): real {
    if i < |rates| && j < |growths| && forecast != [] && Admissible(rates[i], growths[j])
    then EnterpriseValue(forecast, rates[i], growths[j]) else 0.0
  }

  ghost predicate CellOk(forecast: seq<real>, rates: seq<real>, growths: seq<real>, i: nat, j: nat) {
    i < |rates| && j < |growths| && FirstFault(forecast, rates[i], growths[j]).None?
  }

  /** Cell (i, j) has been computed and stored at its row-major position. */
  ghost predicate CellStored(forecast: seq<real>, rates: seq<real>, growths: seq<real>, cells: seq<Cell>, i: nat, j: nat) {
    && CellOk(forecast, rates, growths, i, j) && At(|growths|, i, j) < |cells|
    && cells[At(|growths|, i, j)] == Cell(rates[i], growths[j], ValueAt(forecast, rates, growths, i, j))
  }

  ghost predicate Stored(forecast: seq<real>, rates: seq<real>, growths: seq<real>, cells: seq<Cell>, row: nat, column: nat) {
    forall i: nat, j: nat :: i < |rates| && j < |growths| && Before(i, j, row, column) ==>
      CellStored(forecast, rates, growths, cells, i, j)
  }

  /** Down every column each value is below the one above it, for cells before (row, column). */
  ghost predicate FallsDownColumns(forecast: seq<real>, rates: seq<real>, growths: seq<real>, row: nat, column: nat) {
    forall i: nat, j: nat :: i + 1 < |rates| && j < |growths| && Before(i + 1, j, row, column) ==>
      ValueAt(forecast, rates, growths, i + 1, j) < ValueAt(forecast, rates, growths, i, j)
  }

  /** Along every row each value is above the one to its left, for cells before (row, column). */
  ghost predicate RisesAlongRows(forecast: seq<real>, rates: seq<real>, growths: seq<real>, row: nat, column: nat) {
    forall i: nat, j: nat :: i < |rates| && j + 1 < |growths| && Before(i, j + 1, row, column) ==>
      ValueAt(forecast, rates, growths, i, j) < ValueAt(forecast, rates, growths, i, j + 1)
  }

  ghost predicate GridFaultHolds(forecast: seq<real>, rates: seq<real>, growths: seq<real>, fault: GridFault) {
    match fault
    case MissingAxis => rates == [] || growths == []
    case CellFault(row, column, f) =>
      && row < |rates| && column < |growths| && FirstFault(forecast, rates[row], growths[column]) == Some(f)
      && forall i: nat, j: nat :: i < |rates| && j < |growths| && Before(i, j, row, column) ==> CellOk(forecast, rates, growths, i, j)
  }

  /** What a grid reports. */
  ghost predicate IsGrid(forecast: seq<real>, rates: seq<real>, growths: seq<real>, g: Grid) {
    && rates != [] && growths != []
    && g.rows == |rates| && g.columns == |growths| && |g.cells| == At(|growths|, |rates|, 0)
    && Stored(forecast, rates, growths, g.cells, |rates|, 0)
    && (g.monotonicDiscountRate <==> FallsDownColumns(forecast, rates, growths, |rates|, 0))
    && (g.monotonicTerminalGrowth <==> RisesAlongRows(forecast, rates, growths, |rates|, 0))
  }

  lemma StoredSnoc(forecast: seq<real>, rates: seq<real>, growths: seq<real>, cells: seq<Cell>, row: nat, column: nat, cell: Cell)
    requires row < |rates| && column < |growths| && |cells| == At(|growths|, row, column)
    requires Stored(forecast, rates, growths, cells, row, column) && CellOk(forecast, rates, growths, row, column)
    requires cell == Cell(rates[row], growths[column], ValueAt(forecast, rates, growths, row, column))
    ensures Stored(forecast, rates, growths, cells + [cell], row, column + 1)
  {
    forall i: nat, j: nat | i < |rates| && j < |growths| && Before(i, j, row, column + 1)
      ensures CellStored(forecast, rates, growths, cells + [cell], i, j)
    {
      if Before(i, j, row, column) {
        assert CellStored(forecast, rates, growths, cells, i, j);
      }
    }
  }

  /** Finishing a row is starting the next one. */
  lemma RowEnd(forecast: seq<real>, rates: seq<real>, growths: seq<real>, cells: seq<Cell>, row: nat)
    ensures At(|growths|, row, |growths|) == At(|growths|, row + 1, 0)
    ensures Stored(forecast, rates, growths, cells, row, |growths|) ==> Stored(forecast, rates, growths, cells, row + 1, 0)
    ensures FallsDownColumns(forecast, rates, growths, row, |growths|) <==> FallsDownColumns(forecast, rates, growths, row + 1, 0)
    ensures RisesAlongRows(forecast, rates, growths, row, |growths|) <==> RisesAlongRows(forecast, rates, growths, row + 1, 0)
  {
    forall i: nat, j: nat | j < |growths| ensures Before(i, j, row, |growths|) <==> Before(i, j, row + 1, 0) {}
  }

  /** How one more cell changes the two monotonicity statements. */
  lemma FlagsStep(forecast: seq<real>, rates: seq<real>, growths: seq<real>, row: nat, column: nat)
    requires row < |rates| && column < |growths|
    ensures FallsDownColumns(forecast, rates, growths, row, column + 1) <==>
      FallsDownColumns(forecast, rates, growths, row, column)
      && (row > 0 ==> ValueAt(forecast, rates, growths, row, column) < ValueAt(forecast, rates, growths, row - 1, column))
    ensures RisesAlongRows(forecast, rates, growths, row, column + 1) <==>
      RisesAlongRows(forecast, rates, growths, row, column)
      && (column > 0 ==> ValueAt(forecast, rates, growths, row, column - 1) < ValueAt(forecast, rates, growths, row, column))
  {
    forall i: nat, j: nat ensures Before(i, j, row, column + 1) <==> Before(i, j, row, column) || (i == row && j == column) {}
    if row > 0 { assert Before(row - 1 + 1, column, row, column + 1); }
    if column > 0 { assert Before(row, column - 1 + 1, row, column + 1); }
  }

  method DcfGrid(forecast: seq<real>, rates: seq<real>, growths: seq<real>) returns (r: Result<Grid, GridFault>)
    ensures r.Ok? ==> IsGrid(forecast, rates, growths, r.value)
    ensures r.Err? ==> GridFaultHolds(forecast, rates, growths, r.error)
  {
    if |rates| == 0 || |growths| == 0 { return Err(MissingAxis); }
    var cells: seq<Cell> := [];
    var monotonicRate, monotonicGrowth := true, true;
    for row := 0 to |rates|
      invariant |cells| == At(|growths|, row, 0)
      invariant Stored(forecast, rates, growths, cells, row, 0)
      invariant monotonicRate <==> FallsDownColumns(forecast, rates, growths, row, 0)
      invariant monotonicGrowth <==> RisesAlongRows(forecast, rates, growths, row, 0)
    {
      for column := 0 to |growths|
        invariant |cells| == At(|growths|, row, column)
        invariant Stored(forecast, rates, growths, cells, row, column)
        invariant monotonicRate <==> FallsDownColumns(forecast, rates, growths, row, column)
        invariant monotonicGrowth <==> RisesAlongRows(forecast, rates, growths, row, column)
      {
        var calculation := FcffDcf(forecast, rates[row], growths[column]);
        if calculation.Err? { return Err(CellFault(row, column, calculation.error)); }
        var value := calculation.value.enterpriseValue;
        var cell := Cell(rates[row], growths[column], value);
        StoredSnoc(forecast, rates, growths, cells, row, column, cell);
        FlagsStep(forecast, rates, growths, row, column);
        cells := cells + [cell];
        if row > 0 {
          assert CellStored(forecast, rates, growths, cells, row - 1, column);
          var above := cells[At(|growths|, row - 1, column)];
          if value >= above.enterpriseValue { monotonicRate := false; }
        }
        if column > 0 {
          assert CellStored(forecast, rates, growths, cells, row, column - 1);
          var left := cells[At(|growths|, row, column - 1)];
          if value <= left.enterpriseValue { monotonicGrowth := false; }
        }
      }
      RowEnd(forecast, rates, growths, cells, row);
    }
    return Ok(Grid(|rates|, |growths|, cells, monotonicRate, monotonicGrowth));
  }

  // ---------------------------------------------------------------- what the flags mean

  ghost predicate Ascending(axis: seq<real>) {
    forall i :: 0 <= i < |axis| - 1 ==> axis[i] < axis[i + 1]
  }

  /** Neighbour order gives order between any two cells of a column. */
  lemma {:induction false} FlagOrdersColumn(forecast: seq<real>, rates: seq<real>, growths: seq<real>, g: Grid, i: nat, k: nat, j: nat)
    requires IsGrid(forecast, rates, growths, g) && g.monotonicDiscountRate
    requires i < k < |rates| && j < |growths|
    ensures ValueAt(forecast, rates, growths, k, j) < ValueAt(forecast, rates, growths, i, j)
  {
    assert Before(k - 1 + 1, j, |rates|, 0);
    assert ValueAt(forecast, rates, growths, k - 1 + 1, j) < ValueAt(forecast, rates, growths, k - 1, j);
    if i < k - 1 { FlagOrdersColumn(forecast, rates, growths, g, i, k - 1, j); }
  }

  /** And between any two cells of a row. */
  lemma {:induction false} FlagOrdersRow(forecast: seq<real>, rates: seq<real>, growths: seq<real>, g: Grid, i: nat, j: nat, k: nat)
    requires IsGrid(forecast, rates, growths, g) && g.monotonicTerminalGrowth
    requires i < |rates| && j < k < |growths|
    ensures ValueAt(forecast, rates, growths, i, j) < ValueAt(forecast, rates, growths, i, k)
  {
    assert Before(i, k - 1 + 1, |rates|, 0);
    assert ValueAt(forecast, rates, growths, i, k - 1) < ValueAt(forecast, rates, growths, i, k - 1 + 1);
    if j < k - 1 { FlagOrdersRow(forecast, rates, growths, g, i, j, k - 1); }
  }

  /** One column's comparison of neighbouring rates is the comparison of the rates. */
  lemma NeighbourRates(forecast: seq<real>, low: real, high: real, growth: real)
    requires Healthy(forecast) && Admissible(low, growth) && Admissible(high, growth)
    ensures EnterpriseValue(forecast, high, growth) < EnterpriseValue(forecast, low, growth) <==> low < high
  {
    if low < high { ValueFallsWithRate(forecast, low, high, growth); }
    if high < low { ValueFallsWithRate(forecast, high, low, growth); }
  }

  lemma NeighbourGrowths(forecast: seq<real>, rate: real, low: real, high: real)
    requires Healthy(forecast) && Admissible(rate, low) && Admissible(rate, high)
    ensures EnterpriseValue(forecast, rate, low) < EnterpriseValue(forecast, rate, high) <==> low < high
  {
    if low < high { ValueRisesWithGrowth(forecast, rate, low, high); }
    if high < low { ValueRisesWithGrowth(forecast, rate, high, low); }
  }

  /** For a healthy forecast the discount-rate flag says exactly that the rate axis is strictly ascending. */
  lemma RateFlagIffAscending(forecast: seq<real>, rates: seq<real>, growths: seq<real>, g: Grid)
    requires IsGrid(forecast, rates, growths, g) && Healthy(forecast)
    ensures g.monotonicDiscountRate <==> Ascending(rates)
  {
    forall i: nat, j: nat | i + 1 < |rates| && j < |growths|
      ensures ValueAt(forecast, rates, growths, i + 1, j) < ValueAt(forecast, rates, growths, i, j) <==> rates[i] < rates[i + 1]
    {
      assert CellStored(forecast, rates, growths, g.cells, i, j) && CellStored(forecast, rates, growths, g.cells, i + 1, j);
      NeighbourRates(forecast, rates[i], rates[i + 1], growths[j]);
    }
    if g.monotonicDiscountRate {
      forall i | 0 <= i < |rates| - 1 ensures rates[i] < rates[i + 1] {
        assert Before(i + 1, 0, |rates|, 0);
        assert ValueAt(forecast, rates, growths, i + 1, 0) < ValueAt(forecast, rates, growths, i, 0);
      }
    }
  }

  /** Likewise for the terminal-growth flag and the growth axis. */
  lemma GrowthFlagIffAscending(forecast: seq<real>, rates: seq<real>, growths: seq<real>, g: Grid)
    requires IsGrid(forecast, rates, growths, g) && Healthy(forecast)
    ensures g.monotonicTerminalGrowth <==> Ascending(growths)
  {
    forall i: nat, j: nat | i < |rates| && j + 1 < |growths|
      ensures ValueAt(forecast, rates, growths, i, j) < ValueAt(forecast, rates, growths, i, j + 1) <==> growths[j] < growths[j + 1]
    {
      assert CellStored(forecast, rates, growths, g.cells, i, j) && CellStored(forecast, rates, growths, g.cells, i, j + 1);
      NeighbourGrowths(forecast, rates[i], growths[j], growths[j + 1]);
    }
    if g.monotonicTerminalGrowth {
      forall j | 0 <= j < |growths| - 1 ensures growths[j] < growths[j + 1] {
        assert Before(0, j + 1, |rates|, 0);
        assert ValueAt(forecast, rates, growths, 0, j) < ValueAt(forecast, rates, growths, 0, j + 1);
      }
    }
  }

  // ---------------------------------------------------------------- a grid in terms of its own cells

  /** Row-major: the cell of rate i and growth j. */
  ghost predicate CellIs(forecast: seq<real>, rates: seq<real>, growths: seq<real>, cells: seq<Cell>, i: nat, j: nat)
    requires i < |rates| && j < |growths|
  {
    i * |growths| + j < |cells| &&
    var cell := cells[i * |growths| + j];
    && cell.discountRate == rates[i] && cell.terminalGrowth == growths[j] && rates[i] > -1.0 && rates[i] > growths[j]
    && exists v :: Values(forecast, rates[i], growths[j], v) && v.enterpriseValue == cell.enterpriseValue
  }

  lemma GridCellTerms(forecast: seq<real>, rates: seq<real>, growths: seq<real>, g: Grid, i: nat, j: nat)
    requires IsGrid(forecast, rates, growths, g) && i < |rates| && j < |growths|
    ensures CellIs(forecast, rates, growths, g.cells, i, j)
    ensures At(|growths|, i, j) < |g.cells| && g.cells[i * |growths| + j].enterpriseValue == ValueAt(forecast, rates, growths, i, j)
  {
    assert Before(i, j, |rates|, 0);
    assert CellStored(forecast, rates, growths, g.cells, i, j);
    var rate := rates[i];
    var values := seq(|forecast|, k requires 0 <= k < |forecast| => PresentValue(forecast[k], rate, k + 1));
    SpecifiedValues(forecast, rate, growths[j], values);
  }

  /** The cell under (i, j) is worth less. */
  predicate LessBelow(cells: seq<Cell>, columns: nat, i: nat, j: nat) {
    var above, below := i * columns + j, (i + 1) * columns + j;
    above < |cells| && below < |cells| && cells[below].enterpriseValue < cells[above].enterpriseValue
  }

  /** The cell to the right of (i, j) is worth more. */
  predicate MoreRight(cells: seq<Cell>, columns: nat, i: nat, j: nat) {
    var left := i * columns + j;
    left + 1 < |cells| && cells[left].enterpriseValue < cells[left + 1].enterpriseValue
  }

  lemma LessBelowTerms(forecast: seq<real>, rates: seq<real>, growths: seq<real>, g: Grid, i: nat, j: nat)
    requires IsGrid(forecast, rates, growths, g) && i + 1 < |rates| && j < |growths|
    ensures LessBelow(g.cells, |growths|, i, j) <==> ValueAt(forecast, rates, growths, i + 1, j) < ValueAt(forecast, rates, growths, i, j)
  {
    GridCellTerms(forecast, rates, growths, g, i, j);
    GridCellTerms(forecast, rates, growths, g, i + 1, j);
  }

  lemma MoreRightTerms(forecast: seq<real>, rates: seq<real>, growths: seq<real>, g: Grid, i: nat, j: nat)
    requires IsGrid(forecast, rates, growths, g) && i < |rates| && j + 1 < |growths|
    ensures MoreRight(g.cells, |growths|, i, j) <==> ValueAt(forecast, rates, growths, i, j) < ValueAt(forecast, rates, growths, i, j + 1)
  {
    GridCellTerms(forecast, rates, growths, g, i, j);
    GridCellTerms(forecast, rates, growths, g, i, j + 1);
  }

  /** The grid holds every value of the two axes at its place, and the flags say that neighbours fall down the columns and rise along the rows. */
  lemma GridTerms(forecast: seq<real>, rates: seq<real>, growths: seq<real>, g: Grid)
    requires IsGrid(forecast, rates, growths, g)
    ensures g.rows == |rates| > 0 && g.columns == |growths| > 0 && |g.cells| == |rates| * |growths|
    ensures forall i: nat, j: nat :: i < |rates| && j < |growths| ==> CellIs(forecast, rates, growths, g.cells, i, j)
    ensures g.monotonicDiscountRate <==> ColumnsFall(g.cells, |rates|, |growths|)
    ensures g.monotonicTerminalGrowth <==> RowsRise(g.cells, |rates|, |growths|)
  {
    forall i: nat, j: nat | i < |rates| && j < |growths| ensures CellIs(forecast, rates, growths, g.cells, i, j) {
      GridCellTerms(forecast, rates, growths, g, i, j);
    }
    ColumnsTerms(forecast, rates, growths, g);
    RowsTerms(forecast, rates, growths, g);
  }

  ghost predicate ColumnsFall(cells: seq<Cell>, rows: nat, columns: nat) {
    forall i: nat, j: nat :: i + 1 < rows && j < columns ==> LessBelow(cells, columns, i, j)
  }

  ghost predicate RowsRise(cells: seq<Cell>, rows: nat, columns: nat) {
    forall i: nat, j: nat :: i < rows && j + 1 < columns ==> MoreRight(cells, columns, i, j)
  }

  lemma ColumnsTerms(forecast: seq<real>, rates: seq<real>, growths: seq<real>, g: Grid)
    requires IsGrid(forecast, rates, growths, g)
    ensures FallsDownColumns(forecast, rates, growths, |rates|, 0) <==> ColumnsFall(g.cells, |rates|, |growths|)
  {
    if FallsDownColumns(forecast, rates, growths, |rates|, 0) {
      forall i: nat, j: nat | i + 1 < |rates| && j < |growths| ensures LessBelow(g.cells, |growths|, i, j) {
        assert Before(i + 1, j, |rates|, 0);
        LessBelowTerms(forecast, rates, growths, g, i, j);
      }
    }
    if ColumnsFall(g.cells, |rates|, |growths|) {
      forall i: nat, j: nat | i + 1 < |rates| && j < |growths| && Before(i + 1, j, |rates|, 0)
        ensures ValueAt(forecast, rates, growths, i + 1, j) < ValueAt(forecast, rates, growths, i, j)
      {
        assert LessBelow(g.cells, |growths|, i, j);
        LessBelowTerms(forecast, rates, growths, g, i, j);
      }
    }
  }

  lemma RowsTerms(forecast: seq<real>, rates: seq<real>, growths: seq<real>, g: Grid)
    requires IsGrid(forecast, rates, growths, g)
    ensures RisesAlongRows(forecast, rates, growths, |rates|, 0) <==> RowsRise(g.cells, |rates|, |growths|)
  {
    if RisesAlongRows(forecast, rates, growths, |rates|, 0) {
      forall i: nat, j: nat | i < |rates| && j + 1 < |growths| ensures MoreRight(g.cells, |growths|, i, j) {
        assert Before(i, j + 1, |rates|, 0);
        MoreRightTerms(forecast, rates, growths, g, i, j);
      }
    }
    if RowsRise(g.cells, |rates|, |growths|) {
      forall i: nat, j: nat | i < |rates| && j + 1 < |growths| && Before(i, j + 1, |rates|, 0)
        ensures ValueAt(forecast, rates, growths, i, j) < ValueAt(forecast, rates, growths, i, j + 1)
      {
        assert MoreRight(g.cells, |growths|, i, j);
        MoreRightTerms(forecast, rates, growths, g, i, j);
      }
    }
  }

  predicate Refusable(forecast: seq<real>, rate: real, growth: real) {
    forecast == [] || rate <= -1.0 || rate <= growth
  }

  /** A grid is refused for a missing axis, or at the first cell whose rate and growth the valuation refuses. */
  lemma GridFaultTerms(forecast: seq<real>, rates: seq<real>, growths: seq<real>, fault: GridFault)
    requires GridFaultHolds(forecast, rates, growths, fault)
    ensures fault.MissingAxis? ==> rates == [] || growths == []
    ensures fault.CellFault? ==>
      fault.row < |rates| && fault.column < |growths| && Refusable(forecast, rates[fault.row], growths[fault.column])
    ensures fault.CellFault? ==> forall k: nat, l: nat ::
      k < |rates| && l < |growths| && (k < fault.row || (k == fault.row && l < fault.column)) ==> !Refusable(forecast, rates[k], growths[l])
  {
    if fault.CellFault? {
      forall k: nat, l: nat | k < |rates| && l < |growths| && (k < fault.row || (k == fault.row && l < fault.column))
        ensures !Refusable(forecast, rates[k], growths[l])
      {
        assert Before(k, l, fault.row, fault.column);
        assert CellOk(forecast, rates, growths, k, l);
      }
    }
  }
}
