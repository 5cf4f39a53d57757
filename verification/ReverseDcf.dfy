/** The growth rate implied by an enterprise value: a bisection over the valuation of a level forecast. */
module ReverseDcf {
  import opened Common
  import opened Dcf
  import opened Bisection

  const LOWEST_GROWTH := -0.99
  const GAP := 0.0000000001

  datatype ReverseFault = BadCounts | BadTarget | Valuation(fault: DcfFault)

  datatype Reverse = Reverse(impliedGrowth: real, iterations: nat, converged: bool)

  /** The same flow in each of n years. */
  function Level(base: real, n: nat): (forecast: seq<real>)
    ensures |forecast| == n && forall i :: 0 <= i < n ==> forecast[i] == base
  {
    seq(n, _ => base)
  }

  /** The value at a growth rate; zero where the formula refuses. */
  function Value(base: real, rate: real, n: nat): real -> real {
    growth => if n > 0 && Admissible(rate, growth) then EnterpriseValue(Level(base, n), rate, growth) else 0.0
  }

  function Start(rate: real): Interval {
    Interval(LOWEST_GROWTH, rate - GAP)
  }

  /** Round k, counted from 0, values its growth rate without a refusal and misses the target. */
  ghost predicate Misses(target: real, base: real, rate: real, n: nat, tolerance: real, k: nat) {
    var v := Value(base, rate, n);
    var growth := Tried(v, target, Start(rate), k);
    FirstFault(Level(base, n), rate, growth).None? && !Within(v, target, tolerance, growth)
  }

  ghost predicate MissesBefore(target: real, base: real, rate: real, n: nat, tolerance: real, k: nat) {
    forall j :: 0 <= j < k ==> Misses(target, base, rate, n, tolerance, j)
  }

  /** What the search reports: its first success, or that there was none in so many rounds. */
  ghost predicate Reports(target: real, base: real, rate: real, n: nat, tolerance: real, max: nat, r: Reverse) {
    if r.converged then
      && 1 <= r.iterations <= max && MissesBefore(target, base, rate, n, tolerance, r.iterations - 1)
      && r.impliedGrowth == Tried(Value(base, rate, n), target, Start(rate), r.iterations - 1)
      && Admissible(rate, r.impliedGrowth) && Within(Value(base, rate, n), target, tolerance, r.impliedGrowth)
    else r == Reverse(0.0, max, false) && MissesBefore(target, base, rate, n, tolerance, max)
  }

  ghost predicate FaultHolds(target: real, base: real, rate: real, years: int, tolerance: real, max: int, fault: ReverseFault) {
    match fault
    case BadCounts => years < 1 || max < 1
    case BadTarget => years >= 1 && max >= 1 && target <= 0.0
    case Valuation(f) =>
      && years >= 1 && target > 0.0
      && exists k :: 0 <= k < max && MissesBefore(target, base, rate, years, tolerance, k)
           && FirstFault(Level(base, years), rate, Tried(Value(base, rate, years), target, Start(rate), k)) == Some(f)
  }

  /** ReverseDCF */
  method ReverseDcf(target: real, base: real, rate: real, years: int, tolerance: real, maxIterations: int)
    returns (r: Result<Reverse, ReverseFault>)
    ensures r.Err? ==> FaultHolds(target, base, rate, years, tolerance, maxIterations, r.error)
    ensures r.Ok? ==> years >= 1 && maxIterations >= 1 && target > 0.0
    ensures r.Ok? ==> Reports(target, base, rate, years, tolerance, maxIterations, r.value)
  {
    if years < 1 || maxIterations < 1 { return Err(BadCounts); }
    if target <= 0.0 { return Err(BadTarget); }
    var low, high := LOWEST_GROWTH, rate - GAP;
    var forecast := Level(base, years);
    ghost var v := Value(base, rate, years);
    for iteration := 1 to maxIterations + 1
      invariant Interval(low, high) == Bracket(v, target, Start(rate), iteration - 1)
      invariant MissesBefore(target, base, rate, years, tolerance, iteration - 1)
    {
      var mid := (low + high) / 2.0;
      assert mid == Tried(v, target, Start(rate), iteration - 1);
      var result := FcffDcf(forecast, rate, mid);
      if result.Err? { return Err(Valuation(result.error)); }
      var difference := result.value.enterpriseValue - target;
      assert difference == v(mid) - target;
      if (if difference < 0.0 then -difference else difference) <= tolerance {
        return Ok(Reverse(mid, iteration, true));
      }
      assert Misses(target, base, rate, years, tolerance, iteration - 1);
      if difference > 0.0 { high := mid; } else { low := mid; }
    }
    return Ok(Reverse(0.0, maxIterations, false));
  }

  // ---------------------------------------------------------------- refusals

  /** Above the lowest growth rate no round is refused. */
  lemma NoRoundRefused(base: real, rate: real, n: nat, target: real, k: nat)
    requires n > 0 && rate > LOWEST_GROWTH
    ensures Admissible(rate, Tried(Value(base, rate, n), target, Start(rate), k))
  {
    TriedIsInside(Value(base, rate, n), target, Start(rate), k);
  }

  /** Where the gap already lies below the lowest growth rate the first round is refused. */
  lemma FirstRoundRefused(base: real, rate: real, n: nat, target: real)
    requires n > 0
    ensures rate <= LOWEST_GROWTH - GAP <==> !Admissible(rate, Tried(Value(base, rate, n), target, Start(rate), 0))
  {
  }

  // ---------------------------------------------------------------- which way the value goes

  /** The search goes the right way for a positive flow over an interval in order, and for a negative one over a swapped interval. */
  predicate RightWay(base: real, rate: real) {
    || (base > 0.0 && rate > LOWEST_GROWTH + GAP)
    || (base < 0.0 && rate < LOWEST_GROWTH + GAP)
  }

  lemma ValueRises(base: real, rate: real, n: nat, x: real, y: real)
    requires n > 0 && rate > -1.0 && x < y < rate
    ensures base > 0.0 ==> Value(base, rate, n)(x) < Value(base, rate, n)(y)
    ensures base >= 0.0 ==> Value(base, rate, n)(x) <= Value(base, rate, n)(y)
    ensures base < 0.0 ==> Value(base, rate, n)(x) > Value(base, rate, n)(y)
    ensures base <= 0.0 ==> Value(base, rate, n)(x) >= Value(base, rate, n)(y)
  {
    var forecast := Level(base, n);
    EnterpriseForm(forecast, rate, x);
    EnterpriseForm(forecast, rate, y);
    DenominatorOrder(rate - y, 1.0 + rate, rate - x, 1.0 + rate, n);
    var small, large := Denominator(rate - y, 1.0 + rate, n), Denominator(rate - x, 1.0 + rate, n);
    if base >= 0.0 { QuotientOrder(base, small, large); }
    if base <= 0.0 {
      QuotientOrder(-base, small, large);
      NegativeQuotient(base, small);
      NegativeQuotient(base, large);
    }
  }

  lemma NegativeQuotient(a: real, d: real)
    requires d != 0.0
    ensures -a / d == -(a / d)
  {
    IsQuotient(-a, d, -(a / d));
  }

  lemma RightWayAscends(base: real, rate: real, n: nat)
    requires n > 0 && rate > LOWEST_GROWTH && RightWay(base, rate)
    ensures Ascends(Value(base, rate, n), Start(rate)) && Start(rate).low != Start(rate).high
  {
    forall x, y | Toward(Start(rate), x, y) && x != y ensures Value(base, rate, n)(x) < Value(base, rate, n)(y) {
      if x < y { ValueRises(base, rate, n, x, y); } else { ValueRises(base, rate, n, y, x); }
    }
  }

  lemma WrongWaySinks(base: real, rate: real, n: nat)
    requires n > 0 && rate > LOWEST_GROWTH && !RightWay(base, rate)
    ensures Sinks(Value(base, rate, n), Start(rate))
  {
    forall x, y | Toward(Start(rate), x, y) ensures Value(base, rate, n)(y) <= Value(base, rate, n)(x) {
      if x < y { ValueRises(base, rate, n, x, y); } else if y < x { ValueRises(base, rate, n, y, x); }
    }
  }

  // ---------------------------------------------------------------- how steadily the value goes

  /** How far a / (s * p) moves when s does, at least margin away from zero. */
  function Slope(a: real, p: real, margin: real): real
    requires p > 0.0 && margin > 0.0
  {
    ProductPositive(margin, p);
    a / (margin * p) / margin
  }

  /** q and u are the quotients of a by large * p and small * p, cap bounds q, and slope is cap / margin. */
  lemma QuotientMoves(margin: real, small: real, large: real, d: real, q: real, u: real, cap: real, slope: real)
    requires 0.0 < margin <= small && d == large - small > 0.0
    requires q * large == u * small && 0.0 <= q <= cap && q <= u && slope * margin == cap
    ensures u - q <= slope * d
  {
    var rise := u - q;
    assert rise * small == q * d;
    assert (cap - q) * d >= 0.0;
    assert rise * (small - margin) >= 0.0;
    var bound := slope * d;
    Regrouped(slope, d, margin, cap, bound);
    FactorOrder(rise, bound, margin, rise * margin, bound * margin);
  }

  lemma Regrouped(slope: real, d: real, margin: real, cap: real, bound: real)
    requires slope * margin == cap && bound == slope * d
    ensures bound * margin == cap * d
  {
    assert slope * d * margin == (slope * margin) * d;
  }

  lemma SameProduct(q: real, u: real, small: real, large: real, p: real, a: real)
    requires p > 0.0 && q * (large * p) == a && u * (small * p) == a
    ensures q * large == u * small
  {
    assert q * (large * p) == p * (q * large) && u * (small * p) == p * (u * small);
    CancelFactor(p, q * large, u * small);
  }

  /** Of two factors with one product, the one with the smaller cofactor is the greater. */
  lemma SmallerCofactor(q: real, u: real, small: real, large: real)
    requires 0.0 < small <= large && q >= 0.0 && q * large == u * small
    ensures q <= u
  {
    if q > 0.0 && small < large { ProductPositive(q, large - small); }
    FactorOrder(q, u, small, q * small, u * small);
  }

  /** The same without a division: q, u and cap are what is left of a after large * p, small * p and margin * p. */
  lemma FactorsMove(a: real, p: real, margin: real, small: real, large: real, d: real, q: real, u: real, cap: real, slope: real)
    requires p > 0.0 && 0.0 < margin <= small && d == large - small > 0.0 && q >= 0.0
    requires q * (large * p) == a && u * (small * p) == a && cap * (margin * p) == a && slope * margin == cap
    ensures 0.0 <= u - q <= slope * d
  {
    SameProduct(q, u, small, large, p, a);
    SameProduct(q, cap, margin, large, p, a);
    SmallerCofactor(q, u, small, large);
    SmallerCofactor(q, cap, margin, large);
    QuotientMoves(margin, small, large, d, q, u, cap, slope);
  }

  lemma QuotientMeans(a: real, d: real)
    requires d > 0.0 && a >= 0.0
    ensures (a / d) * d == a && a / d >= 0.0
  {
    FactorSign(a / d, d, a);
  }

  /** The quotients of a level flow by s * p move no faster than the slope. */
  lemma FlowQuotientMoves(a: real, p: real, margin: real, small: real, large: real, d: real)
    requires a >= 0.0 && p > 0.0 && 0.0 < margin <= small && d == large - small > 0.0
    ensures 0.0 < small * p && 0.0 < large * p
    ensures 0.0 <= a / (small * p) - a / (large * p) <= Slope(a, p, margin) * d
  {
    ProductPositive(margin, p);
    ProductPositive(small, p);
    ProductPositive(large, p);
    QuotientMeans(a, large * p);
    QuotientMeans(a, small * p);
    QuotientMeans(a, margin * p);
    QuotientMeans(a / (margin * p), margin);
    FactorsMove(a, p, margin, small, large, d, a / (large * p), a / (small * p), a / (margin * p), Slope(a, p, margin));
  }

  /** The term of the folded valuation that depends on growth; spread is rate minus growth. */
  function Share(base: real, spread: real, p: real): real
    requires spread > 0.0 && p > 0.0
  {
    ProductPositive(spread, p);
    base / (spread * p)
  }

  function Magnitude(x: real): (r: real)
    ensures r >= 0.0 && (r == 0.0 <==> x == 0.0)
  {
    if x >= 0.0 then x else -x
  }

  lemma LevelQuotientMoves(base: real, p: real, margin: real, small: real, large: real, d: real)
    requires p > 0.0 && 0.0 < margin <= small && d == large - small > 0.0
    ensures Distance(Share(base, large, p), Share(base, small, p)) <= Reach(Slope(Magnitude(base), p, margin), d)
  {
    FlowQuotientMoves(Magnitude(base), p, margin, small, large, d);
    if base < 0.0 {
      NegativeQuotient(base, small * p);
      NegativeQuotient(base, large * p);
    }
  }

  /** How near the formula's pole the search can come. */
  function Margin(rate: real): (margin: real)
    requires rate > LOWEST_GROWTH
    ensures margin > 0.0
  {
    if rate > LOWEST_GROWTH + GAP then GAP else rate - LOWEST_GROWTH
  }

  function LevelSlope(base: real, rate: real, n: nat): real
    requires n > 0 && rate > LOWEST_GROWTH
  {
    PowPositive(1.0 + rate, n - 1);
    Slope(Magnitude(base), Pow(1.0 + rate, n - 1), Margin(rate))
  }

  lemma LevelForm(base: real, rate: real, n: nat, growth: real)
    requires n > 0 && Admissible(rate, growth)
    ensures Pow(1.0 + rate, n - 1) > 0.0
    ensures Value(base, rate, n)(growth)
         == ExplicitValue(Level(base, n)[..n - 1], rate) + Share(base, rate - growth, Pow(1.0 + rate, n - 1))
  {
    EnterpriseForm(Level(base, n), rate, growth);
    PowPositive(1.0 + rate, n - 1);
    ShareIs(base, rate - growth, Pow(1.0 + rate, n - 1), Denominator(rate - growth, 1.0 + rate, n));
  }

  lemma ShareIs(base: real, spread: real, p: real, denominator: real)
    requires spread > 0.0 && p > 0.0 && denominator == spread * p
    ensures denominator > 0.0 && Share(base, spread, p) == base / denominator
  {
    ProductPositive(spread, p);
  }

  lemma SameOffset(offset: real, a: real, b: real)
    ensures Distance(offset + a, offset + b) == Distance(a, b)
  {
  }

  lemma ValueMoves(base: real, rate: real, n: nat, x: real, y: real, d: real)
    requires n > 0 && rate > LOWEST_GROWTH && d == y - x > 0.0 && Margin(rate) <= rate - y
    ensures Distance(Value(base, rate, n)(x), Value(base, rate, n)(y)) <= Reach(LevelSlope(base, rate, n), d)
  {
    var p := Pow(1.0 + rate, n - 1);
    PowPositive(1.0 + rate, n - 1);
    LevelForm(base, rate, n, x);
    LevelForm(base, rate, n, y);
    LevelQuotientMoves(base, p, Margin(rate), rate - y, rate - x, d);
    SameOffset(ExplicitValue(Level(base, n)[..n - 1], rate), Share(base, rate - x, p), Share(base, rate - y, p));
  }

  lemma SlopePositive(a: real, p: real, margin: real)
    requires a > 0.0 && p > 0.0 && margin > 0.0
    ensures Slope(a, p, margin) > 0.0
  {
    ProductPositive(margin, p);
    var mp := margin * p;
    QuotientMeans(a, mp);
    FactorSign(a / mp, mp, a);
    QuotientMeans(a / mp, margin);
    FactorSign(Slope(a, p, margin), margin, a / mp);
  }

  lemma InsideMargin(rate: real, x: real)
    requires rate > LOWEST_GROWTH && Inside(Start(rate), x)
    ensures Margin(rate) <= rate - x
  {
  }

  lemma ValueMovesInside(base: real, rate: real, n: nat, slope: real, x: real, y: real)
    requires n > 0 && rate > LOWEST_GROWTH && slope == LevelSlope(base, rate, n)
    requires Inside(Start(rate), x) && Inside(Start(rate), y) && x != y
    ensures Distance(Value(base, rate, n)(x), Value(base, rate, n)(y)) <= Reach(slope, Distance(x, y))
  {
    InsideMargin(rate, x);
    InsideMargin(rate, y);
    if x < y { ValueMoves(base, rate, n, x, y, Distance(x, y)); } else { ValueMoves(base, rate, n, y, x, Distance(x, y)); }
  }

  lemma SomeSlope(base: real, rate: real, n: nat) returns (slope: real)
    requires n > 0 && rate > LOWEST_GROWTH && base != 0.0
    ensures slope > 0.0 && Steady(Value(base, rate, n), Start(rate), slope)
  {
    slope := LevelSlope(base, rate, n);
    PowPositive(1.0 + rate, n - 1);
    SlopePositive(Magnitude(base), Pow(1.0 + rate, n - 1), Margin(rate));
    forall x, y | Toward(Start(rate), x, y) && x != y
      ensures Distance(Value(base, rate, n)(x), Value(base, rate, n)(y)) <= Reach(slope, Distance(x, y))
    {
      ValueMovesInside(base, rate, n, slope, x, y);
    }
  }

  // ---------------------------------------------------------------- when the search succeeds

  /** Some number of rounds brings a success. */
  ghost predicate Succeeds(target: real, base: real, rate: real, n: nat, tolerance: real) {
    exists max: nat, r: Reverse :: r.converged && Reports(target, base, rate, n, tolerance, max, r)
  }

  lemma FirstSuccess(target: real, base: real, rate: real, n: nat, tolerance: real, k: nat) returns (first: nat)
    requires n > 0 && rate > LOWEST_GROWTH
    requires Within(Value(base, rate, n), target, tolerance, Tried(Value(base, rate, n), target, Start(rate), k))
    ensures first <= k && MissesBefore(target, base, rate, n, tolerance, first)
    ensures Within(Value(base, rate, n), target, tolerance, Tried(Value(base, rate, n), target, Start(rate), first))
  {
    var v := Value(base, rate, n);
    first := 0;
    while !Within(v, target, tolerance, Tried(v, target, Start(rate), first))
      invariant first <= k && MissesBefore(target, base, rate, n, tolerance, first)
      decreases k - first
    {
      NoRoundRefused(base, rate, n, target, first);
      first := first + 1;
    }
  }

  lemma SucceedsIffConverges(target: real, base: real, rate: real, n: nat, tolerance: real)
    requires n > 0 && rate > LOWEST_GROWTH
    ensures Succeeds(target, base, rate, n, tolerance) <==> Converges(Value(base, rate, n), target, tolerance, Start(rate))
  {
    var v := Value(base, rate, n);
    if Converges(v, target, tolerance, Start(rate)) {
      var k: nat :| Within(v, target, tolerance, Tried(v, target, Start(rate), k));
      var first := FirstSuccess(target, base, rate, n, tolerance, k);
      NoRoundRefused(base, rate, n, target, first);
      assert Reports(target, base, rate, n, tolerance, first + 1, Reverse(Tried(v, target, Start(rate), first), first + 1, true));
    }
  }

  /** Going the right way, enough rounds succeed exactly when some growth between the ends is within the tolerance. */
  lemma SucceedsIffWithinReach(target: real, base: real, rate: real, n: nat, tolerance: real)
    requires n > 0 && rate > LOWEST_GROWTH && RightWay(base, rate) && tolerance > 0.0
    ensures Succeeds(target, base, rate, n, tolerance)
      <==> exists growth :: Between(Start(rate), growth) && Within(Value(base, rate, n), target, tolerance, growth)
  {
    var slope := SomeSlope(base, rate, n);
    RightWayAscends(base, rate, n);
    RightWayConvergesIff(Value(base, rate, n), target, tolerance, Start(rate), slope);
    SucceedsIffConverges(target, base, rate, n, tolerance);
  }

  /** Going the wrong way, more rounds never help: the search succeeds in its first round or not at all. */
  lemma SucceedsIffAtOnce(target: real, base: real, rate: real, n: nat, tolerance: real)
    requires n > 0 && rate > LOWEST_GROWTH && !RightWay(base, rate)
    ensures Succeeds(target, base, rate, n, tolerance)
      <==> Within(Value(base, rate, n), target, tolerance, Middle(Start(rate)))
  {
    WrongWaySinks(base, rate, n);
    WrongWayConvergesIff(Value(base, rate, n), target, tolerance, Start(rate));
    SucceedsIffConverges(target, base, rate, n, tolerance);
  }

  /** A success after so many rounds is as near the true implied growth as that many halvings of the interval. */
  lemma ImpliedGrowthIsNear(target: real, base: real, rate: real, n: nat, tolerance: real, max: nat, r: Reverse, growth: real)
    requires n > 0 && rate > LOWEST_GROWTH && RightWay(base, rate)
    requires Reports(target, base, rate, n, tolerance, max, r) && r.converged
    requires Inside(Start(rate), growth) && Value(base, rate, n)(growth) == target
    ensures Distance(r.impliedGrowth, growth) <= Halved(Width(Start(rate)), r.iterations)
  {
    RightWayAscends(base, rate, n);
    TriedIsNear(Value(base, rate, n), target, Start(rate), r.iterations - 1, growth);
  }

  lemma {:induction false} ExplicitValueNotPositive(forecast: seq<real>, rate: real)
    requires rate > -1.0 && forall i :: 0 <= i < |forecast| ==> forecast[i] <= 0.0
    ensures ExplicitValue(forecast, rate) <= 0.0
  {
    if forecast != [] {
      var n := |forecast|;
      ExplicitValueNotPositive(forecast[..n - 1], rate);
      PowPositive(1.0 + rate, n);
      QuotientNotPositive(forecast[n - 1], Pow(1.0 + rate, n));
    }
  }

  lemma QuotientNotPositive(a: real, d: real)
    requires a <= 0.0 && d > 0.0
    ensures a / d <= 0.0
  {
    var q := a / d;
    assert q * d == a;
    FactorSign(q, d, a);
  }

  /** A flow that is not positive has no implied growth rate: nothing the formula accepts reaches a positive target. */
  lemma NoImpliedGrowth(base: real, rate: real, n: nat, growth: real)
    requires n > 0 && base <= 0.0 && Admissible(rate, growth)
    ensures Value(base, rate, n)(growth) <= 0.0
  {
    var forecast := Level(base, n);
    EnterpriseForm(forecast, rate, growth);
    ExplicitValueNotPositive(forecast[..n - 1], rate);
    QuotientNotPositive(base, Denominator(rate - growth, 1.0 + rate, n));
  }

  // ---------------------------------------------------------------- in terms of the valuation

  /** The search starts between -0.99 and a ten-billionth below the discount rate. */
  lemma StartTerms(rate: real)
    ensures Start(rate).low == -0.99 && Start(rate).high == rate - 0.0000000001
  {
  }

  /** The growth that is found gives a valuation of the level forecast within the tolerance of the target. */
  lemma FoundTerms(target: real, base: real, rate: real, n: nat, tolerance: real, max: nat, r: Reverse)
    requires n > 0 && Reports(target, base, rate, n, tolerance, max, r) && r.converged
    ensures rate > -1.0 && rate > r.impliedGrowth && 1 <= r.iterations <= max
    ensures exists v :: Values(seq(n, _ => base), rate, r.impliedGrowth, v) && -tolerance <= v.enterpriseValue - target <= tolerance
  {
    var forecast := Level(base, n);
    var values := seq(n, k requires 0 <= k < n => PresentValue(forecast[k], rate, k + 1));
    SpecifiedValues(forecast, rate, r.impliedGrowth, values);
    assert forecast == seq(n, _ => base);
  }
}
