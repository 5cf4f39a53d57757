/**
 * Bisection of a real function on an interval, as the code does it: the upper end moves when the value in the
 * middle is above the target, the lower end otherwise. An interval may be written with its ends swapped.
 */
module Bisection {

  datatype Interval = Interval(low: real, high: real)

  function Middle(b: Interval): real {
    (b.low + b.high) / 2.0
  }

  function Narrow(v: real -> real, target: real, b: Interval): Interval {
    if v(Middle(b)) > target then Interval(b.low, Middle(b)) else Interval(Middle(b), b.high)
  }

  /** The interval after k rounds. */
  function Bracket(v: real -> real, target: real, b: Interval, k: nat): Interval {
    if k == 0 then b else Narrow(v, target, Bracket(v, target, b, k - 1))
  }

  /** What is tried after k rounds. */
  function Tried(v: real -> real, target: real, b: Interval, k: nat): real {
    Middle(Bracket(v, target, b, k))
  }

  predicate Within(v: real -> real, target: real, tolerance: real, x: real) {
    -tolerance <= v(x) - target <= tolerance
  }

  // ---------------------------------------------------------------- orientation

  /** x and y lie on the way from the lower to the upper end, x no later than y. */
  predicate Toward(b: Interval, x: real, y: real) {
    if b.low <= b.high then b.low <= x <= y <= b.high else b.high <= y <= x <= b.low
  }

  predicate Inside(b: Interval, x: real) {
    Toward(b, x, x)
  }

  /** Inside, and neither end. */
  predicate Between(b: Interval, x: real) {
    Inside(b, x) && x != b.low && x != b.high
  }

  function Width(b: Interval): (w: real)
    ensures w >= 0.0 && (w == 0.0 <==> b.low == b.high)
  {
    if b.low <= b.high then b.high - b.low else b.low - b.high
  }

  function Distance(x: real, y: real): real {
    if x <= y then y - x else x - y
  }

  /** The value grows on the way from the lower to the upper end. */
  ghost predicate Ascends(v: real -> real, b: Interval) {
    forall x, y :: Toward(b, x, y) && x != y ==> v(x) < v(y)
  }

  /** The value never grows on that way. */
  ghost predicate Sinks(v: real -> real, b: Interval) {
    forall x, y :: Toward(b, x, y) ==> v(y) <= v(x)
  }

  /** A width after k halvings. */
  function Halved(w: real, k: nat): real {
    if k == 0 then w else Halved(w, k - 1) / 2.0
  }

  lemma NarrowHalves(v: real -> real, target: real, c: Interval)
    ensures var d := Narrow(v, target, c); Toward(c, d.low, d.high) && Width(d) == Width(c) / 2.0
  {
  }

  lemma TowardWithin(b: Interval, c: Interval, x: real, y: real)
    requires Toward(b, c.low, c.high) && Toward(c, x, y)
    ensures Toward(b, x, y)
  {
  }

  /** Each round keeps the orientation and halves the width. */
  lemma {:induction false} BracketHalves(v: real -> real, target: real, b: Interval, k: nat)
    ensures var c := Bracket(v, target, b, k); Toward(b, c.low, c.high) && Width(c) == Halved(Width(b), k)
  {
    if k > 0 {
      var c, d := Bracket(v, target, b, k - 1), Bracket(v, target, b, k);
      BracketHalves(v, target, b, k - 1);
      NarrowHalves(v, target, c);
      TowardWithin(b, c, d.low, d.high);
    }
  }

  lemma {:induction false} HalvedPositive(w: real, k: nat)
    requires w > 0.0
    ensures Halved(w, k) > 0.0
  {
    if k > 0 { HalvedPositive(w, k - 1); }
  }

  lemma TriedIsInside(v: real -> real, target: real, b: Interval, k: nat)
    ensures Inside(b, Tried(v, target, b, k))
    ensures b.low != b.high ==> Between(b, Tried(v, target, b, k))
  {
    var c := Bracket(v, target, b, k);
    BracketHalves(v, target, b, k);
    if b.low != b.high { HalvedPositive(Width(b), k); }
  }

  // ---------------------------------------------------------------- searching the right way

  /** What has the target's value is never lost. */
  lemma {:induction false} SolutionStays(v: real -> real, target: real, b: Interval, k: nat, x: real)
    requires Ascends(v, b) && Inside(b, x) && v(x) == target
    ensures Inside(Bracket(v, target, b, k), x)
  {
    if k > 0 {
      SolutionStays(v, target, b, k - 1, x);
      BracketHalves(v, target, b, k - 1);
      Sided(v, b, Tried(v, target, b, k - 1), x);
    }
  }

  /** Of two points inside, the one with the greater value comes later. */
  lemma Sided(v: real -> real, b: Interval, x: real, y: real)
    requires Ascends(v, b) && Inside(b, x) && Inside(b, y)
    ensures v(x) > v(y) ==> Toward(b, y, x)
    ensures v(x) <= v(y) ==> Toward(b, x, y)
  {
    assert Toward(b, x, y) || Toward(b, y, x);
  }

  /** What is tried after k rounds is within half of the k-th bracket of the solution. */
  lemma TriedIsNear(v: real -> real, target: real, b: Interval, k: nat, x: real)
    requires Ascends(v, b) && Inside(b, x) && v(x) == target
    ensures Distance(Tried(v, target, b, k), x) <= Halved(Width(b), k + 1)
  {
    SolutionStays(v, target, b, k, x);
    BracketHalves(v, target, b, k);
    var c := Bracket(v, target, b, k);
    Spans(c, x, x);
  }

  /** Points between the ends are no further apart than the ends, and half as far from the middle. */
  lemma Spans(c: Interval, x: real, y: real)
    requires Inside(c, x) && Inside(c, y)
    ensures Distance(x, y) <= Width(c) && 2.0 * Distance(Middle(c), x) <= Width(c)
  {
  }

  /** While nothing tried is within the tolerance, nothing that is within it is lost. */
  lemma {:induction false} WithinStays(v: real -> real, target: real, tolerance: real, b: Interval, k: nat, x: real)
    requires Ascends(v, b) && Inside(b, x) && Within(v, target, tolerance, x)
    requires forall j :: 0 <= j < k ==> !Within(v, target, tolerance, Tried(v, target, b, j))
    ensures Inside(Bracket(v, target, b, k), x)
  {
    if k > 0 {
      WithinStays(v, target, tolerance, b, k - 1, x);
      BracketHalves(v, target, b, k - 1);
      var m := Tried(v, target, b, k - 1);
      assert !Within(v, target, tolerance, m);
      Sided(v, b, m, x);
    }
  }

  ghost predicate Converges(v: real -> real, target: real, tolerance: real, b: Interval) {
    exists k: nat :: Within(v, target, tolerance, Tried(v, target, b, k))
  }

  /** Two different points within the tolerance cannot both stay in ever smaller brackets. */
  lemma TwoWithinConverge(v: real -> real, target: real, tolerance: real, b: Interval, x: real, y: real)
    requires Ascends(v, b) && Inside(b, x) && Inside(b, y) && x != y
    requires Within(v, target, tolerance, x) && Within(v, target, tolerance, y)
    ensures Converges(v, target, tolerance, b)
  {
    if !Converges(v, target, tolerance, b) {
      var k := Enough(Width(b), Distance(x, y));
      WithinStays(v, target, tolerance, b, k, x);
      WithinStays(v, target, tolerance, b, k, y);
      BracketHalves(v, target, b, k);
      Spans(Bracket(v, target, b, k), x, y);
    }
  }

  lemma {:induction false} HalvedLater(w: real, k: nat)
    ensures Halved(w, k + 1) == Halved(w / 2.0, k)
  {
    if k > 0 { HalvedLater(w, k - 1); }
  }

  /** Enough halvings make any width smaller than d. */
  lemma {:induction false} Enough(w: real, d: real) returns (k: nat)
    requires w >= 0.0 && d > 0.0
    ensures Halved(w, k) < d
    decreases (w / d).Floor
  {
    if w < d {
      k := 0;
    } else {
      HalfQuotient(w, d);
      k := Enough(w / 2.0, d);
      HalvedLater(w, k);
      k := k + 1;
    }
  }

  lemma Fraction(q: real, d: real)
    requires q < 1.0 && d > 0.0
    ensures q * d < d
  {
    assert (1.0 - q) * d > 0.0;
  }

  lemma HalfQuotient(w: real, d: real)
    requires d > 0.0 && w >= d
    ensures 0 <= (w / 2.0 / d).Floor < (w / d).Floor
  {
    var q := w / d;
    assert q * d == w;
    if q < 1.0 { Fraction(q, d); }
    assert w / 2.0 / d == q / 2.0;
  }

  function Reach(slope: real, distance: real): real {
    slope * distance
  }

  /** The value changes by no more than slope times the distance. */
  ghost predicate Steady(v: real -> real, b: Interval, slope: real) {
    forall x, y :: Toward(b, x, y) && x != y ==> Distance(v(x), v(y)) <= Reach(slope, Distance(x, y))
  }

  /** Beside a point within the tolerance there is a second one. */
  lemma SecondWithin(v: real -> real, target: real, tolerance: real, b: Interval, slope: real, x: real) returns (y: real)
    requires Ascends(v, b) && Steady(v, b, slope) && slope > 0.0 && tolerance > 0.0
    requires Between(b, x) && Within(v, target, tolerance, x)
    ensures Inside(b, y) && y != x && Within(v, target, tolerance, y)
  {
    var end := if v(x) > target then b.low else b.high;
    y := StepToward(x, end, slope, tolerance);
    if v(x) > target {
      assert Toward(b, y, x);
    } else {
      assert Toward(b, x, y);
    }
  }

  /** A point on the way from x to the end, so near that the value changes by no more than the tolerance. */
  lemma StepToward(x: real, end: real, slope: real, tolerance: real) returns (y: real)
    requires x != end && slope > 0.0 && tolerance > 0.0
    ensures y != x && (if x < end then x < y <= end else end <= y < x) && Reach(slope, Distance(x, y)) <= tolerance
  {
    var step := tolerance / slope;
    assert slope * step == tolerance;
    var d := if step < Distance(x, end) then step else Distance(x, end);
    y := if x < end then x + d else x - d;
    assert Distance(x, y) == d <= step;
    assert slope * (step - d) >= 0.0;
  }

  /** Searching the right way succeeds sooner or later exactly when some point between the ends is within the tolerance. */
  lemma RightWayConvergesIff(v: real -> real, target: real, tolerance: real, b: Interval, slope: real)
    requires Ascends(v, b) && Steady(v, b, slope) && slope > 0.0 && tolerance > 0.0 && b.low != b.high
    ensures Converges(v, target, tolerance, b) <==> exists x :: Between(b, x) && Within(v, target, tolerance, x)
  {
    if Converges(v, target, tolerance, b) {
      var k: nat :| Within(v, target, tolerance, Tried(v, target, b, k));
      TriedIsInside(v, target, b, k);
    }
    if x :| Between(b, x) && Within(v, target, tolerance, x) {
      var y := SecondWithin(v, target, tolerance, b, slope, x);
      TwoWithinConverge(v, target, tolerance, b, x, y);
    }
  }

  // ---------------------------------------------------------------- searching the wrong way

  lemma RecedesOnce(v: real -> real, target: real, tolerance: real, b: Interval, c: Interval)
    requires Sinks(v, b) && Toward(b, c.low, c.high) && !Within(v, target, tolerance, Middle(c))
    ensures !Within(v, target, tolerance, Middle(Narrow(v, target, c)))
  {
    var m, m' := Middle(c), Middle(Narrow(v, target, c));
    if v(m) > target { assert Toward(b, m', m); } else { assert Toward(b, m, m'); }
  }

  /** Where the value never grows, each round leads no nearer to the target. */
  lemma {:induction false} WrongWayRecedes(v: real -> real, target: real, tolerance: real, b: Interval, k: nat)
    requires Sinks(v, b) && !Within(v, target, tolerance, Tried(v, target, b, 0))
    ensures !Within(v, target, tolerance, Tried(v, target, b, k))
  {
    if k > 0 {
      WrongWayRecedes(v, target, tolerance, b, k - 1);
      BracketHalves(v, target, b, k - 1);
      RecedesOnce(v, target, tolerance, b, Bracket(v, target, b, k - 1));
    }
  }

  /** So such a search succeeds in its first round or never. */
  lemma WrongWayConvergesIff(v: real -> real, target: real, tolerance: real, b: Interval)
    requires Sinks(v, b)
    ensures Converges(v, target, tolerance, b) <==> Within(v, target, tolerance, Tried(v, target, b, 0))
  {
    if Converges(v, target, tolerance, b) && !Within(v, target, tolerance, Tried(v, target, b, 0)) {
      var k: nat :| Within(v, target, tolerance, Tried(v, target, b, k));
      WrongWayRecedes(v, target, tolerance, b, k);
    }
  }
}
