/** Period alignment of comparable metrics, and the two in-place removals of repeated strings behind its lists. */
module Alignment {
  import opened Common
  import opened Strings

  // ---------------------------------------------------------------- repeated neighbours

  /** One of each run of equal neighbours. */
  function Deduped(q: seq<string>): (d: seq<string>)
    ensures |d| <= |q| && (d == [] <==> q == []) && (q != [] ==> d[|d| - 1] == q[|q| - 1])
  {
    if |q| <= 1 then q
    else
      var n := |q| - 1;
      if q[n] == q[n - 1] then Deduped(q[..n]) else Deduped(q[..n]) + [q[n]]
  }

  /** No value is lost and none is added. */
  lemma {:induction false} DedupedKeepsValues(q: seq<string>)
    ensures forall x :: x in Deduped(q) <==> x in q
  {
    if |q| > 1 {
      DedupedKeepsValues(q[..|q| - 1]);
      assert q == q[..|q| - 1] + [q[|q| - 1]];
    }
  }

  /** On a sorted list what remains is strictly increasing. */
  lemma {:induction false} DedupedIncreases(q: seq<string>)
    requires Sorted(q)
    ensures StrictlySorted(Deduped(q))
  {
    if |q| > 1 {
      var n := |q| - 1;
      DedupedIncreases(q[..n]);
      if q[n] != q[n - 1] {
        var d := Deduped(q[..n]);
        LessTotal(q[n - 1], q[n]);
        forall i | 0 <= i < |d|
          ensures Less(d[i], q[n])
        {
          if i < |d| - 1 { LessTransitive(d[i], d[|d| - 1], q[n]); }
        }
      }
    }
  }

  /** Sorting and then dropping repeats lists the set of the values in order. */
  lemma SortedDedupedIsListing(q: seq<string>)
    ensures Deduped(SortStrings(q)) == SortedSeq(set x | x in q)
  {
    DedupedIncreases(SortStrings(q));
    DedupedKeepsValues(SortStrings(q));
    SortedListingUnique(Deduped(SortStrings(q)), SortedSeq(set x | x in q));
  }

  /** The first |d| places hold d, and from there on the array is as it was. */
  ghost predicate Kept(a: array<string>, d: seq<string>, was: seq<string>)
    reads a
  {
    && |d| <= a.Length == |was|
    && (forall k :: 0 <= k < |d| ==> a[k] == d[k])
    && forall k :: |d| <= k < a.Length ==> a[k] == was[k]
  }

  lemma KeptSlices(a: array<string>, n: nat, d: seq<string>, was: seq<string>)
    requires Kept(a, d, was) && n == |d|
    ensures a[..n] == d && a[n..] == was[n..]
  {
  }

  /** Entry i + 1 keeps one more string than entry i when that string differs from the last one kept. */
  ghost predicate StageFollows(stages: seq<seq<string>>, q: seq<string>, i: nat)
    requires i < |q| && |stages| == |q| + 1
  {
    var d := stages[i];
    d != [] && stages[i + 1] == if q[i] == d[|d| - 1] then d else d + [q[i]]
  }

  ghost predicate Stages(stages: seq<seq<string>>, q: seq<string>) {
    && |stages| == |q| + 1 && (q != [] ==> stages[1] == [q[0]])
    && forall i :: 1 <= i < |q| ==> StageFollows(stages, q, i)
  }

  /** What one round makes of the string it reads and the last one kept. */
  lemma StageAfter(stages: seq<seq<string>>, was: seq<string>, i: nat, a: array<string>)
    requires Stages(stages, was) && i < |was| == a.Length && 1 <= |stages[i]| <= i && Kept(a, stages[i], was)
    ensures a[i] == was[i]
    ensures a[i] == a[|stages[i]| - 1] ==> stages[i + 1] == stages[i]
    ensures a[i] != a[|stages[i]| - 1] ==> stages[i + 1] == stages[i] + [was[i]]
  {
    assert StageFollows(stages, was, i);
  }

  lemma DedupedInStages(q: seq<string>) returns (stages: seq<seq<string>>)
    ensures Stages(stages, q) && stages[|q|] == Deduped(q)
  {
    stages := seq(|q| + 1, i requires 0 <= i <= |q| => Deduped(q[..i]));
    assert q[..|q|] == q;
    if q != [] { assert q[..1] == [q[0]]; }
    forall i | 1 <= i < |q| ensures StageFollows(stages, q, i) {
      KeepsOrDrops(q, i);
    }
  }

  /** unique: the kept strings are written over the front of the argument; what follows them stays. */
  method Unique(a: array<string>) returns (n: nat)
    modifies a
    ensures n <= a.Length && a[..n] == Deduped(old(a[..])) && a[n..] == old(a[n..])
  {
    if a.Length == 0 { return 0; }
    ghost var was := a[..];
    ghost var stages := DedupedInStages(was);
    n := 1;
    for i := 1 to a.Length
      invariant 1 <= n == |stages[i]| <= i && Kept(a, stages[i], was)
    {
      StageAfter(stages, was, i, a);
      if a[i] != a[n - 1] {
        a[n] := a[i];
        n := n + 1;
      }
    }
    KeptSlices(a, n, stages[a.Length], was);
  }

  /** The loop of sortedUnique, on the sorted copy. */
  method Compact(a: array<string>) returns (write: nat)
    requires a.Length > 0
    modifies a
    ensures write <= a.Length && a[..write] == Deduped(old(a[..]))
  {
    ghost var was := a[..];
    ghost var stages := DedupedInStages(was);
    write := 1;
    for i := 1 to a.Length
      invariant 1 <= write == |stages[i]| <= i && Kept(a, stages[i], was)
    {
      StageAfter(stages, was, i, a);
      if a[i] != a[write - 1] {
        a[write] := a[i];
        write := write + 1;
      }
    }
    KeptSlices(a, write, stages[a.Length], was);
  }

  /** sortedUnique: the values in order, once each; the argument keeps its order. */
  method SortedUnique(values: seq<string>) returns (r: seq<string>)
    ensures r == SortedSeq(set x | x in values)
  {
    var a := SortedCopy(values);
    SortedDedupedIsListing(values);
    if a.Length == 0 { return []; }
    var write := Compact(a);
    return a[..write];
  }

  method SortedCopy(values: seq<string>) returns (a: array<string>)
    ensures fresh(a) && a[..] == SortStrings(values)
  {
    var sorted := SortStrings(values);
    a := new string[|sorted|](i requires 0 <= i < |sorted| => sorted[i]);
  }

  /** One more string is kept exactly when it differs from the last one kept. */
  lemma KeepsOrDrops(q: seq<string>, i: nat)
    requires 0 < i < |q|
    ensures var d := Deduped(q[..i]);
      d != [] && Deduped(q[..i + 1]) == if q[i] == d[|d| - 1] then d else d + [q[i]]
  {
    assert q[..i + 1][..i] == q[..i];
    assert q[..i][i - 1] == q[i - 1];
  }

  // ---------------------------------------------------------------- PeriodAligned

  datatype Metric = Metric(company: string, period: string, unit: string, currency: string)

  datatype AlignmentError = TooFewMetrics | UnsupportedPolicy | MissingName

  datatype Comparison = Comparison(comparable: bool, warnings: seq<string>)

  predicate Named(m: Metric) {
    m.company != "" && m.period != "" && m.unit != ""
  }

  predicate Aligned(m: Metric, reference: Metric) {
    m.period == reference.period && m.unit == reference.unit && m.currency == reference.currency
  }

  function Mismatches(m: Metric, reference: Metric): seq<string> {
    (if m.period != reference.period then ["period_mismatch"] else [])
    + (if m.unit != reference.unit then ["unit_mismatch"] else [])
    + (if m.currency != reference.currency then ["currency_mismatch"] else [])
  }

  /** Some metric lacks its company, its period or its unit. */
  ghost predicate SomeUnnamed(metrics: seq<Metric>) {
    exists i :: 0 <= i < |metrics| && (|metrics[i].company| == 0 || |metrics[i].period| == 0 || |metrics[i].unit| == 0)
  }

  /** All metrics are of one period, one unit and one currency. */
  ghost predicate AllAlike(metrics: seq<Metric>) {
    forall i, j :: 0 <= i < j < |metrics| ==>
      metrics[i].period == metrics[j].period && metrics[i].unit == metrics[j].unit && metrics[i].currency == metrics[j].currency
  }

  lemma NamedTerms(metrics: seq<Metric>, n: nat)
    requires n <= |metrics|
    ensures (forall k :: 0 <= k < n ==> Named(metrics[k])) && n == |metrics| ==> !SomeUnnamed(metrics)
    ensures n < |metrics| && !Named(metrics[n]) ==> SomeUnnamed(metrics)
  {
  }

  lemma AlikeTerms(metrics: seq<Metric>)
    requires metrics != []
    ensures AllAlike(metrics) <==> forall k :: 0 <= k < |metrics| ==> Aligned(metrics[k], metrics[0])
  {
  }

  lemma MismatchesMean(m: Metric, reference: Metric)
    ensures Mismatches(m, reference) == [] <==> Aligned(m, reference)
  {
  }

  /** A warning is there exactly when some metric differs from the first one in its field, and there are no others. */
  ghost predicate WarningTerms(metrics: seq<Metric>, warnings: seq<string>)
    requires metrics != []
  {
    && ("period_mismatch" in warnings <==> exists i :: 0 < i < |metrics| && metrics[i].period != metrics[0].period)
    && ("unit_mismatch" in warnings <==> exists i :: 0 < i < |metrics| && metrics[i].unit != metrics[0].unit)
    && ("currency_mismatch" in warnings <==> exists i :: 0 < i < |metrics| && metrics[i].currency != metrics[0].currency)
    && forall w :: w in warnings ==> w in {"period_mismatch", "unit_mismatch", "currency_mismatch"}
  }

  lemma MismatchesTell(m: Metric, reference: Metric)
    ensures "period_mismatch" in Mismatches(m, reference) <==> m.period != reference.period
    ensures "unit_mismatch" in Mismatches(m, reference) <==> m.unit != reference.unit
    ensures "currency_mismatch" in Mismatches(m, reference) <==> m.currency != reference.currency
    ensures forall w :: w in Mismatches(m, reference) ==> w in {"period_mismatch", "unit_mismatch", "currency_mismatch"}
  {
    var p, u, c := "period_mismatch", "unit_mismatch", "currency_mismatch";
    assert p[0] != u[0] && u[0] != c[0] && p[0] != c[0];
  }

  lemma RaisedTell(metrics: seq<Metric>, warnings: seq<string>)
    requires metrics != [] && forall w :: w in warnings <==> Raised(metrics, |metrics|, w)
    ensures WarningTerms(metrics, warnings)
  {
    forall i | 0 < i < |metrics|
      ensures metrics[i].period != metrics[0].period <==> "period_mismatch" in Mismatches(metrics[i], metrics[0])
      ensures metrics[i].unit != metrics[0].unit <==> "unit_mismatch" in Mismatches(metrics[i], metrics[0])
      ensures metrics[i].currency != metrics[0].currency <==> "currency_mismatch" in Mismatches(metrics[i], metrics[0])
    {
      MismatchesTell(metrics[i], metrics[0]);
    }
    forall w | w in warnings ensures w in {"period_mismatch", "unit_mismatch", "currency_mismatch"} {
      var i :| 1 <= i < |metrics| && w in Mismatches(metrics[i], metrics[0]);
      MismatchesTell(metrics[i], metrics[0]);
    }
  }

  /** The warning is raised by some metric after the first. */
  ghost predicate Raised(metrics: seq<Metric>, n: nat, warning: string)
    requires 0 < n <= |metrics|
  {
    exists i :: 1 <= i < n && warning in Mismatches(metrics[i], metrics[0])
  }

  /**
   * PeriodAligned: comparable exactly when every metric has the first one's period, unit and currency, and
   * the warnings list in order, once each, the kinds of mismatch that occur.
   */
  method PeriodAligned(metrics: seq<Metric>, policy: string) returns (result: Result<Comparison, AlignmentError>)
    ensures result.Err? <==> |metrics| < 2 || policy != "exact" || SomeUnnamed(metrics)
    ensures result.Err? ==> result.error == if |metrics| < 2 then TooFewMetrics else if policy != "exact" then UnsupportedPolicy else MissingName
    ensures result.Ok? ==> (result.value.comparable <==> AllAlike(metrics))
    ensures result.Ok? ==> StrictlySorted(result.value.warnings)
    ensures result.Ok? ==> WarningTerms(metrics, result.value.warnings)
  {
    if |metrics| < 2 { return Err(TooFewMetrics); }
    if policy != "exact" { return Err(UnsupportedPolicy); }
    var reference := metrics[0];
    if !Named(reference) {
      NamedTerms(metrics, 0);
      return Err(MissingName);
    }
    var warnings: seq<string> := [];
    for i := 1 to |metrics|
      invariant forall k :: 0 <= k < i ==> Named(metrics[k])
      invariant forall w :: w in warnings <==> Raised(metrics, i, w)
      invariant warnings == [] <==> forall k :: 0 <= k < i ==> Aligned(metrics[k], reference)
    {
      if !Named(metrics[i]) {
        NamedTerms(metrics, i);
        return Err(MissingName);
      }
      var more := Mismatches(metrics[i], reference);
      MismatchesMean(metrics[i], reference);
      RaisedGrows(metrics, i);
      warnings := warnings + more;
    }
    var listed := ListedOnce(warnings);
    RaisedTell(metrics, listed);
    NamedTerms(metrics, |metrics|);
    AlikeTerms(metrics);
    return Ok(Comparison(listed == [], listed));
  }

  /** sort.Strings and unique. */
  method ListedOnce(values: seq<string>) returns (listed: seq<string>)
    ensures StrictlySorted(listed) && (listed == [] <==> values == [])
    ensures forall x :: x in listed <==> x in values
  {
    var a := SortedCopy(values);
    var n := Unique(a);
    SortedDedupedIsListing(values);
    listed := a[..n];
    ListingIsEmpty(values, listed);
  }

  lemma RaisedGrows(metrics: seq<Metric>, n: nat)
    requires 0 < n < |metrics|
    ensures forall w :: Raised(metrics, n + 1, w) <==> Raised(metrics, n, w) || w in Mismatches(metrics[n], metrics[0])
  {
  }

  lemma ListingIsEmpty(values: seq<string>, listed: seq<string>)
    requires listed == SortedSeq(set x | x in values)
    ensures listed == [] <==> values == []
    ensures forall x :: x in listed <==> x in values
  {
    assert forall x :: x in listed <==> x in values;
    assert values != [] ==> values[0] in values;
    assert listed != [] ==> listed[0] in listed;
  }
}
