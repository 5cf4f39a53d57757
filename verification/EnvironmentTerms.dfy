/** What the reader makes of an arbitrary text: its lines, the keys it takes from them, and what it refuses. */
module EnvironmentTerms {
  import opened Common
  import opened Strings
  import opened Environment

  // ---------------------------------------------------------------- single lines

  /** An empty line or a comment. */
  predicate Ignored(line: string) {
    |line| == 0 || line[0] == '#'
  }

  /** The line gives the key this value: what stands before its first equals sign, and all that follows it. */
  ghost predicate Gives(line: string, key: string, value: string) {
    !Ignored(line) && line == key + "=" + value && '=' !in key
  }

  /** A line that is neither skipped nor taken apart. */
  ghost predicate Shapeless(line: string) {
    !Ignored(line) && '=' !in line
  }

  lemma SignFound(line: string, n: nat)
    requires n == IndexOf(line, '=')
    ensures n == |line| <==> '=' !in line
  {
    if n < |line| { assert line[n] in line; }
  }

  lemma CutAt(line: string, n: nat)
    requires n < |line|
    ensures line == line[..n] + [line[n]] + line[n + 1..]
  {
  }

  lemma CutAtSign(line: string, n: nat)
    requires n == IndexOf(line, '=') < |line| && !Ignored(line)
    ensures Gives(line, line[..n], line[n + 1..])
  {
    CutAt(line, n);
  }

  lemma GivesOnce(line: string, key: string, value: string, n: nat)
    requires n == IndexOf(line, '=') && Gives(line, key, value)
    ensures n == |key| < |line| && key == line[..n] && value == line[n + 1..]
  {
    assert line[|key|] == '=';
    forall i | 0 <= i < |key| ensures line[i] != '=' { assert key[i] in key; }
  }

  // ---------------------------------------------------------------- the lines of a file

  /** A line before line i gives the key this value. */
  ghost predicate Given(lines: seq<string>, i: int, key: string, value: string) {
    exists j :: 0 <= j < i && j < |lines| && Gives(lines[j], key, value)
  }

  ghost predicate GivenAtAll(lines: seq<string>, i: int, key: string) {
    exists value :: Given(lines, i, key, value)
  }

  /** Line i is ignored, or gives an approved key that no earlier line gives. */
  ghost predicate LineMeets(lines: seq<string>, i: int, approved: set<string>)
    requires 0 <= i < |lines|
  {
    && '\r' !in lines[i]
    && (Ignored(lines[i]) || exists key, value :: Gives(lines[i], key, value) && key in approved && !GivenAtAll(lines, i, key))
  }

  /** What each refusal says of line i. */
  ghost predicate LineFails(lines: seq<string>, i: int, approved: set<string>, error: ReadError)
    requires 0 <= i < |lines|
  {
    match error
    case CarriageReturn => '\r' in lines[i]
    case InvalidLine => '\r' !in lines[i] && Shapeless(lines[i])
    case UnapprovedKey => '\r' !in lines[i] && exists key, value :: Gives(lines[i], key, value) && key !in approved
    case RepeatedKey =>
      '\r' !in lines[i] && exists key, value :: Gives(lines[i], key, value) && key in approved && GivenAtAll(lines, i, key)
  }

  predicate Has(values: Values, key: string, value: string) {
    key in values && values[key] == value
  }

  /** The table holds what the lines before line i give, and nothing else. */
  ghost predicate Holds(values: Values, lines: seq<string>, i: int) {
    forall key, value :: Has(values, key, value) <==> Given(lines, i, key, value)
  }

  lemma HoldsKeys(values: Values, lines: seq<string>, i: int, key: string)
    requires Holds(values, lines, i)
    ensures key in values <==> GivenAtAll(lines, i, key)
  {
    if key in values { assert Has(values, key, values[key]); }
    if GivenAtAll(lines, i, key) {
      var value :| Given(lines, i, key, value);
      assert Has(values, key, value);
    }
  }

  lemma GivenSnoc(lines: seq<string>, i: nat, key: string, value: string)
    requires i < |lines|
    ensures Given(lines, i + 1, key, value) <==> Given(lines, i, key, value) || Gives(lines[i], key, value)
  {
  }

  lemma IgnoredHolds(values: Values, lines: seq<string>, i: nat)
    requires i < |lines| && Holds(values, lines, i) && Ignored(lines[i])
    ensures Holds(values, lines, i + 1)
  {
    forall key, value ensures Has(values, key, value) <==> Given(lines, i + 1, key, value) {
      GivenSnoc(lines, i, key, value);
    }
  }

  lemma GivingHolds(values: Values, lines: seq<string>, i: nat, key: string, value: string)
    requires i < |lines| && Holds(values, lines, i) && key !in values && Gives(lines[i], key, value)
    ensures Holds(values[key := value], lines, i + 1)
  {
    var n, after := IndexOf(lines[i], '='), values[key := value];
    GivesOnce(lines[i], key, value, n);
    forall k, v ensures Has(after, k, v) <==> Given(lines, i + 1, k, v) {
      GivenSnoc(lines, i, k, v);
      if Gives(lines[i], k, v) { GivesOnce(lines[i], k, v, n); }
      assert Given(lines, i, k, v) <==> Has(values, k, v);
    }
  }

  lemma LineTerms(lines: seq<string>, i: nat, acc: Values, approved: set<string>)
    requires i < |lines| && Holds(acc, lines, i)
    ensures var r := ReadLine(lines[i], acc, approved);
      if r.Ok? then LineMeets(lines, i, approved) && Holds(r.value, lines, i + 1) else LineFails(lines, i, approved, r.error)
  {
    var line := lines[i];
    if '\r' !in line {
      if Ignored(line) {
        IgnoredHolds(acc, lines, i);
      } else {
        var n := IndexOf(line, '=');
        SignFound(line, n);
        if n < |line| {
          CutAtSign(line, n);
          var key, value := line[..n], line[n + 1..];
          HoldsKeys(acc, lines, i, key);
          if key !in acc { GivingHolds(acc, lines, i, key, value); }
        }
      }
    }
  }

  lemma MeetsOrFails(lines: seq<string>, i: nat, approved: set<string>, error: ReadError)
    requires i < |lines| && LineFails(lines, i, approved, error)
    ensures !LineMeets(lines, i, approved)
  {
    var n := IndexOf(lines[i], '=');
    forall key, value | Gives(lines[i], key, value) ensures key == lines[i][..n] && '=' in lines[i] {
      GivesOnce(lines[i], key, value, n);
      assert lines[i][n] == '=';
    }
  }

  /** Every line from i up to j meets the rules, and line j is refused with this error. */
  ghost predicate FailsFirstAt(lines: seq<string>, i: int, j: int, approved: set<string>, error: ReadError) {
    && 0 <= i <= j < |lines| && LineFails(lines, j, approved, error)
    && forall k :: i <= k < j ==> LineMeets(lines, k, approved)
  }

  lemma {:induction false} RestTerms(lines: seq<string>, i: nat, acc: Values, approved: set<string>) returns (j: nat)
    requires i <= |lines| && Holds(acc, lines, i)
    ensures var r := ReadLines(lines[i..], acc, approved);
      if r.Ok? then (forall k :: i <= k < |lines| ==> LineMeets(lines, k, approved)) && Holds(r.value, lines, |lines|)
      else FailsFirstAt(lines, i, j, approved, r.error)
    decreases |lines| - i
  {
    j := i;
    if i < |lines| {
      LineTerms(lines, i, acc, approved);
      var r := ReadLine(lines[i], acc, approved);
      assert lines[i..][0] == lines[i] && lines[i..][1..] == lines[i + 1..];
      if r.Ok? { j := RestTerms(lines, i + 1, r.value, approved); }
    }
  }

  /**
   * Lines are read exactly when each one is ignored or gives an approved key of its own, and then the table holds
   * what they give; otherwise the error is that of the first line that does not.
   */
  lemma ReadTerms(lines: seq<string>, approved: set<string>)
    ensures var r := ReadLines(lines, map[], approved);
      && (r.Ok? <==> forall k :: 0 <= k < |lines| ==> LineMeets(lines, k, approved))
      && (r.Ok? ==> Holds(r.value, lines, |lines|) && forall key :: key in r.value ==> key in approved)
      && (r.Err? ==> exists j :: FailsFirstAt(lines, 0, j, approved, r.error))
  {
    assert lines[0..] == lines;
    var r := ReadLines(lines, map[], approved);
    var j := RestTerms(lines, 0, map[], approved);
    if r.Ok? {
      forall key | key in r.value ensures key in approved {
        assert Has(r.value, key, r.value[key]);
        KeyApproved(lines, approved, key, r.value[key]);
      }
    } else {
      MeetsOrFails(lines, j, approved, r.error);
    }
  }

  lemma KeyApproved(lines: seq<string>, approved: set<string>, key: string, value: string)
    requires Given(lines, |lines|, key, value) && forall k :: 0 <= k < |lines| ==> LineMeets(lines, k, approved)
    ensures key in approved
  {
    var j :| 0 <= j < |lines| && Gives(lines[j], key, value);
    assert LineMeets(lines, j, approved);
    var k, v :| Gives(lines[j], k, v) && k in approved;
    GivesOnce(lines[j], key, value, IndexOf(lines[j], '='));
    GivesOnce(lines[j], k, v, IndexOf(lines[j], '='));
  }

  // ---------------------------------------------------------------- the lines of a text

  /** A carriage return and the line feed after it are one newline, and so is a carriage return alone. */
  lemma UniversalTerms()
    ensures Universal([]) == [] && Universal("\r\n") == "\n" && forall c :: Universal([c]) == [if c == '\r' then '\n' else c]
  {
    assert "\r\n"[2..] == [];
    forall c: char ensures Universal([c]) == [if c == '\r' then '\n' else c] { UniversalOne(c); }
  }

  lemma UniversalStep(s: string)
    requires s != []
    ensures Universal(s) == [if s[0] == '\r' then '\n' else s[0]] + Universal(AfterBoundary(s))
  {
  }

  lemma RestOfBoth(a: string, b: string)
    requires a != [] && (a[|a| - 1] != '\r' || b == [] || b[0] != '\n')
    ensures (a + b)[0] == a[0] && AfterBoundary(a + b) == AfterBoundary(a) + b
    ensures AfterBoundary(a) == [] || AfterBoundary(a)[|AfterBoundary(a)| - 1] == a[|a| - 1]
  {
    assert (a + b)[1..] == a[1..] + b;
    if |a| > 1 { assert (a + b)[2..] == a[2..] + b && (a + b)[1] == a[1]; }
  }

  /** Texts are translated apart unless a carriage return meets a line feed between them. */
  lemma {:induction false} UniversalConcat(a: string, b: string)
    requires a == [] || a[|a| - 1] != '\r' || b == [] || b[0] != '\n'
    ensures Universal(a + b) == Universal(a) + Universal(b)
    decreases |a|
  {
    if a == [] {
      assert a + b == b;
    } else {
      UniversalStep(a);
      UniversalStep(a + b);
      RestOfBoth(a, b);
      UniversalConcat(AfterBoundary(a), b);
    }
  }

  lemma UniversalOne(c: char)
    ensures Universal([c]) == [if c == '\r' then '\n' else c]
  {
    assert [c][1..] == [];
  }

  /** A line runs up to the next boundary, and what follows it is split in the same way; only the end of the text needs none. */
  lemma SplitTerms(line: string, c: char, rest: string)
    requires OneLine(line, BOUNDARIES) && c in BOUNDARIES && c != '\r'
    ensures SplitLines(line + [c] + rest, BOUNDARIES) == [line] + SplitLines(rest, BOUNDARIES)
    ensures SplitLines(line, BOUNDARIES) == if line == [] then [] else [line]
  {
    ScanLine(line, [], c, rest, BOUNDARIES);
    ScanEnd(line, [], BOUNDARIES);
    assert [] + line == line;
  }

  lemma {:induction false} ScanLine(line: string, seen: string, c: char, rest: string, ends: set<char>)
    requires OneLine(line, ends) && c in ends && c != '\r'
    ensures Scan(line + [c] + rest, seen, ends) == [seen + line] + Scan(rest, [], ends)
  {
    var s := line + [c] + rest;
    if line == [] {
      assert s[0] == c && AfterBoundary(s) == rest && seen + line == seen;
    } else {
      assert s[0] == line[0] && s[1..] == line[1..] + [c] + rest && seen + line == (seen + [line[0]]) + line[1..];
      ScanLine(line[1..], seen + [line[0]], c, rest, ends);
    }
  }

  lemma {:induction false} ScanEnd(line: string, seen: string, ends: set<char>)
    requires OneLine(line, ends)
    ensures Scan(line, seen, ends) == if seen + line == [] then [] else [seen + line]
  {
    if line == [] {
      assert seen + line == seen;
    } else {
      assert seen + line == (seen + [line[0]]) + line[1..];
      ScanEnd(line[1..], seen + [line[0]], ends);
    }
  }
}
