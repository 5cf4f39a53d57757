/** Blank strings, code-point order on strings, and the sorted listing of a finite set of strings. */
module Strings {

  /** White space as strings.TrimSpace and str.isspace-style trimming see it outside ASCII control separators. */
  predicate IsSpace(c: char) {
    var n := c as int;
    || 0x09 <= n <= 0x0D || n == 0x20 || n == 0x85 || n == 0xA0 || n == 0x1680
    || 0x2000 <= n <= 0x200A || n == 0x2028 || n == 0x2029 || n == 0x202F || n == 0x205F || n == 0x3000
  }

  /** strings.TrimSpace(s) == "" */
  predicate Blank(s: string) {
    forall i :: 0 <= i < |s| ==> IsSpace(s[i])
  }

  /** Some character is not white space. */
  predicate Written(s: string) {
    exists i :: 0 <= i < |s| && !IsSpace(s[i])
  }

  /** strings.TrimSpace */
  function TrimSpace(s: string): (t: string)
    ensures t == [] <==> Blank(s)
    ensures t != [] ==> !IsSpace(t[0]) && !IsSpace(t[|t| - 1])
  {
    TrimRight(TrimLeft(s))
  }

  function TrimLeft(s: string): (t: string)
    ensures t == [] <==> Blank(s)
    ensures t != [] ==> !IsSpace(t[0])
  {
    if s == [] then []
    else if !IsSpace(s[0]) then s
    else
      assert Blank(s) <==> Blank(s[1..]) by {
        if Blank(s[1..]) {
          forall i | 0 <= i < |s| ensures IsSpace(s[i]) { if i > 0 { assert IsSpace(s[1..][i - 1]); } }
        }
      }
      TrimLeft(s[1..])
  }

  function TrimRight(s: string): (t: string)
    ensures t == [] <==> Blank(s)
    ensures t <= s
    ensures t != [] ==> !IsSpace(t[|t| - 1])
  {
    if s == [] then []
    else if !IsSpace(s[|s| - 1]) then s
    else TrimRight(s[..|s| - 1])
  }

  lemma {:induction false} LeftCut(s: string) returns (lo: nat)
    ensures lo <= |s| && TrimLeft(s) == s[lo..] && Blank(s[..lo])
  {
    lo := 0;
    if s != [] && IsSpace(s[0]) {
      lo := LeftCut(s[1..]);
      assert s[1..][lo..] == s[lo + 1..] && s[..lo + 1] == [s[0]] + s[1..][..lo];
      lo := lo + 1;
    }
  }

  lemma BlankSnoc(s: string, c: char)
    requires Blank(s) && IsSpace(c)
    ensures Blank(s + [c])
  {
  }

  lemma LastApart(s: string, hi: nat)
    requires hi < |s|
    ensures s[..|s| - 1][..hi] == s[..hi] && s[hi..] == s[..|s| - 1][hi..] + [s[|s| - 1]]
  {
  }

  lemma {:induction false} RightCut(s: string) returns (hi: nat)
    ensures hi <= |s| && TrimRight(s) == s[..hi] && Blank(s[hi..])
  {
    hi := |s|;
    if s != [] && IsSpace(s[|s| - 1]) {
      hi := RightCut(s[..|s| - 1]);
      LastApart(s, hi);
      BlankSnoc(s[..|s| - 1][hi..], s[|s| - 1]);
    }
  }

  /** Trimming takes white space off both ends, all of it and nothing else. */
  lemma TrimCutsEnds(s: string) returns (lo: nat, hi: nat)
    ensures lo <= hi <= |s| && TrimSpace(s) == s[lo..hi] && Blank(s[..lo]) && Blank(s[hi..])
    ensures lo < hi ==> !IsSpace(s[lo]) && !IsSpace(s[hi - 1])
  {
    lo := LeftCut(s);
    hi := RightCut(s[lo..]);
    assert s[lo..][..hi] == s[lo..lo + hi] && s[lo..][hi..] == s[lo + hi..];
    hi := lo + hi;
  }

  /** The number of bytes of s in UTF-8, which is what len(s) counts in Go. */
  function Utf8Length(s: string): (n: nat)
    ensures |s| <= n <= 4 * |s|
  {
    if s == [] then 0
    else
      var c := s[0] as int;
      (if c < 0x80 then 1 else if c < 0x800 then 2 else if c < 0x10000 then 3 else 4) + Utf8Length(s[1..])
  }

  /** Strict lexicographic order by code point (equal to byte order of the UTF-8 encodings). */
  predicate Less(a: string, b: string) {
    b != [] && (a == [] || a[0] < b[0] || (a[0] == b[0] && Less(a[1..], b[1..])))
  }

  /** The strings agree up to n, where the first one ends or has the smaller character. */
  ghost predicate SmallerAt(a: string, b: string, n: nat) {
    && n <= |a| && n < |b| && (forall k :: 0 <= k < n ==> a[k] == b[k])
    && (n == |a| || a[n] < b[n])
  }

  /** The first difference decides, and a proper beginning of a string comes before it. */
  lemma {:induction false} LessAtFirstDifference(a: string, b: string)
    ensures Less(a, b) <==> exists n: nat :: SmallerAt(a, b, n)
  {
    if b == [] || a == [] || a[0] != b[0] {
      assert b != [] && (a == [] || a[0] < b[0]) ==> SmallerAt(a, b, 0);
    } else {
      LessAtFirstDifference(a[1..], b[1..]);
      forall n: nat | SmallerAt(a, b, n) ensures n > 0 && SmallerAt(a[1..], b[1..], n - 1) {
      }
      forall n: nat | SmallerAt(a[1..], b[1..], n) ensures SmallerAt(a, b, n + 1) {
        forall k | 0 <= k < n + 1 ensures a[k] == b[k] { assert k > 0 ==> a[k] == a[1..][k - 1] && b[k] == b[1..][k - 1]; }
      }
    }
  }

  lemma {:induction false} LessTransitive(a: string, b: string, c: string)
    requires Less(a, b) && Less(b, c)
    ensures Less(a, c)
  {
    if a != [] && a[0] == b[0] && b[0] == c[0] {
      LessTransitive(a[1..], b[1..], c[1..]);
    }
  }

  lemma {:induction false} LessTotal(a: string, b: string)
    ensures Less(a, b) || Less(b, a) || a == b
    ensures !(Less(a, b) && Less(b, a))
    ensures a == b ==> !Less(a, b)
  {
    if a != [] && b != [] {
      LessTotal(a[1..], b[1..]);
      if a[0] == b[0] && a[1..] == b[1..] {
        assert a == [a[0]] + a[1..] == b;
      }
    }
  }

  predicate StrictlySorted(q: seq<string>) {
    forall i, j :: 0 <= i < j < |q| ==> Less(q[i], q[j])
  }

  ghost predicate Lists(q: seq<string>, s: set<string>) {
    forall x :: x in q <==> x in s
  }

  /** Insertion into a strictly sorted listing. */
  function Insert(x: string, q: seq<string>): (r: seq<string>)
    requires StrictlySorted(q)
    ensures StrictlySorted(r)
    ensures forall y :: y in r <==> y == x || y in q
  {
    if q == [] then [x]
    else
      LessTotal(x, q[0]);
      if x == q[0] then q
      else if Less(x, q[0]) then
        assert forall j :: 0 <= j < |q| ==> Less(x, q[j]) by {
          forall j | 0 < j < |q| ensures Less(x, q[j]) { LessTransitive(x, q[0], q[j]); }
        }
        [x] + q
      else
        var r := Insert(x, q[1..]);
        assert forall y :: y in r ==> Less(q[0], y);
        [q[0]] + r
  }

  /** The members of s in increasing order. */
  ghost function SortedSeq(s: set<string>): (q: seq<string>)
    ensures StrictlySorted(q) && Lists(q, s)
  {
    if s == {} then []
    else
      var x :| x in s;
      Insert(x, SortedSeq(s - {x}))
  }

  /** A set has exactly one strictly increasing listing. */
  lemma {:induction false} SortedListingUnique(p: seq<string>, q: seq<string>)
    requires StrictlySorted(p) && StrictlySorted(q)
    requires forall x :: x in p <==> x in q
    ensures p == q
  {
    assert q == [] || q[0] in q;
    if p != [] {
      assert p[0] in p;
      var i :| 0 <= i < |q| && q[i] == p[0];
      assert q[0] in q;
      var j :| 0 <= j < |p| && p[j] == q[0];
      if i > 0 {
        assert Less(q[0], q[i]);
        if j > 0 { assert Less(p[0], p[j]); }
        LessTotal(p[0], q[0]);
        assert false;
      }
      forall x ensures x in p[1..] <==> x in q[1..] {
        LessTotal(p[0], p[0]);
        if x in p[1..] { assert x in p; assert Less(p[0], x); assert x in q; }
        if x in q[1..] { assert x in q; assert Less(q[0], x); assert x in p; }
      }
      SortedListingUnique(p[1..], q[1..]);
      assert p == [p[0]] + p[1..];
      assert q == [q[0]] + q[1..];
    }
  }

  /** sortedKeys: the keys arrive in any order (`x :| x in todo`), the listing is always the same. */
  method SortedKeys(values: set<string>) returns (r: seq<string>)
    ensures r == SortedSeq(values)
  {
    r := [];
    var todo := values;
    while todo != {}
      invariant todo <= values && StrictlySorted(r) && Lists(r, values - todo)
      decreases |todo|
    {
      var x :| x in todo;
      r := Insert(x, r);
      todo := todo - {x};
    }
    SortedListingUnique(r, SortedSeq(values));
  }

  // ---------------------------------------------------------------- sort.Strings

  ghost predicate Sorted(q: seq<string>) {
    forall i, j :: 0 <= i < j < |q| ==> !Less(q[j], q[i])
  }

  function InsertSorted(x: string, q: seq<string>): (r: seq<string>)
    requires Sorted(q)
    ensures Sorted(r) && |r| == |q| + 1
    ensures forall y :: y in r <==> y == x || y in q
    ensures multiset(r) == multiset(q) + multiset{x}
  {
    if q == [] then [x]
    else if Less(x, q[0]) then
      assert forall j :: 0 <= j < |q| ==> !Less(q[j], x) by {
        forall j | 0 <= j < |q| ensures !Less(q[j], x) { NotBefore(x, q, j); }
      }
      [x] + q
    else
      var r := InsertSorted(x, q[1..]);
      assert q == [q[0]] + q[1..];
      assert forall j :: 0 <= j < |r| ==> !Less(r[j], q[0]) by {
        forall j | 0 <= j < |r| ensures !Less(r[j], q[0]) { assert r[j] in r; }
      }
      [q[0]] + r
  }

  lemma NotBefore(x: string, q: seq<string>, j: nat)
    requires Sorted(q) && j < |q| && Less(x, q[0])
    ensures !Less(q[j], x)
  {
    if Less(q[j], x) {
      LessTransitive(q[j], x, q[0]);
      if j == 0 { LessTotal(q[0], q[0]); }
    }
  }

  function SortStrings(q: seq<string>): (r: seq<string>)
    ensures Sorted(r) && |r| == |q|
    ensures forall y :: y in r <==> y in q
    ensures multiset(r) == multiset(q)
  {
    if q == [] then []
    else
      assert q == [q[0]] + q[1..];
      InsertSorted(q[0], SortStrings(q[1..]))
  }
}
