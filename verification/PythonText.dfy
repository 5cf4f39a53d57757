/** The Python text operations the scripts use: str.strip, str.rfind for one character, white-space folding, decimals. */
module PythonText {
  import Strings

  /** str.isspace: the shared white space and the four ASCII separators. */
  predicate IsSpace(c: char) {
    Strings.IsSpace(c) || 0x1C <= c as int <= 0x1F
  }

  predicate Blank(s: string) {
    forall i :: 0 <= i < |s| ==> IsSpace(s[i])
  }

  /** From i on, the end of the run of white space. */
  function SkipSpace(s: string, i: nat): (n: nat)
    requires i <= |s|
    ensures i <= n <= |s| && (forall k :: i <= k < n ==> IsSpace(s[k])) && (n < |s| ==> !IsSpace(s[n]))
    decreases |s| - i
  {
    if i == |s| || !IsSpace(s[i]) then i else SkipSpace(s, i + 1)
  }

  /** The number of leading white-space characters. */
  function Lead(s: string): (n: nat)
    ensures n <= |s| && (forall i :: 0 <= i < n ==> IsSpace(s[i])) && (n < |s| ==> !IsSpace(s[n]))
  {
    SkipSpace(s, 0)
  }

  /** Up to n, the start of the run of white space. */
  function DropSpace(s: string, n: nat): (m: nat)
    requires n <= |s|
    ensures m <= n && (forall i :: m <= i < n ==> IsSpace(s[i])) && (m > 0 ==> !IsSpace(s[m - 1]))
  {
    if n == 0 || !IsSpace(s[n - 1]) then n else DropSpace(s, n - 1)
  }

  /** Where the trailing white space begins. */
  function Tail(s: string): (n: nat)
    ensures n <= |s| && (forall i :: n <= i < |s| ==> IsSpace(s[i])) && (n > 0 ==> !IsSpace(s[n - 1]))
  {
    DropSpace(s, |s|)
  }

  /** str.strip() */
  function Strip(s: string): (t: string)
    ensures t == [] <==> Blank(s)
    ensures t != [] ==> Lead(s) + |t| == Tail(s)
    ensures t != [] ==> !IsSpace(t[0]) && !IsSpace(t[|t| - 1])
  {
    if Lead(s) < Tail(s) then s[Lead(s)..Tail(s)] else []
  }

  lemma StripIsSlice(s: string, k: nat)
    requires k < |s| && !IsSpace(s[k])
    ensures Lead(s) <= k < Tail(s) && Strip(s) == s[Lead(s)..Tail(s)]
  {
  }

  lemma SliceKeeps(s: string, t: string, lo: nat, hi: nat, k: nat)
    requires lo <= k < hi <= |s| && t == s[lo..hi]
    ensures k < lo + |t| && t[k - lo] == s[k]
  {
  }

  /** Stripping keeps every character that is not white space, in its place after the leading white space. */
  lemma StripKeeps(s: string, k: nat)
    requires k < |s| && !IsSpace(s[k])
    ensures Lead(s) <= k < Lead(s) + |Strip(s)| && Strip(s)[k - Lead(s)] == s[k]
  {
    StripIsSlice(s, k);
    SliceKeeps(s, Strip(s), Lead(s), Tail(s), k);
  }

  /** str.rfind(c, lo, hi) */
  function RFind(s: string, c: char, lo: nat, hi: nat): (i: int)
    requires hi <= |s|
    ensures i == -1 ==> forall k :: lo <= k < hi ==> s[k] != c
    ensures i != -1 ==> lo <= i < hi && s[i] == c && forall k :: i < k < hi ==> s[k] != c
  {
    if hi <= lo then -1 else if s[hi - 1] == c then hi - 1 else RFind(s, c, lo, hi - 1)
  }

  /** re.sub(r"\s+", " ", s) */
  function Fold(s: string): (t: string)
    ensures |t| <= |s|
    ensures forall i :: 0 <= i < |t| ==> IsSpace(t[i]) ==> t[i] == ' '
    ensures forall i, j :: 0 <= i < j < |t| && j == i + 1 ==> !IsSpace(t[i]) || !IsSpace(t[j])
    ensures s != [] && !IsSpace(s[0]) ==> t != [] && t[0] == s[0]
  {
    if s == [] then []
    else if IsSpace(s[0]) then
      assert Lead(s) > 0;
      var rest := Fold(s[Lead(s)..]);
      [' '] + rest
    else [s[0]] + Fold(s[1..])
  }

  /** SPACE.sub(" ", s).strip() */
  function Normalised(s: string): string {
    Strip(Fold(s))
  }

  /** The number that a string of digits writes. */
  function Number(s: string): int {
    if s == [] then 0 else 10 * Number(s[..|s| - 1]) + (s[|s| - 1] as int - '0' as int)
  }

  /** The decimal of a number is its string of digits without leading zeros. */
  lemma {:induction false} DecimalWrites(n: nat)
    ensures Number(Decimal(n)) == n
    ensures forall c :: c in Decimal(n) ==> '0' <= c <= '9'
    ensures n > 0 ==> Decimal(n)[0] != '0'
  {
    var s := Decimal(n);
    if n < 10 {
      assert s[..0] == [];
    } else {
      assert s[..|s| - 1] == Decimal(n / 10);
      DecimalWrites(n / 10);
    }
  }

  function Decimal(n: nat): (s: string)
    ensures s != []
  {
    var digit := ['0' + (n % 10) as char];
    if n < 10 then digit else Decimal(n / 10) + digit
  }
}
