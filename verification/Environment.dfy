/**
 * The generated environment file: the printer of the preflight and the reader of the manifest script.
 * The reader sees the text after universal-newline translation, as text-mode reading gives it.
 */
module Environment {
  import opened Common
  import opened Strings

  const MANIFEST_ENV := "SIGNALFORGE_APPLIANCE_MANIFEST"
  const MANIFEST_SHA_ENV := "SIGNALFORGE_APPLIANCE_MANIFEST_SHA256"
  const PERSIST_ROOT_ENV := "SIGNALFORGE_PERSIST_ROOT"

  const GENERATED_ENV_KEYS: set<string> := ARTIFACT_KEYS + IMAGE_KEYS + MANIFEST_KEYS + CHOICE_KEYS + HOST_KEYS

  const ARTIFACT_KEYS: set<string> := {"SIGNALFORGE_APPLICATION_ARTIFACT_IDENTITY", "SIGNALFORGE_MODEL_ARTIFACT_IDENTITY"}

  const IMAGE_KEYS: set<string> := {"SIGNALFORGE_APP_IMAGE", "SIGNALFORGE_LLAMA_ROCM_IMAGE", "SIGNALFORGE_RUNTIME_IDENTITY"}

  const MANIFEST_KEYS: set<string> := {MANIFEST_ENV, MANIFEST_SHA_ENV}

  const CHOICE_KEYS: set<string> := {"SIGNALFORGE_ACCEPT_GEMMA_LICENSE", "SIGNALFORGE_EXECUTION_BACKEND", "SIGNALFORGE_MODEL_SOURCE"}

  const HOST_KEYS: set<string> := {PERSIST_ROOT_ENV, "SIGNALFORGE_RENDER_GID", "SIGNALFORGE_VIDEO_GID"}

  datatype ReadError = CarriageReturn | InvalidLine | UnapprovedKey | RepeatedKey

  type Values = map<string, string>

  /** A key of capital letters, digits and underscores. */
  predicate Plain(key: string) {
    key != [] && forall i :: 0 <= i < |key| ==> KeyChar(key[i])
  }

  predicate KeyChar(c: char) {
    'A' <= c <= 'Z' || '0' <= c <= '9' || c == '_'
  }

  ghost predicate AllPlain(keys: set<string>) {
    forall k :: k in keys ==> Plain(k)
  }

  lemma ApplicationIdentityPlain() ensures Plain("SIGNALFORGE_APPLICATION_ARTIFACT_IDENTITY") {}
  lemma ModelIdentityPlain() ensures Plain("SIGNALFORGE_MODEL_ARTIFACT_IDENTITY") {}
  lemma AppImagePlain() ensures Plain("SIGNALFORGE_APP_IMAGE") {}
  lemma LlamaImagePlain() ensures Plain("SIGNALFORGE_LLAMA_ROCM_IMAGE") {}
  lemma RuntimeIdentityPlain() ensures Plain("SIGNALFORGE_RUNTIME_IDENTITY") {}
  lemma ManifestPlain() ensures Plain(MANIFEST_ENV) {}
  lemma ManifestShaPlain() ensures Plain(MANIFEST_SHA_ENV) {}
  lemma LicensePlain() ensures Plain("SIGNALFORGE_ACCEPT_GEMMA_LICENSE") {}
  lemma BackendPlain() ensures Plain("SIGNALFORGE_EXECUTION_BACKEND") {}
  lemma ModelSourcePlain() ensures Plain("SIGNALFORGE_MODEL_SOURCE") {}
  lemma PersistRootPlain() ensures Plain(PERSIST_ROOT_ENV) {}
  lemma RenderGidPlain() ensures Plain("SIGNALFORGE_RENDER_GID") {}
  lemma VideoGidPlain() ensures Plain("SIGNALFORGE_VIDEO_GID") {}

  lemma ArtifactKeysPlain()
    ensures AllPlain(ARTIFACT_KEYS)
  {
    ApplicationIdentityPlain();
    ModelIdentityPlain();
  }

  lemma ImageKeysPlain()
    ensures AllPlain(IMAGE_KEYS)
  {
    AppImagePlain();
    LlamaImagePlain();
    RuntimeIdentityPlain();
  }

  lemma ManifestKeysPlain()
    ensures AllPlain(MANIFEST_KEYS)
  {
    ManifestPlain();
    ManifestShaPlain();
  }

  lemma ChoiceKeysPlain()
    ensures AllPlain(CHOICE_KEYS)
  {
    LicensePlain();
    BackendPlain();
    ModelSourcePlain();
  }

  lemma HostKeysPlain()
    ensures AllPlain(HOST_KEYS)
  {
    PersistRootPlain();
    RenderGidPlain();
    VideoGidPlain();
  }

  lemma GeneratedKeysPlain()
    ensures AllPlain(GENERATED_ENV_KEYS)
  {
    ArtifactKeysPlain();
    ImageKeysPlain();
    ManifestKeysPlain();
    ChoiceKeysPlain();
    HostKeysPlain();
  }

  // ---------------------------------------------------------------- lines

  /** The characters at which str.splitlines ends a line. */
  const BOUNDARIES: set<char> := {
    '\n', '\U{000B}', '\U{000C}', '\r', '\U{001C}', '\U{001D}', '\U{001E}', '\U{0085}', '\U{2028}', '\U{2029}'
  }

  /** Line feeds and carriage returns end a line; the characters of a key and the equals sign do not. */
  ghost predicate EndsLines(ends: set<char>) {
    '\n' in ends && '\r' in ends && '=' !in ends && forall c :: KeyChar(c) ==> c !in ends
  }

  lemma BoundariesEndLines()
    ensures EndsLines(BOUNDARIES)
  {
  }

  predicate OneLine(s: string, ends: set<char>) {
    forall i :: 0 <= i < |s| ==> s[i] !in ends
  }

  function FirstBoundary(s: string, ends: set<char>): (n: nat)
    ensures n <= |s| && OneLine(s[..n], ends) && (n < |s| ==> s[n] in ends)
  {
    if s == [] || s[0] in ends then 0
    else
      var n := 1 + FirstBoundary(s[1..], ends);
      assert s[..n] == [s[0]] + s[1..][..n - 1];
      n
  }

  /** What follows the boundary at the start of s: a carriage return and the line feed after it are one boundary. */
  function AfterBoundary(s: string): (r: string)
    requires s != []
    ensures |r| < |s|
  {
    if s[0] == '\r' && |s| > 1 && s[1] == '\n' then s[2..] else s[1..]
  }

  /** The lines of s, when this much of its first line has been seen. */
  function Scan(s: string, line: string, ends: set<char>): seq<string>
    decreases |s|
  {
    if s == [] then if line == [] then [] else [line]
    else if s[0] in ends then [line] + Scan(AfterBoundary(s), [], ends)
    else Scan(s[1..], line + [s[0]], ends)
  }

  /** str.splitlines() */
  function SplitLines(s: string, ends: set<char>): seq<string> {
    Scan(s, [], ends)
  }

  /** Universal-newline translation. */
  function Universal(s: string): (r: string)
    ensures '\r' !in r
  {
    if s == [] then []
    else if s[0] != '\r' then [s[0]] + Universal(s[1..])
    else if |s| > 1 && s[1] == '\n' then ['\n'] + Universal(s[2..])
    else ['\n'] + Universal(s[1..])
  }

  lemma {:induction false} UniversalKeeps(s: string)
    requires '\r' !in s
    ensures Universal(s) == s
  {
    if s != [] {
      assert s[0] in s;
      UniversalKeeps(s[1..]);
    }
  }

  /** Text that ends with a line feed is split apart from what follows. */
  lemma {:induction false} ScanConcat(a: string, line: string, x: string, ends: set<char>)
    requires EndsLines(ends) && a != [] && a[|a| - 1] == '\n'
    ensures Scan(a + x, line, ends) == Scan(a, line, ends) + Scan(x, [], ends)
    decreases |a|
  {
    assert (a + x)[1..] == a[1..] + x;
    if a[0] in ends {
      var rest := AfterBoundary(a);
      assert AfterBoundary(a + x) == rest + x;
      if rest == [] {
        assert rest + x == x;
      } else {
        ScanConcat(rest, [], x, ends);
      }
    } else {
      ScanConcat(a[1..], line + [a[0]], x, ends);
    }
  }

  /** The first line runs up to the first boundary. */
  lemma {:induction false} ScanCuts(v: string, line: string, ends: set<char>)
    requires EndsLines(ends)
    ensures var lines := Scan(v + "\n", line, ends); lines != [] && lines[0] == line + v[..FirstBoundary(v, ends)]
  {
    var s := v + "\n";
    if v == [] || v[0] in ends {
      assert s[0] in ends;
    } else {
      assert s[1..] == v[1..] + "\n";
      ScanCuts(v[1..], line + [v[0]], ends);
      assert v[..FirstBoundary(v, ends)] == [v[0]] + v[1..][..FirstBoundary(v[1..], ends)];
    }
  }

  /** A line without boundaries is one line. */
  lemma {:induction false} ScanOneLine(v: string, line: string, ends: set<char>)
    requires EndsLines(ends) && OneLine(v, ends)
    ensures Scan(v + "\n", line, ends) == [line + v]
  {
    var s := v + "\n";
    if v == [] {
      assert AfterBoundary(s) == [] && line + v == line;
    } else {
      assert s[1..] == v[1..] + "\n";
      ScanOneLine(v[1..], line + [v[0]], ends);
      assert line + v == line + [v[0]] + v[1..];
    }
  }

  // ---------------------------------------------------------------- the reader

  function IndexOf(s: string, c: char): (n: nat)
    ensures n <= |s| && (n < |s| ==> s[n] == c) && forall i :: 0 <= i < n ==> s[i] != c
  {
    if s == [] || s[0] == c then 0
    else
      var n := 1 + IndexOf(s[1..], c);
      assert forall i :: 0 < i < n ==> s[i] == s[1..][i - 1];
      n
  }

  function ReadLine(line: string, acc: Values, approved: set<string>): Result<Values, ReadError> {
    if '\r' in line then Err(CarriageReturn)
    else if line == [] || line[0] == '#' then Ok(acc)
    else
      var n := IndexOf(line, '=');
      if n == |line| then Err(InvalidLine)
      else if line[..n] !in approved then Err(UnapprovedKey)
      else if line[..n] in acc then Err(RepeatedKey)
      else Ok(acc[line[..n] := line[n + 1..]])
  }

  function ReadLines(lines: seq<string>, acc: Values, approved: set<string>): Result<Values, ReadError> {
    if lines == [] then Ok(acc)
    else
      var r := ReadLine(lines[0], acc, approved);
      if r.Err? then r else ReadLines(lines[1..], r.value, approved)
  }

  /** read_generated_environment on the text of the file. */
  method ReadGeneratedEnvironment(text: string, approved: set<string>) returns (result: Result<Values, ReadError>)
    ensures result == ReadLines(SplitLines(Universal(text), BOUNDARIES), map[], approved)
  {
    var values: Values := map[];
    var lines := SplitLines(Universal(text), BOUNDARIES);
    for i := 0 to |lines|
      invariant ReadLines(lines, map[], approved) == ReadLines(lines[i..], values, approved)
    {
      var line := lines[i];
      assert lines[i..][0] == line && lines[i..][1..] == lines[i + 1..];
      if '\r' in line { return Err(CarriageReturn); }
      if line != [] && line[0] != '#' {
        var n := IndexOf(line, '=');
        if n == |line| { return Err(InvalidLine); }
        var key, value := line[..n], line[n + 1..];
        if key !in approved { return Err(UnapprovedKey); }
        if key in values { return Err(RepeatedKey); }
        values := values[key := value];
      }
    }
    return Ok(values);
  }

  /** After newline translation the reader's carriage-return check never fires. */
  lemma {:induction false} NoReturnsLeft(s: string, line: string, i: nat, ends: set<char>)
    requires '\r' !in s && '\r' !in line && i < |Scan(s, line, ends)|
    ensures '\r' !in Scan(s, line, ends)[i]
    decreases |s|
  {
    if s != [] {
      if s[0] !in ends {
        NoReturnsLeft(s[1..], line + [s[0]], i, ends);
      } else if i > 0 {
        NoReturnsLeft(AfterBoundary(s), [], i - 1, ends);
      }
    }
  }

  // ---------------------------------------------------------------- the printer

  /** shell_value refuses line feeds and carriage returns, and nothing else. */
  predicate Printable(values: Values) {
    forall k :: k in values ==> '\n' !in values[k] && '\r' !in values[k]
  }

  function Line(k: string, v: string): string {
    k + "=" + v
  }

  function PrintKeys(keys: seq<string>, values: Values): string
    requires forall k :: k in keys ==> k in values
  {
    if keys == [] then [] else Line(keys[0], values[keys[0]]) + "\n" + PrintKeys(keys[1..], values)
  }

  lemma PrintStep(out: string, keys: seq<string>, i: nat, values: Values)
    requires i < |keys| && forall k :: k in keys ==> k in values
    ensures forall k :: k in keys[i..] ==> k in values
    ensures forall k :: k in keys[i + 1..] ==> k in values
    ensures out + PrintKeys(keys[i..], values) == (out + Line(keys[i], values[keys[i]]) + "\n") + PrintKeys(keys[i + 1..], values)
  {
    assert keys[i..][1..] == keys[i + 1..];
    var entry, rest := Line(keys[i], values[keys[i]]) + "\n", PrintKeys(keys[i + 1..], values);
    assert out + (entry + rest) == (out + entry) + rest;
    assert out + entry == out + Line(keys[i], values[keys[i]]) + "\n";
  }

  /** generated_environment on the table of values; None when a value is refused. */
  method GeneratedEnvironment(values: Values) returns (text: Option<string>)
    ensures text == if Printable(values) then Some(PrintKeys(SortedSeq(values.Keys), values)) else None
  {
    var keys := SortedKeys(values.Keys);
    text := PrintValues(keys, values);
    assert (forall k :: k in keys ==> '\n' !in values[k] && '\r' !in values[k]) <==> Printable(values);
  }

  method PrintValues(keys: seq<string>, values: Values) returns (text: Option<string>)
    requires forall k :: k in keys ==> k in values
    ensures text.Some? <==> forall k :: k in keys ==> '\n' !in values[k] && '\r' !in values[k]
    ensures text.Some? ==> text.value == PrintKeys(keys, values)
  {
    var out := "";
    for i := 0 to |keys|
      invariant forall k :: k in keys[i..] ==> k in values
      invariant out + PrintKeys(keys[i..], values) == PrintKeys(keys, values)
      invariant forall j :: 0 <= j < i ==> '\n' !in values[keys[j]] && '\r' !in values[keys[j]]
    {
      var v := values[keys[i]];
      if '\n' in v || '\r' in v { return None; }
      PrintStep(out, keys, i, values);
      out := out + Line(keys[i], v) + "\n";
    }
    assert out + [] == out;
    return Some(out);
  }

  // ---------------------------------------------------------------- the round trip

  ghost predicate Clean(values: Values, ends: set<char>) {
    forall k :: k in values ==> OneLine(values[k], ends)
  }

  function Lines(keys: seq<string>, values: Values): (r: seq<string>)
    requires forall k :: k in keys ==> k in values
  {
    if keys == [] then [] else [Line(keys[0], values[keys[0]])] + Lines(keys[1..], values)
  }

  lemma PlainLine(k: string, v: string, ends: set<char>)
    requires EndsLines(ends) && Plain(k) && OneLine(v, ends)
    ensures OneLine(Line(k, v), ends)
  {
  }

  lemma {:induction false} CleanPrintSplits(keys: seq<string>, values: Values, ends: set<char>)
    requires EndsLines(ends) && forall k :: k in keys ==> k in values && Plain(k) && OneLine(values[k], ends)
    ensures SplitLines(PrintKeys(keys, values), ends) == Lines(keys, values)
  {
    if keys != [] {
      var line, rest := Line(keys[0], values[keys[0]]), PrintKeys(keys[1..], values);
      CleanPrintSplits(keys[1..], values, ends);
      PlainLine(keys[0], values[keys[0]], ends);
      ScanOneLine(line, [], ends);
      assert [] + line == line;
      ScanConcat(line + "\n", [], rest, ends);
    }
  }

  /** Reading one line of a plain key gives its value, whatever the value holds besides line boundaries. */
  lemma ReadsLine(k: string, v: string, acc: Values, approved: set<string>)
    requires Plain(k) && k in approved && '\r' !in v
    ensures ReadLine(Line(k, v), acc, approved) == if k in acc then Err(RepeatedKey) else Ok(acc[k := v])
  {
    var line := Line(k, v);
    assert line[0] == k[0];
    assert line[..|k|] == k && line[|k|] == '=' && line[|k| + 1..] == v;
    assert IndexOf(line, '=') == |k|;
  }

  function Chosen(keys: seq<string>, values: Values): Values
    requires forall k :: k in keys ==> k in values
  {
    map k | k in keys :: values[k]
  }

  lemma ChosenStep(keys: seq<string>, values: Values, acc: Values)
    requires keys != [] && (forall k :: k in keys ==> k in values) && keys[0] !in keys[1..]
    ensures acc[keys[0] := values[keys[0]]] + Chosen(keys[1..], values) == acc + Chosen(keys, values)
  {
    assert forall k :: k in keys <==> k == keys[0] || k in keys[1..];
  }

  lemma {:induction false} ReadsCleanLines(keys: seq<string>, values: Values, acc: Values, approved: set<string>)
    requires forall k :: k in keys ==> k in values && k in approved && Plain(k) && '\r' !in values[k] && k !in acc
    requires StrictlySorted(keys)
    ensures ReadLines(Lines(keys, values), acc, approved) == Ok(acc + Chosen(keys, values))
  {
    if keys == [] {
      assert acc + Chosen(keys, values) == acc;
    } else {
      var k := keys[0];
      assert k in keys;
      ReadsLine(k, values[k], acc, approved);
      LessTotal(k, k);
      ReadsCleanLines(keys[1..], values, acc[k := values[k]], approved);
      ChosenStep(keys, values, acc);
    }
  }

  /** What was read stays as it was read. */
  lemma {:induction false} AccStays(lines: seq<string>, acc: Values, approved: set<string>, k: string)
    requires k in acc && ReadLines(lines, acc, approved).Ok?
    ensures var r := ReadLines(lines, acc, approved).value; k in r && r[k] == acc[k]
  {
    if lines != [] {
      AccStays(lines[1..], ReadLine(lines[0], acc, approved).value, approved, k);
    }
  }

  lemma {:induction false} LineIsKept(lines: seq<string>, i: nat, acc: Values, approved: set<string>, k: string, v: string)
    requires i < |lines| && lines[i] == Line(k, v) && Plain(k) && k in approved && '\r' !in v
    requires ReadLines(lines, acc, approved).Ok?
    ensures var r := ReadLines(lines, acc, approved).value; k in r && r[k] == v
  {
    var next := ReadLine(lines[0], acc, approved);
    if i == 0 {
      ReadsLine(k, v, acc, approved);
      AccStays(lines[1..], next.value, approved, k);
    } else {
      LineIsKept(lines[1..], i - 1, next.value, approved, k, v);
    }
  }

  /** The line of a key is cut at the first boundary of its value. */
  lemma {:induction false} FindsCutLine(keys: seq<string>, j: nat, values: Values, ends: set<char>) returns (i: nat)
    requires EndsLines(ends) && j < |keys| && forall k :: k in keys ==> k in values && Plain(k)
    ensures var lines, v := SplitLines(PrintKeys(keys, values), ends), values[keys[j]];
      i < |lines| && lines[i] == Line(keys[j], v[..FirstBoundary(v, ends)])
  {
    var entry, rest := Line(keys[0], values[keys[0]]) + "\n", PrintKeys(keys[1..], values);
    ScanConcat(entry, [], rest, ends);
    if j == 0 {
      i := 0;
      CutsFirst(keys[0], values[keys[0]], ends);
    } else {
      i := FindsCutLine(keys[1..], j - 1, values, ends);
      i := i + |SplitLines(entry, ends)|;
    }
  }

  lemma CutsFirst(k: string, v: string, ends: set<char>)
    requires EndsLines(ends) && Plain(k)
    ensures var lines := SplitLines(Line(k, v) + "\n", ends); lines != [] && lines[0] == Line(k, v[..FirstBoundary(v, ends)])
  {
    ScanCuts(Line(k, v), [], ends);
    BoundaryAfter(k + "=", v, ends);
    assert Line(k, v)[..|k| + 1 + FirstBoundary(v, ends)] == Line(k, v[..FirstBoundary(v, ends)]);
  }

  lemma {:induction false} BoundaryAfter(a: string, v: string, ends: set<char>)
    requires OneLine(a, ends)
    ensures FirstBoundary(a + v, ends) == |a| + FirstBoundary(v, ends)
  {
    if a == [] {
      assert a + v == v;
    } else {
      assert (a + v)[1..] == a[1..] + v;
      BoundaryAfter(a[1..], v, ends);
    }
  }

  lemma {:induction false} PrintHasNoReturns(keys: seq<string>, values: Values)
    requires forall k :: k in keys ==> k in values && Plain(k) && '\r' !in values[k]
    ensures '\r' !in PrintKeys(keys, values)
  {
    if keys != [] {
      PrintHasNoReturns(keys[1..], values);
      assert keys[0] in keys && Plain(keys[0]);
      assert forall c :: c in keys[0] ==> KeyChar(c);
    }
  }

  lemma CleanReadsBack(keys: seq<string>, values: Values, approved: set<string>, ends: set<char>)
    requires EndsLines(ends) && StrictlySorted(keys) && Lists(keys, values.Keys)
    requires values.Keys <= approved && AllPlain(approved) && Printable(values) && Clean(values, ends)
    ensures ReadLines(SplitLines(PrintKeys(keys, values), ends), map[], approved) == Ok(values)
  {
    CleanPrintSplits(keys, values, ends);
    ReadsCleanLines(keys, values, map[], approved);
    assert map[] + Chosen(keys, values) == values;
  }

  lemma UncleanDoesNot(keys: seq<string>, j: nat, values: Values, approved: set<string>, ends: set<char>)
    requires EndsLines(ends) && j < |keys| && (forall k :: k in keys ==> k in values && Plain(k) && k in approved) && !OneLine(values[keys[j]], ends)
    requires '\r' !in values[keys[j]]
    ensures ReadLines(SplitLines(PrintKeys(keys, values), ends), map[], approved) != Ok(values)
  {
    var i := FindsCutLine(keys, j, values, ends);
    var v := values[keys[j]];
    CutIsShorter(v, ends);
    var lines := SplitLines(PrintKeys(keys, values), ends);
    if ReadLines(lines, map[], approved).Ok? {
      LineIsKept(lines, i, map[], approved, keys[j], v[..FirstBoundary(v, ends)]);
    }
  }

  /** Printing and reading back gives the same values exactly when no value holds any line boundary. */
  lemma RoundTrip(values: Values, approved: set<string>, ends: set<char>)
    requires EndsLines(ends) && values.Keys <= approved && AllPlain(approved) && Printable(values)
    ensures ReadLines(SplitLines(Universal(PrintKeys(SortedSeq(values.Keys), values)), ends), map[], approved) == Ok(values) <==> Clean(values, ends)
  {
    var keys := SortedSeq(values.Keys);
    PrintHasNoReturns(keys, values);
    UniversalKeeps(PrintKeys(keys, values));
    if Clean(values, ends) {
      CleanReadsBack(keys, values, approved, ends);
    } else {
      var k :| k in values && !OneLine(values[k], ends);
      var j :| 0 <= j < |keys| && keys[j] == k;
      UncleanDoesNot(keys, j, values, approved, ends);
    }
  }

  lemma CutIsShorter(v: string, ends: set<char>)
    requires !OneLine(v, ends)
    ensures FirstBoundary(v, ends) < |v| && v[..FirstBoundary(v, ends)] != v
  {
    assert v[..|v|] == v;
  }

  /** The round trip over the approved keys: what is printed is read back, values with an equals sign included. */
  lemma GeneratedRoundTrip(values: Values)
    requires values.Keys <= GENERATED_ENV_KEYS && Printable(values)
    ensures ReadLines(SplitLines(Universal(PrintKeys(SortedSeq(values.Keys), values)), BOUNDARIES), map[], GENERATED_ENV_KEYS) == Ok(values)
        <==> Clean(values, BOUNDARIES)
  {
    GeneratedKeysPlain();
    BoundariesEndLines();
    RoundTrip(values, GENERATED_ENV_KEYS, BOUNDARIES);
  }

  /** Any value with a boundary that the printer lets through spoils the whole table. */
  lemma LetThroughIsLost(values: Values, key: string, i: nat)
    requires values.Keys == GENERATED_ENV_KEYS && Printable(values)
    requires key in values && i < |values[key]| && values[key][i] in BOUNDARIES
    ensures ReadLines(SplitLines(Universal(PrintKeys(SortedSeq(values.Keys), values)), BOUNDARIES), map[], GENERATED_ENV_KEYS) != Ok(values)
  {
    assert !OneLine(values[key], BOUNDARIES);
    GeneratedRoundTrip(values);
  }

  const NEXT_LINE_ROOT := "/srv/\U{0085}"

  /** A full table whose persistent root is a directory that is named by a next-line character. */
  function NextLineTable(): Values {
    map key | key in GENERATED_ENV_KEYS :: if key == PERSIST_ROOT_ENV then NEXT_LINE_ROOT else "1"
  }

  lemma NextLineIsPrintable()
    ensures Printable(NextLineTable())
  {
  }

  /** The preflight prints it, and it does not read back. */
  lemma NextLineIsLost()
    ensures var values := NextLineTable();
      && values.Keys == GENERATED_ENV_KEYS && values[PERSIST_ROOT_ENV] == NEXT_LINE_ROOT && Printable(values)
      && ReadLines(SplitLines(Universal(PrintKeys(SortedSeq(values.Keys), values)), BOUNDARIES), map[], GENERATED_ENV_KEYS) != Ok(values)
  {
    var values := NextLineTable();
    NextLineIsPrintable();
    assert PERSIST_ROOT_ENV in HOST_KEYS && PERSIST_ROOT_ENV in values;
    assert values[PERSIST_ROOT_ENV][5] in BOUNDARIES;
    LetThroughIsLost(values, PERSIST_ROOT_ENV, 5);
  }
}
