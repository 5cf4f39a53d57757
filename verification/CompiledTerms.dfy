/** What a compiled context is, in terms of the delivered packets and the policy alone. */
module CompiledTerms {
  import opened Common
  import opened ContextPacket
  import opened ContextMerge
  import opened Graphs
  import opened ContextCompiler
  import opened CompiledContext
  import Strings

  // ---------------------------------------------------------------- evidence as delivered

  /** Delivered item k has the content that was delivered first under its id. */
  ghost predicate Wins(stream: seq<EvidenceRef>, k: nat)
    requires k < |stream|
  {
    exists i :: 0 <= i <= k && stream[i].evidenceId == stream[k].evidenceId && stream[i].contentSha == stream[k].contentSha
      && forall h :: 0 <= h < i ==> stream[h].evidenceId != stream[k].evidenceId
  }

  /** Delivered item k is the copy in force for this id: the last one with the content that came first. */
  ghost predicate InForce(stream: seq<EvidenceRef>, id: string, k: nat) {
    && k < |stream| && stream[k].evidenceId == id && Wins(stream, k)
    && forall j :: k < j < |stream| && stream[j].evidenceId == id ==> !Wins(stream, j)
  }

  ghost predicate FirstAt(stream: seq<EvidenceRef>, id: string, i: nat) {
    i < |stream| && stream[i].evidenceId == id && forall h :: 0 <= h < i ==> stream[h].evidenceId != id
  }

  ghost predicate LastAt(stream: seq<EvidenceRef>, id: string, sha: string, k: nat) {
    && k < |stream| && stream[k].evidenceId == id && stream[k].contentSha == sha
    && forall j :: k < j < |stream| && stream[j].evidenceId == id ==> stream[j].contentSha != sha
  }

  lemma {:induction false} FirstCopyTerms(stream: seq<EvidenceRef>, id: string) returns (i: nat)
    ensures FirstCopy(stream, id).None? <==> forall k :: 0 <= k < |stream| ==> stream[k].evidenceId != id
    ensures FirstCopy(stream, id).Some? ==> FirstAt(stream, id, i) && stream[i] == FirstCopy(stream, id).value
  {
    i := 0;
    if stream != [] {
      var n := |stream| - 1;
      i := FirstCopyTerms(stream[..n], id);
      assert forall k :: 0 <= k < n ==> stream[k] == stream[..n][k];
      if FirstCopy(stream[..n], id).None? { i := n; }
    }
  }

  lemma {:induction false} LastCopyTerms(stream: seq<EvidenceRef>, id: string, sha: string) returns (k: nat)
    ensures LastCopy(stream, id, sha).Some? ==> LastAt(stream, id, sha, k) && stream[k] == LastCopy(stream, id, sha).value
  {
    k := 0;
    if stream != [] {
      var n := |stream| - 1;
      k := LastCopyTerms(stream[..n], id, sha);
      assert forall j :: 0 <= j < n ==> stream[j] == stream[..n][j];
      if stream[n].evidenceId == id && stream[n].contentSha == sha { k := n; }
    }
  }

  lemma WinsTerms(stream: seq<EvidenceRef>, id: string, first: nat, k: nat)
    requires FirstAt(stream, id, first) && k < |stream| && stream[k].evidenceId == id
    ensures Wins(stream, k) <==> stream[k].contentSha == stream[first].contentSha
  {
    if Wins(stream, k) {
      var i :| 0 <= i <= k && stream[i].evidenceId == id && stream[i].contentSha == stream[k].contentSha
        && forall h :: 0 <= h < i ==> stream[h].evidenceId != id;
      assert i == first;
    }
  }

  /** The content that wins an id is this one. */
  ghost predicate WinningContent(stream: seq<EvidenceRef>, id: string, sha: string) {
    forall k :: 0 <= k < |stream| && stream[k].evidenceId == id ==> (Wins(stream, k) <==> stream[k].contentSha == sha)
  }

  lemma FirstContentWins(stream: seq<EvidenceRef>, id: string)
    requires FirstCopy(stream, id).Some?
    ensures WinningContent(stream, id, FirstCopy(stream, id).value.contentSha)
  {
    var first := FirstCopyTerms(stream, id);
    forall k | 0 <= k < |stream| && stream[k].evidenceId == id
      ensures Wins(stream, k) <==> stream[k].contentSha == stream[first].contentSha
    {
      WinsTerms(stream, id, first, k);
    }
  }

  lemma LastWinnerInForce(stream: seq<EvidenceRef>, id: string, sha: string, k: nat)
    requires WinningContent(stream, id, sha) && LastAt(stream, id, sha, k)
    ensures InForce(stream, id, k)
  {
  }

  /** The item held for an id is the copy in force. */
  lemma HeldIsInForce(stream: seq<EvidenceRef>, id: string)
    ensures var held := HoldEvidence(map[], stream);
      && (id in held <==> exists i :: 0 <= i < |stream| && stream[i].evidenceId == id)
      && (id in held ==> exists k: nat :: InForce(stream, id, k) && stream[k] == held[id])
  {
    var held := HoldEvidence(map[], stream);
    HeldHasFirstContent(stream, id);
    var first := FirstCopyTerms(stream, id);
    if id in held {
      var sha := held[id].contentSha;
      HeldIsLastCopy(stream, id);
      FirstContentWins(stream, id);
      var k := LastCopyTerms(stream, id, sha);
      LastWinnerInForce(stream, id, sha, k);
    }
  }

  lemma InForceUnique(stream: seq<EvidenceRef>, id: string, j: nat, k: nat)
    requires InForce(stream, id, j) && InForce(stream, id, k)
    ensures j == k
  {
  }

  // ---------------------------------------------------------------- primary evidence

  /** The same letter, in either case of the ASCII alphabet. */
  predicate SameLetter(c: char, d: char) {
    || c == d
    || ('A' <= c <= 'Z' && d as int == c as int + 32)
    || ('A' <= d <= 'Z' && c as int == d as int + 32)
  }

  predicate NamesSource(sourceType: string, sources: seq<string>) {
    exists i :: 0 <= i < |sources| && |sources[i]| == |sourceType|
      && forall k :: 0 <= k < |sourceType| ==> SameLetter(sourceType[k], sources[i][k])
  }

  lemma SourceTerms(sourceType: string, sources: seq<string>)
    ensures IsPrimary(sourceType, sources) <==> NamesSource(sourceType, sources)
  {
    if IsPrimary(sourceType, sources) {
      var p :| p in sources && EqualFold(sourceType, p);
      var i :| 0 <= i < |sources| && sources[i] == p;
      assert forall k :: 0 <= k < |sourceType| ==> SameLetter(sourceType[k], sources[i][k]);
    }
    if NamesSource(sourceType, sources) {
      var i :| 0 <= i < |sources| && |sources[i]| == |sourceType|
        && forall k :: 0 <= k < |sourceType| ==> SameLetter(sourceType[k], sources[i][k]);
      assert EqualFold(sourceType, sources[i]);
    }
  }

  /** Of the evidence delivered in these packets, the copy in force for this id is of a primary source. */
  ghost predicate PrimaryId(packets: seq<Packet>, id: string, sources: seq<string>) {
    var stream := EvidenceStream(packets);
    exists k: nat :: InForce(stream, id, k) && NamesSource(stream[k].sourceType, sources)
  }

  ghost predicate CitesPrimarySource(packets: seq<Packet>, f: Finding, sources: seq<string>) {
    exists ref :: ref in f.evidenceRefs && PrimaryId(packets, ref, sources)
  }

  lemma HeldPrimary(stream: seq<EvidenceRef>, id: string, sources: seq<string>)
    ensures var held := HoldEvidence(map[], stream);
      id in held && NamesSource(held[id].sourceType, sources)
      <==> exists k: nat :: InForce(stream, id, k) && NamesSource(stream[k].sourceType, sources)
  {
    var held := HoldEvidence(map[], stream);
    HeldIsInForce(stream, id);
    if id in held {
      var k: nat :| InForce(stream, id, k) && stream[k] == held[id];
      forall j: nat | InForce(stream, id, j) ensures j == k { InForceUnique(stream, id, j, k); }
    }
  }

  lemma PrimaryIdTerms(packets: seq<Packet>, policy: Policy, id: string)
    ensures var m := Merged(packets, policy); id in m.primary && m.primary[id] <==> PrimaryId(packets, id, policy.primarySources)
  {
    var m := Merged(packets, policy);
    MergedHoldsStream(packets, policy);
    MergedConsistent(packets, policy);
    HeldPrimary(EvidenceStream(packets), id, policy.primarySources);
    if id in m.evidence { SourceTerms(m.evidence[id].sourceType, policy.primarySources); }
  }

  lemma CitesPrimaryTerms(packets: seq<Packet>, policy: Policy, f: Finding)
    ensures CitesPrimary(Merged(packets, policy), f) <==> CitesPrimarySource(packets, f, policy.primarySources)
  {
    forall ref | ref in f.evidenceRefs
      ensures var m := Merged(packets, policy); ref in m.primary && m.primary[ref] <==> PrimaryId(packets, ref, policy.primarySources)
    {
      PrimaryIdTerms(packets, policy, ref);
    }
  }

  // ---------------------------------------------------------------- where a ranked item comes from

  /** Finding i of packet p is the first one delivered for its claim. */
  ghost predicate FirstOfClaim(packets: seq<Packet>, p: nat, i: nat) {
    && p < |packets| && i < |packets[p].findings|
    && (forall q, j :: 0 <= q < p && 0 <= j < |packets[q].findings| ==> packets[q].findings[j].claimId != packets[p].findings[i].claimId)
    && forall j :: 0 <= j < i ==> packets[p].findings[j].claimId != packets[p].findings[i].claimId
  }

  /** The item is that finding with its key, marked as primary when the evidence delivered by then says so. */
  ghost predicate Came(packets: seq<Packet>, sources: seq<string>, p: nat, i: nat, item: Ranked) {
    && FirstOfClaim(packets, p, i) && item.finding == packets[p].findings[i] && item.order == p * 1000 + i
    && (item.primary <==> CitesPrimarySource(packets[..p + 1], item.finding, sources))
  }

  ghost predicate CameFromPacket(m: Merge, findings: seq<Finding>, packetIndex: nat, i: nat, item: Ranked) {
    && i < |findings| && item == Ranked(findings[i], CitesPrimary(m, findings[i]), packetIndex * 1000 + i)
    && findings[i].claimId !in m.claims && forall j :: 0 <= j < i ==> findings[j].claimId != findings[i].claimId
  }

  lemma {:induction false} AddedItemsCame(m: Merge, findings: seq<Finding>, packetIndex: nat, item: Ranked)
    requires item in AddAllFindings(m, findings, packetIndex).ranked && item !in m.ranked
    ensures exists i: nat :: CameFromPacket(m, findings, packetIndex, i, item)
  {
    var n := |findings| - 1;
    var before := AddAllFindings(m, findings[..n], packetIndex);
    if item in before.ranked {
      AddedItemsCame(m, findings[..n], packetIndex, item);
      var i: nat :| CameFromPacket(m, findings[..n], packetIndex, i, item);
      assert forall j :: 0 <= j <= i ==> findings[..n][j] == findings[j];
      assert CameFromPacket(m, findings, packetIndex, i, item);
    } else {
      LastAdded(m, findings, packetIndex, item);
    }
  }

  lemma LastAdded(m: Merge, findings: seq<Finding>, packetIndex: nat, item: Ranked)
    requires findings != [] && item in AddAllFindings(m, findings, packetIndex).ranked
    requires item !in AddAllFindings(m, findings[..|findings| - 1], packetIndex).ranked
    ensures CameFromPacket(m, findings, packetIndex, |findings| - 1, item)
  {
    var n := |findings| - 1;
    var before := AddAllFindings(m, findings[..n], packetIndex);
    AddAllFindingsKeepsEvidence(m, findings[..n], packetIndex);
    AddAllFindingsExtends(m, findings[..n], packetIndex);
    AddAllFindingsSettles(m, findings[..n], packetIndex);
    forall j | 0 <= j < n ensures findings[j].claimId in before.claims {
      assert findings[..n][j] in findings[..n] && FindingSettled(before, findings[..n][j]);
    }
  }

  lemma {:induction false} MergedCame(packets: seq<Packet>, policy: Policy, item: Ranked)
    requires item in Merged(packets, policy).ranked
    ensures exists p: nat, i: nat :: Came(packets, policy.primarySources, p, i, item)
  {
    var n := |packets| - 1;
    var before := Merged(packets[..n], policy);
    if item in before.ranked {
      MergedCame(packets[..n], policy, item);
      var p: nat, i: nat :| Came(packets[..n], policy.primarySources, p, i, item);
      CameInMore(packets, n, policy.primarySources, p, i, item);
    } else {
      NewItemCame(packets, policy, item);
    }
  }

  lemma CameInMore(packets: seq<Packet>, n: nat, sources: seq<string>, p: nat, i: nat, item: Ranked)
    requires n <= |packets| && Came(packets[..n], sources, p, i, item)
    ensures Came(packets, sources, p, i, item)
  {
    assert packets[..n][..p + 1] == packets[..p + 1];
    assert forall q :: 0 <= q <= p ==> packets[..n][q] == packets[q];
  }

  lemma {:induction false} NewItemCame(packets: seq<Packet>, policy: Policy, item: Ranked)
    requires packets != [] && item in Merged(packets, policy).ranked && item !in Merged(packets[..|packets| - 1], policy).ranked
    ensures exists p: nat, i: nat :: Came(packets, policy.primarySources, p, i, item)
  {
    var n := |packets| - 1;
    var p, before := packets[n], Merged(packets[..n], policy);
    var withEvidence := AddAllEvidence(Noted(before, p), p.evidence, policy);
    AddAllEvidenceKeepsClaims(Noted(before, p), p.evidence, policy);
    AddAllFindingsKeepsEvidence(withEvidence, p.findings, n);
    AddedItemsCame(withEvidence, p.findings, n, item);
    var i: nat :| CameFromPacket(withEvidence, p.findings, n, i, item);
    forall q, j | 0 <= q < n && 0 <= j < |packets[q].findings| ensures packets[q].findings[j].claimId in before.claims {
      EarlierClaimKnown(packets, n, policy, q, j);
    }
    CitesPrimaryTerms(packets, policy, item.finding);
    assert packets[..n + 1] == packets;
    assert Came(packets, policy.primarySources, n, i, item);
  }

  lemma EarlierClaimKnown(packets: seq<Packet>, n: nat, policy: Policy, q: nat, j: nat)
    requires q < n <= |packets| && j < |packets[q].findings|
    ensures packets[q].findings[j].claimId in Merged(packets[..n], policy).claims
  {
    MergedSettles(packets[..n], policy);
    assert packets[..n][q] in packets[..n];
    assert FindingSettled(Merged(packets[..n], policy), packets[q].findings[j]);
  }

  // ---------------------------------------------------------------- the order of the output

  /** A fact that cites a primary source, judged by the evidence delivered up to the packet in which its claim first stood. */
  ghost predicate PrimaryFact(packets: seq<Packet>, sources: seq<string>, f: Finding) {
    f.claimType == Fact && exists p: nat, i: nat ::
      FirstOfClaim(packets, p, i) && packets[p].findings[i] == f && CitesPrimarySource(packets[..p + 1], f, sources)
  }

  lemma FirstOfClaimUnique(packets: seq<Packet>, p: nat, i: nat, q: nat, j: nat)
    requires FirstOfClaim(packets, p, i) && FirstOfClaim(packets, q, j)
    requires packets[p].findings[i].claimId == packets[q].findings[j].claimId
    ensures p == q && i == j
  {
  }

  lemma PrimaryFactTerms(packets: seq<Packet>, sources: seq<string>, p: nat, i: nat, item: Ranked)
    requires Came(packets, sources, p, i, item)
    ensures PrimaryFact(packets, sources, item.finding) <==> item.finding.claimType == Fact && item.primary
  {
    if PrimaryFact(packets, sources, item.finding) {
      var q: nat, j: nat :| FirstOfClaim(packets, q, j) && packets[q].findings[j] == item.finding
        && CitesPrimarySource(packets[..q + 1], item.finding, sources);
      FirstOfClaimUnique(packets, p, i, q, j);
    }
  }

  /** Primary facts, then calculations, then other facts, then inferences, then the rest: f is no worse than g. */
  ghost predicate NoWorse(packets: seq<Packet>, sources: seq<string>, f: Finding, g: Finding) {
    && (PrimaryFact(packets, sources, g) ==> PrimaryFact(packets, sources, f))
    && (g.claimType == Calculation ==> f.claimType == Calculation || PrimaryFact(packets, sources, f))
    && (g.claimType == Fact ==> f.claimType in {Fact, Calculation})
    && (g.claimType == Inference ==> f.claimType in {Fact, Calculation, Inference})
  }

  lemma {:induction false} RankTerms(packets: seq<Packet>, policy: Policy, a: Ranked, b: Ranked)
    requires a in Merged(packets, policy).ranked && b in Merged(packets, policy).ranked
    ensures NoWorse(packets, policy.primarySources, a.finding, b.finding) <==> Rank(a) <= Rank(b)
  {
    MergedCame(packets, policy, a);
    MergedCame(packets, policy, b);
    var p: nat, i: nat :| Came(packets, policy.primarySources, p, i, a);
    var q: nat, j: nat :| Came(packets, policy.primarySources, q, j, b);
    PrimaryFactTerms(packets, policy.primarySources, p, i, a);
    PrimaryFactTerms(packets, policy.primarySources, q, j, b);
  }

  /** Along the findings of a compiled context no kind of claim comes before a better one. */
  lemma {:induction false} OutputOrder(packets: seq<Packet>, policy: Policy, c: Compiled, i: nat, j: nat)
    requires CompileSpec(packets, policy) == Ok(c) && i < j < |c.findings|
    ensures NoWorse(packets, policy.primarySources, c.findings[i], c.findings[j])
  {
    var kept := PackingOf(packets, policy).kept;
    CompiledFields(packets, policy, c);
    KeptInRankOrder(packets, policy, i, j);
    KeptItemIsRanked(packets, policy, kept[i]);
    KeptItemIsRanked(packets, policy, kept[j]);
    RankTerms(packets, EffectivePolicy(policy), kept[i], kept[j]);
  }

  // ---------------------------------------------------------------- the budget

  /** The bytes of a text in UTF-8: one for each character, and one more from each of three code points on. */
  function Bytes(s: string): nat {
    |s| + |set i | 0 <= i < |s| && s[i] as int >= 0x80| + |set i | 0 <= i < |s| && s[i] as int >= 0x800|
    + |set i | 0 <= i < |s| && s[i] as int >= 0x1_0000|
  }

  function From(s: string, bound: int): (r: set<int>)
    ensures forall i :: i in r <==> 0 <= i < |s| && s[i] as int >= bound
  {
    set i | 0 <= i < |s| && s[i] as int >= bound
  }

  lemma FromSnoc(s: string, bound: int)
    requires s != []
    ensures var n := |s| - 1; |From(s, bound)| == |From(s[..n], bound)| + if s[n] as int >= bound then 1 else 0
  {
    var n := |s| - 1;
    if s[n] as int >= bound {
      assert From(s, bound) == From(s[..n], bound) + {n};
    } else {
      assert From(s, bound) == From(s[..n], bound);
    }
  }

  lemma {:induction false} LengthSnoc(s: string, c: char)
    ensures Strings.Utf8Length(s + [c]) == Strings.Utf8Length(s) + Strings.Utf8Length([c])
  {
    if s == [] {
      assert [] + [c] == [c];
    } else {
      assert (s + [c])[1..] == s[1..] + [c];
      LengthSnoc(s[1..], c);
    }
  }

  lemma {:induction false} BytesTerms(s: string)
    ensures Strings.Utf8Length(s) == |s| + |From(s, 0x80)| + |From(s, 0x800)| + |From(s, 0x1_0000)|
  {
    if s == [] {
      assert From(s, 0x80) == {} && From(s, 0x800) == {} && From(s, 0x1_0000) == {};
    } else {
      var n := |s| - 1;
      BytesTerms(s[..n]);
      assert s == s[..n] + [s[n]] && [s[n]][1..] == [];
      LengthSnoc(s[..n], s[n]);
      FromSnoc(s, 0x80);
      FromSnoc(s, 0x800);
      FromSnoc(s, 0x1_0000);
    }
  }

  lemma LengthIsBytes(s: string)
    ensures Strings.Utf8Length(s) == Bytes(s)
  {
    BytesTerms(s);
    assert From(s, 0x80) == set i | 0 <= i < |s| && s[i] as int >= 0x80;
    assert From(s, 0x800) == set i | 0 <= i < |s| && s[i] as int >= 0x800;
    assert From(s, 0x1_0000) == set i | 0 <= i < |s| && s[i] as int >= 0x1_0000;
  }

  /** What a list of findings takes: the bytes of each statement and 32 more. */
  function Characters(findings: seq<Finding>): nat {
    if findings == [] then 0 else Characters(findings[1..]) + Bytes(findings[0].statement) + 32
  }

  lemma {:induction false} CharactersSnoc(findings: seq<Finding>, f: Finding)
    ensures Characters(findings + [f]) == Characters(findings) + Bytes(f.statement) + 32
  {
    if findings == [] {
      assert [f][1..] == [];
    } else {
      assert (findings + [f])[1..] == findings[1..] + [f];
      CharactersSnoc(findings[1..], f);
    }
  }

  lemma {:induction false} CostIsCharacters(findings: seq<Finding>)
    ensures FindingsCost(findings) == Characters(findings)
  {
    if findings != [] {
      var n := |findings| - 1;
      CostIsCharacters(findings[..n]);
      CharactersSnoc(findings[..n], findings[n]);
      LengthIsBytes(findings[n].statement);
      assert findings == findings[..n] + [findings[n]];
    }
  }

  /** The smallest number of tokens of that size that covers so many characters. */
  ghost predicate Covers(tokens: int, perToken: int, characters: nat) {
    (tokens - 1) * perToken < characters <= tokens * perToken
  }

  lemma {:induction false} TokensCover(characters: nat, perToken: nat)
    requires perToken > 0
    ensures Covers(Tokens(characters, perToken), perToken, characters)
  {
    if characters > perToken {
      var rest := Tokens(characters - perToken, perToken);
      TokensCover(characters - perToken, perToken);
      assert (rest + 1) * perToken == rest * perToken + perToken && rest * perToken == (rest - 1) * perToken + perToken;
    }
  }

  lemma CoverUnique(a: int, b: int, perToken: nat, characters: nat)
    requires perToken > 0 && Covers(a, perToken, characters) && Covers(b, perToken, characters)
    ensures a == b
  {
    if a < b { LessCovers(a, b, perToken); }
    if b < a { LessCovers(b, a, perToken); }
  }

  lemma LessCovers(a: int, b: int, perToken: nat)
    requires perToken > 0 && a < b
    ensures a * perToken <= (b - 1) * perToken
  {
    assert (b - 1 - a) * perToken >= 0;
    assert (b - 1) * perToken == a * perToken + (b - 1 - a) * perToken;
  }

  function PerToken(policy: Policy): nat {
    if policy.charsPerToken > 0 then policy.charsPerToken else 4
  }

  /** The estimate is what covers the listed findings, and it is within the budget. */
  lemma EstimateTerms(packets: seq<Packet>, policy: Policy, c: Compiled)
    requires CompileSpec(packets, policy) == Ok(c)
    ensures Covers(c.estimatedTokenCount, PerToken(policy), Characters(c.findings))
    ensures c.estimatedTokenCount <= policy.tokenBudget
  {
    CompiledWithinBudget(packets, policy, c);
    CostIsCharacters(c.findings);
    TokensCover(FindingsCost(c.findings), PerToken(policy));
  }

  // ---------------------------------------------------------------- what is dropped

  /** What was kept before item n stays in front, and what was kept later comes from item n on. */
  lemma {:induction false} PackSplits(items: seq<Ranked>, perToken: nat, budget: int, n: nat)
    requires perToken > 0 && n <= |items|
    ensures Pack(items[..n], perToken, budget).kept <= Pack(items, perToken, budget).kept
    ensures var k := |Pack(items[..n], perToken, budget).kept|;
      forall x :: x in Pack(items, perToken, budget).kept[k..] ==> x in items[n..]
    decreases |items| - n
  {
    if n < |items| {
      var m := |items| - 1;
      PackSplits(items[..m], perToken, budget, n);
      PackLast(items, perToken, budget);
      assert items[..m][..n] == items[..n] && items[n..] == items[..m][n..] + [items[m]];
    } else {
      assert items[..n] == items;
    }
  }

  /** An item that is not kept did not fit beside what was kept of the items before it. */
  lemma DroppedDoesNotFit(items: seq<Ranked>, perToken: nat, budget: int, n: nat)
    requires perToken > 0 && n < |items| && items[n] !in Pack(items, perToken, budget).kept
    ensures !FitsBeside(Pack(items[..n], perToken, budget), items[n], perToken, budget)
  {
    PackSplits(items, perToken, budget, n + 1);
    PackLast(items[..n + 1], perToken, budget);
    assert items[..n + 1][..n] == items[..n];
  }

  /** The key of the claim's first finding: 1000 for every packet before it, and one for every finding before it in its own. */
  ghost predicate HasKey(packets: seq<Packet>, f: Finding, key: int) {
    exists p: nat, i: nat :: FirstOfClaim(packets, p, i) && packets[p].findings[i] == f && key == p * 1000 + i
  }

  lemma ItemHasKey(packets: seq<Packet>, policy: Policy, item: Ranked)
    requires item in Merged(packets, policy).ranked
    ensures HasKey(packets, item.finding, item.order)
  {
    MergedCame(packets, policy, item);
  }

  /** f may stand before g: it is of a better kind, or of the same kind with no greater key. */
  ghost predicate MayPrecede(packets: seq<Packet>, sources: seq<string>, f: Finding, g: Finding) {
    && NoWorse(packets, sources, f, g)
    && (NoWorse(packets, sources, g, f) ==> exists k, l :: HasKey(packets, f, k) && HasKey(packets, g, l) && k <= l)
  }

  lemma {:induction false} SortedMayPrecede(packets: seq<Packet>, policy: Policy, a: Ranked, b: Ranked)
    requires a in Merged(packets, policy).ranked && b in Merged(packets, policy).ranked && !KeyLess(b, a)
    ensures MayPrecede(packets, policy.primarySources, a.finding, b.finding)
  {
    RankTerms(packets, policy, a, b);
    RankTerms(packets, policy, b, a);
    ItemHasKey(packets, policy, a);
    ItemHasKey(packets, policy, b);
  }

  /** The first k kept findings may stand before the dropped one, the others may not; beside the first k it overflows the budget. */
  ghost predicate DroppedBehind(packets: seq<Packet>, policy: Policy, findings: seq<Finding>, k: nat, f: Finding) {
    && k <= |findings|
    && (forall i :: 0 <= i < k ==> MayPrecede(packets, policy.primarySources, findings[i], f))
    && (forall i :: k <= i < |findings| ==> MayPrecede(packets, policy.primarySources, f, findings[i]))
    && Characters(findings[..k]) + Bytes(f.statement) + 32 > policy.tokenBudget * PerToken(policy)
  }

  lemma {:induction false} OverBudget(characters: nat, perToken: nat, budget: int)
    requires perToken > 0 && Tokens(characters, perToken) > budget
    ensures characters > budget * perToken
  {
    var tokens := Tokens(characters, perToken);
    TokensCover(characters, perToken);
    if budget < tokens { LessCovers(budget, tokens, perToken); }
  }

  lemma SortedPosition(packets: seq<Packet>, policy: Policy, n: nat, x: Ranked)
    requires var sorted := StableSort(Merged(packets, policy).ranked); n < |sorted| && x in sorted
    ensures var sorted := StableSort(Merged(packets, policy).ranked);
      && (x in sorted[..n] ==> MayPrecede(packets, policy.primarySources, x.finding, sorted[n].finding))
      && (x in sorted[n..] && x != sorted[n] ==> MayPrecede(packets, policy.primarySources, sorted[n].finding, x.finding))
  {
    var ranked := Merged(packets, policy).ranked;
    var sorted := StableSort(ranked);
    StableSortSorts(ranked);
    StableSortMembers(ranked, x);
    StableSortMembers(ranked, sorted[n]);
    if x in sorted[..n] {
      var i :| 0 <= i < n && sorted[..n][i] == x;
      SortedMayPrecede(packets, policy, x, sorted[n]);
    }
    if x in sorted[n..] && x != sorted[n] {
      var i :| 0 <= i < |sorted[n..]| && sorted[n..][i] == x;
      assert sorted[n + i] == x && i > 0;
      SortedMayPrecede(packets, policy, sorted[n], x);
    }
  }

  /** A claim that was dropped did not fit behind the kept findings that come before it. */
  lemma DroppedTerms(packets: seq<Packet>, policy: Policy, c: Compiled, p: nat, i: nat) returns (k: nat)
    requires CompileSpec(packets, policy) == Ok(c) && FirstOfClaim(packets, p, i) && packets[p].findings[i] !in c.findings
    ensures DroppedBehind(packets, policy, c.findings, k, packets[p].findings[i])
  {
    var f, e := packets[p].findings[i], EffectivePolicy(policy);
    var ranked := Merged(packets, e).ranked;
    var sorted := StableSort(ranked);
    var kept := PackingOf(packets, policy).kept;
    CompiledFields(packets, policy, c);
    var item := FirstIsRanked(packets, e, p, i);
    StableSortMembers(ranked, item);
    var n :| 0 <= n < |sorted| && sorted[n] == item;
    NotKept(kept, item);
    DroppedDoesNotFit(sorted, e.charsPerToken, e.tokenBudget, n);
    PackSplits(sorted, e.charsPerToken, e.tokenBudget, n);
    var before := Pack(sorted[..n], e.charsPerToken, e.tokenBudget);
    k := |before.kept|;
    PackWithinBudget(sorted[..n], e.charsPerToken, e.tokenBudget);
    DroppedOverflow(before, kept, item, e.charsPerToken, e.tokenBudget);
    KeptSides(sorted, e.charsPerToken, e.tokenBudget, n);
    DroppedPlace(packets, e, kept, k, n);
    PlacedFindings(packets, policy.primarySources, kept, k, item);
  }

  /** The dropped ids are those of the items at ascending places. */
  lemma {:induction false} DroppedPlaces(items: seq<Ranked>, perToken: nat, budget: int) returns (places: seq<nat>)
    requires perToken > 0
    ensures var dropped := Pack(items, perToken, budget).dropped;
      && |places| == |dropped| && (forall i, j :: 0 <= i < j < |places| ==> places[i] < places[j])
      && forall i :: 0 <= i < |places| ==> places[i] < |items| && dropped[i] == items[places[i]].finding.claimId
  {
    places := [];
    if items != [] {
      var n := |items| - 1;
      places := DroppedPlaces(items[..n], perToken, budget);
      PackLast(items, perToken, budget);
      if !FitsBeside(Pack(items[..n], perToken, budget), items[n], perToken, budget) { places := places + [n]; }
    }
  }

  /** Two first findings of these claims, and the first may stand before the second. */
  ghost predicate DropsInOrder(packets: seq<Packet>, sources: seq<string>, a: string, b: string) {
    exists f: Finding, g: Finding, k, l :: f.claimId == a && g.claimId == b && HasKey(packets, f, k) && HasKey(packets, g, l) && MayPrecede(packets, sources, f, g)
  }

  /** The dropped claims are listed in the order in which they would have stood. */
  lemma DroppedInOrder(packets: seq<Packet>, policy: Policy, c: Compiled, i: nat, j: nat)
    requires CompileSpec(packets, policy) == Ok(c) && i < j < |c.droppedForBudget|
    ensures DropsInOrder(packets, policy.primarySources, c.droppedForBudget[i], c.droppedForBudget[j])
  {
    var e := EffectivePolicy(policy);
    var ranked := Merged(packets, e).ranked;
    var sorted := StableSort(ranked);
    CompiledFields(packets, policy, c);
    var places := DroppedPlaces(sorted, e.charsPerToken, e.tokenBudget);
    var a, b := sorted[places[i]], sorted[places[j]];
    StableSortSorts(ranked);
    StableSortMembers(ranked, a);
    StableSortMembers(ranked, b);
    ItemHasKey(packets, e, a);
    ItemHasKey(packets, e, b);
    SortedMayPrecede(packets, e, a, b);
  }

  lemma PlacedFindings(packets: seq<Packet>, sources: seq<string>, kept: seq<Ranked>, k: nat, item: Ranked)
    requires k <= |kept| && Placed(packets, sources, kept, k, item)
    ensures forall i :: 0 <= i < k ==> MayPrecede(packets, sources, Findings(kept)[i], item.finding)
    ensures forall i :: k <= i < |kept| ==> MayPrecede(packets, sources, item.finding, Findings(kept)[i])
  {
  }

  lemma NotKept(kept: seq<Ranked>, item: Ranked)
    requires item.finding !in Findings(kept)
    ensures item !in kept
  {
    forall j | 0 <= j < |kept| ensures kept[j] != item { assert Findings(kept)[j] == kept[j].finding; }
  }

  lemma DroppedOverflow(before: Packing, kept: seq<Ranked>, item: Ranked, perToken: nat, budget: int)
    requires perToken > 0 && before.kept <= kept && before.usedChars == TotalCost(before.kept)
    requires !FitsBeside(before, item, perToken, budget)
    ensures Characters(Findings(kept)[..|before.kept|]) + Bytes(item.finding.statement) + 32 > budget * perToken
  {
    CostOfFindings(before.kept);
    CostIsCharacters(Findings(before.kept));
    LengthIsBytes(item.finding.statement);
    assert Findings(kept)[..|before.kept|] == Findings(before.kept);
    OverBudget(before.usedChars + Cost(item.finding), perToken, budget);
  }

  /** The first k of the kept items may stand before item n, and item n before the others. */
  ghost predicate Placed(packets: seq<Packet>, sources: seq<string>, kept: seq<Ranked>, k: nat, item: Ranked) {
    && (forall i :: 0 <= i < k && i < |kept| ==> MayPrecede(packets, sources, kept[i].finding, item.finding))
    && (forall i :: k <= i < |kept| ==> MayPrecede(packets, sources, item.finding, kept[i].finding))
  }

  ghost predicate Sides(kept: seq<Ranked>, k: nat, items: seq<Ranked>, n: nat)
    requires n < |items|
  {
    forall i :: 0 <= i < |kept| ==> kept[i] in items && (if i < k then kept[i] in items[..n] else kept[i] in items[n..])
  }

  lemma DroppedPlace(packets: seq<Packet>, policy: Policy, kept: seq<Ranked>, k: nat, n: nat)
    requires var sorted := StableSort(Merged(packets, policy).ranked); n < |sorted| && Sides(kept, k, sorted, n) && sorted[n] !in kept
    ensures Placed(packets, policy.primarySources, kept, k, StableSort(Merged(packets, policy).ranked)[n])
  {
    var sorted := StableSort(Merged(packets, policy).ranked);
    forall i | 0 <= i < k && i < |kept| ensures MayPrecede(packets, policy.primarySources, kept[i].finding, sorted[n].finding) {
      SortedPosition(packets, policy, n, kept[i]);
    }
    forall i | k <= i < |kept| ensures MayPrecede(packets, policy.primarySources, sorted[n].finding, kept[i].finding) {
      assert kept[i] in kept;
      SortedPosition(packets, policy, n, kept[i]);
    }
  }

  lemma KeptSides(items: seq<Ranked>, perToken: nat, budget: int, n: nat)
    requires perToken > 0 && n < |items|
    ensures Sides(Pack(items, perToken, budget).kept, |Pack(items[..n], perToken, budget).kept|, items, n)
  {
    var kept, before := Pack(items, perToken, budget).kept, Pack(items[..n], perToken, budget).kept;
    PackSplits(items, perToken, budget, n);
    PackKeepsItems(items, perToken, budget);
    PackKeepsItems(items[..n], perToken, budget);
    forall i | 0 <= i < |kept|
      ensures kept[i] in items && (if i < |before| then kept[i] in items[..n] else kept[i] in items[n..])
    {
      SideOf(kept, before, i);
    }
  }

  lemma SideOf(kept: seq<Ranked>, before: seq<Ranked>, i: nat)
    requires before <= kept && i < |kept|
    ensures kept[i] in kept && if i < |before| then kept[i] in before else kept[i] in kept[|before|..]
  {
    if i < |before| { assert before[i] == kept[i]; } else { assert kept[|before|..][i - |before|] == kept[i]; }
  }

  lemma FirstIsRanked(packets: seq<Packet>, policy: Policy, p: nat, i: nat) returns (item: Ranked)
    requires FirstOfClaim(packets, p, i)
    ensures item in Merged(packets, policy).ranked && item.finding == packets[p].findings[i]
  {
    var f, m := packets[p].findings[i], Merged(packets, policy);
    assert packets[..|packets|] == packets;
    EarlierClaimKnown(packets, |packets|, policy, p, i);
    MergedRanksFirsts(packets, policy);
    assert f.claimId in FindingIds(Findings(m.ranked));
    var j :| 0 <= j < |m.ranked| && FindingIds(Findings(m.ranked))[j] == f.claimId;
    item := m.ranked[j];
    MergedCame(packets, policy, item);
    var q: nat, l: nat :| Came(packets, policy.primarySources, q, l, item);
    FirstOfClaimUnique(packets, p, i, q, l);
  }

  // ---------------------------------------------------------------- evidence, staleness and the rest

  /** A finding cites the id of this item, which is the copy in force. */
  ghost predicate CitedInForce(findings: seq<Finding>, stream: seq<EvidenceRef>, e: EvidenceRef) {
    && (exists f :: f in findings && e.evidenceId in f.evidenceRefs)
    && exists k: nat :: InForce(stream, e.evidenceId, k) && stream[k] == e
  }

  /** Listed evidence is exactly the copies in force of what the listed findings cite, in the order of their ids. */
  lemma EvidenceTerms(packets: seq<Packet>, policy: Policy, c: Compiled, e: EvidenceRef)
    requires CompileSpec(packets, policy) == Ok(c)
    ensures e in c.evidence <==> CitedInForce(c.findings, EvidenceStream(packets), e)
    ensures Strings.StrictlySorted(EvidenceIds(c.evidence))
  {
    var stream := EvidenceStream(packets);
    EvidenceIsExactlyCited(packets, policy, c);
    if e in c.evidence {
      assert Listed(c.evidence, e.evidenceId);
      ListedInForce(packets, policy, c, e);
    }
    if CitedInForce(c.findings, stream, e) {
      var k: nat :| InForce(stream, e.evidenceId, k) && stream[k] == e;
      assert Cites(c.findings, e.evidenceId);
      var x :| x in c.evidence && x.evidenceId == e.evidenceId;
      ListedInForce(packets, policy, c, x);
      var j: nat :| InForce(stream, x.evidenceId, j) && stream[j] == x;
      InForceUnique(stream, e.evidenceId, j, k);
    }
  }

  lemma ListedInForce(packets: seq<Packet>, policy: Policy, c: Compiled, e: EvidenceRef)
    requires CompileSpec(packets, policy) == Ok(c) && e in c.evidence
    ensures exists k: nat :: InForce(EvidenceStream(packets), e.evidenceId, k) && EvidenceStream(packets)[k] == e
  {
    var m := Merged(packets, EffectivePolicy(policy));
    CompiledFields(packets, policy, c);
    MergedConsistent(packets, EffectivePolicy(policy));
    MergedHoldsStream(packets, EffectivePolicy(policy));
    LookupOrigin(m.evidence, Strings.SortedSeq(CitedIds(m, c.findings)), e);
    HeldIsInForce(EvidenceStream(packets), e.evidenceId);
  }

  /** Older than a positive maximum age; the greatest duration is never exceeded. */
  predicate TooOld(e: EvidenceRef, policy: Policy) {
    0 < policy.maxEvidenceAge < 0x7FFF_FFFF_FFFF_FFFF && policy.asOf - e.asOf > policy.maxEvidenceAge
  }

  lemma TooOldTerms(e: EvidenceRef, policy: Policy)
    ensures IsStale(e, policy) <==> TooOld(e, policy)
  {
  }

  /** Some delivered item with this id, and with the content that came first, is too old. */
  ghost predicate OldCopyDelivered(stream: seq<EvidenceRef>, id: string, policy: Policy) {
    exists k :: 0 <= k < |stream| && stream[k].evidenceId == id && Wins(stream, k) && TooOld(stream[k], policy)
  }

  lemma OldCopyTerms(stream: seq<EvidenceRef>, id: string, policy: Policy)
    ensures SomeCopyOld(stream, id, policy) <==> OldCopyDelivered(stream, id, policy)
  {
    var first := FirstCopyTerms(stream, id);
    if FirstCopy(stream, id).Some? {
      var sha := FirstCopy(stream, id).value.contentSha;
      FirstContentWins(stream, id);
      if SomeCopyOld(stream, id, policy) {
        var e :| e in stream && e.evidenceId == id && e.contentSha == sha && IsStale(e, policy);
        var k :| 0 <= k < |stream| && stream[k] == e;
        TooOldTerms(e, policy);
        assert Wins(stream, k);
      }
      if OldCopyDelivered(stream, id, policy) {
        var k :| 0 <= k < |stream| && stream[k].evidenceId == id && Wins(stream, k) && TooOld(stream[k], policy);
        TooOldTerms(stream[k], policy);
        assert stream[k] in stream;
      }
    }
  }

  /** An id is listed as stale exactly when such an item was delivered. */
  lemma StaleTerms(packets: seq<Packet>, policy: Policy, c: Compiled, id: string)
    requires CompileSpec(packets, policy) == Ok(c)
    ensures id in c.staleEvidence <==> OldCopyDelivered(EvidenceStream(packets), id, policy)
  {
    FlaggedIffSomeCopyOld(packets, policy, c, id);
    OldCopyTerms(EvidenceStream(packets), id, EffectivePolicy(policy));
    SameAge(EvidenceStream(packets), id, EffectivePolicy(policy), policy);
  }

  lemma SameAge(stream: seq<EvidenceRef>, id: string, p: Policy, q: Policy)
    requires p.asOf == q.asOf && p.maxEvidenceAge == q.maxEvidenceAge
    ensures OldCopyDelivered(stream, id, p) <==> OldCopyDelivered(stream, id, q)
  {
  }

  /** The first packet at fault among the first n, and what is wrong with it. */
  ghost predicate RefusedAt(packets: seq<Packet>, policy: Policy, i: nat) {
    i < |packets| && (!Accepted(packets[i]) || packets[i].runId != packets[0].runId || packets[i].scopeAsOf > policy.asOf)
  }

  ghost predicate NoneRefused(packets: seq<Packet>, policy: Policy, n: nat) {
    forall i :: 0 <= i < n ==> !RefusedAt(packets, policy, i)
  }

  lemma {:induction false} RefusalTerms(packets: seq<Packet>, policy: Policy, n: nat)
    requires n <= |packets|
    ensures Refusal(packets, n, policy).None? <==> NoneRefused(packets, policy, n)
    ensures match Refusal(packets, n, policy)
      case None => true
      case Some(InvalidPacket(i)) => i < n && !Accepted(packets[i]) && NoneRefused(packets, policy, i)
      case Some(DifferentRun(i)) => i < n && packets[i].runId != packets[0].runId && NoneRefused(packets, policy, i)
      case Some(FutureScope(i)) => i < n && packets[i].scopeAsOf > policy.asOf && NoneRefused(packets, policy, i)
      case Some(_) => false
  {
    if n > 0 {
      RefusalTerms(packets, policy, n - 1);
      assert RefusedAt(packets, policy, n - 1) <==> PacketRefusal(packets, n - 1, policy).Some?;
      assert NoneRefused(packets, policy, n) <==> NoneRefused(packets, policy, n - 1) && !RefusedAt(packets, policy, n - 1);
    }
  }

  /** A context is compiled exactly from packets that are acceptable, of one run and not of the future, under a dated policy with a budget. */
  lemma CompiledIff(packets: seq<Packet>, policy: Policy)
    ensures CompileSpec(packets, policy).Ok? <==> (
      && packets != [] && policy.asOf != 0 && policy.tokenBudget > 0
      && forall i :: 0 <= i < |packets| ==>
           Accepted(packets[i]) && packets[i].runId == packets[0].runId && packets[i].scopeAsOf <= policy.asOf)
    ensures CompileSpec(packets, policy) == Err(NoPackets) <==> packets == []
    ensures CompileSpec(packets, policy) == Err(BadPolicy) <==> packets != [] && (policy.asOf == 0 || policy.tokenBudget <= 0)
    ensures CompileSpec(packets, policy).Ok? ==>
      CompileSpec(packets, policy).value.runId == packets[0].runId && CompileSpec(packets, policy).value.asOf == policy.asOf
  {
    RefusalTerms(packets, policy, |packets|);
    assert forall i :: 0 <= i < |packets| ==> (RefusedAt(packets, policy, i) <==>
      !(Accepted(packets[i]) && packets[i].runId == packets[0].runId && packets[i].scopeAsOf <= policy.asOf));
  }

  /** A kept finding is the first one delivered for its claim, and every claim is either kept or dropped. */
  lemma ClaimTerms(packets: seq<Packet>, policy: Policy, c: Compiled)
    requires CompileSpec(packets, policy) == Ok(c)
    ensures forall f :: f in c.findings ==> exists p: nat, i: nat :: FirstOfClaim(packets, p, i) && packets[p].findings[i] == f
  {
    CompiledFields(packets, policy, c);
    forall f | f in c.findings ensures exists p: nat, i: nat :: FirstOfClaim(packets, p, i) && packets[p].findings[i] == f {
      var kept := PackingOf(packets, policy).kept;
      var k :| 0 <= k < |kept| && kept[k].finding == f;
      KeptItemIsRanked(packets, policy, kept[k]);
      MergedCame(packets, EffectivePolicy(policy), kept[k]);
    }
  }
}
