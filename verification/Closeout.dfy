/** The closeout of a release risk: it resolves every and only proof that was missing at candidate time. */
module Closeout {
  import opened Wrappers
  import opened Sorting
  import opened ReleaseRisk
  import opened RiskEvidence
  import LineFormat

  const CLOSEOUT_SCHEMA := "labview-benchmark-actor/release-risk-closeout@1"

  datatype Summary = Summary(beforePresent: int, total: int, afterPresent: int, completionPercent: int, status: string)

  /** The closeout less its digest. */
  datatype Body = Body(
    schema: string,
    releaseVersion: string,
    resolutions: seq<Proof>,
    summary: Summary,
    candidateVersion: string,
    commit: string,
    vsixSha256: string,
    immutable: bool,
    published: bool,
    shared: bool)

  datatype Sealed = Sealed(body: Body, digest: string)

  datatype Verdict = Verdict(ok: bool, findings: seq<string>, beforePresent: nat, afterPresent: nat, total: nat)

  /** All proofs of all rows, in order. */
  function AllProofs(rows: seq<Row>): seq<Proof> {
    if rows == [] then []
    else (if rows[0].proofs.Some? then rows[0].proofs.value else []) + AllProofs(rows[1..])
  }

  lemma {:induction false} AllProofsSnoc(rows: seq<Row>, row: Row)
    ensures AllProofs(rows + [row]) == AllProofs(rows) + (if row.proofs.Some? then row.proofs.value else [])
  {
    var own := if row.proofs.Some? then row.proofs.value else [];
    if rows == [] {
      assert [] + [row] == [row];
      assert own + [] == own && [] + own == own;
    } else {
      assert (rows + [row])[1..] == rows[1..] + [row];
      AllProofsSnoc(rows[1..], row);
      Associate(if rows[0].proofs.Some? then rows[0].proofs.value else [], AllProofs(rows[1..]), own);
    }
  }

  /** There is a proof at this place of the evidence: a row, and a place among its proofs. */
  ghost predicate IsPlace(rows: seq<Row>, place: (nat, nat)) {
    place.0 < |rows| && rows[place.0].proofs.Some? && place.1 < |rows[place.0].proofs.value|
  }

  function MissingProofIds(b: Baseline): seq<string> {
    Ids(AllProofs(b.releaseEvidence), "missing")
  }

  function IdsOf(proofs: seq<Proof>): seq<string> {
    seq(|proofs|, i requires 0 <= i < |proofs| => proofs[i].id)
  }

  predicate HexText(s: string, n: nat) {
    |s| == n && forall i :: 0 <= i < n ==> '0' <= s[i] <= '9' || 'a' <= s[i] <= 'f'
  }

  const HEX_DIGITS := "0123456789abcdef"

  lemma HexDigitIs(c: char)
    ensures c in HEX_DIGITS <==> '0' <= c <= '9' || 'a' <= c <= 'f'
  {
    if '0' <= c <= '9' {
      assert HEX_DIGITS[c as int - '0' as int] == c;
    } else if 'a' <= c <= 'f' {
      assert HEX_DIGITS[c as int - 'a' as int + 10] == c;
    }
  }

  lemma HexTextIs(s: string, n: nat)
    ensures HexText(s, n) <==> |s| == n && forall c :: c in s ==> c in HEX_DIGITS
  {
    forall i | 0 <= i < |s| ensures s[i] in HEX_DIGITS <==> '0' <= s[i] <= '9' || 'a' <= s[i] <= 'f' {
      HexDigitIs(s[i]);
    }
    assert forall i :: 0 <= i < |s| ==> s[i] in s;
  }

  /** A closeout looks at all proofs of all rows, each once, in order. */
  lemma {:induction false} AllProofsAre(rows: seq<Row>) returns (places: seq<(nat, nat)>)
    ensures |places| == |AllProofs(rows)|
    ensures forall k, l :: 0 <= k < l < |places| ==>
              places[k].0 < places[l].0 || (places[k].0 == places[l].0 && places[k].1 < places[l].1)
    ensures forall k :: 0 <= k < |places| ==>
              && IsPlace(rows, places[k])
              && AllProofs(rows)[k] == rows[places[k].0].proofs.value[places[k].1]
    ensures forall place :: IsPlace(rows, place) ==> place in places
    decreases |rows|
  {
    if rows == [] {
      places := [];
    } else {
      var before, last := rows[..|rows| - 1], rows[|rows| - 1];
      var own := if last.proofs.Some? then last.proofs.value else [];
      assert rows == before + [last];
      var earlier := AllProofsAre(before);
      AllProofsSnoc(before, last);
      places := earlier + seq(|own|, j requires 0 <= j < |own| => (|before|, j));
      forall place | IsPlace(rows, place) ensures place in places {
        if place.0 == |before| {
          assert places[|earlier| + place.1] == place;
        } else {
          assert IsPlace(before, place);
        }
      }
    }
  }

  predicate ArtifactOk(artifact: Artifact, exists_: string -> bool) {
    artifact.Path? && ("https://" <= artifact.text || exists_(artifact.text))
  }

  predicate ResolutionOk(p: Proof, exists_: string -> bool) {
    && p.status == "present" && p.evidence.Words? && !Blank(p.evidence.text)
    && p.artifacts.List? && p.artifacts.items != []
    && forall i :: 0 <= i < |p.artifacts.items| ==> ArtifactOk(p.artifacts.items[i], exists_)
  }

  /** The ids of the resolutions are the missing ids, each once, in any order. */
  ghost predicate CoversMissing(c: Body, b: Baseline) {
    multiset(IdsOf(c.resolutions)) == multiset(MissingProofIds(b)) && Distinct(IdsOf(c.resolutions))
  }

  /** The candidate is named by version, commit and digest, and its publication is proven. */
  ghost predicate Identified(c: Body, b: Baseline) {
    && c.candidateVersion == b.releaseVersion
    && |c.commit| == 40 && (forall x :: x in c.commit ==> x in HEX_DIGITS)
    && |c.vsixSha256| == 64 && (forall x :: x in c.vsixSha256 ==> x in HEX_DIGITS)
    && c.immutable && c.published && c.shared
  }

  /** All that is required besides the schema and the digest. */
  ghost predicate Closes(c: Body, b: Baseline, exists_: string -> bool) {
    var all := AllProofs(b.releaseEvidence);
    && c.releaseVersion == b.releaseVersion
    && CoversMissing(c, b)
    && (forall i :: 0 <= i < |c.resolutions| ==> ResolutionOk(c.resolutions[i], exists_))
    && c.summary == Summary(Count(all, "present"), |all|, |all|, 100, "READY")
    && Identified(c, b)
  }

  ghost predicate Valid(c: Sealed, b: Baseline, exists_: string -> bool, sha256: Body -> string) {
    c.body.schema == CLOSEOUT_SCHEMA && Closes(c.body, b, exists_) && c.digest == sha256(c.body)
  }

  /** A proof with this id is missing at this place. */
  ghost predicate MissingAt(rows: seq<Row>, place: (nat, nat), id: string) {
    && IsPlace(rows, place)
    && var p := rows[place.0].proofs.value[place.1]; p.status == "missing" && p.id == id
  }

  /** The ids to be resolved are those of the proofs with the status "missing", wherever in the evidence. */
  lemma MissingIdsAre(b: Baseline)
    ensures forall id :: id in MissingProofIds(b) <==>
                         exists place: (nat, nat) :: MissingAt(b.releaseEvidence, place, id)
  {
    var rows, all := b.releaseEvidence, AllProofs(b.releaseEvidence);
    var places := AllProofsAre(rows);
    var at := IdsList(all, "missing");
    forall id | id in MissingProofIds(b) ensures exists place: (nat, nat) :: MissingAt(rows, place, id) {
      var k :| 0 <= k < |at| && MissingProofIds(b)[k] == id;
      assert MissingAt(rows, places[at[k]], id);
    }
    forall place: (nat, nat), id | MissingAt(rows, place, id) ensures id in MissingProofIds(b) {
      var j :| 0 <= j < |places| && places[j] == place;
      assert all[j].status == "missing";
      var k :| 0 <= k < |at| && at[k] == j;
      assert MissingProofIds(b)[k] == all[j].id;
    }
  }

  method ResolutionFindings(p: Proof, exists_: string -> bool) returns (findings: seq<string>)
    ensures findings == [] <==> ResolutionOk(p, exists_)
  {
    findings := [];
    if p.status != "present" {
      findings := findings + [p.id + ": status must be present"];
    }
    if p.evidence.Words? {
      LineFormat.TrimBlank(p.evidence.text);
    }
    if !p.evidence.Words? || LineFormat.Trim(p.evidence.text) == "" {
      findings := findings + [p.id + ": evidence is required"];
    }
    if !p.artifacts.List? || |p.artifacts.items| == 0 {
      return findings + [p.id + ": at least one artifact is required"];
    }
    ghost var before := findings;
    for i := 0 to |p.artifacts.items|
      invariant findings == [] <==> before == [] && forall j :: 0 <= j < i ==> ArtifactOk(p.artifacts.items[j], exists_)
    {
      var artifact := p.artifacts.items[i];
      if artifact.Path? && "https://" <= artifact.text {
        continue;
      }
      if artifact.NotText? || !exists_(artifact.text) {
        findings := findings + [p.id + ": artifact does not resolve"];
      }
    }
  }

  method AllResolutionFindings(resolutions: seq<Proof>, exists_: string -> bool) returns (findings: seq<string>)
    ensures findings == [] <==> forall i :: 0 <= i < |resolutions| ==> ResolutionOk(resolutions[i], exists_)
  {
    findings := [];
    for i := 0 to |resolutions|
      invariant findings == [] <==> forall j :: 0 <= j < i ==> ResolutionOk(resolutions[j], exists_)
    {
      var more := ResolutionFindings(resolutions[i], exists_);
      findings := findings + more;
    }
  }

  method CoverageFindings(c: Body, b: Baseline) returns (findings: seq<string>)
    ensures findings == [] <==> CoversMissing(c, b)
  {
    findings := [];
    var expected := Sort(MissingProofIds(b));
    var resolved := Sort(IdsOf(c.resolutions));
    SortedSet(IdsOf(c.resolutions));
    SortComparesMultisets(IdsOf(c.resolutions), MissingProofIds(b));
    if |SetOf(resolved)| != |resolved| {
      findings := findings + ["resolution ids must be unique"];
    }
    if resolved != expected {
      findings := findings + ["resolutions must cover every and only candidate-time missing proof id"];
    }
  }

  method SummaryFindings(summary: Summary, beforePresent: nat, total: nat) returns (findings: seq<string>)
    ensures findings == [] <==> summary == Summary(beforePresent, total, total, 100, "READY")
  {
    findings := [];
    if summary.beforePresent != beforePresent || summary.total != total {
      findings := findings + ["summary baseline counters do not re-derive"];
    }
    if summary.afterPresent != total || summary.completionPercent != 100 || summary.status != "READY" {
      findings := findings + ["closeout summary must report READY at 100%"];
    }
  }

  method IdentityFindings(c: Body, b: Baseline) returns (findings: seq<string>)
    ensures findings == [] <==> Identified(c, b)
  {
    findings := [];
    HexTextIs(c.commit, 40);
    HexTextIs(c.vsixSha256, 64);
    if c.candidateVersion != b.releaseVersion || !HexText(c.commit, 40) || !HexText(c.vsixSha256, 64) {
      findings := findings + ["candidate identity is incomplete"];
    }
    if !c.immutable || !c.published || !c.shared {
      findings := findings + ["publication must be proven"];
    }
  }

  method ValidateCloseout(c: Sealed, b: Baseline, exists_: string -> bool, sha256: Body -> string) returns (v: Verdict)
    ensures v.ok <==> v.findings == []
    ensures v.ok <==> Valid(c, b, exists_, sha256)
    ensures v.total == |AllProofs(b.releaseEvidence)|
            && v.beforePresent == Count(AllProofs(b.releaseEvidence), "present")
    ensures v.afterPresent == v.beforePresent + |c.body.resolutions|
  {
    var findings: seq<string> := [];
    if c.body.schema != CLOSEOUT_SCHEMA {
      findings := findings + ["schema"];
    }
    if c.body.releaseVersion != b.releaseVersion {
      findings := findings + ["release version must match the candidate-time baseline"];
    }
    var coverage := CoverageFindings(c.body, b);
    var each := AllResolutionFindings(c.body.resolutions, exists_);
    findings := findings + coverage + each;
    var all := AllProofs(b.releaseEvidence);
    var beforePresent := Count(all, "present");
    var counters := SummaryFindings(c.body.summary, beforePresent, |all|);
    var identity := IdentityFindings(c.body, b);
    findings := findings + counters + identity;
    if c.digest != sha256(c.body) {
      findings := findings + ["digest does not match closeout content"];
    }
    v := Verdict(|findings| == 0, findings, beforePresent, beforePresent + |c.body.resolutions|, |all|);
  }

  /** Seals an input; a schema of its own overrides the standard one. */
  function BuildCloseout(input: Body, schema: Option<string>, sha256: Body -> string): Sealed {
    var body := input.(schema := if schema.Some? then schema.value else CLOSEOUT_SCHEMA);
    Sealed(body, sha256(body))
  }

  /** Sealing makes a closing input valid, unless the input carries a schema of its own; and no other body
      passes under that seal. */
  lemma SealIsValid(input: Body, schema: Option<string>, b: Baseline, exists_: string -> bool, sha256: Body -> string)
    ensures Valid(BuildCloseout(input, schema, sha256), b, exists_, sha256)
            <==> (schema == None || schema == Some(CLOSEOUT_SCHEMA)) && Closes(input, b, exists_)
    ensures (forall x, y :: sha256(x) == sha256(y) ==> x == y) ==>
              forall body :: Valid(Sealed(body, BuildCloseout(input, schema, sha256).digest), b, exists_, sha256)
                             ==> body == BuildCloseout(input, schema, sha256).body
  {
    var sealed := BuildCloseout(input, schema, sha256).body;
    assert Closes(sealed, b, exists_) <==> Closes(input, b, exists_) by {
      assert sealed.resolutions == input.resolutions && sealed.summary == input.summary;
      assert CoversMissing(sealed, b) <==> CoversMissing(input, b);
    }
  }

  // ---------------------------------------------------------------- conservation

  /** Once the resolutions cover the missing ids, what was present and what they add is everything exactly
      when every proof of the baseline is present or missing. */
  lemma AfterPresentIsTotal(c: Body, b: Baseline)
    requires CoversMissing(c, b)
    ensures var all := AllProofs(b.releaseEvidence);
            Count(all, "present") + |c.resolutions| == |all| <==> forall i :: 0 <= i < |all| ==> ValidStatus(all[i])
  {
    var all := AllProofs(b.releaseEvidence);
    CountAll(all);
    IdsCount(all, "missing");
    SameSize(IdsOf(c.resolutions), MissingProofIds(b));
  }

  // ---------------------------------------------------------------- marking the resolutions present

  function FindResolution(resolutions: seq<Proof>, id: string): Option<Proof> {
    if resolutions == [] then None
    else if resolutions[0].id == id then Some(resolutions[0])
    else FindResolution(resolutions[1..], id)
  }

  function Resolve(p: Proof, resolutions: seq<Proof>): Proof {
    var r := FindResolution(resolutions, p.id);
    if p.status == "missing" && r.Some? then r.value else p
  }

  function ResolveAll(proofs: seq<Proof>, resolutions: seq<Proof>): seq<Proof> {
    seq(|proofs|, i requires 0 <= i < |proofs| => Resolve(proofs[i], resolutions))
  }

  function MarkRow(row: Row, resolutions: seq<Proof>): Row {
    match row.proofs case None => row case Some(proofs) => row.(proofs := Some(ResolveAll(proofs, resolutions)))
  }

  function MarkRows(rows: seq<Row>, resolutions: seq<Proof>): seq<Row> {
    seq(|rows|, i requires 0 <= i < |rows| => MarkRow(rows[i], resolutions))
  }

  /** The baseline with each missing proof replaced by its resolution. */
  function MarkPresent(b: Baseline, resolutions: seq<Proof>): Baseline {
    b.(releaseEvidence := MarkRows(b.releaseEvidence, resolutions))
  }

  lemma {:induction false} FindMarked(rows: seq<Row>, resolutions: seq<Proof>, gate: string)
    ensures FindRow(MarkRows(rows, resolutions), gate) ==
            match FindRow(rows, gate) case None => None case Some(row) => Some(MarkRow(row, resolutions))
  {
    if rows == [] {
    } else {
      assert MarkRows(rows, resolutions)[1..] == MarkRows(rows[1..], resolutions);
      FindMarked(rows[1..], resolutions, gate);
    }
  }

  lemma {:induction false} FoundIfListed(resolutions: seq<Proof>, id: string)
    ensures FindResolution(resolutions, id).Some? <==> id in IdsOf(resolutions)
    ensures FindResolution(resolutions, id).Some? ==> FindResolution(resolutions, id).value in resolutions
  {
    if resolutions == [] {
    } else {
      FoundIfListed(resolutions[1..], id);
      assert IdsOf(resolutions) == [resolutions[0].id] + IdsOf(resolutions[1..]);
    }
  }

  lemma {:induction false} IdListed(proofs: seq<Proof>, i: nat)
    requires i < |proofs| && proofs[i].status == "missing"
    ensures proofs[i].id in Ids(proofs, "missing")
  {
    if i == 0 {
    } else {
      IdListed(proofs[1..], i - 1);
    }
  }

  lemma {:induction false} IdsAppend(a: seq<Proof>, b: seq<Proof>)
    ensures Ids(a + b, "missing") == Ids(a, "missing") + Ids(b, "missing")
  {
    if a == [] {
      assert a + b == b;
    } else {
      assert (a + b)[1..] == a[1..] + b;
      IdsAppend(a[1..], b);
    }
  }

  /** The missing ids of a gate's row are among those of the baseline. */
  lemma {:induction false} GateIdsListed(rows: seq<Row>, gate: string, id: string)
    requires FindRow(rows, gate).Some? && FindRow(rows, gate).value.proofs.Some?
    requires id in Ids(FindRow(rows, gate).value.proofs.value, "missing")
    ensures id in Ids(AllProofs(rows), "missing")
  {
    IdsAppend(if rows[0].proofs.Some? then rows[0].proofs.value else [], AllProofs(rows[1..]));
    if rows[0].gate != gate {
      GateIdsListed(rows[1..], gate, id);
    }
  }

  lemma GateMarked(b: Baseline, resolutions: seq<Proof>, gate: string)
    ensures GateProofs(MarkPresent(b, resolutions), gate) == ResolveAll(GateProofs(b, gate), resolutions)
  {
    FindMarked(b.releaseEvidence, resolutions, gate);
  }

  lemma {:induction false} FoundHasId(resolutions: seq<Proof>, id: string)
    ensures FindResolution(resolutions, id).Some? ==> FindResolution(resolutions, id).value.id == id
  {
    if resolutions == [] {
    } else {
      FoundHasId(resolutions[1..], id);
    }
  }

  /** Every missing proof of a gated row is resolved by a proof that is present. */
  lemma MarkedProof(c: Sealed, b: Baseline, exists_: string -> bool, sha256: Body -> string, gate: string, i: nat)
    requires Valid(c, b, exists_, sha256) && i < |GateProofs(b, gate)|
    ensures var p, r := GateProofs(b, gate)[i], Resolve(GateProofs(b, gate)[i], c.body.resolutions);
            if p.status == "missing" then r in c.body.resolutions && r.status == "present" && r.id == p.id else r == p
  {
    var p := GateProofs(b, gate)[i];
    if p.status == "missing" {
      IdListed(GateProofs(b, gate), i);
      GateIdsListed(b.releaseEvidence, gate, p.id);
      assert p.id in multiset(MissingProofIds(b));
      assert p.id in multiset(IdsOf(c.body.resolutions));
      FoundIfListed(c.body.resolutions, p.id);
      FoundHasId(c.body.resolutions, p.id);
    }
  }

  lemma {:induction false} PresentIsTotal(b: Baseline, n: nat)
    requires n <= |GATES|
    requires forall k :: 0 <= k < n ==> Count(GateProofs(b, GATES[k]), "present") == |GateProofs(b, GATES[k])|
    ensures PresentIn(RiskRows(b, n)) == TotalIn(RiskRows(b, n))
    decreases n
  {
    if n == 0 {
    } else {
      PresentIsTotal(b, n - 1);
      var rows := RiskRows(b, n);
      if GateProofs(b, GATES[n - 1]) != [] {
        assert rows[..|rows| - 1] == RiskRows(b, n - 1);
      } else {
        assert rows == RiskRows(b, n - 1);
      }
    }
  }

  lemma GateAllPresent(c: Sealed, b: Baseline, known: string -> bool, exists_: string -> bool,
        sha256: Body -> string, gate: string)
    requires GateSound(b, gate, known) && Valid(c, b, exists_, sha256)
    ensures var proofs := GateProofs(MarkPresent(b, c.body.resolutions), gate);
            && |proofs| == |GateProofs(b, gate)| > 0 && Count(proofs, "present") == |proofs|
            && (forall i :: 0 <= i < |proofs| ==> proofs[i].status == "present")
            && (forall i :: 0 <= i < |proofs| ==>
                  proofs[i] == GateProofs(b, gate)[i] || proofs[i] in c.body.resolutions)
  {
    GateMarked(b, c.body.resolutions, gate);
    var proofs := GateProofs(MarkPresent(b, c.body.resolutions), gate);
    forall i | 0 <= i < |proofs|
      ensures proofs[i].status == "present" && (proofs[i] == GateProofs(b, gate)[i] || proofs[i] in c.body.resolutions)
    {
      MarkedProof(c, b, exists_, sha256, gate, i);
      assert ValidStatus(GateProofs(b, gate)[i]);
    }
    CountZero(proofs, "missing");
    CountAll(proofs);
  }

  lemma MarkedSound(c: Sealed, b: Baseline, known: string -> bool, exists_: string -> bool, sha256: Body -> string,
        gate: string)
    requires GateSound(b, gate, known) && Valid(c, b, exists_, sha256)
    requires forall path :: "https://" <= path || exists_(path) ==> known(path)
    ensures GateSound(MarkPresent(b, c.body.resolutions), gate, known)
  {
    var marked := MarkPresent(b, c.body.resolutions);
    GateAllPresent(c, b, known, exists_, sha256, gate);
    FindMarked(b.releaseEvidence, c.body.resolutions, gate);
    var proofs := GateProofs(marked, gate);
    forall i | 0 <= i < |proofs| ensures ProofSound(proofs[i], known) && ValidStatus(proofs[i]) {
      if proofs[i] in c.body.resolutions {
        var k :| 0 <= k < |c.body.resolutions| && c.body.resolutions[k] == proofs[i];
        assert ResolutionOk(c.body.resolutions[k], exists_);
      }
    }
  }

  /** Marking a valid closeout's resolutions present in a valid baseline makes the release READY with every
      proof present; and the baseline so marked is valid again if the artifacts it now cites resolve. */
  lemma CloseoutMakesReady(c: Sealed, b: Baseline, known: string -> bool, exists_: string -> bool,
        sha256: Body -> string)
    requires Sound(b, known) && Valid(c, b, exists_, sha256)
    ensures var rows := RiskRows(MarkPresent(b, c.body.resolutions), |GATES|);
            Worst(rows) == Ready && PresentIn(rows) == TotalIn(rows)
    ensures (forall path :: "https://" <= path || exists_(path) ==> known(path))
            ==> Sound(MarkPresent(b, c.body.resolutions), known)
  {
    var marked := MarkPresent(b, c.body.resolutions);
    forall g | g in GATES
      ensures !GateOpen(marked, g) && Count(GateProofs(marked, g), "present") == |GateProofs(marked, g)|
    {
      GateAllPresent(c, b, known, exists_, sha256, g);
    }
    ReadyMeansNoneOpen(marked);
    PresentIsTotal(marked, |GATES|);
    if forall path :: "https://" <= path || exists_(path) ==> known(path) {
      forall g | g in GATES ensures GateSound(marked, g, known) {
        MarkedSound(c, b, known, exists_, sha256, g);
      }
    }
  }

  /** Assessing the marked baseline reports it as governed: everything present, READY, and ok if the cited
      artifacts resolve. */
  method AssessAfterCloseout(
      c: Sealed, b: Baseline, known: string -> bool, ghost exists_: string -> bool, ghost sha256: Body -> string)
    returns (a: Assessment)
    requires Sound(b, known) && Valid(c, b, exists_, sha256)
    ensures a.present == a.total && a.missing == 0 && a.status == Ready
            && a.completion == (if a.total == 0 then 0 else 1000)
    ensures (forall path :: "https://" <= path || exists_(path) ==> known(path))
            ==> a.ok
  {
    CloseoutMakesReady(c, b, known, exists_, sha256);
    a := AssessReleaseRisk(MarkPresent(b, c.body.resolutions), known, None);
    if a.total > 0 {
      TenthsMean(a.present, a.total);
    }
  }

  /** A valid closeout for a baseline all of whose proofs are present or missing: what the verdict reports
      as present afterwards is the total, which is also what its summary says. */
  lemma ClosedCompletely(c: Sealed, b: Baseline, exists_: string -> bool, sha256: Body -> string)
    requires Valid(c, b, exists_, sha256)
    requires forall i :: 0 <= i < |AllProofs(b.releaseEvidence)| ==> ValidStatus(AllProofs(b.releaseEvidence)[i])
    ensures var all := AllProofs(b.releaseEvidence);
            Count(all, "present") + |c.body.resolutions| == |all| == c.body.summary.afterPresent
    ensures Distinct(MissingProofIds(b)) && multiset(IdsOf(c.body.resolutions)) == multiset(MissingProofIds(b))
  {
    AfterPresentIsTotal(c.body, b);
    SetSize(IdsOf(c.body.resolutions));
    SetSize(MissingProofIds(b));
    SameSize(IdsOf(c.body.resolutions), MissingProofIds(b));
    forall x ensures x in IdsOf(c.body.resolutions) <==> x in MissingProofIds(b) {
      assert x in IdsOf(c.body.resolutions) <==> x in multiset(IdsOf(c.body.resolutions));
      assert x in MissingProofIds(b) <==> x in multiset(MissingProofIds(b));
    }
    assert SetOf(IdsOf(c.body.resolutions)) == SetOf(MissingProofIds(b));
  }
}
