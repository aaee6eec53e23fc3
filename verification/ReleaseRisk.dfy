/** The release-risk assessment: the checks of a baseline, its rows and totals. */
module ReleaseRisk {
  import opened Wrappers
  import opened RiskEvidence
  import LineFormat

  // ---------------------------------------------------------------- data

  /** An area's score, if it has one, and the confidence in it. */
  datatype AreaScore = AreaScore(score: Option<int>, confidence: string)

  /** A standards score baseline. */
  datatype Score = Score(
    schema: string,
    maturity: map<string, AreaScore>,
    gates: map<string, StaticGate>,
    rawScoreSha256: Option<string>)

  datatype Assessment = Assessment(
    ok: bool,
    reasons: seq<string>,
    present: nat,
    missing: int,
    total: nat,
    completion: nat,
    status: ReleaseStatus,
    rows: seq<RiskRow>)

  const SCORE_SCHEMA := "labview-benchmark-actor/standards-score-baseline@1"

  // ---------------------------------------------------------------- the assessment

  method ProofReasons(gate: string, p: Proof, exists_: string -> bool) returns (reasons: seq<string>)
    ensures reasons == [] <==> ProofSound(p, exists_)
  {
    reasons := [];
    if p.evidence.Words? {
      LineFormat.TrimBlank(p.evidence.text);
    }
    if p.status == "present" {
      if !p.evidence.Words? || LineFormat.Trim(p.evidence.text) == "" {
        reasons := reasons + [gate + "/" + p.id + " is present without evidence"];
      }
      if !p.artifacts.List? || |p.artifacts.items| == 0 {
        reasons := reasons + [gate + "/" + p.id + " is present without artifacts"];
      } else {
        ghost var before := reasons;
        for i := 0 to |p.artifacts.items|
          invariant reasons == [] <==>
                      before == [] && forall j :: 0 <= j < i ==> Resolves(p.artifacts.items[j], exists_)
        {
          if p.artifacts.items[i].NotText? || !exists_(p.artifacts.items[i].text) {
            reasons := reasons + [gate + "/" + p.id + " artifact does not resolve"];
          }
        }
      }
    } else if p.evidence != NoEvidence || p.artifacts != NoArtifacts {
      reasons := reasons + [gate + "/" + p.id + " is missing but carries success-shaped evidence"];
    }
  }

  method ProofsReasons(gate: string, proofs: seq<Proof>, exists_: string -> bool) returns (reasons: seq<string>)
    ensures reasons == [] <==> forall i :: 0 <= i < |proofs| ==> ProofSound(proofs[i], exists_)
  {
    reasons := [];
    for i := 0 to |proofs|
      invariant reasons == [] <==> forall j :: 0 <= j < i ==> ProofSound(proofs[j], exists_)
    {
      var more := ProofReasons(gate, proofs[i], exists_);
      reasons := reasons + more;
    }
  }

  method RowFor(gate: string, proofs: seq<Proof>) returns (row: RiskRow)
    requires proofs != []
    ensures row == RiskRowOf(gate, proofs)
  {
    var present := Count(proofs, "present");
    var missing := Count(proofs, "missing");
    var status := if missing == 0 then Ready else if gate == "dod" then Blocked else AtRisk;
    var completion := (2000 * present + |proofs|) / (2 * |proofs|);
    row := RiskRow(gate, present, missing, |proofs|, completion, status, Ids(proofs, "missing"));
  }

  /** The checks of a gate's proofs, and its row. */
  method ProofsAndRow(gate: string, proofs: seq<Proof>, exists_: string -> bool)
    returns (reasons: seq<string>, row: RiskRow)
    requires proofs != []
    ensures reasons == [] <==>
            forall i :: 0 <= i < |proofs| ==> ValidStatus(proofs[i]) && ProofSound(proofs[i], exists_)
    ensures row == RiskRowOf(gate, proofs)
  {
    reasons := ProofsReasons(gate, proofs, exists_);
    if exists i :: 0 <= i < |proofs| && proofs[i].status !in ["present", "missing"] {
      reasons := [gate + " has invalid proof statuses"] + reasons;
    }
    row := RowFor(gate, proofs);
  }

  /** The checks of one gate, and its row if it has proofs. */
  method GateReasons(b: Baseline, gate: string, exists_: string -> bool)
    returns (reasons: seq<string>, rows: seq<RiskRow>)
    ensures reasons == [] <==> GateSound(b, gate, exists_)
    ensures rows == if GateProofs(b, gate) == [] then [] else [RiskRowOf(gate, GateProofs(b, gate))]
    ensures OneRowIfJudged(b, gate, rows)
  {
    RowIfJudged(b, gate);
    reasons, rows := [], [];
    var source := FindRow(b.releaseEvidence, gate);
    if source.None? {
      return ["missing release-risk row " + gate], [];
    }
    var confidence := if gate == "dod" then "Med" else "High";
    if gate !in b.gates || b.gates[gate].status != "PASS" || b.gates[gate].confidence != confidence
       || b.gates[gate].rawMissingProof != "-" {
      reasons := reasons + ["static baseline " + gate + " drifted"];
    }
    if source.value.proofs.None? || |source.value.proofs.value| == 0 {
      return reasons + [gate + " has no release proofs"], [];
    }
    var more, row := ProofsAndRow(gate, source.value.proofs.value, exists_);
    return reasons + more, [row];
  }

  /** The first `n` gates are sound. */
  ghost predicate GatesSound(b: Baseline, n: nat, exists_: string -> bool)
    requires n <= |GATES|
  {
    forall j :: 0 <= j < n ==> GateSound(b, GATES[j], exists_)
  }

  lemma GatesSoundNext(b: Baseline, n: nat, exists_: string -> bool)
    requires n < |GATES|
    ensures GatesSound(b, n + 1, exists_) <==> GatesSound(b, n, exists_) && GateSound(b, GATES[n], exists_)
  {
  }

  /** Everything after the checks of the baseline as a whole: gate by gate. */
  method AssessGates(b: Baseline, exists_: string -> bool) returns (reasons: seq<string>, rows: seq<RiskRow>)
    ensures reasons == [] <==> forall g :: g in GATES ==> GateSound(b, g, exists_)
    ensures rows == RiskRows(b, |GATES|)
  {
    reasons, rows := [], [];
    for i := 0 to |GATES|
      invariant reasons == [] <==> GatesSound(b, i, exists_)
      invariant rows == RiskRows(b, i)
    {
      var more, row := GateReasons(b, GATES[i], exists_);
      GatesSoundNext(b, i, exists_);
      RiskRowsNext(b, i);
      reasons := reasons + more;
      rows := rows + row;
    }
  }

  method Totals(rows: seq<RiskRow>) returns (present: nat, total: nat)
    ensures present == PresentIn(rows) && total == TotalIn(rows)
  {
    present, total := 0, 0;
    for i := 0 to |rows|
      invariant present == PresentIn(rows[..i]) && total == TotalIn(rows[..i])
    {
      assert rows[..i + 1][..i] == rows[..i];
      present := present + rows[i].present;
      total := total + rows[i].total;
    }
    assert rows[..|rows|] == rows;
  }

  // ---------------------------------------------------------------- the standards score

  function ScoreOf(maturity: seq<(string, int)>, area: string): Option<int> {
    if maturity == [] then None
    else if maturity[0].0 == area then Some(maturity[0].1)
    else ScoreOf(maturity[1..], area)
  }

  lemma {:induction false} ScoreOfIs(maturity: seq<(string, int)>, area: string)
    ensures ScoreOf(maturity, area).Some? ==> (area, ScoreOf(maturity, area).value) in maturity
    ensures ScoreOf(maturity, area).None? <==> forall i :: 0 <= i < |maturity| ==> maturity[i].0 != area
  {
    if maturity == [] {
    } else {
      ScoreOfIs(maturity[1..], area);
      assert maturity == [maturity[0]] + maturity[1..];
    }
  }

  /** The score of an area is that of the baseline, both being absent counting as agreement, with high confidence. */
  predicate AreaAgrees(b: Baseline, score: Score, area: string) {
    && area in score.maturity && score.maturity[area].score == ScoreOf(b.maturity, area)
    && score.maturity[area].confidence == "High"
  }

  function GateIn(gates: map<string, StaticGate>, gate: string): Option<StaticGate> {
    if gate in gates then Some(gates[gate]) else None
  }

  predicate ScoreAgrees(b: Baseline, score: Score) {
    && score.schema == SCORE_SCHEMA
    && (forall i :: 0 <= i < |MATURITY| ==> AreaAgrees(b, score, MATURITY[i].0))
    && (forall i :: 0 <= i < |GATES| ==> GateIn(score.gates, GATES[i]) == GateIn(b.gates, GATES[i]))
    && score.rawScoreSha256 == b.rawScoreSha256
  }

  method ScoreReasons(b: Baseline, score: Score) returns (reasons: seq<string>)
    ensures reasons == [] <==> ScoreAgrees(b, score)
  {
    reasons := [];
    if score.schema != SCORE_SCHEMA {
      reasons := reasons + ["unsupported standards score baseline schema"];
    }
    ghost var before := reasons;
    for i := 0 to |MATURITY|
      invariant reasons == [] <==> before == [] && forall j :: 0 <= j < i ==> AreaAgrees(b, score, MATURITY[j].0)
    {
      var area := MATURITY[i].0;
      var found := if area in score.maturity then score.maturity[area] else AreaScore(None, "");
      if found.score != ScoreOf(b.maturity, area) || found.confidence != "High" {
        reasons := reasons + ["standards score baseline " + area + " drifted"];
      }
    }
    before := reasons;
    for i := 0 to |GATES|
      invariant reasons == [] <==>
                before == [] && forall j :: 0 <= j < i ==> GateIn(score.gates, GATES[j]) == GateIn(b.gates, GATES[j])
    {
      var g := GATES[i];
      if (g in score.gates) != (g in b.gates) || (g in b.gates && score.gates[g] != b.gates[g]) {
        reasons := reasons + ["standards score baseline " + g + " drifted"];
      }
    }
    if score.rawScoreSha256 != b.rawScoreSha256 {
      reasons := reasons + ["standards raw score hash drifted"];
    }
  }

  method AssessReleaseRisk(b: Baseline, exists_: string -> bool, score: Option<Score>) returns (a: Assessment)
    ensures a.ok <==> Sound(b, exists_) && (score.Some? ==> ScoreAgrees(b, score.value))
    ensures a.ok <==> a.reasons == []
    ensures a.rows == RiskRows(b, |GATES|)
    ensures a.present == PresentIn(a.rows) && a.total == TotalIn(a.rows) && a.missing == a.total - a.present
    ensures a.completion == Tenths(a.present, a.total)
    ensures a.status == Worst(a.rows)
    ensures a.total == |Places(b, ALL_GATES, None)| && a.present == |Places(b, ALL_GATES, Some("present"))|
    ensures a.status == Ready <==> Places(b, ALL_GATES, Some("missing")) == {}
    ensures a.status == Blocked <==> Places(b, {"dod"}, Some("missing")) != {}
    ensures exists at :: RowsRead(b, |GATES|, a.rows, at)
  {
    AssessmentReads(b);
    var reasons: seq<string> := [];
    if b.schema != BASELINE_SCHEMA {
      reasons := reasons + ["unsupported risk-baseline schema"];
    }
    if b.maturity != MATURITY {
      reasons := reasons + ["static maturity baseline must remain REQ/ARCH/TEST/CM/DOC 5/5"];
    }
    var more, rows := AssessGates(b, exists_);
    reasons := reasons + more;
    var present, total := Totals(rows);
    var missing: int := total as int - present as int;
    a := Assessment(|reasons| == 0, reasons, present, missing, total, Tenths(present, total), Worst(rows), rows);
    if score.Some? {
      var drift := ScoreReasons(b, score.value);
      reasons := reasons + drift;
      a := a.(reasons := reasons, ok := |reasons| == 0);
    }
  }
}
