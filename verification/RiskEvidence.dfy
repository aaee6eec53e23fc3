/** The release-risk baseline, what an assessment of it must say, and how that reads off the evidence itself. */
module RiskEvidence {
  import opened Wrappers
  import LineFormat

  // ---------------------------------------------------------------- data

  /** `proof.evidence`: null, a text, or anything else. */
  datatype Evidence = NoEvidence | Words(text: string) | OtherEvidence

  datatype Artifact = Path(text: string) | NotText

  /** `proof.artifacts`: undefined, an array, or anything else. */
  datatype Artifacts = NoArtifacts | List(items: seq<Artifact>) | NotAList

  datatype Proof = Proof(id: string, status: string, evidence: Evidence, artifacts: Artifacts)

  /** A row whose proofs are no array has None. */
  datatype Row = Row(gate: string, proofs: Option<seq<Proof>>)

  datatype StaticGate = StaticGate(status: string, confidence: string, rawMissingProof: string)

  /** `maturity` lists the keys in their own order. */
  datatype Baseline = Baseline(
    schema: string,
    releaseVersion: string,
    maturity: seq<(string, int)>,
    gates: map<string, StaticGate>,
    rawScoreSha256: Option<string>,
    releaseEvidence: seq<Row>)

  datatype ReleaseStatus = Ready | AtRisk | Blocked

  /** Percentages are in tenths of a percent. */
  datatype RiskRow = RiskRow(
    gate: string,
    present: nat,
    missing: nat,
    total: nat,
    completion: nat,
    status: ReleaseStatus,
    missingProofs: seq<string>)

  const BASELINE_SCHEMA := "labview-benchmark-actor/release-risk-baseline@1"
  const GATES: seq<string> := ["coverage", "cm", "req", "arch", "doc", "dod"]
  const MATURITY: seq<(string, int)> := [("REQ", 5), ("ARCH", 5), ("TEST", 5), ("CM", 5), ("DOC", 5)]

  // ---------------------------------------------------------------- what the assessment means

  function FindRow(rows: seq<Row>, gate: string): Option<Row> {
    if rows == [] then None else if rows[0].gate == gate then Some(rows[0]) else FindRow(rows[1..], gate)
  }

  /** Row `i` is the first one of its gate. */
  predicate FirstRow(rows: seq<Row>, gate: string, i: nat) {
    i < |rows| && rows[i].gate == gate && forall j :: 0 <= j < i ==> rows[j].gate != gate
  }

  lemma {:induction false} FindRowAt(rows: seq<Row>, gate: string) returns (at: nat)
    ensures at <= |rows| && forall j :: 0 <= j < at ==> rows[j].gate != gate
    ensures at < |rows| ==> FirstRow(rows, gate, at)
    ensures FindRow(rows, gate) == if at < |rows| then Some(rows[at]) else None
  {
    at := 0;
    if rows != [] && rows[0].gate != gate {
      var later := FindRowAt(rows[1..], gate);
      at := later + 1;
      assert forall j :: 1 <= j < at ==> rows[j] == rows[1..][j - 1];
    }
  }

  /** The row found for a gate is the first one with that gate; none is found exactly if there is none. */
  lemma FindRowIs(rows: seq<Row>, gate: string)
    ensures forall row ::
              FindRow(rows, gate) == Some(row) <==> exists i: nat :: FirstRow(rows, gate, i) && rows[i] == row
    ensures FindRow(rows, gate) == None <==> forall i :: 0 <= i < |rows| ==> rows[i].gate != gate
  {
    var at := FindRowAt(rows, gate);
    assert at < |rows| ==> FirstRow(rows, gate, at) && rows[at] == FindRow(rows, gate).value;
  }

  /** The proofs a gate is judged by: those of its first row, unless there are none. */
  function GateProofs(b: Baseline, gate: string): seq<Proof> {
    var row := FindRow(b.releaseEvidence, gate);
    if row.Some? && row.value.proofs.Some? then row.value.proofs.value else []
  }

  function Count(proofs: seq<Proof>, status: string): nat {
    if proofs == [] then 0 else (if proofs[0].status == status then 1 else 0) + Count(proofs[1..], status)
  }

  function Ids(proofs: seq<Proof>, status: string): seq<string> {
    if proofs == [] then []
    else (if proofs[0].status == status then [proofs[0].id] else []) + Ids(proofs[1..], status)
  }

  predicate ValidStatus(p: Proof) {
    p.status == "present" || p.status == "missing"
  }

  predicate Blank(text: string) {
    LineFormat.Class.Space.HasAll(text)
  }

  predicate Resolves(artifact: Artifact, exists_: string -> bool) {
    artifact.Path? && exists_(artifact.text)
  }

  /** A present proof shows evidence and artifacts that resolve; any other shows neither. */
  predicate ProofSound(p: Proof, exists_: string -> bool) {
    if p.status == "present" then
      && p.evidence.Words? && !Blank(p.evidence.text)
      && p.artifacts.List? && p.artifacts.items != []
      && (forall i :: 0 <= i < |p.artifacts.items| ==> Resolves(p.artifacts.items[i], exists_))
    else
      p.evidence.NoEvidence? && p.artifacts.NoArtifacts?
  }

  predicate StaticOk(b: Baseline, gate: string) {
    gate in b.gates && b.gates[gate] == StaticGate("PASS", if gate == "dod" then "Med" else "High", "-")
  }

  predicate GateSound(b: Baseline, gate: string, exists_: string -> bool) {
    var proofs := GateProofs(b, gate);
    && FindRow(b.releaseEvidence, gate).Some? && StaticOk(b, gate) && proofs != []
    && (forall i :: 0 <= i < |proofs| ==> ValidStatus(proofs[i]))
    && (forall i :: 0 <= i < |proofs| ==> ProofSound(proofs[i], exists_))
  }

  predicate Sound(b: Baseline, exists_: string -> bool) {
    && b.schema == BASELINE_SCHEMA && b.maturity == MATURITY
    && forall g :: g in GATES ==> GateSound(b, g, exists_)
  }

  /** The share of `part` in `whole` in tenths of a percent, rounded to the nearest and halves up. */
  function Tenths(part: nat, whole: nat): nat {
    if whole == 0 then 0 else (2000 * part + whole) / (2 * whole)
  }

  lemma MulMonotone(a: nat, b: nat, d: nat)
    requires a <= b
    ensures a * d <= b * d && (a + 1) * d == a * d + d
  {
  }

  lemma RoundedBounds(x: nat, whole: nat)
    requires whole > 0
    ensures var q := x / (2 * whole); (2 * q - 1) * whole <= x - whole < (2 * q + 1) * whole
  {
    var q, r := x / (2 * whole), x % (2 * whole);
    assert x == q * (2 * whole) + r;
    assert (2 * q - 1) * whole == 2 * q * whole - whole && (2 * q + 1) * whole == 2 * q * whole + whole;
    assert q * (2 * whole) == 2 * q * whole;
  }

  lemma QuotientAtLeast(x: nat, d: nat, q: nat)
    requires d >= 1
    ensures x / d >= q <==> x >= q * d
  {
    var r := x % d;
    assert x == x / d * d + r;
    if x / d >= q {
      MulMonotone(q, x / d, d);
    } else {
      MulMonotone(x / d + 1, q, d);
    }
  }

  /** `t` tenths of a percent are as near as can be to the share of `part` in `whole`, and halves are rounded up. */
  predicate Rounded(part: nat, whole: nat, t: nat) {
    (2 * t - 1) * whole <= 2000 * part < (2 * t + 1) * whole
  }

  /** Rounded to the nearest tenth of a percent, halves up. So a report of 100 percent means that at most one in
      2000 is missing, and one of 0 that fewer than that are present. */
  lemma TenthsMean(part: nat, whole: nat)
    requires part <= whole && whole > 0
    ensures (2 * Tenths(part, whole) - 1) * whole <= 2000 * part < (2 * Tenths(part, whole) + 1) * whole
    ensures Tenths(part, whole) <= 1000
    ensures Tenths(part, whole) == 1000 <==> 2000 * (whole - part) <= whole
    ensures Tenths(part, whole) == 0 <==> 2000 * part < whole
  {
    QuotientAtLeast(2000 * part + whole, 2 * whole, 1000);
    QuotientAtLeast(2000 * part + whole, 2 * whole, 1001);
    QuotientAtLeast(2000 * part + whole, 2 * whole, 1);
    RoundedBounds(2000 * part + whole, whole);
  }

  function RowStatus(gate: string, proofs: seq<Proof>): ReleaseStatus {
    if Count(proofs, "missing") == 0 then Ready else if gate == "dod" then Blocked else AtRisk
  }

  function RiskRowOf(gate: string, proofs: seq<Proof>): RiskRow {
    var present, missing := Count(proofs, "present"), Count(proofs, "missing");
    RiskRow(gate, present, missing, |proofs|, Tenths(present, |proofs|), RowStatus(gate, proofs),
      Ids(proofs, "missing"))
  }

  /** One row for each of the first `n` gates that has proofs. */
  function RiskRows(b: Baseline, n: nat): seq<RiskRow>
    requires n <= |GATES|
  {
    if n == 0 then []
    else
      var proofs := GateProofs(b, GATES[n - 1]);
      RiskRows(b, n - 1) + (if proofs == [] then [] else [RiskRowOf(GATES[n - 1], proofs)])
  }

  lemma RiskRowsNext(b: Baseline, n: nat)
    requires n < |GATES|
    ensures RiskRows(b, n + 1) == RiskRows(b, n)
            + (if GateProofs(b, GATES[n]) == [] then [] else [RiskRowOf(GATES[n], GateProofs(b, GATES[n]))])
  {
  }

  function PresentIn(rows: seq<RiskRow>): nat {
    if rows == [] then 0 else PresentIn(rows[..|rows| - 1]) + rows[|rows| - 1].present
  }

  function TotalIn(rows: seq<RiskRow>): nat {
    if rows == [] then 0 else TotalIn(rows[..|rows| - 1]) + rows[|rows| - 1].total
  }

  predicate HasStatus(rows: seq<RiskRow>, status: ReleaseStatus) {
    exists i :: 0 <= i < |rows| && rows[i].status == status
  }

  function Worst(rows: seq<RiskRow>): ReleaseStatus {
    if HasStatus(rows, Blocked) then Blocked else if HasStatus(rows, AtRisk) then AtRisk else Ready
  }

  // ---------------------------------------------------------------- counting proofs

  lemma {:induction false} CountAll(proofs: seq<Proof>)
    ensures Count(proofs, "present") + Count(proofs, "missing") <= |proofs|
    ensures Count(proofs, "present") + Count(proofs, "missing") == |proofs|
            <==> forall i :: 0 <= i < |proofs| ==> ValidStatus(proofs[i])
  {
    if proofs == [] {
    } else {
      CountAll(proofs[1..]);
      assert proofs == [proofs[0]] + proofs[1..];
    }
  }

  lemma {:induction false} CountZero(proofs: seq<Proof>, status: string)
    ensures Count(proofs, status) == 0 <==> forall i :: 0 <= i < |proofs| ==> proofs[i].status != status
  {
    if proofs == [] {
    } else {
      CountZero(proofs[1..], status);
      assert proofs == [proofs[0]] + proofs[1..];
    }
  }

  lemma {:induction false} CountSnoc(proofs: seq<Proof>, p: Proof, status: string)
    ensures Count(proofs + [p], status) == Count(proofs, status) + (if p.status == status then 1 else 0)
  {
    if proofs == [] {
      assert [] + [p] == [p];
    } else {
      assert (proofs + [p])[1..] == proofs[1..] + [p];
      CountSnoc(proofs[1..], p, status);
    }
  }

  lemma {:induction false} IdsCount(proofs: seq<Proof>, status: string)
    ensures |Ids(proofs, status)| == Count(proofs, status)
  {
    if proofs == [] {
    } else {
      IdsCount(proofs[1..], status);
    }
  }

  lemma {:induction false} IdsSnoc(proofs: seq<Proof>, p: Proof, status: string)
    ensures Ids(proofs + [p], status) == Ids(proofs, status) + (if p.status == status then [p.id] else [])
  {
    if proofs == [] {
      assert [] + [p] == [p];
    } else {
      assert (proofs + [p])[1..] == proofs[1..] + [p];
      IdsSnoc(proofs[1..], p, status);
    }
  }

  /** `ids` are the ids of the proofs with the given status, in their order. */
  ghost predicate Lists(ids: seq<string>, proofs: seq<Proof>, status: string, at: seq<nat>) {
    && |at| == |ids| && Increasing(at, |proofs|)
    && (forall k :: 0 <= k < |at| ==> proofs[at[k]].status == status && ids[k] == proofs[at[k]].id)
    && forall j :: 0 <= j < |proofs| && proofs[j].status == status ==> j in at
  }

  lemma ListsSnoc(ids: seq<string>, proofs: seq<Proof>, status: string, at: seq<nat>, p: Proof)
    requires Lists(ids, proofs, status, at)
    ensures p.status != status ==> Lists(ids, proofs + [p], status, at)
    ensures p.status == status ==> Lists(ids + [p.id], proofs + [p], status, at + [|proofs|])
  {
    IncreasingSnoc(at, |proofs|);
    if p.status == status {
      assert (at + [|proofs|])[|at|] == |proofs|;
      forall j | 0 <= j < |proofs| && proofs[j].status == status ensures j in at + [|proofs|] {
        assert j in at;
      }
    }
  }

  /** The ids of a status are listed completely, each once for each proof, in the order of the proofs. */
  lemma {:induction false} IdsList(proofs: seq<Proof>, status: string) returns (at: seq<nat>)
    ensures Lists(Ids(proofs, status), proofs, status, at)
    decreases |proofs|
  {
    if proofs == [] {
      at := [];
    } else {
      var before, p := proofs[..|proofs| - 1], proofs[|proofs| - 1];
      assert proofs == before + [p];
      at := IdsList(before, status);
      IdsSnoc(before, p, status);
      ListsSnoc(Ids(before, status), before, status, at, p);
      if p.status == status {
        at := at + [|before|];
      }
    }
  }

  lemma ListsLess(ids: seq<string>, proofs: seq<Proof>, status: string, at: seq<nat>)
    requires Lists(ids, proofs, status, at) && at != [] && at[|at| - 1] == |proofs| - 1
    ensures var m, n := |at| - 1, |proofs| - 1;
            Lists(ids[..m], proofs[..n], status, at[..m]) && ids[m] == proofs[n].id
  {
    var m, n := |at| - 1, |proofs| - 1;
    IncreasingInit(at, n);
    forall j | 0 <= j < n && proofs[..n][j].status == status ensures j in at[..m] {
      assert proofs[j].status == status;
      var k :| 0 <= k < |at| && at[k] == j;
      assert at[..m][k] == j;
    }
  }

  /** Which of the proofs have the given status. */
  ghost function Those(proofs: seq<Proof>, status: string): set<nat> {
    set j: nat | j < |proofs| && proofs[j].status == status
  }

  lemma ThoseSnoc(proofs: seq<Proof>, p: Proof, status: string)
    ensures |Those(proofs + [p], status)| == |Those(proofs, status)| + (if p.status == status then 1 else 0)
  {
    var all := proofs + [p];
    assert all[|proofs|] == p;
    if p.status == status {
      assert Those(all, status) == Those(proofs, status) + {|proofs|};
    } else {
      assert Those(all, status) == Those(proofs, status);
    }
  }

  lemma {:induction false} CountIs(proofs: seq<Proof>, status: string)
    ensures Count(proofs, status) == |Those(proofs, status)|
    decreases |proofs|
  {
    if proofs == [] {
    } else {
      var before, p := proofs[..|proofs| - 1], proofs[|proofs| - 1];
      assert proofs == before + [p];
      CountIs(before, status);
      CountSnoc(before, p, status);
      ThoseSnoc(before, p, status);
    }
  }

  // ---------------------------------------------------------------- the rows, read off the evidence

  /** Row `i` of the evidence is the one that `gate` is judged by, and it has proofs. */
  ghost predicate JudgedBy(b: Baseline, gate: string, i: nat) {
    && FirstRow(b.releaseEvidence, gate, i)
    && b.releaseEvidence[i].proofs.Some? && b.releaseEvidence[i].proofs.value != []
  }

  /** Some row of the evidence is the one that `gate` is judged by, and it has proofs. */
  ghost predicate Judged(b: Baseline, gate: string) {
    exists i: nat :: JudgedBy(b, gate, i)
  }

  ghost predicate NumbersRead(row: RiskRow, proofs: seq<Proof>) {
    && row.total == |proofs|
    && row.present == |Those(proofs, "present")| && row.missing == |Those(proofs, "missing")|
    && Rounded(row.present, |proofs|, row.completion)
  }

  /** What a row must say of the proofs of its gate. */
  ghost predicate RowReads(row: RiskRow, gate: string, proofs: seq<Proof>) {
    && row.gate == gate && NumbersRead(row, proofs)
    && (exists at: seq<nat> :: Lists(row.missingProofs, proofs, "missing", at))
    && row.status == (if Those(proofs, "missing") == {} then Ready else if gate == "dod" then Blocked else AtRisk)
  }

  ghost predicate SaysOf(b: Baseline, row: RiskRow, gate: string) {
    exists i: nat :: JudgedBy(b, gate, i) && RowReads(row, gate, b.releaseEvidence[i].proofs.value)
  }

  /** There is only one such list. */
  lemma {:induction false} ListsOnly(ids: seq<string>, proofs: seq<Proof>, status: string, at: seq<nat>)
    requires Lists(ids, proofs, status, at)
    ensures ids == Ids(proofs, status)
    decreases |proofs|
  {
    if proofs == [] {
    } else {
      var n, p := |proofs| - 1, proofs[|proofs| - 1];
      assert proofs == proofs[..n] + [p];
      IdsSnoc(proofs[..n], p, status);
      if p.status == status {
        IncreasingEnd(at, n);
        var m := |at| - 1;
        ListsLess(ids, proofs, status, at);
        ListsOnly(ids[..m], proofs[..n], status, at[..m]);
        assert ids == ids[..m] + [p.id];
      } else {
        IncreasingLess(at, n);
        assert Lists(ids, proofs[..n], status, at);
        ListsOnly(ids, proofs[..n], status, at);
      }
    }
  }

  lemma RoundedOnly(part: nat, whole: nat, t: nat)
    requires part <= whole && whole > 0
    ensures Rounded(part, whole, t) <==> t == Tenths(part, whole)
  {
    TenthsMean(part, whole);
    var u := Tenths(part, whole);
    if t < u {
      MulMonotone(2 * t + 1, 2 * u - 1, whole);
    } else if u < t {
      MulMonotone(2 * u + 1, 2 * t - 1, whole);
    }
  }

  lemma RowIs(gate: string, proofs: seq<Proof>)
    requires proofs != []
    ensures RowReads(RiskRowOf(gate, proofs), gate, proofs)
  {
    CountIs(proofs, "present");
    CountIs(proofs, "missing");
    CountAll(proofs);
    TenthsMean(Count(proofs, "present"), |proofs|);
    var at := IdsList(proofs, "missing");
  }

  lemma RowNumbers(row: RiskRow, proofs: seq<Proof>)
    requires proofs != [] && NumbersRead(row, proofs)
    ensures row.present == Count(proofs, "present") && row.missing == Count(proofs, "missing")
    ensures row.completion == Tenths(row.present, |proofs|)
  {
    CountIs(proofs, "present");
    CountIs(proofs, "missing");
    CountAll(proofs);
    RoundedOnly(row.present, |proofs|, row.completion);
  }

  lemma RowNames(row: RiskRow, gate: string, proofs: seq<Proof>)
    requires proofs != [] && RowReads(row, gate, proofs)
    ensures row.missingProofs == Ids(proofs, "missing") && row.status == RowStatus(gate, proofs)
  {
    CountIs(proofs, "missing");
    var at :| Lists(row.missingProofs, proofs, "missing", at);
    ListsOnly(row.missingProofs, proofs, "missing", at);
  }

  /** A row says what it must exactly if it is the gate's row. */
  lemma RowIsOnly(row: RiskRow, gate: string, proofs: seq<Proof>)
    requires proofs != []
    ensures RowReads(row, gate, proofs) <==> row == RiskRowOf(gate, proofs)
  {
    RowIs(gate, proofs);
    if RowReads(row, gate, proofs) {
      RowNumbers(row, proofs);
      RowNames(row, gate, proofs);
    }
  }

  lemma GateJudged(b: Baseline, gate: string)
    ensures GateProofs(b, gate) != [] <==> Judged(b, gate)
    ensures GateProofs(b, gate) != [] ==> SaysOf(b, RiskRowOf(gate, GateProofs(b, gate)), gate)
  {
    var at := FindRowAt(b.releaseEvidence, gate);
    assert GateProofs(b, gate) != [] ==> JudgedBy(b, gate, at);
    if GateProofs(b, gate) != [] {
      RowIs(gate, GateProofs(b, gate));
    }
  }

  /** One row if the gate has proofs, and it says of them what it must; otherwise none. */
  ghost predicate OneRowIfJudged(b: Baseline, gate: string, rows: seq<RiskRow>) {
    if Judged(b, gate) then |rows| == 1 && SaysOf(b, rows[0], gate) else rows == []
  }

  lemma SaysOnly(b: Baseline, row: RiskRow, gate: string)
    ensures SaysOf(b, row, gate) <==>
            GateProofs(b, gate) != [] && row == RiskRowOf(gate, GateProofs(b, gate))
  {
    GateJudged(b, gate);
    var at := FindRowAt(b.releaseEvidence, gate);
    if i: nat :| JudgedBy(b, gate, i) && RowReads(row, gate, b.releaseEvidence[i].proofs.value) {
      assert i == at;
      RowIsOnly(row, gate, GateProofs(b, gate));
    }
  }

  lemma OneRowOnly(b: Baseline, gate: string, rows: seq<RiskRow>)
    ensures OneRowIfJudged(b, gate, rows) <==>
            rows == if GateProofs(b, gate) == [] then [] else [RiskRowOf(gate, GateProofs(b, gate))]
  {
    GateJudged(b, gate);
    if rows != [] {
      SaysOnly(b, rows[0], gate);
    }
  }

  lemma RowIfJudged(b: Baseline, gate: string)
    ensures OneRowIfJudged(b, gate, if GateProofs(b, gate) == [] then [] else [RiskRowOf(gate, GateProofs(b, gate))])
  {
    GateJudged(b, gate);
  }

  /** Each row says of the proofs of its gate what it must. */
  ghost predicate EachSays(b: Baseline, rows: seq<RiskRow>) {
    forall k :: 0 <= k < |rows| ==> SaysOf(b, rows[k], rows[k].gate)
  }

  /** The gates of the rows are numbered `at`. */
  ghost predicate Numbered(rows: seq<RiskRow>, at: seq<nat>) {
    |at| == |rows| && forall k :: 0 <= k < |at| ==> at[k] < |GATES| && rows[k].gate == GATES[at[k]]
  }

  /** No gate with proofs among the first `n` is left out. */
  ghost predicate Complete(b: Baseline, n: nat, at: seq<nat>)
    requires n <= |GATES|
  {
    forall g :: 0 <= g < n && Judged(b, GATES[g]) ==> g in at
  }

  /** The rows are those of the gates with proofs among the first `n`, in the order of the gates. */
  ghost predicate RowsRead(b: Baseline, n: nat, rows: seq<RiskRow>, at: seq<nat>)
    requires n <= |GATES|
  {
    Increasing(at, n) && Numbered(rows, at) && Complete(b, n, at) && EachSays(b, rows)
  }

  lemma EachSaysSnoc(b: Baseline, rows: seq<RiskRow>, row: RiskRow)
    requires EachSays(b, rows) && SaysOf(b, row, row.gate)
    ensures EachSays(b, rows + [row])
  {
    var all := rows + [row];
    forall k | 0 <= k < |all| ensures SaysOf(b, all[k], all[k].gate) {
      if k < |rows| {
        assert all[k] == rows[k];
      } else {
        assert all[k] == row;
      }
    }
  }

  lemma NumberedSnoc(rows: seq<RiskRow>, at: seq<nat>, row: RiskRow, n: nat)
    requires Numbered(rows, at) && n < |GATES| && row.gate == GATES[n]
    ensures Numbered(rows + [row], at + [n])
  {
    var more, all := at + [n], rows + [row];
    assert more[|at|] == n && all[|rows|] == row;
    assert forall k :: 0 <= k < |at| ==> all[k] == rows[k] && more[k] == at[k];
  }

  lemma CompleteSnoc(b: Baseline, n: nat, at: seq<nat>)
    requires n < |GATES| && Complete(b, n, at)
    ensures Complete(b, n + 1, at + [n])
  {
    assert (at + [n])[|at|] == n;
    assert forall g :: g in at ==> g in at + [n];
  }

  lemma RowsReadNext(b: Baseline, n: nat, rows: seq<RiskRow>, at: seq<nat>) returns (more: seq<nat>)
    requires n < |GATES| && RowsRead(b, n, rows, at)
    ensures var proofs := GateProofs(b, GATES[n]);
            RowsRead(b, n + 1, rows + (if proofs == [] then [] else [RiskRowOf(GATES[n], proofs)]), more)
  {
    var proofs := GateProofs(b, GATES[n]);
    GateJudged(b, GATES[n]);
    IncreasingSnoc(at, n);
    if proofs == [] {
      assert rows + [] == rows;
      more := at;
    } else {
      EachSaysSnoc(b, rows, RiskRowOf(GATES[n], proofs));
      NumberedSnoc(rows, at, RiskRowOf(GATES[n], proofs), n);
      CompleteSnoc(b, n, at);
      more := at + [n];
    }
  }

  /** The rows of an assessment are those of the gates that have proofs, in the order of the gates. */
  lemma {:induction false} RowsAre(b: Baseline, n: nat, rows: seq<RiskRow>) returns (at: seq<nat>)
    requires n <= |GATES| && rows == RiskRows(b, n)
    ensures RowsRead(b, n, rows, at)
    decreases n
  {
    if n == 0 {
      at := [];
    } else {
      var before := RiskRows(b, n - 1);
      var earlier := RowsAre(b, n - 1, before);
      RiskRowsNext(b, n - 1);
      at := RowsReadNext(b, n - 1, before, earlier);
    }
  }

  lemma CompleteInit(b: Baseline, n: nat, at: seq<nat>)
    requires n < |GATES| && Complete(b, n + 1, at) && at != [] && at[|at| - 1] == n
    ensures Complete(b, n, at[..|at| - 1])
  {
    var init := at[..|at| - 1];
    forall g | 0 <= g < n && Judged(b, GATES[g]) ensures g in init {
      assert g in at;
      var k :| 0 <= k < |at| && at[k] == g;
      assert init[k] == g;
    }
  }

  lemma EachSaysInit(b: Baseline, rows: seq<RiskRow>)
    requires EachSays(b, rows) && rows != []
    ensures EachSays(b, rows[..|rows| - 1]) && SaysOf(b, rows[|rows| - 1], rows[|rows| - 1].gate)
  {
    var init := rows[..|rows| - 1];
    forall k | 0 <= k < |init| ensures SaysOf(b, init[k], init[k].gate) {
      assert init[k] == rows[k];
    }
  }

  lemma RowsLast(b: Baseline, n: nat, rows: seq<RiskRow>, at: seq<nat>)
    requires n < |GATES| && RowsRead(b, n + 1, rows, at) && n in at
    ensures var m := |at| - 1;
            && RowsRead(b, n, rows[..m], at[..m]) && GateProofs(b, GATES[n]) != []
            && rows == rows[..m] + [RiskRowOf(GATES[n], GateProofs(b, GATES[n]))]
  {
    var m := |at| - 1;
    IncreasingEnd(at, n);
    IncreasingInit(at, n);
    EachSaysInit(b, rows);
    CompleteInit(b, n, at);
    SaysOnly(b, rows[m], GATES[n]);
    assert rows == rows[..m] + [rows[m]];
  }

  lemma RowsSkip(b: Baseline, n: nat, rows: seq<RiskRow>, at: seq<nat>)
    requires n < |GATES| && RowsRead(b, n + 1, rows, at) && n !in at
    ensures RowsRead(b, n, rows, at) && GateProofs(b, GATES[n]) == []
  {
    IncreasingLess(at, n);
    GateJudged(b, GATES[n]);
  }

  lemma RowsPeel(b: Baseline, n: nat, rows: seq<RiskRow>, at: seq<nat>)
    returns (before: seq<RiskRow>, earlier: seq<nat>)
    requires n < |GATES| && RowsRead(b, n + 1, rows, at)
    ensures RowsRead(b, n, before, earlier)
    ensures var proofs := GateProofs(b, GATES[n]);
            rows == before + (if proofs == [] then [] else [RiskRowOf(GATES[n], proofs)])
  {
    if n in at {
      RowsLast(b, n, rows, at);
      before, earlier := rows[..|at| - 1], at[..|at| - 1];
    } else {
      RowsSkip(b, n, rows, at);
      before, earlier := rows, at;
      assert rows + [] == rows;
    }
  }

  /** And only they are. */
  lemma {:induction false} RowsOnly(b: Baseline, n: nat, rows: seq<RiskRow>, at: seq<nat>)
    requires n <= |GATES| && RowsRead(b, n, rows, at)
    ensures rows == RiskRows(b, n)
    decreases n
  {
    if n == 0 {
      IncreasingShort(at, 0);
    } else {
      var before, earlier := RowsPeel(b, n - 1, rows, at);
      RowsOnly(b, n - 1, before, earlier);
      RiskRowsNext(b, n - 1);
    }
  }

  // ---------------------------------------------------------------- the totals, read off the evidence

  const ALL_GATES: set<string> := {"coverage", "cm", "req", "arch", "doc", "dod"}

  /** Where the evidence has the proofs that some gate is judged by: in the first row of the gate, those with the
      given status, if one is given. */
  ghost function Places(b: Baseline, gates: set<string>, status: Option<string>): set<(nat, nat)> {
    set i: nat, j: nat |
      && i < |b.releaseEvidence| && b.releaseEvidence[i].gate in gates
      && FirstRow(b.releaseEvidence, b.releaseEvidence[i].gate, i)
      && b.releaseEvidence[i].proofs.Some? && j < |b.releaseEvidence[i].proofs.value|
      && (status.Some? ==> b.releaseEvidence[i].proofs.value[j].status == status.value)
      :: (i, j)
  }

  /** The places in row `i` of the first `n` proofs. */
  ghost function RowPlaces(proofs: seq<Proof>, i: nat, n: nat, status: Option<string>): set<(nat, nat)>
    requires n <= |proofs|
  {
    set j: nat | j < n && (status.Some? ==> proofs[j].status == status.value) :: (i, j)
  }

  function CountOf(proofs: seq<Proof>, status: Option<string>): nat {
    if status.Some? then Count(proofs, status.value) else |proofs|
  }

  lemma {:induction false} RowPlacesCount(proofs: seq<Proof>, i: nat, n: nat, status: Option<string>)
    requires n <= |proofs|
    ensures |RowPlaces(proofs, i, n, status)| == CountOf(proofs[..n], status)
    decreases n
  {
    if n == 0 {
      assert RowPlaces(proofs, i, 0, status) == {};
    } else {
      RowPlacesCount(proofs, i, n - 1, status);
      var p, before := proofs[n - 1], RowPlaces(proofs, i, n - 1, status);
      assert proofs[..n] == proofs[..n - 1] + [p];
      if status.Some? {
        CountSnoc(proofs[..n - 1], p, status.value);
      }
      if status.Some? && p.status != status.value {
        assert RowPlaces(proofs, i, n, status) == before;
      } else {
        assert RowPlaces(proofs, i, n, status) == before + {(i, n - 1)};
      }
    }
  }

  /** A gate's proofs are counted by their places. */
  lemma GatePlaces(b: Baseline, gate: string, status: Option<string>)
    ensures |Places(b, {gate}, status)| == CountOf(GateProofs(b, gate), status)
  {
    var rows := b.releaseEvidence;
    var at := FindRowAt(rows, gate);
    var proofs := GateProofs(b, gate);
    if at < |rows| && rows[at].proofs.Some? {
      RowPlacesCount(proofs, at, |proofs|, status);
      assert proofs[..|proofs|] == proofs;
      assert Places(b, {gate}, status) == RowPlaces(proofs, at, |proofs|, status);
    } else {
      assert Places(b, {gate}, status) == {};
    }
  }

  lemma PlacesUnion(b: Baseline, gates: set<string>, gate: string, status: Option<string>)
    requires gate !in gates
    ensures |Places(b, gates + {gate}, status)| == |Places(b, gates, status)| + |Places(b, {gate}, status)|
  {
    var these, those := Places(b, gates, status), Places(b, {gate}, status);
    assert Places(b, gates + {gate}, status) == these + those;
    assert these !! those;
  }

  ghost function FirstGates(n: nat): set<string>
    requires n <= |GATES|
  {
    set k | 0 <= k < n :: GATES[k]
  }

  lemma FirstGatesNext(n: nat)
    requires n < |GATES|
    ensures FirstGates(n + 1) == FirstGates(n) + {GATES[n]} && GATES[n] !in FirstGates(n)
  {
  }

  lemma AllGates()
    ensures FirstGates(|GATES|) == ALL_GATES
  {
    assert GATES[0] == "coverage" && GATES[1] == "cm" && GATES[2] == "req" && GATES[3] == "arch";
    assert GATES[4] == "doc" && GATES[5] == "dod";
  }

  /** How many places the first `n` gates have. */
  ghost function PlacesIn(b: Baseline, n: nat, status: Option<string>): nat
    requires n <= |GATES|
  {
    |Places(b, FirstGates(n), status)|
  }

  lemma PlacesInNone(b: Baseline, status: Option<string>)
    ensures PlacesIn(b, 0, status) == 0
  {
    assert FirstGates(0) == {};
    assert Places(b, {}, status) == {};
  }

  lemma PlacesNext(b: Baseline, n: nat, status: Option<string>)
    requires n < |GATES|
    ensures PlacesIn(b, n + 1, status) == PlacesIn(b, n, status) + CountOf(GateProofs(b, GATES[n]), status)
  {
    FirstGatesNext(n);
    PlacesUnion(b, FirstGates(n), GATES[n], status);
    GatePlaces(b, GATES[n], status);
  }

  function CountUpTo(b: Baseline, n: nat, status: Option<string>): nat
    requires n <= |GATES|
  {
    if n == 0 then 0 else CountUpTo(b, n - 1, status) + CountOf(GateProofs(b, GATES[n - 1]), status)
  }

  lemma {:induction false} PlacesAreCounted(b: Baseline, n: nat, status: Option<string>)
    requires n <= |GATES|
    ensures PlacesIn(b, n, status) == CountUpTo(b, n, status)
  {
    if n == 0 {
      PlacesInNone(b, status);
    } else {
      PlacesAreCounted(b, n - 1, status);
      PlacesNext(b, n - 1, status);
    }
  }

  lemma TotalsSnoc(rows: seq<RiskRow>, row: RiskRow)
    ensures PresentIn(rows + [row]) == PresentIn(rows) + row.present
    ensures TotalIn(rows + [row]) == TotalIn(rows) + row.total
  {
    assert (rows + [row])[..|rows|] == rows;
  }

  lemma TotalsNext(b: Baseline, n: nat)
    requires n < |GATES|
    ensures PresentIn(RiskRows(b, n + 1)) == PresentIn(RiskRows(b, n)) + Count(GateProofs(b, GATES[n]), "present")
    ensures TotalIn(RiskRows(b, n + 1)) == TotalIn(RiskRows(b, n)) + |GateProofs(b, GATES[n])|
  {
    var proofs, rows := GateProofs(b, GATES[n]), RiskRows(b, n);
    RiskRowsNext(b, n);
    if proofs == [] {
      assert rows + [] == rows;
    } else {
      TotalsSnoc(rows, RiskRowOf(GATES[n], proofs));
    }
  }

  lemma {:induction false} PresentIsCounted(b: Baseline, n: nat, rows: seq<RiskRow>)
    requires n <= |GATES| && rows == RiskRows(b, n)
    ensures PresentIn(rows) == CountUpTo(b, n, Some("present"))
    decreases n
  {
    if n == 0 {
    } else {
      var before := RiskRows(b, n - 1);
      PresentIsCounted(b, n - 1, before);
      TotalsNext(b, n - 1);
    }
  }

  lemma {:induction false} TotalIsCounted(b: Baseline, n: nat, rows: seq<RiskRow>)
    requires n <= |GATES| && rows == RiskRows(b, n)
    ensures TotalIn(rows) == CountUpTo(b, n, None)
    decreases n
  {
    if n == 0 {
    } else {
      var before := RiskRows(b, n - 1);
      TotalIsCounted(b, n - 1, before);
      TotalsNext(b, n - 1);
    }
  }

  // ---------------------------------------------------------------- readiness

  /** Proofs of gated rows that are still missing. */
  predicate GateOpen(b: Baseline, gate: string) {
    exists i :: 0 <= i < |GateProofs(b, gate)| && GateProofs(b, gate)[i].status == "missing"
  }

  /** The row of an open gate is BLOCKED for the definition of done and AT RISK for any other. */
  lemma GateStatus(b: Baseline, gate: string)
    requires GateProofs(b, gate) != []
    ensures var row := RiskRowOf(gate, GateProofs(b, gate));
            && (row.status == Blocked <==> gate == "dod" && GateOpen(b, gate))
            && (row.status == AtRisk <==> gate != "dod" && GateOpen(b, gate))
  {
    CountZero(GateProofs(b, gate), "missing");
  }

  lemma HasStatusSnoc(rows: seq<RiskRow>, row: RiskRow, status: ReleaseStatus)
    ensures HasStatus(rows + [row], status) <==> HasStatus(rows, status) || row.status == status
  {
    var all := rows + [row];
    assert all[|rows|] == row;
    if i :| 0 <= i < |rows| && rows[i].status == status {
      assert all[i] == rows[i];
    }
  }

  ghost predicate OpenAmong(b: Baseline, n: nat, dod: bool)
    requires n <= |GATES|
  {
    exists k :: 0 <= k < n && (GATES[k] == "dod") == dod && GateOpen(b, GATES[k])
  }

  lemma OpenSnoc(b: Baseline, n: nat)
    requires n < |GATES|
    ensures OpenAmong(b, n + 1, true) <==> OpenAmong(b, n, true) || (GATES[n] == "dod" && GateOpen(b, GATES[n]))
    ensures OpenAmong(b, n + 1, false) <==> OpenAmong(b, n, false) || (GATES[n] != "dod" && GateOpen(b, GATES[n]))
  {
  }

  lemma {:induction false} RowsReady(b: Baseline, n: nat)
    requires n <= |GATES|
    ensures HasStatus(RiskRows(b, n), Blocked) <==> OpenAmong(b, n, true)
    ensures HasStatus(RiskRows(b, n), AtRisk) <==> OpenAmong(b, n, false)
    decreases n
  {
    if n == 0 {
    } else {
      RowsReady(b, n - 1);
      var rows, gate := RiskRows(b, n - 1), GATES[n - 1];
      OpenSnoc(b, n - 1);
      if GateProofs(b, gate) != [] {
        GateStatus(b, gate);
        HasStatusSnoc(rows, RiskRowOf(gate, GateProofs(b, gate)), Blocked);
        HasStatusSnoc(rows, RiskRowOf(gate, GateProofs(b, gate)), AtRisk);
        assert RiskRows(b, n) == rows + [RiskRowOf(gate, GateProofs(b, gate))];
      } else {
        assert RiskRows(b, n) == rows && !GateOpen(b, gate);
      }
    }
  }

  lemma ReadyMeansNoneOpen(b: Baseline)
    ensures Worst(RiskRows(b, |GATES|)) == Ready <==> forall g :: g in GATES ==> !GateOpen(b, g)
    ensures Worst(RiskRows(b, |GATES|)) == Blocked <==> GateOpen(b, "dod")
  {
    RowsReady(b, |GATES|);
    assert GATES[5] == "dod";
  }

  lemma OpenIsPlace(b: Baseline, gate: string)
    ensures GateOpen(b, gate) <==> Places(b, {gate}, Some("missing")) != {}
  {
    GatePlaces(b, gate, Some("missing"));
    CountZero(GateProofs(b, gate), "missing");
  }

  lemma AnyOpenIsPlace(b: Baseline)
    ensures Places(b, ALL_GATES, Some("missing")) != {} <==> exists g :: g in GATES && GateOpen(b, g)
  {
    AllGates();
    forall g | g in GATES && GateOpen(b, g) ensures Places(b, ALL_GATES, Some("missing")) != {} {
      OpenIsPlace(b, g);
      var place :| place in Places(b, {g}, Some("missing"));
      assert place in Places(b, ALL_GATES, Some("missing"));
    }
    if place :| place in Places(b, ALL_GATES, Some("missing")) {
      var g := b.releaseEvidence[place.0].gate;
      assert place in Places(b, {g}, Some("missing"));
      OpenIsPlace(b, g);
    }
  }

  /** READY means that the evidence has no missing proof in the first row of any gate, BLOCKED that it has one in the
      first row of the definition of done. */
  lemma ReadyMeansNothingMissing(b: Baseline)
    ensures Worst(RiskRows(b, |GATES|)) == Ready <==> Places(b, ALL_GATES, Some("missing")) == {}
    ensures Worst(RiskRows(b, |GATES|)) == Blocked <==> Places(b, {"dod"}, Some("missing")) != {}
  {
    ReadyMeansNoneOpen(b);
    AnyOpenIsPlace(b);
    OpenIsPlace(b, "dod");
  }

  /** What the assessment says, read off the evidence. */
  lemma AssessmentReads(b: Baseline)
    ensures var rows := RiskRows(b, |GATES|);
            && TotalIn(rows) == |Places(b, ALL_GATES, None)|
            && PresentIn(rows) == |Places(b, ALL_GATES, Some("present"))|
            && (Worst(rows) == Ready <==> Places(b, ALL_GATES, Some("missing")) == {})
            && (Worst(rows) == Blocked <==> Places(b, {"dod"}, Some("missing")) != {})
            && exists at :: RowsRead(b, |GATES|, rows, at)
  {
    var rows := RiskRows(b, |GATES|);
    AllGates();
    PresentIsCounted(b, |GATES|, rows);
    TotalIsCounted(b, |GATES|, rows);
    PlacesAreCounted(b, |GATES|, Some("present"));
    PlacesAreCounted(b, |GATES|, None);
    ReadyMeansNothingMissing(b);
    var at := RowsAre(b, |GATES|, rows);
  }
}
