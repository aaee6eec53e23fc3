/**
  The composite release decision: a candidate is released only when the machine gate and the human gate
  both publish and both name the candidate that was staged.
  */
module Composite {
  import opened Wrappers
  import opened Candidates

  const SCHEMA := "labview-benchmark-actor/composite-release-decision-receipt@1"
  const REQUIREMENT := "LBA-REQ-070"
  const ADR := "ADR-0051"

  /** The pieces of a round. `quorumVerdict`, `verdict` and the sign-offs are whatever the gates accept. */
  datatype Machine = Machine(quorumVerdict: Value, signOffs: seq<Value>)
  datatype Visual = Visual(verdict: Value, signOff: Value)

  datatype Thresholds = Thresholds(minReviewers: int, minVisualReviewers: int)

  datatype Capture = Capture(
    candidate: Value,
    staged: Option<Staged>,
    machine: Option<Machine>,
    visual: Option<Visual>,
    allowlist: Value,
    gate: Thresholds)

  /** What each gate answers: publish or not. */
  datatype GateAnswer = GateAnswer(machine: bool, visual: bool)

  /** The imported gates and JSON.parse, which this model does not look into. */
  datatype World = World(gates: (Value, seq<Value>, Value, seq<Value>, Value, Thresholds) -> GateAnswer,
    parse: string -> Option<Json>)

  datatype Decision = Decision(
    machinePublish: bool,
    visualPublish: bool,
    stagedOverNet: bool,
    visualTargetBound: bool,
    machineConsensusBound: bool,
    proven: bool,
    reasons: seq<string>)

  function MachineOf(c: Capture): Machine {
    if c.machine.Some? then c.machine.value else Machine(Undefined, [])
  }

  function VisualOf(c: Capture): Visual {
    if c.visual.Some? then c.visual.value else Visual(Undefined, Undefined)
  }

  function StagedOf(c: Capture): Staged {
    if c.staged.Some? then c.staged.value else Staged(Undefined, Undefined, false, Undefined, None)
  }

  function Target(c: Capture): Value {
    Get(VisualOf(c).verdict, "target")
  }

  function Consensus(c: Capture): Value {
    OrEmpty(Get(MachineOf(c).quorumVerdict, "consensus"))
  }

  /** The quorum's consensus names the candidate's version and commit. */
  predicate ConsensusBound(c: Capture) {
    && Text(Get(Consensus(c), "version")) == Text(Get(OrEmpty(c.candidate), "version"))
    && Text(Get(Consensus(c), "sourceCommit")) == Text(Get(OrEmpty(c.candidate), "commit"))
  }

  function Gates(c: Capture, w: World): GateAnswer {
    var v := VisualOf(c);
    w.gates(MachineOf(c).quorumVerdict, MachineOf(c).signOffs, v.verdict, if Truthy(v.signOff) then [v.signOff] else [],
            OrEmpty(c.allowlist), c.gate)
  }

  /** All five conditions of a release. */
  predicate Proven(c: Capture, w: World) {
    && Gates(c, w).machine && Gates(c, w).visual
    && StagedOk(StagedOf(c), OrEmpty(c.candidate), w.parse)
    && CandidatesMatch(OrEmpty(c.candidate), Target(c))
    && ConsensusBound(c)
  }

  /** Pushes the text unless the check holds. */
  function NoteUnless(reasons: seq<string>, holds: bool, text: string): (r: seq<string>)
    ensures r == [] <==> reasons == [] && holds
  {
    if holds then reasons else reasons + [text]
  }

  // ---------------------------------------------------------------- what a proven round is

  /** A value whose fields may be read: neither undefined nor null. */
  predicate HasFields(v: Value) {
    v != Undefined && v != Js(Null)
  }

  /** The four fields of `v` read as the texts in `named`. */
  predicate ReadsAs(v: Value, named: map<string, Json>) {
    forall f :: f in CANDIDATE_FIELDS ==> f in named && named[f].Str? && Text(Get(v, f)) == named[f].s
  }

  /** `named` are the fields of the candidate in the stage payload of a matched DONE frame of WIN with a task. */
  predicate StagedNamed(c: Capture, w: World, named: map<string, Json>) {
    && c.staged.Some? && c.staged.value.matched && c.staged.value.frame.Some?
    && var frame := c.staged.value.frame.value;
    && frame.senderId == "WIN" && frame.kind == "DONE" && frame.task.Some? && frame.task.value != ""
    && frame.payload.Some? && frame.payload.value != ""
    && var parsed := w.parse(frame.payload.value);
    && parsed.Some? && parsed.value.Object?
    && "schema" in parsed.value.fields
    && parsed.value.fields["schema"] == Str("labview-benchmark-actor/release-stage@1")
    && "candidate" in parsed.value.fields && parsed.value.fields["candidate"] == Object(named)
    && forall f :: f in CANDIDATE_FIELDS ==> f in named && named[f].Str? && named[f].s != ""
  }

  /** The target of the signed verdict, where the verdict has one. */
  predicate TargetNamed(c: Capture, named: map<string, Json>) {
    && c.visual.Some? && c.visual.value.verdict.Js? && c.visual.value.verdict.json.Object?
    && "target" in c.visual.value.verdict.json.fields
    && var target := Js(c.visual.value.verdict.json.fields["target"]);
    Truthy(target) && ReadsAs(target, named)
  }

  /** The consensus of the quorum verdict names version and commit. */
  predicate ConsensusNamed(c: Capture, named: map<string, Json>) {
    var quorum := if c.machine.Some? then c.machine.value.quorumVerdict else Undefined;
    && "version" in named && Text(Get(Get(quorum, "consensus"), "version")) == JsonText(named["version"])
    && "commit" in named && Text(Get(Get(quorum, "consensus"), "sourceCommit")) == JsonText(named["commit"])
  }

  /** Both gates publish, each asked about the very pieces of the round. */
  predicate BothPublish(c: Capture, w: World) {
    var visual := if c.visual.Some? then c.visual.value else Visual(Undefined, Undefined);
    var machine := if c.machine.Some? then c.machine.value else Machine(Undefined, []);
    var signed := if Truthy(visual.signOff) then [visual.signOff] else [];
    var allowed := if c.allowlist == Undefined || c.allowlist == Js(Null) then Js(Object(map[])) else c.allowlist;
    w.gates(machine.quorumVerdict, machine.signOffs, visual.verdict, signed, allowed, c.gate) == GateAnswer(true, true)
  }

  /** All pieces of the round name the candidate `named`, and both gates publish it. */
  predicate OneCandidate(c: Capture, w: World, named: map<string, Json>) {
    && BothPublish(c, w) && StagedNamed(c, w, named) && TargetNamed(c, named) && ConsensusNamed(c, named)
    && Truthy(c.staged.value.candidate) && ReadsAs(c.staged.value.candidate, named)
    && (Truthy(c.candidate) || !HasFields(c.candidate)) && ReadsAs(c.candidate, named)
  }

  lemma EmptyReads(v: Value, key: string)
    ensures Get(OrEmpty(v), key) == Get(v, key)
  {
  }

  lemma ReadsEmpty(v: Value, named: map<string, Json>)
    ensures ReadsAs(OrEmpty(v), named) <==> ReadsAs(v, named)
  {
    forall f | f in CANDIDATE_FIELDS ensures Get(OrEmpty(v), f) == Get(v, f) {
      EmptyReads(v, f);
    }
  }

  /** The staged frame names a candidate, all of whose fields are non-empty texts. */
  function FrameCandidate(c: Capture, parse: string -> Option<Json>): Option<Value> {
    var frame := StagedOf(c).frame;
    if frame.Some? && frame.value.payload.Some? then ParseStagedCandidate(frame.value.payload.value, parse) else None
  }

  /** A matched DONE frame of WIN with a task, and what its payload names. */
  predicate StagedFrame(c: Capture, parse: string -> Option<Json>) {
    && StagedOf(c).matched && StagedOf(c).frame.Some? && FrameCandidate(c, parse).Some?
    && var frame := StagedOf(c).frame.value;
    && frame.senderId == "WIN" && frame.kind == "DONE"
    && frame.task.Some? && frame.task.value != "" && frame.payload.value != ""
  }

  /** What the staged frame must be, whatever the candidate. */
  lemma StagedFrameNames(c: Capture, w: World) returns (named: map<string, Json>)
    ensures StagedFrame(c, w.parse) ==>
              StagedNamed(c, w, named) && FrameCandidate(c, w.parse) == Some(Js(Object(named)))
    ensures forall m :: StagedNamed(c, w, m) ==>
                          StagedFrame(c, w.parse) && FrameCandidate(c, w.parse) == Some(Js(Object(m)))
  {
    named := map[];
    if StagedFrame(c, w.parse) {
      var framed := FrameCandidate(c, w.parse).value;
      assert NonEmptyString(Get(framed, CANDIDATE_FIELDS[0]));
      named := framed.json.fields;
      forall f | f in CANDIDATE_FIELDS ensures f in named && named[f].Str? && named[f].s != "" {
        assert NonEmptyString(Get(framed, f));
      }
    }
    forall m | StagedNamed(c, w, m)
      ensures StagedFrame(c, w.parse) && FrameCandidate(c, w.parse) == Some(Js(Object(m)))
    {
      forall f | f in CANDIDATE_FIELDS ensures NonEmptyString(Get(Js(Object(m)), f)) {}
      assert StageNames(w.parse(StagedOf(c).frame.value.payload.value), Js(Object(m)));
    }
  }

  lemma GatesAnswer(c: Capture, w: World)
    ensures BothPublish(c, w) <==> Gates(c, w).machine && Gates(c, w).visual
  {
    assert Gates(c, w) == GateAnswer(Gates(c, w).machine, Gates(c, w).visual);
  }

  lemma FieldsAreFour(a: Value, b: Value)
    ensures SameFields(a, b) <==> forall f :: f in CANDIDATE_FIELDS ==> SameField(a, b, f)
  {
    assert CANDIDATE_FIELDS[0] == "component" && CANDIDATE_FIELDS[1] == "version";
    assert CANDIDATE_FIELDS[2] == "commit" && CANDIDATE_FIELDS[3] == "vsixSha256";
  }

  lemma SameAsNamed(a: Value, named: map<string, Json>)
    requires forall f :: f in CANDIDATE_FIELDS ==> f in named && named[f].Str?
    ensures SameFields(a, Js(Object(named))) <==> ReadsAs(a, named)
    ensures SameFields(Js(Object(named)), a) <==> ReadsAs(a, named)
  {
    FieldsAreFour(a, Js(Object(named)));
    FieldsAreFour(Js(Object(named)), a);
  }

  lemma MatchesNamed(a: Value, named: map<string, Json>)
    requires forall f :: f in CANDIDATE_FIELDS ==> f in named && named[f].Str?
    ensures CandidatesMatch(a, Js(Object(named))) <==> Truthy(a) && ReadsAs(a, named)
    ensures CandidatesMatch(Js(Object(named)), a) <==> Truthy(a) && ReadsAs(a, named)
  {
    SameAsNamed(a, named);
  }

  /** If one piece reads as `named`, another agrees with it exactly if it does too. */
  lemma MatchesReader(a: Value, b: Value, named: map<string, Json>)
    requires ReadsAs(a, named)
    ensures SameFields(a, b) <==> ReadsAs(b, named)
    ensures SameFields(b, a) <==> ReadsAs(b, named)
  {
    FieldsAreFour(a, b);
    FieldsAreFour(b, a);
  }

  lemma ConsensusReads(c: Capture, named: map<string, Json>)
    requires ReadsAs(c.candidate, named)
    ensures ConsensusBound(c) <==> ConsensusNamed(c, named)
  {
    assert CANDIDATE_FIELDS[1] == "version" && CANDIDATE_FIELDS[2] == "commit";
    var consensus := Get(MachineOf(c).quorumVerdict, "consensus");
    EmptyReads(consensus, "version");
    EmptyReads(consensus, "sourceCommit");
    EmptyReads(c.candidate, "version");
    EmptyReads(c.candidate, "commit");
  }

  lemma TruthyOrEmpty(v: Value)
    ensures Truthy(OrEmpty(v)) <==> Truthy(v) || !HasFields(v)
  {
  }

  lemma ProvenNames(c: Capture, w: World) returns (named: map<string, Json>)
    requires Proven(c, w)
    ensures OneCandidate(c, w, named)
  {
    named := StagedFrameNames(c, w);
    GatesAnswer(c, w);
    var candidate := OrEmpty(c.candidate);
    MatchesNamed(candidate, named);
    MatchesNamed(StagedOf(c).candidate, named);
    ReadsEmpty(c.candidate, named);
    MatchesReader(candidate, Target(c), named);
    ConsensusReads(c, named);
    TruthyOrEmpty(c.candidate);
  }

  lemma NamedIsProven(c: Capture, w: World, named: map<string, Json>)
    requires OneCandidate(c, w, named)
    ensures Proven(c, w)
  {
    var framed := StagedFrameNames(c, w);
    GatesAnswer(c, w);
    var candidate := OrEmpty(c.candidate);
    ReadsEmpty(c.candidate, named);
    TruthyOrEmpty(c.candidate);
    MatchesNamed(candidate, named);
    MatchesNamed(StagedOf(c).candidate, named);
    MatchesReader(candidate, Target(c), named);
    MatchesReader(candidate, StagedOf(c).candidate, named);
    ConsensusReads(c, named);
  }

  /** A round is proven exactly when one candidate, that of the staged frame, is what the requested candidate, the
      staged one, the target of the signed verdict and the consensus of the quorum all name, and both gates,
      asked about these very pieces, publish. */
  lemma ProvenExactly(c: Capture, w: World)
    ensures Proven(c, w) <==> exists named :: OneCandidate(c, w, named)
  {
    if Proven(c, w) {
      var named := ProvenNames(c, w);
    }
    forall named | OneCandidate(c, w, named) ensures Proven(c, w) {
      NamedIsProven(c, w, named);
    }
  }

  method ComputeDecision(c: Capture, w: World) returns (d: Decision)
    ensures d.proven <==> Proven(c, w)
    ensures d.proven <==> exists named :: OneCandidate(c, w, named)
    ensures d.proven <==> d.reasons == []
    ensures d.machinePublish == Gates(c, w).machine && d.visualPublish == Gates(c, w).visual
    ensures d.stagedOverNet == StagedOk(StagedOf(c), OrEmpty(c.candidate), w.parse)
    ensures d.visualTargetBound == CandidatesMatch(OrEmpty(c.candidate), Target(c))
    ensures d.machineConsensusBound == ConsensusBound(c)
  {
    ProvenExactly(c, w);
    var answer := Gates(c, w);
    var staged := StagedOk(StagedOf(c), OrEmpty(c.candidate), w.parse);
    var target := CandidatesMatch(OrEmpty(c.candidate), Target(c));
    var consensus := ConsensusBound(c);
    var reasons := NoteUnless([], answer.machine, "the machine corroboration gate would not publish");
    reasons := NoteUnless(reasons, answer.visual, "the human visual gate would not publish");
    reasons := NoteUnless(reasons, staged, "the candidate was not staged over net");
    reasons := NoteUnless(reasons, target, "the visual verdict target does not name the staged candidate");
    reasons := NoteUnless(reasons, consensus, "the machine quorum consensus does not name the staged candidate");
    d := Decision(answer.machine, answer.visual, staged, target, consensus,
                  answer.machine && answer.visual && staged && target && consensus, reasons);
  }

  // ---------------------------------------------------------------- rounds without a candidate

  /** All four fields of `v` read as the text "undefined", whether they are that text or absent. */
  predicate ReadsUndefined(v: Value) {
    forall f :: f in CANDIDATE_FIELDS ==> Text(Get(v, f)) == "undefined"
  }

  /** Both gates publish, the frame names the text "undefined" in all four fields, and what the other pieces
      name reads as that text too. */
  predicate NamesUndefined(c: Capture, w: World) {
    && Gates(c, w).machine && Gates(c, w).visual
    && StagedFrame(c, w.parse)
    && (forall f :: f in CANDIDATE_FIELDS ==> Get(FrameCandidate(c, w.parse).value, f) == Js(Str("undefined")))
    && Truthy(StagedOf(c).candidate) && ReadsUndefined(StagedOf(c).candidate)
    && Truthy(Target(c)) && ReadsUndefined(Target(c))
    && Text(Get(Consensus(c), "version")) == "undefined" && Text(Get(Consensus(c), "sourceCommit")) == "undefined"
  }

  lemma MatchesNothing(a: Value, empty: Value)
    requires empty == Js(Object(map[]))
    ensures CandidatesMatch(a, empty) <==> Truthy(a) && ReadsUndefined(a)
    ensures CandidatesMatch(empty, a) <==> Truthy(a) && ReadsUndefined(a)
  {
    FieldsAreFour(a, empty);
    FieldsAreFour(empty, a);
    assert forall f :: Get(empty, f) == Undefined;
    assert forall f :: SameField(a, empty, f) <==> Text(Get(a, f)) == "undefined";
    assert forall f :: SameField(empty, a, f) <==> Text(Get(a, f)) == "undefined";
  }

  /** The corner the exception lives in: a round without a candidate is proven, and its receipt cannot be
      written, exactly when all its pieces name the text "undefined". */
  lemma ProvenWithoutCandidate(c: Capture, w: World)
    requires !HasFields(c.candidate)
    ensures Proven(c, w) <==> NamesUndefined(c, w)
  {
    var empty := OrEmpty(c.candidate);
    assert empty == Js(Object(map[])) && OrEmpty(empty) == empty;
    MatchesNothing(StagedOf(c).candidate, empty);
    MatchesNothing(Target(c), empty);
    if FrameCandidate(c, w.parse).Some? {
      var framed := FrameCandidate(c, w.parse).value;
      MatchesNothing(framed, empty);
      forall f | f in CANDIDATE_FIELDS
        ensures Text(Get(framed, f)) == "undefined" <==> Get(framed, f) == Js(Str("undefined"))
      {
        assert NonEmptyString(Get(framed, f));
      }
      FieldsAreFour(StagedOf(c).candidate, framed);
    }
  }

  // ---------------------------------------------------------------- receipts

  /** The verdict-bearing fields, over which the digest is taken; an absent piece reads as null. */
  datatype Content = Content(schema: string, requirement: string, adr: string, capture: Capture, proven: Option<bool>)

  datatype Receipt = Receipt(content: Content, digest: string)

  /** The exception of building the success text of a proven receipt without a candidate. */
  datatype BuildError = NoCandidate

  method BuildReceipt(c: Capture, w: World, sha256: Content -> string) returns (r: Result<Receipt, BuildError>)
    ensures r.Failure? <==> Proven(c, w) && !HasFields(c.candidate)
    ensures r.Success? ==>
              var content := Content(SCHEMA, REQUIREMENT, ADR, c, Some(Proven(c, w)));
              r.value == Receipt(content, sha256(content))
  {
    var d := ComputeDecision(c, w);
    if d.proven && !HasFields(c.candidate) {
      return Failure(NoCandidate);
    }
    var content := Content(SCHEMA, REQUIREMENT, ADR, c, Some(d.proven));
    return Success(Receipt(content, sha256(content)));
  }

  /** Every check that an accepted receipt passes. */
  predicate Accepted(r: Receipt, w: World, sha256: Content -> string) {
    && r.content.schema == SCHEMA && r.content.requirement == REQUIREMENT && r.content.adr == ADR
    && Proven(r.content.capture, w) && r.content.proven == Some(true)
    && r.digest == sha256(r.content)
  }

  method ValidateReceipt(r: Receipt, w: World, sha256: Content -> string) returns (ok: bool, findings: seq<string>)
    ensures ok <==> findings == []
    ensures ok <==> Accepted(r, w, sha256)
  {
    findings := [];
    if r.content.schema != SCHEMA {
      findings := findings + ["schema must be " + SCHEMA];
    }
    if r.content.requirement != REQUIREMENT {
      findings := findings + ["requirement must be " + REQUIREMENT];
    }
    if r.content.adr != ADR {
      findings := findings + ["adr must be " + ADR];
    }
    var d := ComputeDecision(r.content.capture, w);
    findings := findings + d.reasons;
    if r.content.proven != Some(d.proven) {
      findings := findings + ["the recorded verdict contradicts the rule"];
    }
    if r.digest != sha256(r.content) {
      findings := findings + ["digest does not match the verdict-bearing fields"];
    }
    ok := |findings| == 0;
  }

  // ---------------------------------------------------------------- assembly

  datatype Diff = Diff(source: string, field: string, expected: Value, got: Value)

  function StagedCandidate(c: Capture): Value {
    OrEmpty(StagedOf(c).candidate)
  }

  /** All pieces name the candidate, field by field. */
  predicate Bound(c: Capture) {
    && SameFields(OrEmpty(c.candidate), OrEmpty(Target(c)))
    && ConsensusBound(c)
    && SameFields(OrEmpty(c.candidate), StagedCandidate(c))
  }

  function DiffOf(source: string, field: string, expected: Value, got: Value): Diff {
    Diff(source, field, OrNull(expected), OrNull(got))
  }

  /** `d` is the difference of one field between the candidate and a piece that names all four. */
  predicate IsFieldDiff(source: string, candidate: Value, piece: Value, d: Diff) {
    && d.field in CANDIDATE_FIELDS && !SameField(candidate, piece, d.field)
    && d == DiffOf(source, d.field, Get(candidate, d.field), Get(piece, d.field))
  }

  lemma NoFieldDiff(source: string, candidate: Value, piece: Value)
    ensures SameFields(candidate, piece) <==> forall d :: !IsFieldDiff(source, candidate, piece, d)
  {
    FieldsAreFour(candidate, piece);
    if f :| f in CANDIDATE_FIELDS && !SameField(candidate, piece, f) {
      assert IsFieldDiff(source, candidate, piece, DiffOf(source, f, Get(candidate, f), Get(piece, f)));
    }
  }

  /** One piece that names all four fields: its diffs are the fields in which it differs. */
  method FieldDiffs(source: string, candidate: Value, piece: Value) returns (diffs: seq<Diff>)
    ensures forall d :: d in diffs <==> IsFieldDiff(source, candidate, piece, d)
    ensures diffs == [] <==> SameFields(candidate, piece)
  {
    diffs := [];
    for k := 0 to |CANDIDATE_FIELDS|
      invariant forall d :: d in diffs <==> IsFieldDiff(source, candidate, piece, d) && d.field in CANDIDATE_FIELDS[..k]
    {
      var f := CANDIDATE_FIELDS[k];
      assert CANDIDATE_FIELDS[..k + 1] == CANDIDATE_FIELDS[..k] + [f];
      if !SameField(candidate, piece, f) {
        diffs := diffs + [DiffOf(source, f, Get(candidate, f), Get(piece, f))];
      }
    }
    NoFieldDiff(source, candidate, piece);
    assert diffs != [] ==> diffs[0] in diffs;
  }

  /** `d` is the difference of one field between the candidate and the machine consensus. */
  predicate IsConsensusDiff(c: Capture, d: Diff) {
    var candidate, source := OrEmpty(c.candidate), "machine.quorumVerdict.consensus";
    || (Text(Get(candidate, "version")) != Text(Get(Consensus(c), "version"))
        && d == DiffOf(source, "version", Get(candidate, "version"), Get(Consensus(c), "version")))
    || (Text(Get(candidate, "commit")) != Text(Get(Consensus(c), "sourceCommit"))
        && d == DiffOf(source, "sourceCommit", Get(candidate, "commit"), Get(Consensus(c), "sourceCommit")))
  }

  /** `d` is a field in which some piece names another value than the candidate. */
  predicate IsDiff(c: Capture, d: Diff) {
    || IsFieldDiff("visual.verdict.target", OrEmpty(c.candidate), OrEmpty(Target(c)), d)
    || IsConsensusDiff(c, d)
    || IsFieldDiff("staged.candidate", OrEmpty(c.candidate), StagedCandidate(c), d)
  }

  method ConsensusDiffs(c: Capture) returns (diffs: seq<Diff>)
    ensures forall d :: d in diffs <==> IsConsensusDiff(c, d)
    ensures diffs == [] <==> ConsensusBound(c)
  {
    diffs := [];
    var candidate, consensus, source := OrEmpty(c.candidate), Consensus(c), "machine.quorumVerdict.consensus";
    if Text(Get(candidate, "version")) != Text(Get(consensus, "version")) {
      diffs := diffs + [DiffOf(source, "version", Get(candidate, "version"), Get(consensus, "version"))];
    }
    if Text(Get(candidate, "commit")) != Text(Get(consensus, "sourceCommit")) {
      diffs := diffs + [DiffOf(source, "sourceCommit", Get(candidate, "commit"), Get(consensus, "sourceCommit"))];
    }
  }

  method ComputeBindingDiffs(c: Capture) returns (diffs: seq<Diff>)
    ensures forall d :: d in diffs <==> IsDiff(c, d)
    ensures diffs == [] <==> Bound(c)
  {
    var candidate := OrEmpty(c.candidate);
    var target := FieldDiffs("visual.verdict.target", candidate, OrEmpty(Target(c)));
    var consensus := ConsensusDiffs(c);
    var staged := FieldDiffs("staged.candidate", candidate, StagedCandidate(c));
    diffs := target + consensus + staged;
  }

  lemma ProvenIsBound(c: Capture, w: World)
    ensures Proven(c, w) ==> Bound(c)
  {
    if Proven(c, w) {
      assert Truthy(StagedOf(c).candidate) && Truthy(Target(c));
    }
  }

  datatype Assembly = Refused(diffs: seq<Diff>) | Built(ok: bool, receipt: Receipt, findings: seq<string>)

  /** Assembly succeeds exactly when the decision is proven; the one exception is a proven round without a
      candidate, whose receipt cannot be written. */
  method AssembleComposite(c: Capture, w: World, sha256: Content -> string) returns (r: Result<Assembly, BuildError>)
    ensures r.Failure? <==> Proven(c, w) && !HasFields(c.candidate)
    ensures r.Failure? <==> NamesUndefined(c, w) && !HasFields(c.candidate)
    ensures r.Success? ==> ((r.value.Built? && r.value.ok) <==> Proven(c, w))
    ensures r.Success? && r.value.Built? && r.value.ok
            ==> Accepted(r.value.receipt, w, sha256) && r.value.receipt.content.capture == c
    ensures r.Success? && r.value.Refused? <==> !Bound(c)
    ensures r.Success? && r.value.Refused? ==> forall d :: d in r.value.diffs <==> IsDiff(c, d)
  {
    ProvenIsBound(c, w);
    if !HasFields(c.candidate) {
      ProvenWithoutCandidate(c, w);
    }
    var diffs := ComputeBindingDiffs(c);
    if |diffs| > 0 {
      return Success(Refused(diffs));
    }
    var receipt := BuildReceipt(c, w, sha256);
    if receipt.Failure? {
      return Failure(receipt.error);
    }
    var ok, findings := ValidateReceipt(receipt.value, w, sha256);
    return Success(Built(ok, receipt.value, findings));
  }

  // ---------------------------------------------------------------- what a receipt vouches for

  /** In an accepted receipt the frame that WIN staged names a candidate, `named`, by four non-empty texts; the
      candidate, the staged candidate and the target in the signed verdict read as it, and the consensus in the
      quorum verdict reads as its version and commit. */
  lemma AcceptedBindsOneCandidate(r: Receipt, w: World, sha256: Content -> string) returns (named: map<string, Json>)
    requires Accepted(r, w, sha256)
    ensures var c := r.content.capture;
            && OneCandidate(c, w, named)
            && c.staged.value.frame.value.senderId == "WIN"
            && c.visual.value.verdict.json.Object? && "target" in c.visual.value.verdict.json.fields
            && (forall f :: f in ["component", "version", "commit", "vsixSha256"] ==>
                  && f in named && named[f].Str? && named[f].s != ""
                  && Text(Get(c.candidate, f)) == named[f].s
                  && Text(Get(c.staged.value.candidate, f)) == named[f].s
                  && Text(Get(Js(c.visual.value.verdict.json.fields["target"]), f)) == named[f].s)
    ensures var c := r.content.capture;
            c.machine.Some? && c.machine.value.quorumVerdict.Js? && c.machine.value.quorumVerdict.json.Object?
            && "consensus" in c.machine.value.quorumVerdict.json.fields ==>
              var consensus := Js(c.machine.value.quorumVerdict.json.fields["consensus"]);
              && Text(Get(consensus, "version")) == named["version"].s
              && Text(Get(consensus, "sourceCommit")) == named["commit"].s
  {
    named := ProvenNames(r.content.capture, w);
  }

  /** A signed verdict whose target differs from the candidate in a field shows as a diff with the target's own
      value, and the round is neither bound nor proven. */
  lemma TargetDiffShows(c: Capture, verdict: map<string, Json>, f: string)
    requires c.visual.Some? && c.visual.value.verdict == Js(Object(verdict)) && "target" in verdict
    requires f in CANDIDATE_FIELDS && Text(Get(Js(verdict["target"]), f)) != Text(Get(c.candidate, f))
    ensures IsDiff(c, Diff("visual.verdict.target", f, OrNull(Get(c.candidate, f)),
                           OrNull(Get(Js(verdict["target"]), f))))
    ensures !Bound(c) && forall w :: !Proven(c, w)
  {
    EmptyReads(c.candidate, f);
    EmptyReads(Js(verdict["target"]), f);
    FieldsAreFour(OrEmpty(c.candidate), OrEmpty(Target(c)));
    forall w ensures !Proven(c, w) {
      ProvenIsBound(c, w);
    }
  }

  /** So does a staged candidate. */
  lemma StagedDiffShows(c: Capture, f: string)
    requires c.staged.Some? && f in CANDIDATE_FIELDS
    requires Text(Get(c.staged.value.candidate, f)) != Text(Get(c.candidate, f))
    ensures IsDiff(c, Diff("staged.candidate", f, OrNull(Get(c.candidate, f)),
                           OrNull(Get(c.staged.value.candidate, f))))
    ensures !Bound(c) && forall w :: !Proven(c, w)
  {
    EmptyReads(c.candidate, f);
    EmptyReads(c.staged.value.candidate, f);
    FieldsAreFour(OrEmpty(c.candidate), StagedCandidate(c));
    forall w ensures !Proven(c, w) {
      ProvenIsBound(c, w);
    }
  }

  /** And so does a consensus that names another version or commit. */
  lemma ConsensusDiffShows(c: Capture, verdict: map<string, Json>)
    requires c.machine.Some? && c.machine.value.quorumVerdict == Js(Object(verdict)) && "consensus" in verdict
    ensures var consensus, source := Js(verdict["consensus"]), "machine.quorumVerdict.consensus";
            && (Text(Get(consensus, "version")) != Text(Get(c.candidate, "version")) ==>
                  && IsDiff(c, Diff(source, "version", OrNull(Get(c.candidate, "version")),
                                    OrNull(Get(consensus, "version"))))
                  && !Bound(c) && forall w :: !Proven(c, w))
            && (Text(Get(consensus, "sourceCommit")) != Text(Get(c.candidate, "commit")) ==>
                  && IsDiff(c, Diff(source, "sourceCommit", OrNull(Get(c.candidate, "commit")),
                                    OrNull(Get(consensus, "sourceCommit"))))
                  && !Bound(c) && forall w :: !Proven(c, w))
  {
    EmptyReads(c.candidate, "version");
    EmptyReads(c.candidate, "commit");
    EmptyReads(Js(verdict["consensus"]), "version");
    EmptyReads(Js(verdict["consensus"]), "sourceCommit");
  }

  /** Validating a freshly built receipt succeeds exactly when the decision is proven; and if the digest is
      injective, nothing but the very content built is ever accepted under its digest. */
  method BuildThenValidate(c: Capture, w: World, sha256: Content -> string)
    returns (built: Option<Receipt>, ok: bool)
    ensures built.None? <==> Proven(c, w) && !HasFields(c.candidate)
    ensures built.Some? ==> built.value.content.capture == c && (ok <==> Proven(c, w))
    ensures built.Some? && (forall x, y :: sha256(x) == sha256(y) ==> x == y) ==>
              forall other :: Accepted(Receipt(other, built.value.digest), w, sha256) <==>
                              ok && other == built.value.content
  {
    var r := BuildReceipt(c, w, sha256);
    if r.Failure? {
      return None, false;
    }
    var valid, findings := ValidateReceipt(r.value, w, sha256);
    return Some(r.value), valid;
  }

  /** And there is such a round. */
  lemma ProvenWithoutCandidateExists() returns (c: Capture, w: World)
    ensures Proven(c, w) && !HasFields(c.candidate)
  {
    var name := Str("undefined");
    var candidate := Object(map["component" := name, "version" := name, "commit" := name, "vsixSha256" := name]);
    var payload := Object(map["schema" := Str(STAGE_SCHEMA), "candidate" := candidate]);
    var consensus := Object(map["consensus" := Object(map["version" := name, "sourceCommit" := name])]);
    var staged := Staged(Undefined, Undefined, true, Js(candidate), Some(Frame("WIN", "DONE", Some("t"), Some("p"))));
    var verdict := Js(Object(map["target" := candidate]));
    c := Capture(Undefined, Some(staged), Some(Machine(Js(consensus), [])), Some(Visual(verdict, Undefined)),
      Undefined, Thresholds(1, 1));
    w := World((_, _, _, _, _, _) => GateAnswer(true, true), _ => Some(payload));
    assert Get(Js(payload), "candidate") == Js(candidate) && Get(Js(payload), "schema") == Js(Str(STAGE_SCHEMA));
    forall f | f in CANDIDATE_FIELDS ensures Get(Js(candidate), f) == Js(name) {
      FieldsAreFour(Js(candidate), Js(candidate));
    }
    assert ReadsUndefined(Js(candidate));
    var parsed := ParseStagedCandidate("p", w.parse);
    assert StageNames(w.parse("p"), Js(candidate));
    assert FrameCandidate(c, w.parse) == Some(Js(candidate));
    assert Target(c) == Js(candidate);
    assert Get(Consensus(c), "version") == Js(name) && Get(Consensus(c), "sourceCommit") == Js(name);
    ProvenWithoutCandidate(c, w);
  }
}
