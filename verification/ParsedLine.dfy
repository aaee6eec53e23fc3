/**
  The language of the parser: the awaiter recognizes exactly the lines made of the parts that its reply holds,
  in their order and with their marks, with any white space between them.
  */
module ParsedLine {
  import opened Wrappers
  import opened LineFormat
  import opened BlankPayload

  // ---------------------------------------------------------------- single nodes

  lemma {:induction false} RunTook(prog: seq<Node>, pc: nat, n: nat, min: nat, capture: Option<nat>, rest: string,
        caps: Captures)
    returns (k: nat)
    requires pc < |prog| && n <= |rest| && MatchRun(prog, pc, n, min, capture, rest, caps).Some?
    ensures min <= k <= n
    ensures MatchRun(prog, pc, n, min, capture, rest, caps)
            == Match(prog, pc + 1, rest[k..], Capture(caps, capture, rest[..k]))
    decreases n
  {
    if Match(prog, pc + 1, rest[n..], Capture(caps, capture, rest[..n])).Some? || n == 0 {
      k := n;
    } else {
      k := RunTook(prog, pc, n - 1, min, capture, rest, caps);
    }
  }

  /** If the program goes on from a run, it goes on after some stretch of the class, long enough. */
  lemma RunNode(prog: seq<Node>, pc: nat, rest: string, caps: Captures) returns (run: string, later: string)
    requires pc < |prog| && prog[pc].Run? && Match(prog, pc, rest, caps).Some?
    ensures rest == run + later && |run| >= prog[pc].min && prog[pc].class_.HasAll(run)
    ensures Match(prog, pc, rest, caps) == Match(prog, pc + 1, later, Capture(caps, prog[pc].capture, run))
  {
    var n := MaxRun(prog[pc].class_, rest);
    var k := RunTook(prog, pc, n, prog[pc].min, prog[pc].capture, rest, caps);
    run, later := rest[..k], rest[k..];
    assert forall i :: 0 <= i < k ==> run[i] == rest[..n][i];
  }

  lemma LitNode(prog: seq<Node>, pc: nat, rest: string, caps: Captures) returns (later: string)
    requires pc < |prog| && prog[pc].Lit? && Match(prog, pc, rest, caps).Some?
    ensures rest == prog[pc].text + later && Match(prog, pc, rest, caps) == Match(prog, pc + 1, later, caps)
  {
    later := rest[|prog[pc].text|..];
  }

  lemma OptNode(prog: seq<Node>, pc: nat, rest: string, caps: Captures) returns (taken: bool)
    requires pc < |prog| && prog[pc].Opt? && pc + 1 + prog[pc].size <= |prog| && Match(prog, pc, rest, caps).Some?
    ensures Match(prog, pc, rest, caps) == Match(prog, if taken then pc + 1 else pc + 1 + prog[pc].size, rest, caps)
  {
    taken := Match(prog, pc + 1, rest, caps).Some?;
  }

  lemma EndNode(prog: seq<Node>, pc: nat, rest: string, caps: Captures)
    requires pc + 1 == |prog| && prog[pc] == End && Match(prog, pc, rest, caps).Some?
    ensures rest == "" && Match(prog, pc, rest, caps) == Some(caps)
  {
  }

  lemma WordNode(prog: seq<Node>, rest: string, caps: Captures) returns (word: string, later: string)
    requires LineNodes(prog) && Match(prog, 0, rest, caps).Some?
    ensures word in {"TCP", "UDP"} && rest == word + later
    ensures Match(prog, 0, rest, caps) == Match(prog, 1, later, caps[1 := word])
  {
    var words := ["TCP", "UDP"];
    assert words[1..] == ["UDP"] && words[1..][1..] == [];
    assert Match(prog, 0, rest, caps) == MatchWord(prog, 0, words, 1, rest, caps);
    if "TCP" <= rest && Match(prog, 1, rest[3..], caps[1 := "TCP"]).Some? {
      word, later := "TCP", rest[3..];
    } else {
      assert MatchWord(prog, 0, words, 1, rest, caps) == MatchWord(prog, 0, ["UDP"], 1, rest, caps);
      assert MatchWord(prog, 0, [], 1, rest, caps) == None;
      word, later := "UDP", rest[3..];
    }
  }

  predicate Gap(s: string) {
    s != [] && Class.Space.HasAll(s)
  }

  /** White space in front of a run. */
  lemma GapRun(prog: seq<Node>, pc: nat, rest: string, caps: Captures)
    returns (gap: string, run: string, later: string)
    requires pc + 2 <= |prog| && prog[pc] == Run(Space, 1, None) && prog[pc + 1].Run?
    requires Match(prog, pc, rest, caps).Some?
    ensures rest == gap + (run + later) && Gap(gap) && |run| >= prog[pc + 1].min && prog[pc + 1].class_.HasAll(run)
    ensures Match(prog, pc, rest, caps) == Match(prog, pc + 2, later, Capture(caps, prog[pc + 1].capture, run))
  {
    var middle;
    gap, middle := RunNode(prog, pc, rest, caps);
    run, later := RunNode(prog, pc + 1, middle, caps);
  }

  // ---------------------------------------------------------------- the parts of a line

  /** A token behind white space and a label, or nothing. */
  function Labelled(gap: string, label_: string, token: Option<string>): string {
    match token case None => "" case Some(t) => gap + (label_ + t)
  }

  function WithToken(caps: Captures, g: nat, token: Option<string>): Captures {
    match token case None => caps case Some(t) => caps[g := t]
  }

  lemma GroupNodes(prog: seq<Node>, p: nat, rest: string, caps: Captures)
    returns (gap: string, token: Option<string>, later: string)
    requires p + 4 <= |prog| && prog[p] == Opt(3) && prog[p + 1] == Run(Space, 1, None) && prog[p + 2].Lit?
    requires prog[p + 3].Run? && prog[p + 3].class_ == NonSpace && prog[p + 3].min == 1 && prog[p + 3].capture.Some?
    requires Match(prog, p, rest, caps).Some?
    ensures Gap(gap) && (token.Some? ==> Token(token.value))
    ensures rest == Labelled(gap, prog[p + 2].text, token) + later
    ensures Match(prog, p, rest, caps)
            == Match(prog, p + 4, later, WithToken(caps, prog[p + 3].capture.value, token))
  {
    var taken := OptNode(prog, p, rest, caps);
    if taken {
      var middle, last, t;
      gap, middle := RunNode(prog, p + 1, rest, caps);
      last := LitNode(prog, p + 2, middle, caps);
      t, later := RunNode(prog, p + 3, last, caps);
      token := Some(t);
      Associate(gap, prog[p + 2].text + t, later);
      Associate(prog[p + 2].text, t, later);
    } else {
      gap, token, later := " ", None, rest;
      assert "" + rest == rest;
    }
  }

  /** The payload behind a dash with white space on both sides, or nothing. */
  function Dashed(gap: string, after: string, payload: Option<string>): string {
    match payload case None => "" case Some(text) => gap + ("\U{2014}" + (after + text))
  }

  lemma AnyText(prog: seq<Node>, p: nat, text: string, caps: Captures)
    requires BodyNodes(prog, p)
    ensures Match(prog, p + 4, text, caps) == Some(caps[9 := text])
  {
    EndStep(prog, p + 5, caps[9 := text]);
    RunStep(prog, p + 4, text, "", caps);
    assert text + "" == text;
  }

  lemma BodyNode(prog: seq<Node>, p: nat, rest: string, caps: Captures)
    returns (gap: string, after: string, payload: Option<string>)
    requires BodyNodes(prog, p) && Match(prog, p, rest, caps).Some?
    ensures Gap(gap) && Gap(after) && rest == Dashed(gap, after, payload)
    ensures payload.Some? && payload.value != [] ==> !IsSpace(payload.value[0])
    ensures Match(prog, p, rest, caps) == Some(WithToken(caps, 9, payload))
  {
    var taken := OptNode(prog, p, rest, caps);
    if taken {
      var middle;
      gap, middle := RunNode(prog, p + 1, rest, caps);
      var last := LitNode(prog, p + 2, middle, caps);
      var n := MaxRun(Space, last);
      after := last[..n];
      payload := Some(last[n..]);
      AnyText(prog, p, last[n..], caps);
    } else {
      EndNode(prog, p + 5, rest, caps);
      gap, after, payload := " ", " ", None;
    }
  }

  /** There is something, and it does not begin with white space. */
  predicate Bare(s: string) {
    s != [] && !IsSpace(s[0])
  }

  /** What follows the type: task, number answered, payload. */
  datatype Ending = Ending(
    task: Option<string>,
    ackOf: Option<string>,
    payload: Option<string>,
    taskGap: string,
    ackGap: string,
    dashGap: string,
    textGap: string)
  {
    predicate TextBare() {
      payload.Some? && payload.value != [] ==> !IsSpace(payload.value[0])
    }

    predicate Ok() {
      && Gap(taskGap) && Gap(ackGap) && Gap(dashGap) && Gap(textGap)
      && (task.Some? ==> Token(task.value)) && (ackOf.Some? ==> Token(ackOf.value))
    }

    function Shown(): string {
      Labelled(taskGap, "task:", task)
      + (Labelled(ackGap, "ackOf:", ackOf) + Dashed(dashGap, textGap, payload))
    }

    function Captured(caps: Captures): Captures {
      WithToken(WithToken(WithToken(caps, 7, task), 8, ackOf), 9, payload)
    }
  }

  lemma EndingOf(prog: seq<Node>, p: nat, rest: string, caps: Captures) returns (e: Ending)
    requires TaskNodes(prog, p) && Match(prog, p, rest, caps).Some?
    ensures e.Ok() && e.TextBare() && rest == e.Shown() && Match(prog, p, rest, caps) == Some(e.Captured(caps))
  {
    var taskGap, task, afterTask := GroupNodes(prog, p, rest, caps);
    var ackGap, ackOf, afterAck := GroupNodes(prog, p + 4, afterTask, WithToken(caps, 7, task));
    var dashGap, textGap, payload := BodyNode(prog, p + 8, afterAck, WithToken(WithToken(caps, 7, task), 8, ackOf));
    e := Ending(task, ackOf, payload, taskGap, ackGap, dashGap, textGap);
  }

  /** From the timestamp to the type. */
  datatype Head = Head(
    ts: string,
    sender: string,
    number: string,
    kind: string,
    senderGap: string,
    numberGap: string,
    kindGap: string)
  {
    predicate Ok() {
      && ts != [] && NotBracket.HasAll(ts) && Token(sender) && Token(number) && Token(kind)
      && Gap(senderGap) && Gap(numberGap) && Gap(kindGap)
    }

    function Shown(rest: string): string {
      "[" + (ts + ("]" + (senderGap + (sender + (numberGap + ("#" + (number + (kindGap + (kind + rest)))))))))
    }

    function Captured(caps: Captures): Captures {
      caps[3 := ts][4 := sender][5 := number][6 := kind]
    }
  }

  lemma StampOf(prog: seq<Node>, p: nat, rest: string, caps: Captures)
    returns (ts: string, gap: string, sender: string, later: string)
    requires MessageNodes(prog, p) && Match(prog, p, rest, caps).Some?
    ensures ts != [] && NotBracket.HasAll(ts) && Gap(gap) && Token(sender)
    ensures rest == "[" + (ts + ("]" + (gap + (sender + later))))
    ensures Match(prog, p, rest, caps) == Match(prog, p + 5, later, caps[3 := ts][4 := sender])
  {
    var a := LitNode(prog, p, rest, caps);
    var b;
    ts, b := RunNode(prog, p + 1, a, caps);
    var c := LitNode(prog, p + 2, b, caps[3 := ts]);
    gap, sender, later := GapRun(prog, p + 3, c, caps[3 := ts]);
  }

  lemma NumberAndKind(prog: seq<Node>, p: nat, rest: string, caps: Captures)
    returns (gap: string, number: string, kindGap: string, kind: string, later: string)
    requires MessageNodes(prog, p) && Match(prog, p + 5, rest, caps).Some?
    ensures Gap(gap) && Token(number) && Gap(kindGap) && Token(kind)
    ensures rest == gap + ("#" + (number + (kindGap + (kind + later))))
    ensures Match(prog, p + 5, rest, caps) == Match(prog, p + 10, later, caps[5 := number][6 := kind])
  {
    var a, b, c;
    gap, a := RunNode(prog, p + 5, rest, caps);
    b := LitNode(prog, p + 6, a, caps);
    number, c := RunNode(prog, p + 7, b, caps);
    kindGap, kind, later := GapRun(prog, p + 8, c, caps[5 := number]);
  }

  lemma HeadOf(prog: seq<Node>, p: nat, rest: string, caps: Captures) returns (h: Head, later: string)
    requires MessageNodes(prog, p) && Match(prog, p, rest, caps).Some?
    ensures h.Ok() && rest == h.Shown(later)
    ensures Match(prog, p, rest, caps) == Match(prog, p + 10, later, h.Captured(caps))
  {
    var ts, senderGap, sender, middle := StampOf(prog, p, rest, caps);
    var numberGap, number, kindGap, kind;
    numberGap, number, kindGap, kind, later := NumberAndKind(prog, p, middle, caps[3 := ts][4 := sender]);
    h := Head(ts, sender, number, kind, senderGap, numberGap, kindGap);
  }

  // ---------------------------------------------------------------- the whole line

  lemma LineParts(prog: seq<Node>, rest: string)
    returns (transport: string, gap: string, remote: string, wide: string, h: Head, e: Ending)
    requires LineNodes(prog) && Match(prog, 0, rest, map[]).Some?
    ensures transport in {"TCP", "UDP"} && Gap(gap) && Token(remote) && Gap(wide) && h.Ok() && e.Ok() && e.TextBare()
    ensures rest == transport + (gap + (remote + (wide + h.Shown(e.Shown()))))
    ensures Match(prog, 0, rest, map[]) == Some(e.Captured(h.Captured(map[1 := transport, 2 := remote])))
  {
    var a, b, c, d;
    transport, a := WordNode(prog, rest, map[]);
    gap, remote, b := GapRun(prog, 1, a, map[1 := transport]);
    var caps: Captures := map[1 := transport][2 := remote];
    wide, c := RunNode(prog, 3, b, caps);
    h, d := HeadOf(prog, 4, c, caps);
    e := EndingOf(prog, 14, d, h.Captured(caps));
  }

  lemma HeadCaptured(transport: string, remote: string, h: Head)
    ensures var caps := h.Captured(map[1 := transport, 2 := remote]);
            && Text(caps, 1) == transport && Text(caps, 2) == remote && Text(caps, 3) == h.ts
            && Text(caps, 4) == h.sender && Text(caps, 5) == h.number && Text(caps, 6) == h.kind
            && 7 !in caps && 8 !in caps && 9 !in caps
  {
  }

  lemma TokenCaptured(caps: Captures, g: nat, token: Option<string>)
    requires g !in caps
    ensures Group(WithToken(caps, g, token), g) == token
    ensures forall k: nat :: k != g ==>
              && Group(WithToken(caps, g, token), k) == Group(caps, k)
              && Text(WithToken(caps, g, token), k) == Text(caps, k)
  {
  }

  lemma EndingCaptured(caps: Captures, e: Ending)
    requires 7 !in caps && 8 !in caps && 9 !in caps
    ensures var all := e.Captured(caps);
            && Group(all, 7) == e.task && Group(all, 8) == e.ackOf && Group(all, 9) == e.payload
            && forall k: nat :: k < 7 ==> Text(all, k) == Text(caps, k)
  {
    var first := WithToken(caps, 7, e.task);
    TokenCaptured(caps, 7, e.task);
    TokenCaptured(first, 8, e.ackOf);
    TokenCaptured(WithToken(first, 8, e.ackOf), 9, e.payload);
  }

  lemma RepliesParts(transport: string, remote: string, h: Head, e: Ending)
    ensures ReplyOf(Some(e.Captured(h.Captured(map[1 := transport, 2 := remote])))) ==
            Some(Reply(transport, remote, h.ts, h.sender, h.number, h.kind, e.task, e.ackOf, e.payload))
  {
    var caps := h.Captured(map[1 := transport, 2 := remote]);
    HeadCaptured(transport, remote, h);
    EndingCaptured(caps, e);
  }

  /** Its last character, if any, is white space. */
  predicate EndsInSpace(s: string) {
    s != [] && IsSpace(s[|s| - 1])
  }

  lemma EndsWith(a: string, b: string)
    requires EndsInSpace(b)
    ensures EndsInSpace(a + b)
  {
  }

  lemma ShownEnds(e: Ending)
    requires e.Ok() && e.payload == Some("")
    ensures EndsInSpace(e.Shown())
  {
    assert e.textGap + "" == e.textGap;
    EndsWith("\U{2014}", e.textGap);
    EndsWith(e.dashGap, "\U{2014}" + e.textGap);
    var body := Dashed(e.dashGap, e.textGap, e.payload);
    EndsWith(Labelled(e.ackGap, "ackOf:", e.ackOf), body);
    EndsWith(Labelled(e.taskGap, "task:", e.task), Labelled(e.ackGap, "ackOf:", e.ackOf) + body);
  }

  lemma HeadEnds(h: Head, rest: string)
    requires EndsInSpace(rest)
    ensures EndsInSpace(h.Shown(rest))
  {
    var number := h.number + (h.kindGap + (h.kind + rest));
    EndsWith(h.kind, rest);
    EndsWith(h.kindGap, h.kind + rest);
    EndsWith(h.number, h.kindGap + (h.kind + rest));
    EndsWith("#", number);
    EndsWith(h.numberGap, "#" + number);
    var sender := h.sender + (h.numberGap + ("#" + number));
    EndsWith(h.sender, h.numberGap + ("#" + number));
    EndsWith(h.senderGap, sender);
    EndsWith("]", h.senderGap + sender);
    EndsWith(h.ts, "]" + (h.senderGap + sender));
    EndsWith("[", h.ts + ("]" + (h.senderGap + sender)));
  }

  lemma LineEnds(a: string, b: string, c: string, d: string, rest: string)
    requires EndsInSpace(rest)
    ensures EndsInSpace(a + (b + (c + (d + rest))))
  {
    EndsWith(d, rest);
    EndsWith(c, d + rest);
    EndsWith(b, c + (d + rest));
    EndsWith(a, b + (c + (d + rest)));
  }

  /** A recognized line, trimmed, is the transport, the address, the timestamp in brackets, the sender, the number
      behind a #, the type, and where they are there the labelled task and number answered and the payload behind
      a dash, all as the reply has them, with white space in between. */
  lemma RecognizedIsLine(line: string) returns (gap: string, wide: string, h: Head, e: Ending)
    requires ParseLine(line).Some?
    ensures var r := ParseLine(line).value;
            && Trim(line) == r.transport + (gap + (r.remote + (wide + h.Shown(e.Shown()))))
            && r.transport in {"TCP", "UDP"} && Gap(gap) && Token(r.remote) && Gap(wide) && h.Ok() && e.Ok()
            && (r.payload.Some? ==> r.payload.value != [] && !IsSpace(r.payload.value[0]))
            && h.ts == r.ts && h.sender == r.senderId && h.number == r.seqText && h.kind == r.kind
            && e.task == r.task && e.ackOf == r.ackOf && e.payload == r.payload
  {
    LineIsLineRe();
    var transport, remote;
    transport, gap, remote, wide, h, e := LineParts(LINE_RE, Trim(line));
    RepliesParts(transport, remote, h, e);
    if e.payload == Some("") {
      var lead, trail := TrimIs(line);
      ShownEnds(e);
      HeadEnds(h, e.Shown());
      LineEnds(transport, gap, remote, wide, h.Shown(e.Shown()));
    }
  }

  // ---------------------------------------------------------------- and back

  /** An optional group behind white space is skipped if what follows is not its label. */
  lemma GapSkips(prog: seq<Node>, p: nat, gap: string, word: string, caps: Captures)
    requires p + 2 < |prog| && prog[p].Opt? && p + 1 + prog[p].size <= |prog|
    requires prog[p + 1] == Run(Space, 1, None) && prog[p + 2].Lit? && prog[p + 2].text != []
    requires Gap(gap) && word != [] && !IsSpace(word[0])
    requires !IsSpace(prog[p + 2].text[0]) && word[0] != prog[p + 2].text[0]
    ensures Match(prog, p, gap + word, caps) == Match(prog, p + 1 + prog[p].size, gap + word, caps)
  {
    forall k | 1 <= k <= |gap| ensures Dead(prog, p + 2, gap[k..] + word) {
      var rest := gap[k..] + word;
      assert rest[0] == if k < |gap| then gap[k] else word[0];
      LitDead(prog, p + 2, rest);
    }
    RunDead(prog, p + 1, gap, word);
    assert Match(prog, p + 1, gap + word, caps) == None;
  }

  lemma LabelTaken(prog: seq<Node>, p: nat, gap: string, token: string, rest: string, caps: Captures)
    requires p + 4 <= |prog| && prog[p].Opt? && prog[p + 1] == Run(Space, 1, None) && prog[p + 2].Lit?
    requires prog[p + 2].text != [] && !IsSpace(prog[p + 2].text[0])
    requires prog[p + 3].Run? && prog[p + 3].class_ == NonSpace && prog[p + 3].min == 1
    requires Gap(gap) && Token(token) && (rest == [] || IsSpace(rest[0]))
    requires Match(prog, p + 4, rest, Capture(caps, prog[p + 3].capture, token)).Some?
    ensures Match(prog, p, gap + (prog[p + 2].text + (token + rest)), caps)
            == Match(prog, p + 4, rest, Capture(caps, prog[p + 3].capture, token))
  {
    RunStep(prog, p + 3, token, rest, caps);
    LitStep(prog, p + 2, token + rest, caps);
    RunStep(prog, p + 1, gap, prog[p + 2].text + (token + rest), caps);
    TakeGroup(prog, p, gap + (prog[p + 2].text + (token + rest)), caps);
  }

  /** Nothing, or white space and then something that begins with one of these. */
  ghost predicate Follows(rest: string, firsts: set<char>) {
    rest == "" || exists gap: string, word: string ::
      rest == gap + word && Gap(gap) && word != [] && !IsSpace(word[0]) && word[0] in firsts
  }

  lemma LabelRead(prog: seq<Node>, p: nat, gap: string, token: Option<string>, rest: string, firsts: set<char>,
        caps: Captures)
    requires p + 4 <= |prog| && prog[p] == Opt(3) && prog[p + 1] == Run(Space, 1, None) && prog[p + 2].Lit?
    requires prog[p + 2].text != [] && !IsSpace(prog[p + 2].text[0]) && prog[p + 2].text[0] !in firsts
    requires prog[p + 3].Run? && prog[p + 3].class_ == NonSpace && prog[p + 3].min == 1 && prog[p + 3].capture.Some?
    requires Gap(gap) && (token.Some? ==> Token(token.value)) && Follows(rest, firsts)
    requires Match(prog, p + 4, rest, WithToken(caps, prog[p + 3].capture.value, token)).Some?
    ensures Match(prog, p, Labelled(gap, prog[p + 2].text, token) + rest, caps)
            == Match(prog, p + 4, rest, WithToken(caps, prog[p + 3].capture.value, token))
  {
    if token.None? {
      assert "" + rest == rest;
      if rest == "" {
        SkipGroup(prog, p, rest, caps);
      } else {
        var before, word :| rest == before + word && Gap(before) && word != [] && !IsSpace(word[0])
                            && word[0] in firsts;
        GapSkips(prog, p, before, word, caps);
      }
    } else {
      LabelTaken(prog, p, gap, token.value, rest, caps);
      Associate(gap, prog[p + 2].text + token.value, rest);
      Associate(prog[p + 2].text, token.value, rest);
    }
  }

  lemma BodyTaken(prog: seq<Node>, p: nat, gap: string, after: string, text: string, caps: Captures)
    requires BodyNodes(prog, p) && Gap(gap) && Gap(after) && text != [] && !IsSpace(text[0])
    ensures Match(prog, p, gap + ("\U{2014}" + (after + text)), caps) == Some(caps[9 := text])
  {
    AnyText(prog, p, text, caps);
    RunStep(prog, p + 3, after, text, caps);
    LitStep(prog, p + 2, after + text, caps);
    RunStep(prog, p + 1, gap, "\U{2014}" + (after + text), caps);
    TakeGroup(prog, p, gap + ("\U{2014}" + (after + text)), caps);
  }

  lemma BodyRead(prog: seq<Node>, p: nat, gap: string, after: string, payload: Option<string>, caps: Captures)
    requires BodyNodes(prog, p) && Gap(gap) && Gap(after) && (payload.Some? ==> Bare(payload.value))
    ensures Match(prog, p, Dashed(gap, after, payload), caps) == Some(WithToken(caps, 9, payload))
  {
    if payload.None? {
      EndStep(prog, p + 5, caps);
      SkipGroup(prog, p, "", caps);
    } else {
      BodyTaken(prog, p, gap, after, payload.value, caps);
    }
  }

  lemma GapFollows(gap: string, word: string, firsts: set<char>)
    requires Gap(gap) && Bare(word) && word[0] in firsts
    ensures Follows(gap + word, firsts)
  {
  }

  lemma DashFollows(gap: string, after: string, payload: Option<string>)
    requires Gap(gap)
    ensures Follows(Dashed(gap, after, payload), {'\U{2014}'})
  {
    if payload.Some? {
      var word := "\U{2014}" + (after + payload.value);
      assert word[0] == '\U{2014}';
      GapFollows(gap, word, {'\U{2014}'});
    }
  }

  lemma AckFollows(e: Ending)
    requires e.Ok()
    ensures Follows(Labelled(e.ackGap, "ackOf:", e.ackOf) + Dashed(e.dashGap, e.textGap, e.payload), {'a', '\U{2014}'})
  {
    var rest := Dashed(e.dashGap, e.textGap, e.payload);
    if e.ackOf.Some? {
      var word := "ackOf:" + (e.ackOf.value + rest);
      assert word[0] == 'a';
      Associate(e.ackGap, "ackOf:" + e.ackOf.value, rest);
      Associate("ackOf:", e.ackOf.value, rest);
      GapFollows(e.ackGap, word, {'a', '\U{2014}'});
    } else {
      assert "" + rest == rest;
      if e.payload.Some? {
        var word := "\U{2014}" + (e.textGap + e.payload.value);
        assert word[0] == '\U{2014}';
        GapFollows(e.dashGap, word, {'a', '\U{2014}'});
      }
    }
  }

  lemma EndingRead(prog: seq<Node>, p: nat, e: Ending, caps: Captures)
    requires TaskNodes(prog, p) && e.Ok() && (e.payload.Some? ==> Bare(e.payload.value))
    ensures Match(prog, p, e.Shown(), caps) == Some(e.Captured(caps))
  {
    var withTask := WithToken(caps, 7, e.task);
    var withAck := WithToken(withTask, 8, e.ackOf);
    var body := Dashed(e.dashGap, e.textGap, e.payload);
    BodyRead(prog, p + 8, e.dashGap, e.textGap, e.payload, withAck);
    DashFollows(e.dashGap, e.textGap, e.payload);
    LabelRead(prog, p + 4, e.ackGap, e.ackOf, body, {'\U{2014}'}, withTask);
    AckFollows(e);
    LabelRead(prog, p, e.taskGap, e.task, Labelled(e.ackGap, "ackOf:", e.ackOf) + body, {'a', '\U{2014}'}, caps);
  }

  lemma GapBegins(gap: string, rest: string)
    requires Gap(gap)
    ensures gap + rest != [] && IsSpace((gap + rest)[0])
  {
  }

  lemma EndingBegins(e: Ending)
    requires e.Ok()
    ensures e.Shown() == [] || IsSpace(e.Shown()[0])
  {
    var ack, body := Labelled(e.ackGap, "ackOf:", e.ackOf), Dashed(e.dashGap, e.textGap, e.payload);
    if e.task.Some? {
      Associate(e.taskGap, "task:" + e.task.value, ack + body);
      GapBegins(e.taskGap, "task:" + e.task.value + (ack + body));
    } else {
      AckFollows(e);
      assert "" + (ack + body) == ack + body;
      if ack + body != "" {
        var gap, word :| ack + body == gap + word && Gap(gap) && word != [] && !IsSpace(word[0])
                         && word[0] in {'a', '\U{2014}'};
        GapBegins(gap, word);
      }
    }
  }

  lemma NumberRead(prog: seq<Node>, p: nat, h: Head, rest: string, caps: Captures)
    requires MessageNodes(prog, p) && h.Ok() && (rest == [] || IsSpace(rest[0]))
    requires Match(prog, p + 10, rest, caps[5 := h.number][6 := h.kind]).Some?
    ensures Match(prog, p + 5, h.numberGap + ("#" + (h.number + (h.kindGap + (h.kind + rest)))), caps)
            == Match(prog, p + 10, rest, caps[5 := h.number][6 := h.kind])
  {
    GapAndRun(prog, p + 8, h.kindGap, h.kind, rest, caps[5 := h.number]);
    GapBegins(h.kindGap, h.kind + rest);
    RunStep(prog, p + 7, h.number, h.kindGap + (h.kind + rest), caps);
    LitStep(prog, p + 6, h.number + (h.kindGap + (h.kind + rest)), caps);
    RunStep(prog, p + 5, h.numberGap, "#" + (h.number + (h.kindGap + (h.kind + rest))), caps);
  }

  lemma StampRead(prog: seq<Node>, p: nat, h: Head, rest: string, caps: Captures)
    requires MessageNodes(prog, p) && h.Ok() && rest != [] && IsSpace(rest[0])
    requires Match(prog, p + 5, rest, caps[3 := h.ts][4 := h.sender]).Some?
    ensures Match(prog, p, "[" + (h.ts + ("]" + (h.senderGap + (h.sender + rest)))), caps)
            == Match(prog, p + 5, rest, caps[3 := h.ts][4 := h.sender])
  {
    GapAndRun(prog, p + 3, h.senderGap, h.sender, rest, caps[3 := h.ts]);
    var r := h.senderGap + (h.sender + rest);
    LitStep(prog, p + 2, r, caps[3 := h.ts]);
    RunStep(prog, p + 1, h.ts, "]" + r, caps);
    LitStep(prog, p, h.ts + ("]" + r), caps);
  }

  lemma HeadRead(prog: seq<Node>, p: nat, h: Head, rest: string, caps: Captures)
    requires MessageNodes(prog, p) && h.Ok() && (rest == [] || IsSpace(rest[0]))
    requires Match(prog, p + 10, rest, h.Captured(caps)).Some?
    ensures Match(prog, p, h.Shown(rest), caps) == Match(prog, p + 10, rest, h.Captured(caps))
  {
    NumberRead(prog, p, h, rest, caps[3 := h.ts][4 := h.sender]);
    var number := "#" + (h.number + (h.kindGap + (h.kind + rest)));
    GapBegins(h.numberGap, number);
    StampRead(prog, p, h, h.numberGap + number, caps);
  }

  lemma MessageRead(prog: seq<Node>, h: Head, e: Ending, caps: Captures)
    requires LineNodes(prog) && h.Ok() && e.Ok() && (e.payload.Some? ==> Bare(e.payload.value))
    ensures Match(prog, 4, h.Shown(e.Shown()), caps) == Some(e.Captured(h.Captured(caps)))
    ensures Bare(h.Shown(e.Shown()))
  {
    EndingRead(prog, 14, e, h.Captured(caps));
    EndingBegins(e);
    HeadRead(prog, 4, h, e.Shown(), caps);
  }

  lemma OriginRead(prog: seq<Node>, transport: string, gap: string, remote: string, wide: string, message: string)
    requires LineNodes(prog) && transport in {"TCP", "UDP"} && Gap(gap) && Token(remote) && Gap(wide) && Bare(message)
    requires Match(prog, 4, message, map[1 := transport, 2 := remote]).Some?
    ensures Match(prog, 0, transport + (gap + (remote + (wide + message))), map[])
            == Match(prog, 4, message, map[1 := transport, 2 := remote])
  {
    var c1: Captures := map[1 := transport];
    RunStep(prog, 3, wide, message, c1[2 := remote]);
    GapBegins(wide, message);
    GapAndRun(prog, 1, gap, remote, wide + message, c1);
    WordStep(prog, transport, gap + (remote + (wide + message)));
  }

  lemma LineRead(prog: seq<Node>, transport: string, gap: string, remote: string, wide: string, h: Head, e: Ending)
    requires LineNodes(prog) && transport in {"TCP", "UDP"} && Gap(gap) && Token(remote) && Gap(wide)
    requires h.Ok() && e.Ok() && (e.payload.Some? ==> Bare(e.payload.value))
    ensures Match(prog, 0, transport + (gap + (remote + (wide + h.Shown(e.Shown())))), map[])
            == Some(e.Captured(h.Captured(map[1 := transport, 2 := remote])))
  {
    var caps: Captures := map[1 := transport, 2 := remote];
    MessageRead(prog, h, e, caps);
    OriginRead(prog, transport, gap, remote, wide, h.Shown(e.Shown()));
  }

  /** Conversely every such line is recognized, and its parts are what the reply holds. */
  lemma LineIsRecognized(
      line: string, transport: string, gap: string, remote: string, wide: string, h: Head, e: Ending)
    requires Trim(line) == transport + (gap + (remote + (wide + h.Shown(e.Shown()))))
    requires transport in {"TCP", "UDP"} && Gap(gap) && Token(remote) && Gap(wide) && h.Ok() && e.Ok()
    requires e.payload.Some? ==> e.payload.value != [] && !IsSpace(e.payload.value[0])
    ensures ParseLine(line) ==
            Some(Reply(transport, remote, h.ts, h.sender, h.number, h.kind, e.task, e.ackOf, e.payload))
  {
    LineIsLineRe();
    LineRead(LINE_RE, transport, gap, remote, wide, h, e);
    RepliesParts(transport, remote, h, e);
  }
}
