/**
  The listener's printed line and the awaiter's parser of it.

  The parser's regular expression is kept as data and run by a backtracking matcher with the
  order of ECMAScript: a run takes the longest stretch first and gives back one character at a time,
  an optional group is tried before it is skipped.
  */
module LineFormat {
  import opened Wrappers

  /** One bus message; `kind` is its type and `wall` its timestamp. */
  datatype Envelope = Envelope(
    session: string,
    sender: string,
    seqNo: int,
    wall: string,
    kind: string,
    task: Option<string>,
    payload: Option<string>,
    ackOf: Option<int>)

  // ---------------------------------------------------------------- printing

  function Digits(n: nat): (s: string)
    ensures |s| > 0 && forall i :: 0 <= i < |s| ==> '0' <= s[i] <= '9'
  {
    var last := [('0' as int + n % 10) as char];
    if n < 10 then last else Digits(n / 10) + last
  }

  function Decimal(n: int): string {
    if n < 0 then "-" + Digits(-n) else Digits(n)
  }

  /** The number that a text of decimal digits reads as. */
  function ValueOf(s: string): int {
    if s == [] then 0 else 10 * ValueOf(s[..|s| - 1]) + (s[|s| - 1] as int - '0' as int)
  }

  /** The number that a decimal text reads as, with or without a sign. */
  function NumberOf(s: string): int {
    if s != [] && s[0] == '-' then -ValueOf(s[1..]) else ValueOf(s)
  }

  /** Digits, and no leading zero but in "0" itself. */
  lemma {:induction false} DigitsRead(n: nat)
    ensures ValueOf(Digits(n)) == n
    ensures Digits(n)[0] == '0' ==> Digits(n) == "0"
    decreases n
  {
    var last := [('0' as int + n % 10) as char];
    assert ValueOf(last) == n % 10 by {
      assert last[..0] == [];
    }
    if n >= 10 {
      DigitsRead(n / 10);
      var s := Digits(n / 10) + last;
      assert s[..|s| - 1] == Digits(n / 10) && s[|s| - 1] == last[0];
      assert ValueOf("0") == 0 by {
        assert "0"[..0] == [];
      }
    }
  }

  /** A printed number reads as itself, and so different numbers print differently; it has a sign exactly if it is
      negative, and no leading zero. */
  lemma DecimalReads(n: int)
    ensures NumberOf(Decimal(n)) == n && Decimal(n) != [] && (Decimal(n)[0] == '-' <==> n < 0)
    ensures Decimal(n)[0] == '0' ==> Decimal(n) == "0"
  {
    DigitsRead(if n < 0 then -n else n);
    if n < 0 {
      assert Decimal(n)[1..] == Digits(-n);
    }
  }

  function TaskText(e: Envelope): string {
    match e.task case None => "" case Some(task) => " task:" + task
  }

  function AckText(e: Envelope): string {
    match e.ackOf case None => "" case Some(n) => " ackOf:" + Decimal(n)
  }

  function Shown(payload: string): string {
    if |payload| <= 400 then payload else payload[..400] + "\U{2026}"
  }

  function BodyText(e: Envelope): string {
    match e.payload case None => "" case Some(payload) => " \U{2014} " + Shown(payload)
  }

  function RenderHead(e: Envelope): string {
    "[" + e.wall + "] " + e.sender + " #" + Decimal(e.seqNo) + " " + e.kind + TaskText(e) + AckText(e)
  }

  function Render(e: Envelope): string {
    RenderHead(e) + BodyText(e)
  }

  function ListenerLine(transport: string, remote: string, e: Envelope): string {
    transport + " " + remote + "  " + Render(e)
  }

  // ---------------------------------------------------------------- character classes

  /** White space and line terminators of ECMAScript: \s, and what trim removes. */
  predicate IsSpace(c: char) {
    || '\t' <= c <= '\r' || c == ' ' || c == '\U{A0}' || c == '\U{1680}' || '\U{2000}' <= c <= '\U{200A}'
    || c == '\U{2028}' || c == '\U{2029}' || c == '\U{202F}' || c == '\U{205F}' || c == '\U{3000}' || c == '\U{FEFF}'
  }

  datatype Class = Space | NonSpace | NotBracket | Anything {
    predicate Has(c: char) {
      match this
      case Space => IsSpace(c)
      case NonSpace => !IsSpace(c)
      case NotBracket => c != ']'
      case Anything => true
    }

    predicate HasAll(s: string) {
      forall i :: 0 <= i < |s| ==> Has(s[i])
    }
  }

  function TrimStart(s: string): string {
    if s != [] && IsSpace(s[0]) then TrimStart(s[1..]) else s
  }

  function TrimEnd(s: string): string {
    if s != [] && IsSpace(s[|s| - 1]) then TrimEnd(s[..|s| - 1]) else s
  }

  function Trim(s: string): string {
    TrimStart(TrimEnd(s))
  }

  lemma {:induction false} TrimEndKeeps(a: string, b: string)
    requires TrimEnd(b) != []
    ensures TrimEnd(a + b) == a + TrimEnd(b)
    decreases |b|
  {
    if IsSpace(b[|b| - 1]) {
      assert (a + b)[..|a + b| - 1] == a + b[..|b| - 1];
      TrimEndKeeps(a, b[..|b| - 1]);
    } else {
      assert (a + b)[|a + b| - 1] == b[|b| - 1];
    }
  }

  lemma {:induction false} TrimEndDrops(s: string, eol: string)
    requires Space.HasAll(eol)
    ensures TrimEnd(s + eol) == TrimEnd(s)
    decreases |eol|
  {
    if eol == [] {
      assert s + eol == s;
    } else {
      assert (s + eol)[..|s + eol| - 1] == s + eol[..|eol| - 1];
      TrimEndDrops(s, eol[..|eol| - 1]);
    }
  }

  lemma {:induction false} TrimStartSplit(s: string) returns (lead: string)
    ensures s == lead + TrimStart(s) && Space.HasAll(lead)
    ensures TrimStart(s) != [] ==> !IsSpace(TrimStart(s)[0])
  {
    if s != [] && IsSpace(s[0]) {
      var rest := TrimStartSplit(s[1..]);
      lead := [s[0]] + rest;
    } else {
      lead := [];
    }
  }

  lemma {:induction false} TrimEndSplit(s: string) returns (trail: string)
    ensures s == TrimEnd(s) + trail && Space.HasAll(trail)
    ensures TrimEnd(s) != [] ==> !IsSpace(TrimEnd(s)[|TrimEnd(s)| - 1])
    decreases |s|
  {
    if s != [] && IsSpace(s[|s| - 1]) {
      var rest := TrimEndSplit(s[..|s| - 1]);
      trail := rest + [s[|s| - 1]];
      assert s == s[..|s| - 1] + [s[|s| - 1]];
      Associate(TrimEnd(s), rest, [s[|s| - 1]]);
    } else {
      trail := [];
    }
  }

  /** Trimming takes white space from both ends, and all of it. */
  lemma TrimIs(s: string) returns (lead: string, trail: string)
    ensures s == lead + Trim(s) + trail && Space.HasAll(lead) && Space.HasAll(trail)
    ensures Trim(s) != [] ==> !IsSpace(Trim(s)[0]) && !IsSpace(Trim(s)[|Trim(s)| - 1])
  {
    trail := TrimEndSplit(s);
    lead := TrimStartSplit(TrimEnd(s));
    assert Trim(s) != [] ==> Trim(s)[|Trim(s)| - 1] == TrimEnd(s)[|TrimEnd(s)| - 1];
  }

  lemma TrimBlank(s: string)
    ensures Trim(s) == [] <==> Space.HasAll(s)
  {
    var lead, trail := TrimIs(s);
    assert Trim(s) != [] ==> Trim(s)[0] == s[|lead|];
  }

  // ---------------------------------------------------------------- the matcher

  datatype Node =
    | OneOf(words: seq<string>, group: nat)
    | Lit(text: string)
    | Run(class_: Class, min: nat, capture: Option<nat>)
    | Opt(size: nat)
    | End

  type Captures = map<nat, string>

  const ORIGIN_RE: seq<Node> :=
    [OneOf(["TCP", "UDP"], 1), Run(Space, 1, None), Run(NonSpace, 1, Some(2)), Run(Space, 1, None)]

  const MESSAGE_RE: seq<Node> :=
    [Lit("["), Run(NotBracket, 1, Some(3)), Lit("]"), Run(Space, 1, None), Run(NonSpace, 1, Some(4)),
     Run(Space, 1, None), Lit("#"), Run(NonSpace, 1, Some(5)), Run(Space, 1, None), Run(NonSpace, 1, Some(6))]

  const TASK_RE: seq<Node> := [Opt(3), Run(Space, 1, None), Lit("task:"), Run(NonSpace, 1, Some(7))]
  const ACK_RE: seq<Node> := [Opt(3), Run(Space, 1, None), Lit("ackOf:"), Run(NonSpace, 1, Some(8))]

  const BODY_RE: seq<Node> :=
    [Opt(4), Run(Space, 1, None), Lit("\U{2014}"), Run(Space, 1, None), Run(Anything, 0, Some(9)), End]

  /**
    ^(TCP|UDP)\s+(\S+)\s+\[([^\]]+)\]\s+(\S+)\s+#(\S+)\s+(\S+)
     (?:\s+task:(\S+))?(?:\s+ackOf:(\S+))?(?:\s+—\s+([\s\S]*))?$
    */
  const LINE_RE: seq<Node> := ORIGIN_RE + (MESSAGE_RE + (TASK_RE + (ACK_RE + BODY_RE)))

  function MaxRun(c: Class, s: string): (n: nat)
    ensures n <= |s| && c.HasAll(s[..n]) && (n < |s| ==> !c.Has(s[n]))
  {
    if s == [] || !c.Has(s[0]) then 0 else 1 + MaxRun(c, s[1..])
  }

  function Capture(caps: Captures, group: Option<nat>, text: string): Captures {
    match group case None => caps case Some(g) => caps[g := text]
  }

  function Match(prog: seq<Node>, pc: nat, rest: string, caps: Captures): Option<Captures>
    requires pc <= |prog|
    decreases |prog| - pc, 1, 0
  {
    if pc == |prog| then Some(caps)
    else match prog[pc]
      case OneOf(words, group) => MatchWord(prog, pc, words, group, rest, caps)
      case Lit(text) => if text <= rest then Match(prog, pc + 1, rest[|text|..], caps) else None
      case Run(c, min, capture) => MatchRun(prog, pc, MaxRun(c, rest), min, capture, rest, caps)
      case Opt(size) =>
        var taken := Match(prog, pc + 1, rest, caps);
        if taken.Some? || pc + 1 + size > |prog| then taken else Match(prog, pc + 1 + size, rest, caps)
      case End => if rest == [] then Match(prog, pc + 1, rest, caps) else None
  }

  function MatchWord(prog: seq<Node>, pc: nat, words: seq<string>, group: nat, rest: string,
        caps: Captures): Option<Captures>
    requires pc < |prog|
    decreases |prog| - pc, 0, |words|
  {
    if words == [] then None
    else
      var taken := if words[0] <= rest then Match(prog, pc + 1, rest[|words[0]|..], caps[group := words[0]]) else None;
      if taken.Some? then taken else MatchWord(prog, pc, words[1..], group, rest, caps)
  }

  /** Tries `n` characters, then one fewer, down to `min`. */
  function MatchRun(prog: seq<Node>, pc: nat, n: nat, min: nat, capture: Option<nat>, rest: string,
        caps: Captures): Option<Captures>
    requires pc < |prog| && n <= |rest|
    decreases |prog| - pc, 0, n
  {
    if n < min then None
    else
      var taken := Match(prog, pc + 1, rest[n..], Capture(caps, capture, rest[..n]));
      if taken.Some? || n == 0 then taken else MatchRun(prog, pc, n - 1, min, capture, rest, caps)
  }

  // ---------------------------------------------------------------- parsing

  datatype Reply = Reply(
    transport: string,
    remote: string,
    ts: string,
    senderId: string,
    seqText: string,
    kind: string,
    task: Option<string>,
    ackOf: Option<string>,
    payload: Option<string>)

  function Group(caps: Captures, g: nat): Option<string> {
    if g in caps then Some(caps[g]) else None
  }

  function Text(caps: Captures, g: nat): string {
    if g in caps then caps[g] else ""
  }

  function ReplyOf(found: Option<Captures>): Option<Reply> {
    match found
    case None => None
    case Some(caps) =>
      Some(Reply(Text(caps, 1), Text(caps, 2), Text(caps, 3), Text(caps, 4), Text(caps, 5), Text(caps, 6),
                 Group(caps, 7), Group(caps, 8), Group(caps, 9)))
  }

  function ParseLine(line: string): Option<Reply> {
    ReplyOf(Match(LINE_RE, 0, Trim(line), map[]))
  }

  // ---------------------------------------------------------------- the inverse

  predicate Token(s: string) {
    s != [] && NonSpace.HasAll(s)
  }

  predicate Printable(e: Envelope) {
    && Token(e.sender) && Token(e.kind) && (e.task.Some? ==> Token(e.task.value))
    && e.wall != [] && NotBracket.HasAll(e.wall)
    && (e.payload.Some? ==> Trim(Shown(e.payload.value)) != [])
  }

  /** What the reader of `e`'s printed line should see. */
  function Seen(transport: string, remote: string, e: Envelope): Reply {
    Reply(transport, remote, e.wall, e.sender, Decimal(e.seqNo), e.kind, e.task,
          match e.ackOf { case None => None case Some(n) => Some(Decimal(n)) },
          match e.payload { case None => None case Some(p) => Some(Trim(Shown(p))) })
  }

  lemma {:induction false} RunLength(c: Class, token: string, rest: string)
    requires c.HasAll(token) && (rest == [] || !c.Has(rest[0]))
    ensures MaxRun(c, token + rest) == |token|
  {
    if token == [] {
      assert token + rest == rest;
    } else {
      RunLength(c, token[1..], rest);
      assert (token + rest)[1..] == token[1..] + rest;
    }
  }

  /** The longest run comes first, so if what follows it matches, that is the match. */
  lemma RunStep(prog: seq<Node>, pc: nat, token: string, rest: string, caps: Captures)
    requires pc < |prog| && prog[pc].Run?
    requires prog[pc].class_.HasAll(token) && |token| >= prog[pc].min
    requires rest == [] || !prog[pc].class_.Has(rest[0])
    requires Match(prog, pc + 1, rest, Capture(caps, prog[pc].capture, token)).Some?
    ensures Match(prog, pc, token + rest, caps) == Match(prog, pc + 1, rest, Capture(caps, prog[pc].capture, token))
  {
    RunLength(prog[pc].class_, token, rest);
    assert (token + rest)[..|token|] == token && (token + rest)[|token|..] == rest;
  }

  lemma LitStep(prog: seq<Node>, pc: nat, rest: string, caps: Captures)
    requires pc < |prog| && prog[pc].Lit?
    ensures Match(prog, pc, prog[pc].text + rest, caps) == Match(prog, pc + 1, rest, caps)
  {
    assert prog[pc].text <= prog[pc].text + rest;
    assert (prog[pc].text + rest)[|prog[pc].text|..] == rest;
  }

  /** An optional group that begins with white space and a literal is skipped when that literal is not there. */
  lemma SkipGroup(prog: seq<Node>, pc: nat, rest: string, caps: Captures)
    requires pc + 2 < |prog| && prog[pc].Opt? && pc + 1 + prog[pc].size <= |prog|
    requires prog[pc + 1] == Run(Space, 1, None) && prog[pc + 2].Lit?
    requires rest == [] || (|rest| > 1 && IsSpace(rest[0]) && !IsSpace(rest[1]) && !(prog[pc + 2].text <= rest[1..]))
    ensures Match(prog, pc, rest, caps) == Match(prog, pc + 1 + prog[pc].size, rest, caps)
  {
    if rest != [] {
      RunLength(Space, rest[..1], rest[1..]);
      assert rest[..1] + rest[1..] == rest;
    }
    assert MatchRun(prog, pc + 1, 0, 1, None, rest, caps) == None;
    if rest != [] {
      assert Match(prog, pc + 2, rest[1..], caps) == None;
      assert MatchRun(prog, pc + 1, 1, 1, None, rest, caps) == None;
    }
    assert Match(prog, pc + 1, rest, caps) == None;
  }

  function WithBody(caps: Captures, e: Envelope): Captures {
    match e.payload case None => caps case Some(p) => caps[9 := Trim(Shown(p))]
  }

  function WithAck(caps: Captures, e: Envelope): Captures {
    match e.ackOf case None => caps case Some(n) => caps[8 := Decimal(n)]
  }

  function WithTask(caps: Captures, e: Envelope): Captures {
    match e.task case None => caps case Some(task) => caps[7 := task]
  }

  lemma DecimalToken(n: int)
    ensures Token(Decimal(n))
  {
  }

  /** The body as it stands once the end of the line is trimmed. */
  function TrimmedBody(e: Envelope): string {
    match e.payload case None => "" case Some(payload) => " \U{2014} " + TrimEnd(Shown(payload))
  }

  predicate BodyNodes(prog: seq<Node>, p: nat) {
    && |prog| == p + 6
    && prog[p] == Opt(4) && prog[p + 1] == Run(Space, 1, None) && prog[p + 2] == Lit("\U{2014}")
    && prog[p + 3] == Run(Space, 1, None) && prog[p + 4] == Run(Anything, 0, Some(9)) && prog[p + 5] == End
  }

  predicate AckNodes(prog: seq<Node>, p: nat) {
    && |prog| == p + 10
    && prog[p] == Opt(3) && prog[p + 1] == Run(Space, 1, None) && prog[p + 2] == Lit("ackOf:")
    && prog[p + 3] == Run(NonSpace, 1, Some(8))
    && BodyNodes(prog, p + 4)
  }

  predicate TaskNodes(prog: seq<Node>, p: nat) {
    && |prog| == p + 14
    && prog[p] == Opt(3) && prog[p + 1] == Run(Space, 1, None) && prog[p + 2] == Lit("task:")
    && prog[p + 3] == Run(NonSpace, 1, Some(7))
    && AckNodes(prog, p + 4)
  }

  predicate MessageNodes(prog: seq<Node>, p: nat) {
    && |prog| == p + 24
    && prog[p] == Lit("[") && prog[p + 1] == Run(NotBracket, 1, Some(3)) && prog[p + 2] == Lit("]")
    && prog[p + 3] == Run(Space, 1, None) && prog[p + 4] == Run(NonSpace, 1, Some(4))
    && prog[p + 5] == Run(Space, 1, None) && prog[p + 6] == Lit("#") && prog[p + 7] == Run(NonSpace, 1, Some(5))
    && prog[p + 8] == Run(Space, 1, None) && prog[p + 9] == Run(NonSpace, 1, Some(6))
    && TaskNodes(prog, p + 10)
  }

  predicate LineNodes(prog: seq<Node>) {
    && |prog| == 28
    && prog[0] == OneOf(["TCP", "UDP"], 1)
    && prog[1] == Run(Space, 1, None) && prog[2] == Run(NonSpace, 1, Some(2)) && prog[3] == Run(Space, 1, None)
    && MessageNodes(prog, 4)
  }

  lemma EndStep(prog: seq<Node>, p: nat, caps: Captures)
    requires p + 1 == |prog| && prog[p] == End
    ensures Match(prog, p, "", caps) == Some(caps)
  {
  }

  lemma TakeGroup(prog: seq<Node>, p: nat, rest: string, caps: Captures)
    requires p < |prog| && prog[p].Opt? && Match(prog, p + 1, rest, caps).Some?
    ensures Match(prog, p, rest, caps) == Match(prog, p + 1, rest, caps)
  {
  }

  lemma BodyGroup(prog: seq<Node>, p: nat, lead: string, bare: string, caps: Captures)
    requires BodyNodes(prog, p) && bare != [] && !IsSpace(bare[0]) && Space.HasAll(lead)
    ensures Match(prog, p, " " + ("\U{2014}" + ((" " + lead) + bare)), caps) == Some(caps[9 := bare])
  {
    EndStep(prog, p + 5, caps[9 := bare]);
    RunStep(prog, p + 4, bare, "", caps);
    assert bare + "" == bare;
    RunStep(prog, p + 3, " " + lead, bare, caps);
    LitStep(prog, p + 2, (" " + lead) + bare, caps);
    RunStep(prog, p + 1, " ", "\U{2014}" + ((" " + lead) + bare), caps);
    TakeGroup(prog, p, " " + ("\U{2014}" + ((" " + lead) + bare)), caps);
  }

  lemma BodyParts(lead: string, bare: string)
    ensures " \U{2014} " + (lead + bare) == " " + ("\U{2014}" + ((" " + lead) + bare))
  {
  }

  lemma MatchBody(prog: seq<Node>, p: nat, e: Envelope, caps: Captures)
    requires BodyNodes(prog, p) && Printable(e)
    ensures Match(prog, p, TrimmedBody(e), caps) == Some(WithBody(caps, e))
  {
    if e.payload.None? {
      EndStep(prog, p + 5, caps);
      SkipGroup(prog, p, "", caps);
    } else {
      var shown := TrimEnd(Shown(e.payload.value));
      var lead := TrimStartSplit(shown);
      BodyGroup(prog, p, lead, TrimStart(shown), caps);
      BodyParts(lead, TrimStart(shown));
    }
  }

  lemma AckParts(token: string, rest: string)
    ensures " ackOf:" + token + rest == " " + ("ackOf:" + (token + rest))
  {
  }

  lemma TaskParts(token: string, rest: string)
    ensures " task:" + token + rest == " " + ("task:" + (token + rest))
  {
  }

  /** A group of one space, a literal and a token, in front of something that is not part of the token. */
  lemma WordGroup(prog: seq<Node>, p: nat, token: string, rest: string, caps: Captures)
    requires p + 4 <= |prog| && prog[p].Opt? && prog[p + 1] == Run(Space, 1, None) && prog[p + 2].Lit?
    requires prog[p + 2].text != [] && !IsSpace(prog[p + 2].text[0])
    requires prog[p + 3].Run? && prog[p + 3].class_ == NonSpace && prog[p + 3].min == 1
    requires Token(token) && (rest == [] || IsSpace(rest[0]))
    requires Match(prog, p + 4, rest, Capture(caps, prog[p + 3].capture, token)).Some?
    ensures Match(prog, p, " " + (prog[p + 2].text + (token + rest)), caps)
            == Match(prog, p + 4, rest, Capture(caps, prog[p + 3].capture, token))
  {
    RunStep(prog, p + 3, token, rest, caps);
    LitStep(prog, p + 2, token + rest, caps);
    RunStep(prog, p + 1, " ", prog[p + 2].text + (token + rest), caps);
    TakeGroup(prog, p, " " + (prog[p + 2].text + (token + rest)), caps);
  }

  lemma MatchAck(prog: seq<Node>, p: nat, e: Envelope, caps: Captures)
    requires AckNodes(prog, p) && Printable(e)
    ensures Match(prog, p, AckText(e) + TrimmedBody(e), caps) == Some(WithBody(WithAck(caps, e), e))
  {
    MatchBody(prog, p + 4, e, WithAck(caps, e));
    if e.ackOf.None? {
      assert AckText(e) + TrimmedBody(e) == TrimmedBody(e);
      SkipGroup(prog, p, TrimmedBody(e), caps);
    } else {
      DecimalToken(e.ackOf.value);
      WordGroup(prog, p, Decimal(e.ackOf.value), TrimmedBody(e), caps);
      AckParts(Decimal(e.ackOf.value), TrimmedBody(e));
    }
  }

  lemma LabelStarts(label_: string, rest: string)
    requires label_ != []
    ensures |" " + (label_ + rest)| > 1 && (" " + (label_ + rest))[0] == ' ' && (" " + (label_ + rest))[1] == label_[0]
  {
  }

  lemma BodyStarts(text: string)
    ensures |" \U{2014} " + text| > 1 && (" \U{2014} " + text)[0] == ' ' && (" \U{2014} " + text)[1] == '\U{2014}'
  {
  }

  /** What follows the task, when the task is absent, cannot be taken for one. */
  lemma AfterTask(e: Envelope, rest: string)
    requires rest == AckText(e) + TrimmedBody(e)
    ensures rest == [] || (|rest| > 1 && rest[0] == ' ' && (rest[1] == 'a' || rest[1] == '\U{2014}'))
  {
    if e.ackOf.Some? {
      AckParts(Decimal(e.ackOf.value), TrimmedBody(e));
      LabelStarts("ackOf:", Decimal(e.ackOf.value) + TrimmedBody(e));
    } else {
      assert "" + TrimmedBody(e) == TrimmedBody(e);
      if e.payload.Some? {
        BodyStarts(TrimEnd(Shown(e.payload.value)));
      }
    }
  }

  lemma TaskGroup(prog: seq<Node>, p: nat, e: Envelope, rest: string, caps: Captures)
    requires TaskNodes(prog, p) && (e.task.Some? ==> Token(e.task.value))
    requires rest == [] || (|rest| > 1 && rest[0] == ' ' && (rest[1] == 'a' || rest[1] == '\U{2014}'))
    requires Match(prog, p + 4, rest, WithTask(caps, e)).Some?
    ensures Match(prog, p, TaskText(e) + rest, caps) == Match(prog, p + 4, rest, WithTask(caps, e))
  {
    if e.task.None? {
      assert TaskText(e) + rest == rest;
      SkipGroup(prog, p, rest, caps);
    } else {
      WordGroup(prog, p, e.task.value, rest, caps);
      TaskParts(e.task.value, rest);
    }
  }

  lemma MatchTask(prog: seq<Node>, p: nat, e: Envelope, caps: Captures)
    requires TaskNodes(prog, p) && Printable(e)
    ensures Match(prog, p, TaskText(e) + (AckText(e) + TrimmedBody(e)), caps)
            == Some(WithBody(WithAck(WithTask(caps, e), e), e))
  {
    AfterTask(e, AckText(e) + TrimmedBody(e));
    MatchAck(prog, p + 4, e, WithTask(caps, e));
    TaskGroup(prog, p, e, AckText(e) + TrimmedBody(e), caps);
  }

  function WithHead(caps: Captures, e: Envelope): Captures {
    caps[3 := e.wall][4 := e.sender][5 := Decimal(e.seqNo)][6 := e.kind]
  }

  function WithMessage(caps: Captures, e: Envelope): Captures {
    WithBody(WithAck(WithTask(WithHead(caps, e), e), e), e)
  }

  /** White space and a run, in front of something that is not part of the run. */
  lemma GapAndRun(prog: seq<Node>, p: nat, gap: string, token: string, rest: string, caps: Captures)
    requires p + 2 <= |prog| && prog[p] == Run(Space, 1, None) && prog[p + 1].Run? && prog[p + 1].class_ == NonSpace
    requires gap != [] && Space.HasAll(gap) && Token(token) && prog[p + 1].min == 1
    requires rest == [] || IsSpace(rest[0])
    requires Match(prog, p + 2, rest, Capture(caps, prog[p + 1].capture, token)).Some?
    ensures Match(prog, p, gap + (token + rest), caps)
            == Match(prog, p + 2, rest, Capture(caps, prog[p + 1].capture, token))
  {
    RunStep(prog, p + 1, token, rest, caps);
    RunStep(prog, p, gap, token + rest, caps);
  }

  /** The sequence number and the type. */
  lemma MatchNumber(prog: seq<Node>, p: nat, number: string, kind: string, tail: string, caps: Captures)
    requires MessageNodes(prog, p) && Token(number) && Token(kind) && (tail == [] || IsSpace(tail[0]))
    requires Match(prog, p + 10, tail, caps[5 := number][6 := kind]).Some?
    ensures Match(prog, p + 5, " " + ("#" + (number + (" " + (kind + tail)))), caps)
            == Match(prog, p + 10, tail, caps[5 := number][6 := kind])
  {
    GapAndRun(prog, p + 8, " ", kind, tail, caps[5 := number]);
    RunStep(prog, p + 7, number, " " + (kind + tail), caps);
    LitStep(prog, p + 6, number + (" " + (kind + tail)), caps);
    RunStep(prog, p + 5, " ", "#" + (number + (" " + (kind + tail))), caps);
  }

  /** The timestamp and the sender. */
  lemma MatchSender(prog: seq<Node>, p: nat, wall: string, sender: string, rest: string, caps: Captures)
    requires MessageNodes(prog, p) && wall != [] && NotBracket.HasAll(wall) && Token(sender)
    requires rest == [] || IsSpace(rest[0])
    requires Match(prog, p + 5, rest, caps[3 := wall][4 := sender]).Some?
    ensures Match(prog, p, "[" + (wall + ("]" + (" " + (sender + rest)))), caps)
            == Match(prog, p + 5, rest, caps[3 := wall][4 := sender])
  {
    GapAndRun(prog, p + 3, " ", sender, rest, caps[3 := wall]);
    var r := " " + (sender + rest);
    LitStep(prog, p + 2, r, caps[3 := wall]);
    RunStep(prog, p + 1, wall, "]" + r, caps);
    LitStep(prog, p, wall + ("]" + r), caps);
  }

  function TrimmedRender(e: Envelope): string {
    RenderHead(e) + TrimmedBody(e)
  }

  function TrimmedLine(transport: string, remote: string, e: Envelope): string {
    transport + " " + remote + "  " + TrimmedRender(e)
  }

  lemma Reassociate(a: string, b: string, c: string, d: string, x: string, y: string, z: string)
    ensures "[" + a + "] " + b + " #" + c + " " + d + x + y + z
            == "[" + (a + ("]" + (" " + (b + (" " + ("#" + (c + (" " + (d + (x + (y + z)))))))))))
  {
    assert d + x + y + z == d + (x + (y + z));
    var tail := d + (x + (y + z));
    assert " #" + c + " " + tail == " " + ("#" + (c + (" " + tail)));
    var number := " #" + c + " " + tail;
    assert "[" + a + "] " + b + number == "[" + (a + ("]" + (" " + (b + number))));
  }

  lemma RenderShape(e: Envelope, tail: string)
    requires tail == TaskText(e) + (AckText(e) + TrimmedBody(e))
    ensures TrimmedRender(e) == "[" + (e.wall
            + ("]" + (" " + (e.sender + (" " + ("#" + (Decimal(e.seqNo) + (" " + (e.kind + tail)))))))))
    ensures tail == [] || tail[0] == ' '
  {
    AfterTask(e, AckText(e) + TrimmedBody(e));
    Reassociate(e.wall, e.sender, Decimal(e.seqNo), e.kind, TaskText(e), AckText(e), TrimmedBody(e));
  }

  /** From the timestamp to the end. */
  lemma MatchMessage(prog: seq<Node>, p: nat, e: Envelope, caps: Captures)
    requires MessageNodes(prog, p) && Printable(e)
    ensures Match(prog, p, TrimmedRender(e), caps) == Some(WithMessage(caps, e))
  {
    var tail := TaskText(e) + (AckText(e) + TrimmedBody(e));
    RenderShape(e, tail);
    MatchTask(prog, p + 10, e, WithHead(caps, e));
    DecimalToken(e.seqNo);
    MatchNumber(prog, p, Decimal(e.seqNo), e.kind, tail, caps[3 := e.wall][4 := e.sender]);
    MatchSender(prog, p, e.wall, e.sender, " " + ("#" + (Decimal(e.seqNo) + (" " + (e.kind + tail)))), caps);
  }

  lemma WordStep(prog: seq<Node>, transport: string, rest: string)
    requires LineNodes(prog) && transport in {"TCP", "UDP"}
    requires Match(prog, 1, rest, map[1 := transport]).Some?
    ensures Match(prog, 0, transport + rest, map[]) == Match(prog, 1, rest, map[1 := transport])
  {
    var line := transport + rest;
    assert line[3..] == rest && transport <= line;
    if transport == "UDP" {
      assert line[0] == 'U' && !("TCP" <= line);
      assert ["TCP", "UDP"][1..] == ["UDP"];
      assert MatchWord(prog, 0, ["UDP"], 1, line, map[]) == Match(prog, 1, rest, map[1 := transport]);
    }
    assert Match(prog, 0, line, map[]) == MatchWord(prog, 0, ["TCP", "UDP"], 1, line, map[]);
  }

  /** The transport word and the remote address. */
  lemma MatchOrigin(prog: seq<Node>, transport: string, remote: string, message: string)
    requires LineNodes(prog) && transport in {"TCP", "UDP"} && Token(remote) && message != [] && !IsSpace(message[0])
    requires Match(prog, 4, message, map[1 := transport, 2 := remote]).Some?
    ensures Match(prog, 0, transport + (" " + (remote + ("  " + message))), map[])
            == Match(prog, 4, message, map[1 := transport, 2 := remote])
  {
    var c1: Captures := map[1 := transport];
    RunStep(prog, 3, "  ", message, c1[2 := remote]);
    GapAndRun(prog, 1, " ", remote, "  " + message, c1);
    WordStep(prog, transport, " " + (remote + ("  " + message)));
  }

  lemma LineIsLineRe()
    ensures LineNodes(LINE_RE)
  {
    var ack := ACK_RE + BODY_RE;
    assert ack[4..] == BODY_RE;
    assert AckNodes(ack, 0);
    var task := TASK_RE + ack;
    assert task[4..] == ack;
    assert TaskNodes(task, 0);
    var message := MESSAGE_RE + task;
    assert message[10..] == task;
    assert MessageNodes(message, 0);
  }

  lemma FiveParts(a: string, b: string, c: string, d: string, e: string)
    ensures a + (b + (c + (d + e))) == a + b + c + d + e
  {
  }

  lemma MatchLine(prog: seq<Node>, transport: string, remote: string, e: Envelope)
    requires LineNodes(prog) && transport in {"TCP", "UDP"} && Token(remote) && Printable(e)
    ensures Match(prog, 0, TrimmedLine(transport, remote, e), map[])
            == Some(WithMessage(map[1 := transport, 2 := remote], e))
  {
    MatchMessage(prog, 4, e, map[1 := transport, 2 := remote]);
    MatchOrigin(prog, transport, remote, TrimmedRender(e));
    FiveParts(transport, " ", remote, "  ", TrimmedRender(e));
  }

  lemma BodyTrims(head: string, shown: string)
    requires TrimEnd(shown) != []
    ensures TrimEnd(head + (" \U{2014} " + shown)) == head + (" \U{2014} " + TrimEnd(shown))
  {
    TrimEndKeeps(head + " \U{2014} ", shown);
    assert head + (" \U{2014} " + shown) == (head + " \U{2014} ") + shown;
    assert head + (" \U{2014} " + TrimEnd(shown)) == (head + " \U{2014} ") + TrimEnd(shown);
  }

  lemma BodyEndTrims(head: string, e: Envelope)
    requires Printable(e) && TrimEnd(head) == head
    ensures TrimEnd(head + BodyText(e)) == head + TrimmedBody(e)
  {
    if e.payload.Some? {
      var shown := Shown(e.payload.value);
      BodyTrims(head, shown);
      assert BodyText(e) == " \U{2014} " + shown;
    } else {
      assert head + "" == head;
    }
  }

  lemma Regroup(before: string, start: string, label_: string, token: string)
    ensures before + start + label_ + token == before + (start + (label_ + token))
  {
  }

  lemma LastKept(before: string, token: string)
    requires Token(token)
    ensures TrimEnd(before + token) == before + token
  {
  }

  /** Everything before the payload ends in a token. */
  lemma HeadKept(before: string, e: Envelope)
    requires Printable(e)
    ensures TrimEnd(before + RenderHead(e)) == before + RenderHead(e)
  {
    var start := "[" + e.wall + "] " + e.sender + " #" + Decimal(e.seqNo) + " ";
    if e.ackOf.Some? {
      DecimalToken(e.ackOf.value);
      LastKept(before + start + e.kind + TaskText(e) + " ackOf:", Decimal(e.ackOf.value));
      Regroup(before, start + e.kind + TaskText(e), " ackOf:", Decimal(e.ackOf.value));
    } else if e.task.Some? {
      LastKept(before + start + e.kind + " task:", e.task.value);
      Regroup(before, start + e.kind, " task:", e.task.value);
      assert RenderHead(e) == start + e.kind + TaskText(e);
    } else {
      LastKept(before + start, e.kind);
      assert RenderHead(e) == start + e.kind;
      assert before + start + e.kind == before + (start + e.kind);
    }
  }

  lemma LineEndTrims(before: string, e: Envelope)
    requires Printable(e)
    ensures TrimEnd(before + Render(e)) == before + TrimmedRender(e)
  {
    HeadKept(before, e);
    Associate(before, RenderHead(e), BodyText(e));
    Associate(before, RenderHead(e), TrimmedBody(e));
    BodyEndTrims(before + RenderHead(e), e);
  }

  /** Trimming a printed line touches nothing but the end of its payload. */
  lemma LineTrims(transport: string, remote: string, e: Envelope, eol: string)
    requires Printable(e) && Token(transport) && Space.HasAll(eol)
    ensures Trim(ListenerLine(transport, remote, e) + eol) == TrimmedLine(transport, remote, e)
  {
    var line := ListenerLine(transport, remote, e);
    TrimEndDrops(line, eol);
    LineEndTrims(transport + " " + remote + "  ", e);
    assert TrimmedLine(transport, remote, e)[0] == transport[0];
  }

  lemma CapturesGive(transport: string, remote: string, e: Envelope)
    ensures ReplyOf(Some(WithMessage(map[1 := transport, 2 := remote], e))) == Some(Seen(transport, remote, e))
  {
    var caps := WithHead(map[1 := transport, 2 := remote], e);
    assert 7 !in caps && 8 !in caps && 9 !in caps;
    var caps' := WithTask(caps, e);
    assert Group(caps', 7) == e.task && 8 !in caps' && 9 !in caps';
  }

  lemma ParseInverts(prog: seq<Node>, transport: string, remote: string, e: Envelope)
    requires LineNodes(prog) && transport in {"TCP", "UDP"} && Token(remote) && Printable(e)
    ensures ReplyOf(Match(prog, 0, TrimmedLine(transport, remote, e), map[])) == Some(Seen(transport, remote, e))
  {
    MatchLine(prog, transport, remote, e);
    CapturesGive(transport, remote, e);
  }

  /** Field by field, the reply that was read is the message that was sent: the numbers read as those sent, and the
      payload is cut to 400 characters and an ellipsis if longer, and without the white space around it. */
  lemma SeenIsSent(transport: string, remote: string, e: Envelope)
    ensures var r := Seen(transport, remote, e);
            && r.transport == transport && r.remote == remote && r.ts == e.wall && r.senderId == e.sender
            && NumberOf(r.seqText) == e.seqNo && r.kind == e.kind && r.task == e.task
            && (r.ackOf.None? <==> e.ackOf.None?) && (r.ackOf.Some? ==> NumberOf(r.ackOf.value) == e.ackOf.value)
            && (r.payload.None? <==> e.payload.None?)
            && (r.payload.Some? ==>
                  r.payload.value == Trim(if |e.payload.value| <= 400 then e.payload.value
                                          else e.payload.value[..400] + "\U{2026}"))
  {
    DecimalReads(e.seqNo);
    if e.ackOf.Some? {
      DecimalReads(e.ackOf.value);
    }
  }

  /** Parsing a printed line, with whatever line end, gives every field back. */
  lemma ParseInvertsPrint(transport: string, remote: string, e: Envelope, eol: string)
    requires transport in {"TCP", "UDP"} && Token(remote) && Printable(e) && Space.HasAll(eol)
    ensures ParseLine(ListenerLine(transport, remote, e) + eol) == Some(Seen(transport, remote, e))
    ensures NumberOf(Seen(transport, remote, e).seqText) == e.seqNo
    ensures e.ackOf.Some? ==> NumberOf(Seen(transport, remote, e).ackOf.value) == e.ackOf.value
  {
    SeenIsSent(transport, remote, e);
    LineTrims(transport, remote, e, eol);
    LineIsLineRe();
    ParseInverts(LINE_RE, transport, remote, e);
  }

  /** For a payload that begins and ends with other than white space that is the payload itself, or its
      first 400 characters and an ellipsis. */
  lemma ShownWhenTrimmed(p: string)
    requires p != [] && !IsSpace(p[0]) && !IsSpace(p[|p| - 1])
    ensures Trim(Shown(p)) == if |p| <= 400 then p else p[..400] + "\U{2026}"
  {
  }
}
