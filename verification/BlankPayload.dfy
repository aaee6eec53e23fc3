/**
  The one kind of message whose printed line the awaiter does not recognize: its payload is there, but
  shows as blank. Trimming the line then leaves a bare dash, which no way of matching can use.
  */
module BlankPayload {
  import opened Wrappers
  import opened LineFormat

  /** From `pc` on the program matches no way of reading `rest`, whatever was captured before. */
  ghost predicate Dead(prog: seq<Node>, pc: nat, rest: string)
    requires pc <= |prog|
  {
    forall caps: Captures :: Match(prog, pc, rest, caps) == None
  }

  /** The program cannot go on from `pc` in the middle of a word. */
  ghost predicate NeedsGap(prog: seq<Node>, pc: nat)
    requires pc <= |prog|
  {
    forall s: string :: s != [] && !IsSpace(s[0]) ==> Dead(prog, pc, s)
  }

  // ---------------------------------------------------------------- single nodes

  lemma {:induction false} RunsDead(prog: seq<Node>, pc: nat, n: nat, rest: string, caps: Captures)
    requires pc < |prog| && prog[pc].Run? && prog[pc].min >= 1 && n <= |rest|
    requires forall k :: prog[pc].min <= k <= n ==> Dead(prog, pc + 1, rest[k..])
    ensures MatchRun(prog, pc, n, prog[pc].min, prog[pc].capture, rest, caps) == None
    decreases n
  {
    if n >= prog[pc].min {
      assert Dead(prog, pc + 1, rest[n..]);
      RunsDead(prog, pc, n - 1, rest, caps);
    }
  }

  /** A run fails if what follows fails after every length of it. */
  lemma RunDead(prog: seq<Node>, pc: nat, run: string, rest: string)
    requires pc < |prog| && prog[pc].Run? && prog[pc].min >= 1
    requires prog[pc].class_.HasAll(run) && (rest == [] || !prog[pc].class_.Has(rest[0]))
    requires forall k :: prog[pc].min <= k <= |run| ==> Dead(prog, pc + 1, run[k..] + rest)
    ensures Dead(prog, pc, run + rest)
  {
    RunLength(prog[pc].class_, run, rest);
    forall k | prog[pc].min <= k <= |run| ensures Dead(prog, pc + 1, (run + rest)[k..]) {
      assert (run + rest)[k..] == run[k..] + rest;
    }
    forall caps: Captures ensures Match(prog, pc, run + rest, caps) == None {
      RunsDead(prog, pc, |run|, run + rest, caps);
    }
  }

  lemma GapDead(prog: seq<Node>, pc: nat, rest: string)
    requires pc < |prog| && prog[pc] == Run(Space, 1, None)
    requires rest == [] || !IsSpace(rest[0])
    requires Dead(prog, pc + 1, rest)
    ensures Dead(prog, pc, " " + rest)
  {
    assert " "[1..] + rest == rest;
    RunDead(prog, pc, " ", rest);
  }

  lemma GapNeeded(prog: seq<Node>, pc: nat)
    requires pc < |prog| && prog[pc] == Run(Space, 1, None)
    ensures NeedsGap(prog, pc) && Dead(prog, pc, "")
  {
    forall s: string | s == [] || !IsSpace(s[0]) ensures Dead(prog, pc, s) {
      assert [] + s == s;
      RunDead(prog, pc, [], s);
    }
  }

  lemma TokenDead(prog: seq<Node>, pc: nat, token: string, rest: string)
    requires pc < |prog| && prog[pc].Run? && prog[pc].class_ == NonSpace && prog[pc].min == 1
    requires Token(token) && (rest == [] || IsSpace(rest[0]))
    requires NeedsGap(prog, pc + 1) && Dead(prog, pc + 1, rest)
    ensures Dead(prog, pc, token + rest)
  {
    forall k | 1 <= k <= |token| ensures Dead(prog, pc + 1, token[k..] + rest) {
      if k == |token| {
        assert token[k..] + rest == rest;
      } else {
        assert (token[k..] + rest)[0] == token[k];
      }
    }
    RunDead(prog, pc, token, rest);
  }

  lemma LitDead(prog: seq<Node>, pc: nat, rest: string)
    requires pc < |prog| && prog[pc].Lit?
    requires prog[pc].text <= rest ==> Dead(prog, pc + 1, rest[|prog[pc].text|..])
    ensures Dead(prog, pc, rest)
  {
  }

  lemma LitThenDead(prog: seq<Node>, pc: nat, rest: string)
    requires pc < |prog| && prog[pc].Lit? && Dead(prog, pc + 1, rest)
    ensures Dead(prog, pc, prog[pc].text + rest)
  {
    assert (prog[pc].text + rest)[|prog[pc].text|..] == rest;
    LitDead(prog, pc, prog[pc].text + rest);
  }

  lemma OptDead(prog: seq<Node>, pc: nat, rest: string)
    requires pc < |prog| && prog[pc].Opt? && pc + 1 + prog[pc].size <= |prog|
    requires Dead(prog, pc + 1, rest) && Dead(prog, pc + 1 + prog[pc].size, rest)
    ensures Dead(prog, pc, rest)
  {
  }

  lemma OptNeedsGap(prog: seq<Node>, pc: nat)
    requires pc + 1 < |prog| && prog[pc].Opt? && pc + 1 + prog[pc].size <= |prog|
    requires prog[pc + 1] == Run(Space, 1, None) && NeedsGap(prog, pc + 1 + prog[pc].size)
    ensures NeedsGap(prog, pc)
  {
    GapNeeded(prog, pc + 1);
    forall s: string | s != [] && !IsSpace(s[0]) ensures Dead(prog, pc, s) {
      OptDead(prog, pc, s);
    }
  }

  lemma EndDead(prog: seq<Node>, pc: nat, rest: string)
    requires pc < |prog| && prog[pc] == End && rest != []
    ensures Dead(prog, pc, rest)
  {
  }

  /** A bracketed stretch of the line ends at its first bracket. */
  lemma BracketDead(prog: seq<Node>, pc: nat, wall: string, rest: string)
    requires pc + 1 < |prog| && prog[pc].Run? && prog[pc].class_ == NotBracket && prog[pc].min == 1
             && prog[pc + 1] == Lit("]")
    requires NotBracket.HasAll(wall) && rest != [] && rest[0] == ']' && Dead(prog, pc + 1, rest)
    ensures Dead(prog, pc, wall + rest)
  {
    forall k | 1 <= k <= |wall| ensures Dead(prog, pc + 1, wall[k..] + rest) {
      if k == |wall| {
        assert wall[k..] + rest == rest;
      } else {
        assert (wall[k..] + rest)[0] == wall[k];
        LitDead(prog, pc + 1, wall[k..] + rest);
      }
    }
    RunDead(prog, pc, wall, rest);
  }

  // ---------------------------------------------------------------- the optional groups

  const DASH := " \U{2014}"

  lemma GroupsNeedGap(prog: seq<Node>)
    requires LineNodes(prog)
    ensures NeedsGap(prog, 14) && NeedsGap(prog, 18) && NeedsGap(prog, 22)
  {
    forall s: string | s != [] ensures Dead(prog, 27, s) {
      EndDead(prog, 27, s);
    }
    OptNeedsGap(prog, 22);
    OptNeedsGap(prog, 18);
    OptNeedsGap(prog, 14);
  }

  /** A word that begins none of the remaining groups cannot follow. */
  lemma WordDead(prog: seq<Node>, pc: nat, word: string)
    requires LineNodes(prog) && (pc == 14 || pc == 18 || pc == 22)
    requires word != [] && !IsSpace(word[0]) && word[0] != '\U{2014}'
    requires (pc <= 18 ==> word[0] != 'a') && (pc == 14 ==> word[0] != 't')
    ensures Dead(prog, pc, " " + word)
    decreases |prog| - pc
  {
    LitDead(prog, pc + 2, word);
    GapDead(prog, pc + 1, word);
    if pc == 22 {
      EndDead(prog, 27, " " + word);
    } else {
      WordDead(prog, pc + 4, word);
    }
    OptDead(prog, pc, " " + word);
  }

  /** Neither can a bare dash. */
  lemma DashDead(prog: seq<Node>)
    requires LineNodes(prog)
    ensures Dead(prog, 22, DASH)
  {
    GapNeeded(prog, 25);
    assert "\U{2014}" + "" == "\U{2014}";
    LitThenDead(prog, 24, "");
    GapDead(prog, 23, "\U{2014}");
    EndDead(prog, 27, DASH);
    assert DASH == " " + "\U{2014}";
    OptDead(prog, 22, DASH);
  }

  /** A group of one space, the group's own literal and a token: taking it leads nowhere, and so does skipping it. */
  lemma GroupDead(prog: seq<Node>, pc: nat, token: string, rest: string)
    requires LineNodes(prog) && (pc == 14 || pc == 18) && Token(token) && (rest == [] || IsSpace(rest[0]))
    requires Dead(prog, pc + 4, rest)
    ensures Dead(prog, pc, " " + (prog[pc + 2].text + (token + rest)))
  {
    GroupsNeedGap(prog);
    var word := prog[pc + 2].text + (token + rest);
    assert word[0] == prog[pc + 2].text[0];
    TokenDead(prog, pc + 3, token, rest);
    LitThenDead(prog, pc + 2, token + rest);
    GapDead(prog, pc + 1, word);
    WordDead(prog, pc + 4, word);
    OptDead(prog, pc, " " + word);
  }

  /** A group that is not there. */
  lemma NoGroupDead(prog: seq<Node>, pc: nat, rest: string)
    requires LineNodes(prog) && (pc == 14 || pc == 18) && Dead(prog, pc + 4, rest)
    requires |rest| > 1 && rest[0] == ' ' && !IsSpace(rest[1]) && rest[1] != prog[pc + 2].text[0]
    ensures Dead(prog, pc, rest)
  {
    LitDead(prog, pc + 2, rest[1..]);
    GapDead(prog, pc + 1, rest[1..]);
    assert " " + rest[1..] == rest;
    OptDead(prog, pc, rest);
  }

  lemma AckDead(prog: seq<Node>, e: Envelope)
    requires LineNodes(prog)
    ensures Dead(prog, 18, AckText(e) + DASH)
    ensures |AckText(e) + DASH| > 1 && (AckText(e) + DASH)[0] == ' ' && (AckText(e) + DASH)[1] in {'a', '\U{2014}'}
  {
    DashDead(prog);
    if e.ackOf.None? {
      assert "" + DASH == DASH;
      NoGroupDead(prog, 18, DASH);
    } else {
      DecimalToken(e.ackOf.value);
      GroupDead(prog, 18, Decimal(e.ackOf.value), DASH);
      AckParts(Decimal(e.ackOf.value), DASH);
    }
  }

  lemma TaskDead(prog: seq<Node>, e: Envelope, rest: string)
    requires LineNodes(prog) && (e.task.Some? ==> Token(e.task.value)) && Dead(prog, 18, rest)
    requires |rest| > 1 && rest[0] == ' ' && (rest[1] == 'a' || rest[1] == '\U{2014}')
    ensures Dead(prog, 14, TaskText(e) + rest)
    ensures TaskText(e) + rest != [] && (TaskText(e) + rest)[0] == ' '
  {
    if e.task.None? {
      assert "" + rest == rest;
      NoGroupDead(prog, 14, rest);
    } else {
      GroupDead(prog, 14, e.task.value, rest);
      TaskParts(e.task.value, rest);
    }
  }

  // ---------------------------------------------------------------- the whole line

  lemma NumberDead(prog: seq<Node>, number: string, kind: string, tail: string)
    requires LineNodes(prog) && Token(number) && Token(kind) && tail != [] && IsSpace(tail[0]) && Dead(prog, 14, tail)
    ensures Dead(prog, 9, " " + ("#" + (number + (" " + (kind + tail)))))
  {
    GroupsNeedGap(prog);
    GapNeeded(prog, 12);
    TokenDead(prog, 13, kind, tail);
    GapDead(prog, 12, kind + tail);
    TokenDead(prog, 11, number, " " + (kind + tail));
    LitThenDead(prog, 10, number + (" " + (kind + tail)));
    GapDead(prog, 9, "#" + (number + (" " + (kind + tail))));
  }

  lemma SenderDead(prog: seq<Node>, wall: string, sender: string, rest: string)
    requires LineNodes(prog) && NotBracket.HasAll(wall) && Token(sender)
    requires rest != [] && IsSpace(rest[0]) && Dead(prog, 9, rest)
    ensures Dead(prog, 4, "[" + (wall + ("]" + (" " + (sender + rest)))))
  {
    GapNeeded(prog, 9);
    TokenDead(prog, 8, sender, rest);
    GapDead(prog, 7, sender + rest);
    LitThenDead(prog, 6, " " + (sender + rest));
    BracketDead(prog, 5, wall, "]" + (" " + (sender + rest)));
    LitThenDead(prog, 4, wall + ("]" + (" " + (sender + rest))));
  }

  lemma TwoSpacesDead(prog: seq<Node>, message: string)
    requires LineNodes(prog) && message != [] && !IsSpace(message[0]) && Dead(prog, 4, message)
    ensures Dead(prog, 3, "  " + message)
  {
    assert "  "[1..] == " " && "  "[2..] == "";
    assert "" + message == message;
    assert (" " + message)[0] == ' ';
    LitDead(prog, 4, " " + message);
    RunDead(prog, 3, "  ", message);
  }

  lemma WordsDead(prog: seq<Node>, transport: string, rest: string)
    requires LineNodes(prog) && transport in {"TCP", "UDP"} && Dead(prog, 1, rest)
    ensures Dead(prog, 0, transport + rest)
  {
    var line := transport + rest;
    assert line[3..] == rest && line[0] == transport[0];
    var words := ["TCP", "UDP"];
    assert words[1..] == ["UDP"] && words[1..][1..] == [];
    forall caps: Captures ensures Match(prog, 0, line, caps) == None {
      assert MatchWord(prog, 0, [], 1, line, caps) == None;
      assert MatchWord(prog, 0, ["UDP"], 1, line, caps) == None;
      assert MatchWord(prog, 0, words, 1, line, caps) == None;
    }
  }

  lemma OriginDead(prog: seq<Node>, transport: string, remote: string, message: string)
    requires LineNodes(prog) && transport in {"TCP", "UDP"} && Token(remote)
    requires message != [] && !IsSpace(message[0]) && Dead(prog, 4, message)
    ensures Dead(prog, 0, transport + (" " + (remote + ("  " + message))))
  {
    TwoSpacesDead(prog, message);
    GapNeeded(prog, 3);
    TokenDead(prog, 2, remote, "  " + message);
    GapDead(prog, 1, remote + ("  " + message));
    WordsDead(prog, transport, " " + (remote + ("  " + message)));
  }

  // ---------------------------------------------------------------- the condition

  /** What the printed line needs besides a payload that shows. */
  predicate HeadPrintable(e: Envelope) {
    && Token(e.sender) && Token(e.kind) && (e.task.Some? ==> Token(e.task.value))
    && e.wall != [] && NotBracket.HasAll(e.wall)
  }

  predicate ShowsBlank(e: Envelope) {
    e.payload.Some? && Trim(Shown(e.payload.value)) == []
  }

  lemma BlankShape(a: string, b: string, shown: string, eol: string)
    ensures a + (b + (" \U{2014} " + shown)) + eol == ((a + b) + DASH) + (" " + shown + eol)
  {
  }

  lemma BlankLineTrims(transport: string, remote: string, e: Envelope, eol: string)
    requires Token(transport) && Token(remote) && ShowsBlank(e) && Class.Space.HasAll(eol)
    ensures Trim(ListenerLine(transport, remote, e) + eol) == (transport + " " + remote + "  " + RenderHead(e)) + DASH
  {
    var shown := Shown(e.payload.value);
    TrimBlank(shown);
    var head := transport + " " + remote + "  " + RenderHead(e);
    var white := " " + shown + eol;
    assert Class.Space.HasAll(white);
    BlankShape(transport + " " + remote + "  ", RenderHead(e), shown, eol);
    TrimEndDrops(head + DASH, white);
    assert (head + DASH)[|head + DASH| - 1] == '\U{2014}';
    assert (head + DASH)[0] == transport[0];
  }

  lemma BlankMessageDead(prog: seq<Node>, e: Envelope)
    requires LineNodes(prog) && HeadPrintable(e)
    ensures Dead(prog, 4, RenderHead(e) + DASH)
    ensures RenderHead(e) + DASH != [] && (RenderHead(e) + DASH)[0] == '['
  {
    AckDead(prog, e);
    TaskDead(prog, e, AckText(e) + DASH);
    DecimalToken(e.seqNo);
    var tail := TaskText(e) + (AckText(e) + DASH);
    NumberDead(prog, Decimal(e.seqNo), e.kind, tail);
    SenderDead(prog, e.wall, e.sender, " " + ("#" + (Decimal(e.seqNo) + (" " + (e.kind + tail)))));
    Reassociate(e.wall, e.sender, Decimal(e.seqNo), e.kind, TaskText(e), AckText(e), DASH);
  }

  lemma OriginParts(transport: string, remote: string, head: string)
    ensures (transport + " " + remote + "  " + head) + DASH == transport + (" " + (remote + ("  " + (head + DASH))))
  {
  }

  lemma BlankLineDead(prog: seq<Node>, transport: string, remote: string, e: Envelope)
    requires LineNodes(prog) && transport in {"TCP", "UDP"} && Token(remote) && HeadPrintable(e)
    ensures Dead(prog, 0, (transport + " " + remote + "  " + RenderHead(e)) + DASH)
  {
    BlankMessageDead(prog, e);
    OriginDead(prog, transport, remote, RenderHead(e) + DASH);
    OriginParts(transport, remote, RenderHead(e));
  }

  lemma BlankIsNotRecognized(transport: string, remote: string, e: Envelope, eol: string)
    requires transport in {"TCP", "UDP"} && Token(remote) && HeadPrintable(e) && ShowsBlank(e)
             && Class.Space.HasAll(eol)
    ensures ParseLine(ListenerLine(transport, remote, e) + eol) == None
  {
    LineIsLineRe();
    BlankLineTrims(transport, remote, e, eol);
    BlankLineDead(LINE_RE, transport, remote, e);
    var caps: Captures := map[];
    assert Match(LINE_RE, 0, (transport + " " + remote + "  " + RenderHead(e)) + DASH, caps) == None;
  }

  /** The awaiter recognizes the line of a message exactly when its payload, if it has one, shows something
      other than white space; and then it reads every field back, the numbers as those sent. */
  lemma RecognizedExactly(transport: string, remote: string, e: Envelope, eol: string)
    requires transport in {"TCP", "UDP"} && Token(remote) && HeadPrintable(e) && Class.Space.HasAll(eol)
    ensures ParseLine(ListenerLine(transport, remote, e) + eol)
            == if ShowsBlank(e) then None else Some(Seen(transport, remote, e))
    ensures NumberOf(Seen(transport, remote, e).seqText) == e.seqNo
    ensures e.ackOf.Some? ==> NumberOf(Seen(transport, remote, e).ackOf.value) == e.ackOf.value
  {
    SeenIsSent(transport, remote, e);
    if ShowsBlank(e) {
      BlankIsNotRecognized(transport, remote, e, eol);
    } else {
      ParseInvertsPrint(transport, remote, e, eol);
    }
  }
}
