/** The stamped agent instructions: written with a header by --out, compared without it by --check. */
module Stamp {
  import opened Wrappers
  import LineFormat

  /** char.IsWhiteSpace. */
  predicate IsWhite(c: char) {
    || '\t' <= c <= '\r' || c == ' ' || c == '\U{85}' || c == '\U{A0}' || c == '\U{1680}'
       || '\U{2000}' <= c <= '\U{200A}'
    || c == '\U{2028}' || c == '\U{2029}' || c == '\U{202F}' || c == '\U{205F}' || c == '\U{3000}'
  }

  /** The white space of .NET is that of ECMAScript but for the byte order mark, and the next-line character. */
  lemma WhiteIs(c: char)
    ensures IsWhite(c) <==> (LineFormat.IsSpace(c) && c != '\U{FEFF}') || c == '\U{85}'
  {
  }

  predicate AllWhite(s: string) {
    forall i :: 0 <= i < |s| ==> IsWhite(s[i])
  }

  predicate IsBreak(c: char) {
    c == '\r' || c == '\n'
  }

  predicate AllBreaks(s: string) {
    forall i :: 0 <= i < |s| ==> IsBreak(s[i])
  }

  // ---------------------------------------------------------------- text operations

  /** Replace("\r\n", "\n"). */
  function ToLf(s: string): string {
    if |s| < 2 then s
    else if s[0] == '\r' && s[1] == '\n' then "\n" + ToLf(s[2..])
    else [s[0]] + ToLf(s[1..])
  }

  /** Every line feed becomes a carriage return and a line feed. */
  function ToCrLf(s: string): string {
    if s == [] then []
    else (if s[0] == '\n' then "\r\n" else [s[0]]) + ToCrLf(s[1..])
  }

  function TrimEnd(s: string): string {
    if s != [] && IsWhite(s[|s| - 1]) then TrimEnd(s[..|s| - 1]) else s
  }

  function DropBreaks(s: string): string {
    if s != [] && IsBreak(s[0]) then DropBreaks(s[1..]) else s
  }

  function Normalize(s: string): string {
    TrimEnd(ToLf(s)) + "\n"
  }

  /** IndexOf; |s| when there is none. */
  function Find(s: string, t: string): (n: nat)
    ensures n <= |s| && (t <= s[n..] || n == |s|)
  {
    if t <= s || s == [] then 0 else 1 + Find(s[1..], t)
  }

  lemma {:induction false} FindIsFirst(s: string, t: string, j: nat)
    requires j < Find(s, t)
    ensures !(t <= s[j..])
  {
    if j == 0 {
      assert s[0..] == s;
    } else {
      FindIsFirst(s[1..], t, j - 1);
      assert s[1..][j - 1..] == s[j..];
    }
  }

  const ARROW := "-->"
  const MARK := "<!-- lbabus-agents "

  function StripHeader(text: string): string {
    if MARK <= text then
      var end := Find(text, ARROW);
      if ARROW <= text[end..] then DropBreaks(text[end + 3..]) else text
    else text
  }

  // ---------------------------------------------------------------- the stamp

  function RoleText(role: Option<string>, before: string, after: string): string {
    match role case None => "" case Some(r) => before + r + after
  }

  const PATH := "<path> "
  const NOTICE := " \U{2014} canonical base instructions"
  const EMBEDDED := " embedded in lbabus. Do not hand-edit; "
  const ITERATE := "iterate tools/collab-cli/agents/ and re-"
  const ADVICE := ITERATE + "release. Verify: lbabus agents"

  function StampText(version: string, sha: string, role: Option<string>): string {
    ("v" + version + RoleText(role, " role:", "") + " sha256:" + sha)
    + (NOTICE + RoleText(role, " + '", "' role overlay") + (EMBEDDED + ADVICE) + RoleText(role, " --role ", "")
      + " --check ")
  }

  /** The stamp up to its placeholder for the checked path. */
  function HeaderLine(version: string, sha: string, role: Option<string>): string {
    MARK + StampText(version, sha, role)
  }

  function Header(version: string, sha: string, role: Option<string>): string {
    HeaderLine(version, sha, role) + (PATH + (ARROW + "\n\n"))
  }

  function Compose(baseBody: string, overlayBody: string, role: string): string {
    Normalize(baseBody) + "\n<!-- lbabus-agents-role: " + role + " -->\n\n" + Normalize(overlayBody)
  }

  /** The body of --out and --check: the base, or the base with a role overlay. */
  function BodyOf(baseBody: string, overlay: Option<string>, role: string): string {
    match overlay case None => Normalize(baseBody) case Some(o) => Compose(baseBody, o, role)
  }

  function Out(version: string, role: Option<string>, body: string, sha256: string -> string): string {
    Header(version, sha256(Normalize(body)), role) + body
  }

  predicate Check(text: string, body: string, sha256: string -> string) {
    sha256(Normalize(StripHeader(text))) == sha256(Normalize(body))
  }

  ghost predicate Injective(f: string -> string) {
    forall x, y :: f(x) == f(y) ==> x == y
  }

  // ---------------------------------------------------------------- the header ends where it should

  predicate NoAngle(s: string) {
    '>' !in s
  }

  lemma {:induction false} FindSkips(a: string, b: string)
    requires NoAngle(a) && |b| >= 2 && b[0] != '>' && b[1] != '>'
    ensures Find(a + b, ARROW) == |a| + Find(b, ARROW)
    decreases |a|
  {
    if a == [] {
      assert a + b == b;
    } else {
      assert (a + b)[1..] == a[1..] + b;
      assert (a + b)[2] != '>' by {
        if |a| > 2 { assert (a + b)[2] == a[2]; } else { assert (a + b)[2] == b[2 - |a|]; }
      }
      assert !(ARROW <= a + b) by {
        assert ARROW[2] == '>';
      }
      FindSkips(a[1..], b);
    }
  }

  lemma {:induction false} FindSkipsPlain(a: string, b: string)
    requires '-' !in a
    ensures Find(a + b, ARROW) == |a| + Find(b, ARROW)
    decreases |a|
  {
    if a == [] {
      assert a + b == b;
    } else {
      assert (a + b)[0] == a[0] != '-';
      assert (a + b)[1..] == a[1..] + b;
      FindSkipsPlain(a[1..], b);
    }
  }

  /** Fit to stand in the stamp: no angle that could close it, and on one line. */
  predicate Plain(s: string) {
    NoAngle(s) && '\n' !in s
  }

  lemma PlainFive(a: string, b: string, c: string, d: string, e: string)
    requires Plain(a) && Plain(b) && Plain(c) && Plain(d) && Plain(e)
    ensures Plain(a + b + c + d + e)
  {
  }

  lemma PlainTwo(a: string, b: string)
    requires Plain(a) && Plain(b)
    ensures a <= a + b && Plain(a + b)
  {
  }

  lemma EmbeddedIsPlain()
    ensures Plain(EMBEDDED)
  {
  }

  lemma AdviceIsPlain()
    ensures Plain(ADVICE)
  {
    assert Plain(ITERATE);
    PlainTwo(ITERATE, "release. Verify: lbabus agents");
  }

  lemma NoticesArePlain()
    ensures Plain(MARK) && Plain(NOTICE) && Plain(EMBEDDED + ADVICE)
  {
    EmbeddedIsPlain();
    AdviceIsPlain();
    PlainTwo(EMBEDDED, ADVICE);
  }

  lemma StampIsPlain(version: string, sha: string, role: Option<string>)
    requires Plain("v" + version + RoleText(role, " role:", "") + " sha256:" + sha)
    requires Plain(NOTICE + RoleText(role, " + '", "' role overlay") + (EMBEDDED + ADVICE)
             + RoleText(role, " --role ", "") + " --check ")
    ensures Plain(StampText(version, sha, role))
  {
    PlainTwo("v" + version + RoleText(role, " role:", "") + " sha256:" + sha,
             NOTICE + RoleText(role, " + '", "' role overlay") + (EMBEDDED + ADVICE) + RoleText(role, " --role ", "")
               + " --check ");
  }

  /** The header up to its end mark holds no earlier end mark and no line break, and starts with the mark. */
  lemma HeaderLineIsPlain(version: string, sha: string, role: Option<string>)
    requires Plain(version) && Plain(sha) && (role.Some? ==> Plain(role.value))
    ensures Plain(HeaderLine(version, sha, role)) && MARK <= HeaderLine(version, sha, role)
  {
    NoticesArePlain();
    PlainFive("v", version, RoleText(role, " role:", ""), " sha256:", sha);
    PlainFive(NOTICE, RoleText(role, " + '", "' role overlay"), EMBEDDED + ADVICE, RoleText(role, " --role ", ""),
      " --check ");
    StampIsPlain(version, sha, role);
    PlainTwo(MARK, StampText(version, sha, role));
  }

  lemma PathStart()
    ensures |PATH| >= 2 && PATH[0] != '>' && PATH[1] != '>' && '-' !in PATH
  {
  }

  lemma FindPast(line: string, path: string, tail: string)
    requires NoAngle(line) && |path| >= 2 && path[0] != '>' && path[1] != '>' && '-' !in path
    requires Find(tail, ARROW) == 0
    ensures Find(line + (path + tail), ARROW) == |line| + |path|
  {
    FindSkipsPlain(path, tail);
    FindSkips(line, path + tail);
  }

  lemma FindHere(rest: string)
    ensures Find(ARROW + rest, ARROW) == 0
  {
    assert ARROW <= ARROW + rest;
  }

  lemma FindStamp(line: string, rest: string)
    requires NoAngle(line)
    ensures Find(line + (PATH + (ARROW + rest)), ARROW) == |line| + |PATH|
  {
    PathStart();
    FindHere(rest);
    FindPast(line, PATH, ARROW + rest);
  }

  lemma StripAt(text: string, end: nat, rest: string)
    requires MARK <= text && end <= |text| && Find(text, ARROW) == end && text[end..] == ARROW + rest
    ensures StripHeader(text) == DropBreaks(rest)
  {
    assert text[end + 3..] == text[end..][3..] == rest;
    assert ARROW <= text[end..];
  }

  lemma SkipTwo(a: string, b: string, c: string)
    ensures (a + (b + c))[|a| + |b|..] == c
  {
  }

  /** Stripping removes the stamp and the line breaks after it, and nothing else. */
  lemma StripsStamp(line: string, rest: string)
    requires NoAngle(line) && MARK <= line
    ensures StripHeader(line + (PATH + (ARROW + rest))) == DropBreaks(rest)
  {
    FindStamp(line, rest);
    SkipTwo(line, PATH, ARROW + rest);
    StripAt(line + (PATH + (ARROW + rest)), |line| + |PATH|, rest);
  }

  lemma {:induction false} DropsBreaks(eols: string, body: string)
    requires AllBreaks(eols)
    ensures DropBreaks(eols + body) == DropBreaks(body)
  {
    if eols == [] {
      assert eols + body == body;
    } else {
      assert (eols + body)[1..] == eols[1..] + body;
      DropsBreaks(eols[1..], body);
    }
  }

  // ---------------------------------------------------------------- normalization

  predicate NoPair(s: string) {
    forall i :: 0 <= i < |s| - 1 ==> !(s[i] == '\r' && s[i + 1] == '\n')
  }

  lemma {:induction false} ToLfLength(s: string)
    ensures |ToLf(s)| <= |s| && (ToLf(s) == s <==> NoPair(s))
    ensures !NoPair(s) ==> |ToLf(s)| < |s|
  {
    if |s| >= 2 {
      if s[0] == '\r' && s[1] == '\n' {
        ToLfLength(s[2..]);
      } else {
        ToLfLength(s[1..]);
        assert s == [s[0]] + s[1..];
        if NoPair(s[1..]) {
          assert NoPair(s);
        } else {
          var i :| 0 <= i < |s[1..]| - 1 && s[1..][i] == '\r' && s[1..][i + 1] == '\n';
          assert s[i + 1] == '\r' && s[i + 1 + 1] == '\n';
        }
      }
    }
  }

  /** Turning line feeds into pairs and back is the identity, whatever the text. */
  lemma {:induction false} ToLfOfToCrLf(s: string)
    ensures ToLf(ToCrLf(s)) == s
  {
    if s == [] {
    } else {
      ToLfOfToCrLf(s[1..]);
      var rest := ToCrLf(s[1..]);
      if s[0] == '\n' {
        assert ("\r\n" + rest)[2..] == rest;
        assert s == "\n" + s[1..];
      } else {
        assert ([s[0]] + rest)[1..] == rest;
        assert s == [s[0]] + s[1..];
        assert rest != [] ==> rest[0] != '\n';
      }
    }
  }

  lemma {:induction false} ToCrLfAppend(a: string, b: string)
    ensures ToCrLf(a + b) == ToCrLf(a) + ToCrLf(b)
  {
    if a == [] {
      assert a + b == b;
    } else {
      assert (a + b)[1..] == a[1..] + b;
      ToCrLfAppend(a[1..], b);
    }
  }

  lemma {:induction false} ToCrLfPlain(s: string)
    requires '\n' !in s
    ensures ToCrLf(s) == s
  {
    if s == [] {
    } else {
      ToCrLfPlain(s[1..]);
      assert s == [s[0]] + s[1..];
    }
  }

  lemma {:induction false} DropBreaksSplit(s: string) returns (breaks: string)
    ensures s == breaks + DropBreaks(s) && forall i :: 0 <= i < |breaks| ==> IsBreak(breaks[i])
    ensures DropBreaks(s) != [] ==> !IsBreak(DropBreaks(s)[0])
    ensures s != [] ==> (breaks == [] <==> !IsBreak(s[0]))
  {
    if s != [] && IsBreak(s[0]) {
      breaks := DropBreaksSplit(s[1..]);
      breaks := [s[0]] + breaks;
    } else {
      breaks := [];
    }
  }

  /** Dropping leading line breaks commutes with changing the kind of line breaks. */
  lemma {:induction false} DropBreaksToCrLf(s: string)
    ensures DropBreaks(ToCrLf(s)) == ToCrLf(DropBreaks(s))
  {
    if s == [] {
    } else {
      var rest := ToCrLf(s[1..]);
      if s[0] == '\n' {
        DropBreaksToCrLf(s[1..]);
        assert ("\r\n" + rest)[1..] == "\n" + rest && ("\n" + rest)[1..] == rest;
      } else {
        assert ([s[0]] + rest)[1..] == rest;
        if s[0] == '\r' {
          DropBreaksToCrLf(s[1..]);
        }
      }
    }
  }

  lemma WhiteConcat(a: string, b: string)
    ensures AllWhite(a + b) <==> AllWhite(a) && AllWhite(b)
  {
    if AllWhite(a + b) {
      forall i | 0 <= i < |a| ensures IsWhite(a[i]) {
        assert (a + b)[i] == a[i];
      }
      forall i | 0 <= i < |b| ensures IsWhite(b[i]) {
        assert (a + b)[|a| + i] == b[i];
      }
    }
  }

  lemma {:induction false} TrimEndSplit(s: string) returns (white: string)
    ensures s == TrimEnd(s) + white && AllWhite(white)
    ensures TrimEnd(s) != [] ==> !IsWhite(TrimEnd(s)[|TrimEnd(s)| - 1])
    ensures TrimEnd(s) == [] <==> AllWhite(s)
    decreases |s|
  {
    if s != [] && IsWhite(s[|s| - 1]) {
      var last := [s[|s| - 1]];
      white := TrimEndSplit(s[..|s| - 1]);
      assert s == s[..|s| - 1] + last;
      WhiteConcat(s[..|s| - 1], last);
      WhiteConcat(white, last);
      Associate(TrimEnd(s), white, last);
      white := white + last;
    } else {
      white := [];
    }
  }

  lemma {:induction false} TrimEndOf(s: string, white: string)
    requires AllWhite(white) && (s == [] || !IsWhite(s[|s| - 1]))
    ensures TrimEnd(s + white) == s
    decreases |white|
  {
    if white == [] {
      assert s + white == s;
    } else {
      assert (s + white)[..|s + white| - 1] == s + white[..|white| - 1];
      TrimEndOf(s, white[..|white| - 1]);
    }
  }

  lemma {:induction false} ToLfWhite(s: string)
    ensures AllWhite(ToLf(s)) <==> AllWhite(s)
    decreases |s|
  {
    if |s| >= 2 {
      var n := if s[0] == '\r' && s[1] == '\n' then 2 else 1;
      ToLfWhite(s[n..]);
      WhiteConcat(s[..n], s[n..]);
      assert s == s[..n] + s[n..];
      assert AllWhite(s[..n]) <==> IsWhite(s[0]);
      var first := if n == 2 then "\n" else [s[0]];
      assert AllWhite(first) <==> IsWhite(s[0]);
      WhiteConcat(first, ToLf(s[n..]));
    }
  }

  lemma {:induction false} ToLfEnds(s: string)
    ensures s != [] ==> ToLf(s) != [] && (IsBreak(ToLf(s)[0]) <==> IsBreak(s[0]))
    ensures s != [] && !IsWhite(s[|s| - 1]) ==> !IsWhite(ToLf(s)[|ToLf(s)| - 1])
    decreases |s|
  {
    if |s| >= 2 {
      ToLfEnds(s[if s[0] == '\r' && s[1] == '\n' then 2 else 1..]);
    }
  }

  lemma {:induction false} ToLfAppend(a: string, b: string)
    requires a == [] || a[|a| - 1] != '\r'
    ensures ToLf(a + b) == ToLf(a) + ToLf(b)
    decreases |a|
  {
    if a == [] {
      assert a + b == b;
    } else if |a| == 1 {
      assert (a + b)[1..] == b;
      if b == [] {
        assert a + b == a;
      }
    } else {
      var n := if a[0] == '\r' && a[1] == '\n' then 2 else 1;
      assert (a + b)[n..] == a[n..] + b && (a + b)[0] == a[0] && (a + b)[1] == a[1];
      ToLfAppend(a[n..], b);
      Associate(if n == 2 then "\n" else [a[0]], ToLf(a[n..]), ToLf(b));
    }
  }

  /** Normalizing trims and unifies line breaks in either order. */
  lemma TrimEndToLf(s: string)
    ensures TrimEnd(ToLf(s)) == ToLf(TrimEnd(s))
  {
    var white := TrimEndSplit(s);
    var kept := TrimEnd(s);
    ToLfAppend(kept, white);
    ToLfEnds(kept);
    ToLfWhite(white);
    TrimEndOf(ToLf(kept), ToLf(white));
  }

  // ---------------------------------------------------------------- --check of what --out wrote

  /** The guard: the body does not begin with a line break that stripping would take along. */
  predicate StartsClean(body: string) {
    AllWhite(body) || !IsBreak(body[0])
  }

  /** The first character of normalized text that is not blank. */
  lemma NormalizeFirst(s: string)
    requires !AllWhite(s)
    ensures TrimEnd(s) != [] && TrimEnd(s)[0] == s[0]
    ensures IsBreak(Normalize(s)[0]) <==> IsBreak(s[0])
  {
    var white := TrimEndSplit(s);
    TrimEndToLf(s);
    ToLfEnds(TrimEnd(s));
  }

  lemma NormalizeBlank(s: string)
    requires AllWhite(s)
    ensures TrimEnd(s) == "" && Normalize(s) == "\n"
  {
    var white := TrimEndSplit(s);
    TrimEndToLf(s);
  }

  lemma DroppedShape(body: string)
    ensures AllWhite(DropBreaks(body)) <==> AllWhite(body)
    ensures !AllWhite(body) ==> !IsBreak(DropBreaks(body)[0])
    ensures body != [] && !IsBreak(body[0]) ==> DropBreaks(body) == body
  {
    var breaks := DropBreaksSplit(body);
    assert AllWhite(breaks);
    WhiteConcat(breaks, DropBreaks(body));
    assert breaks == [] ==> DropBreaks(body) == body;
  }

  lemma DroppedMeans(body: string)
    ensures Normalize(DropBreaks(body)) == Normalize(body) <==> StartsClean(body)
  {
    DroppedShape(body);
    if AllWhite(body) {
      NormalizeBlank(body);
      NormalizeBlank(DropBreaks(body));
    } else {
      NormalizeFirst(body);
      NormalizeFirst(DropBreaks(body));
    }
  }

  lemma Nest(a: string, b: string, c: string, d: string, e: string)
    ensures (a + (b + (c + d))) + e == a + (b + (c + (d + e)))
  {
  }

  /** Line breaks after the stamp are stripped with it. */
  lemma StripsPlus(line: string, eols: string, body: string)
    requires NoAngle(line) && MARK <= line && AllBreaks(eols)
    ensures StripHeader(line + (PATH + (ARROW + (eols + body)))) == DropBreaks(body)
  {
    StripsStamp(line, eols + body);
    DropsBreaks(eols, body);
  }

  /** What --check compares when it is given what --out wrote: the body less its leading line breaks. */
  lemma OutStripped(version: string, role: Option<string>, body: string, sha256: string -> string)
    requires Plain(version) && (role.Some? ==> Plain(role.value)) && Plain(sha256(Normalize(body)))
    ensures StripHeader(Out(version, role, body, sha256)) == DropBreaks(body)
  {
    var line := HeaderLine(version, sha256(Normalize(body)), role);
    HeaderLineIsPlain(version, sha256(Normalize(body)), role);
    Nest(line, PATH, ARROW, "\n\n", body);
    StripsPlus(line, "\n\n", body);
  }

  lemma PairsAreBreaks()
    ensures AllBreaks("\r\n\r\n")
  {
  }

  lemma StripsCrLf(line: string, body: string)
    requires NoAngle(line) && MARK <= line
    ensures StripHeader(line + (PATH + (ARROW + ("\r\n\r\n" + ToCrLf(body))))) == ToCrLf(DropBreaks(body))
  {
    PairsAreBreaks();
    StripsPlus(line, "\r\n\r\n", ToCrLf(body));
    DropBreaksToCrLf(body);
  }

  lemma TwoFeeds()
    ensures ToCrLf("\n\n") == "\r\n\r\n"
  {
    assert "\n\n"[1..] == "\n";
    assert ToCrLf("\n") == "\r\n";
  }

  lemma PathAndArrowOneLine()
    ensures '\n' !in PATH && '\n' !in ARROW
  {
  }

  lemma CrLfParts(line: string, path: string, arrow: string, eols: string, body: string)
    requires '\n' !in line && '\n' !in path && '\n' !in arrow
    ensures ToCrLf((line + (path + (arrow + eols))) + body) == line + (path + (arrow + (ToCrLf(eols) + ToCrLf(body))))
  {
    ToCrLfPlain(line);
    ToCrLfPlain(path);
    ToCrLfPlain(arrow);
    ToCrLfAppend(line + (path + (arrow + eols)), body);
    ToCrLfAppend(line, path + (arrow + eols));
    ToCrLfAppend(path, arrow + eols);
    ToCrLfAppend(arrow, eols);
    Nest(line, path, arrow, ToCrLf(eols), ToCrLf(body));
  }

  lemma CrLfStamp(line: string, body: string)
    requires '\n' !in line
    ensures ToCrLf((line + (PATH + (ARROW + "\n\n"))) + body) == line + (PATH + (ARROW + ("\r\n\r\n" + ToCrLf(body))))
  {
    TwoFeeds();
    PathAndArrowOneLine();
    CrLfParts(line, PATH, ARROW, "\n\n", body);
  }

  lemma OutStrippedCrLf(version: string, role: Option<string>, body: string, sha256: string -> string)
    requires Plain(version) && (role.Some? ==> Plain(role.value)) && Plain(sha256(Normalize(body)))
    ensures StripHeader(ToCrLf(Out(version, role, body, sha256))) == ToCrLf(DropBreaks(body))
  {
    var line := HeaderLine(version, sha256(Normalize(body)), role);
    HeaderLineIsPlain(version, sha256(Normalize(body)), role);
    CrLfStamp(line, body);
    StripsCrLf(line, body);
  }

  /** --check accepts what --out wrote for the same body exactly when the body does not begin with a line
      break (or is blank). */
  lemma CheckAcceptsOut(version: string, role: Option<string>, body: string, sha256: string -> string)
    requires Injective(sha256)
    requires Plain(version) && (role.Some? ==> Plain(role.value)) && Plain(sha256(Normalize(body)))
    ensures Check(Out(version, role, body, sha256), body, sha256) <==> StartsClean(body)
  {
    OutStripped(version, role, body, sha256);
    DroppedMeans(body);
  }

  lemma SameEnds(a: string, b: string)
    ensures a + "\n" == b + "\n" <==> a == b
    ensures a != [] ==> (a + "\n")[0] == a[0]
  {
    if a + "\n" == b + "\n" {
      assert (a + "\n")[..|a|] == a && (b + "\n")[..|b|] == b && |a| == |b|;
    }
  }

  lemma DroppedMeansCrLf(body: string)
    ensures Normalize(ToCrLf(DropBreaks(body))) == Normalize(body) <==> StartsClean(body) && NoPair(TrimEnd(body))
  {
    var kept := DropBreaks(body);
    ToLfOfToCrLf(kept);
    DroppedShape(body);
    if AllWhite(body) {
      NormalizeBlank(body);
      NormalizeBlank(kept);
    } else {
      NormalizeFirst(body);
      NormalizeFirst(kept);
      TrimEndToLf(body);
      ToLfLength(TrimEnd(body));
      SameEnds(TrimEnd(kept), ToLf(TrimEnd(body)));
    }
  }

  /** And it still does after every line feed has become a CR LF pair exactly when, besides, the text of
      the body holds no such pair itself. */
  lemma CheckAcceptsCrLf(version: string, role: Option<string>, body: string, sha256: string -> string)
    requires Injective(sha256)
    requires Plain(version) && (role.Some? ==> Plain(role.value)) && Plain(sha256(Normalize(body)))
    ensures Check(ToCrLf(Out(version, role, body, sha256)), body, sha256)
            <==> StartsClean(body) && NoPair(TrimEnd(body))
  {
    OutStrippedCrLf(version, role, body, sha256);
    DroppedMeansCrLf(body);
  }

  lemma NormalizeNotBlank(s: string)
    requires !AllWhite(s)
    ensures !AllWhite(Normalize(s))
  {
    ToLfWhite(s);
    var white := TrimEndSplit(ToLf(s));
    WhiteConcat(TrimEnd(ToLf(s)), "\n");
  }

  /** What a text begins with settles it. */
  lemma StartsCleanBy(start: string, text: string)
    requires start <= text && !AllWhite(start)
    ensures StartsClean(text) <==> !IsBreak(start[0])
  {
    WhiteConcat(start, text[|start|..]);
    assert start + text[|start|..] == text;
  }

  /** For the instructions it ships, base alone or with a role overlay, the guard comes down to the base text:
      it must not begin with a line break. */
  lemma BodyStartsClean(baseBody: string, overlay: Option<string>, role: string)
    requires !AllWhite(baseBody)
    ensures StartsClean(BodyOf(baseBody, overlay, role)) <==> !IsBreak(baseBody[0])
  {
    NormalizeFirst(baseBody);
    NormalizeNotBlank(baseBody);
    var body := BodyOf(baseBody, overlay, role);
    assert Normalize(baseBody) <= body;
    StartsCleanBy(Normalize(baseBody), body);
  }

  /** Any drift is seen: a file --out wrote for one body passes for another only if the two normalize alike. */
  lemma CheckSeesDrift(version: string, role: Option<string>, written: string, body: string, sha256: string -> string)
    requires Injective(sha256) && StartsClean(written)
    requires Plain(version) && (role.Some? ==> Plain(role.value)) && Plain(sha256(Normalize(written)))
    ensures Check(Out(version, role, written, sha256), body, sha256) <==> Normalize(written) == Normalize(body)
  {
    OutStripped(version, role, written, sha256);
    DroppedMeans(written);
  }

  // ---------------------------------------------------------------- what the file says

  lemma Starts(a: string, b: string, c: string)
    ensures a + b <= a + (b + c)
  {
  }

  /** The stamp names the version, the role if there is one, and the digest, in front of everything else. */
  lemma HeaderNames(version: string, sha: string, role: Option<string>)
    ensures role.None? ==> MARK + ("v" + version + "" + " sha256:" + sha) <= HeaderLine(version, sha, role)
    ensures role.Some? ==>
              MARK + ("v" + version + (" role:" + role.value + "") + " sha256:" + sha)
              <= HeaderLine(version, sha, role)
  {
    Starts(MARK, "v" + version + RoleText(role, " role:", "") + " sha256:" + sha,
      NOTICE + RoleText(role, " + '", "' role overlay") + (EMBEDDED + ADVICE) + RoleText(role, " --role ", "")
        + " --check ");
  }

  lemma TrimEndWhite(s: string, white: string)
    requires AllWhite(white)
    ensures TrimEnd(s + white) == TrimEnd(s)
  {
    var end := TrimEndSplit(s);
    WhiteConcat(end, white);
    Associate(TrimEnd(s), end, white);
    TrimEndOf(TrimEnd(s), end + white);
  }

  lemma TrimEndAfter(s: string, t: string)
    requires !AllWhite(t)
    ensures TrimEnd(s + t) == s + TrimEnd(t)
  {
    var end := TrimEndSplit(t);
    Associate(s, TrimEnd(t), end);
    TrimEndOf(s + TrimEnd(t), end);
  }

  lemma BlankTells(s: string)
    ensures AllWhite(s) <==> TrimEnd(ToLf(s)) == ""
  {
    ToLfWhite(s);
    var white := TrimEndSplit(ToLf(s));
  }

  lemma NormalizeAfter(start: string, text: string)
    requires start != [] && start[|start| - 1] == '\n'
    ensures Normalize(start + text) ==
            (if AllWhite(text) then TrimEnd(ToLf(start)) else ToLf(start) + TrimEnd(ToLf(text))) + "\n"
  {
    ToLfAppend(start, text);
    ToLfWhite(text);
    if AllWhite(text) {
      TrimEndWhite(ToLf(start), ToLf(text));
    } else {
      TrimEndAfter(ToLf(start), ToLf(text));
    }
  }

  /** Normalizing what follows a start that ends a line tells apart exactly what it tells apart by itself. */
  lemma NormalizeAfterTells(start: string, x: string, y: string)
    requires start != [] && start[|start| - 1] == '\n'
    ensures Normalize(start + x) == Normalize(start + y) <==> Normalize(x) == Normalize(y)
  {
    NormalizeAfter(start, x);
    NormalizeAfter(start, y);
    BlankTells(x);
    BlankTells(y);
    var s, a, b := ToLf(start), TrimEnd(ToLf(x)), TrimEnd(ToLf(y));
    SameEnds(a, b);
    SameEnds(TrimEnd(s), s + b);
    SameEnds(s + a, TrimEnd(s));
    SameEnds(s + a, s + b);
    var white := TrimEndSplit(s);
    assert (s + a)[|s|..] == a && (s + b)[|s|..] == b;
  }

  /** The body holds the base text and the overlay: a file written with one overlay passes for another, of the same
      role on the same base, exactly when the two agree up to line breaks and white space at their ends. */
  lemma CheckSeesOverlay(version: string, role: string, baseBody: string, written: string, overlay: string,
        sha256: string -> string)
    requires Injective(sha256) && !AllWhite(baseBody) && !IsBreak(baseBody[0])
    requires Plain(version) && Plain(role) && Plain(sha256(Normalize(BodyOf(baseBody, Some(written), role))))
    ensures var file := Out(version, Some(role), BodyOf(baseBody, Some(written), role), sha256);
            Check(file, BodyOf(baseBody, Some(overlay), role), sha256)
            <==> Normalize(Normalize(written)) == Normalize(Normalize(overlay))
  {
    BodyStartsClean(baseBody, Some(written), role);
    CheckSeesDrift(version, Some(role), BodyOf(baseBody, Some(written), role),
                   BodyOf(baseBody, Some(overlay), role), sha256);
    var start := Normalize(baseBody) + "\n<!-- lbabus-agents-role: " + role + " -->\n\n";
    NormalizeAfterTells(start, Normalize(written), Normalize(overlay));
  }

  // ---------------------------------------------------------------- role names

  predicate SlugChar(c: char) {
    'a' <= c <= 'z' || '0' <= c <= '9' || c == '-'
  }

  function SlugPiece(c: char): string {
    if SlugChar(c) then [c] else if c == ' ' || c == '_' || c == '/' || c == '.' then "-" else ""
  }

  function Slug(s: string): string {
    if s == [] then "" else Slug(s[..|s| - 1]) + SlugPiece(s[|s| - 1])
  }

  function TrimStart(s: string): string {
    if s != [] && IsWhite(s[0]) then TrimStart(s[1..]) else s
  }

  function DashStart(s: string): string {
    if s != [] && s[0] == '-' then DashStart(s[1..]) else s
  }

  function DashEnd(s: string): string {
    if s != [] && s[|s| - 1] == '-' then DashEnd(s[..|s| - 1]) else s
  }

  function Lowered(s: string, lower: char -> char): string {
    seq(|s|, i requires 0 <= i < |s| => lower(s[i]))
  }

  predicate IsRole(s: string) {
    s != [] && (forall i :: 0 <= i < |s| ==> SlugChar(s[i])) && s[0] != '-' && s[|s| - 1] != '-'
  }

  lemma {:induction false} DashStartKeeps(s: string)
    requires forall i :: 0 <= i < |s| ==> SlugChar(s[i])
    ensures var r := DashStart(s); (forall i :: 0 <= i < |r| ==> SlugChar(r[i])) && (r != [] ==> r[0] != '-')
  {
    if s != [] && s[0] == '-' {
      DashStartKeeps(s[1..]);
    }
  }

  lemma {:induction false} DashEndKeeps(s: string)
    requires (forall i :: 0 <= i < |s| ==> SlugChar(s[i])) && (s != [] ==> s[0] != '-')
    ensures var r := DashEnd(s); r == [] || IsRole(r)
    decreases |s|
  {
    if s != [] && s[|s| - 1] == '-' {
      DashEndKeeps(s[..|s| - 1]);
    }
  }

  lemma {:induction false} DashTrims(s: string)
    requires forall i :: 0 <= i < |s| ==> SlugChar(s[i])
    ensures var r := DashEnd(DashStart(s)); r == [] || IsRole(r)
  {
    DashStartKeeps(s);
    DashEndKeeps(DashStart(s));
  }

  lemma {:induction false} SlugOfRole(s: string)
    requires forall i :: 0 <= i < |s| ==> SlugChar(s[i])
    ensures Slug(s) == s
    decreases |s|
  {
    if s == [] {
    } else {
      SlugOfRole(s[..|s| - 1]);
      assert s == s[..|s| - 1] + [s[|s| - 1]];
    }
  }

  lemma {:induction false} SlugAppend(a: string, b: string)
    ensures Slug(a + b) == Slug(a) + Slug(b)
    decreases |b|
  {
    if b == [] {
      assert a + b == a;
    } else {
      assert (a + b)[..|a + b| - 1] == a + b[..|b| - 1];
      SlugAppend(a, b[..|b| - 1]);
    }
  }

  /** Character by character: letters and digits and dashes stay, a space, underscore, slash or dot becomes a dash,
      and anything else goes. */
  lemma SlugJoins(before: string, c: char, after: string)
    ensures Slug(before + [c] + after) == Slug(before) + Slug([c]) + Slug(after)
    ensures 'a' <= c <= 'z' || '0' <= c <= '9' || c == '-' ==> Slug([c]) == [c]
    ensures c == ' ' || c == '_' || c == '/' || c == '.' ==> Slug([c]) == "-"
    ensures !('a' <= c <= 'z') && !('0' <= c <= '9') && c != '-' && c != ' ' && c != '_' && c != '/' && c != '.'
            ==> Slug([c]) == ""
  {
    SlugAppend(before + [c], after);
    SlugAppend(before, [c]);
    assert [c][..0] == [];
  }

  ghost predicate AllDashes(s: string) {
    forall i :: 0 <= i < |s| ==> s[i] == '-'
  }

  lemma {:induction false} DashStartIs(s: string) returns (lead: string)
    ensures s == lead + DashStart(s) && AllDashes(lead)
  {
    if s != [] && s[0] == '-' {
      var rest := DashStartIs(s[1..]);
      lead := [s[0]] + rest;
      Associate([s[0]], rest, DashStart(s[1..]));
      assert s == [s[0]] + s[1..];
      forall i | 0 <= i < |lead| ensures lead[i] == '-' {
        assert i > 0 ==> lead[i] == rest[i - 1];
      }
    } else {
      lead := "";
    }
  }

  lemma {:induction false} DashEndIs(s: string) returns (trail: string)
    ensures s == DashEnd(s) + trail && AllDashes(trail)
    decreases |s|
  {
    if s != [] && s[|s| - 1] == '-' {
      var last := [s[|s| - 1]];
      trail := DashEndIs(s[..|s| - 1]);
      Associate(DashEnd(s), trail, last);
      trail := trail + last;
      assert s == s[..|s| - 1] + last;
    } else {
      trail := "";
    }
  }

  lemma {:induction false} TrimStartIs(s: string) returns (lead: string)
    ensures s == lead + TrimStart(s) && AllWhite(lead)
    ensures TrimStart(s) != [] ==> !IsWhite(TrimStart(s)[0])
  {
    if s != [] && IsWhite(s[0]) {
      var rest := TrimStartIs(s[1..]);
      lead := [s[0]] + rest;
      assert s == [s[0]] + s[1..];
    } else {
      lead := "";
    }
  }

  /** Before a name is lowered it loses the white space at both ends, and at the end the dashes at both ends. */
  lemma RoleTrims(raw: string, s: string) returns (lead: string, trail: string, dashes: string, more: string)
    ensures raw == lead + TrimEnd(TrimStart(raw)) + trail && AllWhite(lead) && AllWhite(trail)
    ensures s == dashes + DashEnd(DashStart(s)) + more
    ensures forall c :: c in dashes + more ==> c == '-'
  {
    lead := TrimStartIs(raw);
    trail := TrimEndSplit(TrimStart(raw));
    Associate(lead, TrimEnd(TrimStart(raw)), trail);
    dashes := DashStartIs(s);
    more := DashEndIs(DashStart(s));
    Associate(dashes, DashEnd(DashStart(s)), more);
  }

  lemma SlugSnoc(s: string, i: nat)
    requires i < |s|
    ensures Slug(s[..i + 1]) == Slug(s[..i]) + SlugPiece(s[i])
  {
    assert s[..i + 1][..i] == s[..i];
  }

  lemma NothingToTrim(raw: string)
    requires IsRole(raw)
    ensures TrimEnd(TrimStart(raw)) == raw && DashEnd(DashStart(raw)) == raw
  {
    assert SlugChar(raw[0]) && SlugChar(raw[|raw| - 1]);
  }

  lemma NothingToLower(raw: string, lower: char -> char)
    requires IsRole(raw) && forall c :: SlugChar(c) ==> lower(c) == c
    ensures Lowered(raw, lower) == raw
  {
  }

  lemma RoleStays(raw: string, lower: char -> char)
    requires IsRole(raw) && forall c :: SlugChar(c) ==> lower(c) == c
    ensures DashEnd(DashStart(Slug(Lowered(TrimEnd(TrimStart(raw)), lower)))) == raw
  {
    NothingToTrim(raw);
    NothingToLower(raw, lower);
    SlugOfRole(raw);
  }

  /** A role name, if anything usable remains: lower-case letters, digits and inner dashes. Whatever it is
      given, it can stand in the stamp; and a role name sanitizes to itself. */
  method SanitizeRole(raw: string, lower: char -> char) returns (role: Option<string>)
    ensures role.Some? ==> IsRole(role.value) && Plain(role.value)
    ensures var s := DashEnd(DashStart(Slug(Lowered(TrimEnd(TrimStart(raw)), lower))));
            role == if s == "" then None else Some(s)
    ensures IsRole(raw) && (forall c :: SlugChar(c) ==> lower(c) == c) ==> role == Some(raw)
  {
    var low := Lowered(TrimEnd(TrimStart(raw)), lower);
    var sb := "";
    for i := 0 to |low|
      invariant sb == Slug(low[..i]) && forall j :: 0 <= j < |sb| ==> SlugChar(sb[j])
    {
      SlugSnoc(low, i);
      var c := low[i];
      if SlugChar(c) {
        sb := sb + [c];
      } else if c == ' ' || c == '_' || c == '/' || c == '.' {
        sb := sb + "-";
      }
    }
    assert low[..|low|] == low;
    DashTrims(sb);
    if IsRole(raw) && forall c :: SlugChar(c) ==> lower(c) == c {
      RoleStays(raw, lower);
    }
    var s := DashEnd(DashStart(sb));
    role := if s == "" then None else Some(s);
  }
}
