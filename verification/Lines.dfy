/** Splitting a character stream at newlines, whatever the chunks it arrives in. */
module Lines {
  import opened Wrappers

  /** The first newline from `i` on; |s| when there is none. */
  function BreakFrom(s: string, i: nat): (n: nat)
    requires i <= |s|
    ensures i <= n <= |s| && (n < |s| ==> s[n] == '\n')
    decreases |s| - i
  {
    if i == |s| || s[i] == '\n' then i else BreakFrom(s, i + 1)
  }

  function FirstBreak(s: string): (n: nat)
    ensures n <= |s| && (n < |s| ==> s[n] == '\n')
  {
    BreakFrom(s, 0)
  }

  /** The newline-terminated lines of `s`, without their newlines. */
  function Split(s: string): (lines: seq<string>)
    decreases |s|
  {
    var n := FirstBreak(s);
    if n == |s| then [] else [s[..n]] + Split(s[n + 1..])
  }

  /** What follows the last newline. */
  function Tail(s: string): (t: string)
    decreases |s|
  {
    var n := FirstBreak(s);
    if n == |s| then s else Tail(s[n + 1..])
  }

  function Join(lines: seq<string>): string {
    if lines == [] then "" else lines[0] + "\n" + Join(lines[1..])
  }

  ghost predicate NoBreaks(lines: seq<string>) {
    forall i :: 0 <= i < |lines| ==> '\n' !in lines[i]
  }

  lemma {:induction false} NoneFrom(s: string, i: nat, k: nat)
    requires i <= |s| && i <= k < BreakFrom(s, i)
    ensures s[k] != '\n'
    decreases k - i
  {
    if k == i {
    } else {
      NoneFrom(s, i + 1, k);
    }
  }

  lemma NoneBefore(s: string)
    ensures '\n' !in s[..FirstBreak(s)]
  {
    forall k | 0 <= k < FirstBreak(s) ensures s[k] != '\n' {
      NoneFrom(s, 0, k);
    }
  }

  lemma FirstBreakIs(s: string, n: nat)
    requires n <= |s| && '\n' !in s[..n] && (n < |s| ==> s[n] == '\n')
    ensures FirstBreak(s) == n
  {
    forall k | 0 <= k < n ensures s[k] != '\n' {
      assert s[..n][k] == s[k];
    }
    if n < FirstBreak(s) {
      NoneFrom(s, 0, n);
    }
  }

  lemma FirstBreakOf(line: string, rest: string)
    requires '\n' !in line
    ensures FirstBreak(line + "\n" + rest) == |line|
  {
    assert (line + "\n" + rest)[..|line|] == line;
    FirstBreakIs(line + "\n" + rest, |line|);
  }

  lemma JoinCons(line: string, lines: seq<string>, tail: string)
    ensures Join([line] + lines) + tail == line + "\n" + (Join(lines) + tail)
  {
    assert ([line] + lines)[1..] == lines;
    Associate(line + "\n", Join(lines), tail);
  }

  /** A text around one of its newlines. */
  lemma Cut(s: string, n: nat)
    requires n < |s| && s[n] == '\n'
    ensures s == s[..n] + "\n" + s[n + 1..]
  {
  }

  lemma CutAppend(s: string, n: nat, chunk: string)
    requires n < |s|
    ensures (s + chunk)[n + 1..] == s[n + 1..] + chunk && (s + chunk)[..n] == s[..n] && (s + chunk)[n] == s[n]
  {
  }

  /** Splitting loses nothing and leaves no newline behind. */
  lemma {:induction false} SplitJoin(s: string)
    ensures Join(Split(s)) + Tail(s) == s && NoBreaks(Split(s)) && '\n' !in Tail(s)
    decreases |s|
  {
    var n := FirstBreak(s);
    NoneBefore(s);
    if n < |s| {
      var rest := s[n + 1..];
      SplitJoin(rest);
      JoinCons(s[..n], Split(rest), Tail(rest));
      Cut(s, n);
    } else {
      assert s[..n] == s;
      assert "" + s == s;
    }
  }

  /** And it is the only way to do so. */
  lemma {:induction false} SplitUnique(lines: seq<string>, tail: string)
    requires NoBreaks(lines) && '\n' !in tail
    ensures Split(Join(lines) + tail) == lines && Tail(Join(lines) + tail) == tail
    decreases |lines|
  {
    var s := Join(lines) + tail;
    if lines == [] {
      assert s == tail;
      assert s[..|s|] == s;
      FirstBreakIs(s, |s|);
    } else {
      var rest := Join(lines[1..]) + tail;
      assert s == lines[0] + "\n" + rest;
      FirstBreakOf(lines[0], rest);
      assert s[|lines[0]| + 1..] == rest && s[..|lines[0]|] == lines[0];
      SplitUnique(lines[1..], tail);
    }
  }

  lemma TailPast(s: string, n: nat)
    requires FirstBreak(s) == n < |s|
    ensures Tail(s) == Tail(s[n + 1..])
  {
  }

  lemma SplitHead(s: string, n: nat)
    requires FirstBreak(s) == n < |s|
    ensures Split(s) == [s[..n]] + Split(s[n + 1..]) && Tail(s) == Tail(s[n + 1..])
  {
    TailPast(s, n);
  }

  /** A further chunk only continues the tail. */
  lemma {:induction false} SplitAppend(s: string, chunk: string)
    ensures Split(s + chunk) == Split(s) + Split(Tail(s) + chunk)
    ensures Tail(s + chunk) == Tail(Tail(s) + chunk)
    decreases |s|
  {
    var n := FirstBreak(s);
    if n < |s| {
      var rest := s[n + 1..];
      NoneBefore(s);
      CutAppend(s, n, chunk);
      FirstBreakIs(s + chunk, n);
      SplitHead(s, n);
      SplitHead(s + chunk, n);
      SplitAppend(rest, chunk);
      Associate([s[..n]], Split(rest), Split(Tail(rest) + chunk));
    }
  }

  lemma SplitCons(done: seq<string>, s: string, n: nat)
    requires FirstBreak(s) == n < |s|
    ensures done + Split(s) == (done + [s[..n]]) + Split(s[n + 1..]) && Tail(s) == Tail(s[n + 1..])
  {
    SplitHead(s, n);
    Associate(done, [s[..n]], Split(s[n + 1..]));
  }

  function Concat(chunks: seq<string>): string {
    if chunks == [] then "" else chunks[0] + Concat(chunks[1..])
  }

  lemma {:induction false} ConcatSnoc(chunks: seq<string>, chunk: string)
    ensures Concat(chunks + [chunk]) == Concat(chunks) + chunk
  {
    if chunks == [] {
      assert [] + [chunk] == [chunk];
    } else {
      assert (chunks + [chunk])[1..] == chunks[1..] + [chunk];
      ConcatSnoc(chunks[1..], chunk);
    }
  }
}
