/** How far a noisy OCR text corroborates the two centisecond digits of a canonical time. */
module Corroboration {
  import opened Wrappers

  predicate IsDigit(c: char) {
    '0' <= c <= '9'
  }

  /** ^\d\d:\d\d:\d\d\.(\d\d)$ */
  predicate Canonical(t: string) {
    && |t| == 11
    && IsDigit(t[0]) && IsDigit(t[1]) && t[2] == ':' && IsDigit(t[3]) && IsDigit(t[4]) && t[5] == ':'
    && IsDigit(t[6]) && IsDigit(t[7]) && t[8] == '.' && IsDigit(t[9]) && IsDigit(t[10])
  }

  /** Eleven characters: colons third and sixth, a dot ninth, and digits elsewhere. */
  predicate IsTime(t: string) {
    |t| == 11 && forall i :: 0 <= i < 11 ==>
                   if i in {2, 5} then t[i] == ':' else if i == 8 then t[i] == '.' else '0' <= t[i] <= '9'
  }

  lemma CanonicalIs(t: string)
    ensures Canonical(t) <==> IsTime(t)
  {
  }

  // ---------------------------------------------------------------- the yardstick

  /** Length of a longest common subsequence. */
  function Lcs(a: string, b: string): nat
    decreases |a| + |b|
  {
    if a == [] || b == [] then 0
    else if a[0] == b[0] then 1 + Lcs(a[1..], b[1..])
    else
      var x, y := Lcs(a[1..], b), Lcs(a, b[1..]);
      if x >= y then x else y
  }

  predicate Subsequence(a: string, b: string)
    decreases b
  {
    a == [] || (b != [] && if a[0] == b[0] then Subsequence(a[1..], b[1..]) else Subsequence(a, b[1..]))
  }

  /** `c` is a common subsequence of `a` and `b`. */
  ghost predicate Common(c: string, a: string, b: string) {
    Subsequence(c, a) && Subsequence(c, b)
  }

  lemma {:induction false} SubsequenceShrinks(a: string, b: string)
    requires Subsequence(a, b) && a != []
    ensures Subsequence(a[1..], b)
    decreases |b|, 1
  {
    if a[0] == b[0] {
      if a[1..] != [] {
        SkipHead(a[1..], b);
      }
    } else {
      SubsequenceShrinks(a, b[1..]);
      SkipHead(a[1..], b);
    }
  }

  lemma {:induction false} SkipHead(a: string, b: string)
    requires b != [] && Subsequence(a, b[1..])
    ensures Subsequence(a, b)
    decreases |b|, 0
  {
    if a != [] && a[0] == b[0] {
      SubsequenceShrinks(a, b[1..]);
    }
  }

  /** Lcs is the length of some common subsequence and at least that of any: it deserves its name. */
  lemma {:induction false} LcsAttained(a: string, b: string) returns (c: string)
    ensures Common(c, a, b) && |c| == Lcs(a, b)
    decreases |a| + |b|
  {
    if a == [] || b == [] {
      c := [];
    } else if a[0] == b[0] {
      var rest := LcsAttained(a[1..], b[1..]);
      c := [a[0]] + rest;
      assert c[1..] == rest;
    } else if Lcs(a[1..], b) >= Lcs(a, b[1..]) {
      c := LcsAttained(a[1..], b);
      SkipHead(c, a);
    } else {
      c := LcsAttained(a, b[1..]);
      SkipHead(c, b);
    }
  }

  lemma {:induction false} LcsBounds(a: string, b: string)
    ensures a != [] ==> Lcs(a[1..], b) <= Lcs(a, b) <= 1 + Lcs(a[1..], b)
    ensures b != [] ==> Lcs(a, b[1..]) <= Lcs(a, b) <= 1 + Lcs(a, b[1..])
    decreases |a| + |b|
  {
    if a != [] && b != [] {
      LcsBounds(a[1..], b);
      LcsBounds(a, b[1..]);
      LcsBounds(a[1..], b[1..]);
    }
  }

  lemma {:induction false} LcsLargest(c: string, a: string, b: string)
    requires Common(c, a, b)
    ensures |c| <= Lcs(a, b)
    decreases |a| + |b|
  {
    if c == [] {
    } else {
      LcsBounds(a, b);
      if a[0] == b[0] {
        if c[0] == a[0] {
          LcsLargest(c[1..], a[1..], b[1..]);
        } else {
          LcsLargest(c, a[1..], b[1..]);
        }
      } else if c[0] != a[0] {
        LcsLargest(c, a[1..], b);
      } else {
        LcsLargest(c, a, b[1..]);
      }
    }
  }

  // ---------------------------------------------------------------- the scan

  /** raw.indexOf(digit, from): -1 when there is none. */
  function IndexOf(raw: string, digit: char, from: nat): (at: int)
    requires from <= |raw|
    ensures at == -1 || (from <= at < |raw| && raw[at] == digit)
    ensures forall i :: from <= i < (if at == -1 then |raw| else at) ==> raw[i] != digit
    decreases |raw| - from
  {
    if from == |raw| then -1 else if raw[from] == digit then from else IndexOf(raw, digit, from + 1)
  }

  datatype Confidence = Confidence(fast: string, matchedFastDigits: nat, confidence: real, fractionalTailMatched: bool)

  predicate EndsWith(s: string, t: string) {
    |t| <= |s| && s[|s| - |t|..] == t
  }

  /** `raw` is something, a dot, and `fast`. */
  ghost predicate HasTail(raw: string, fast: string) {
    exists before :: raw == before + ("." + fast)
  }

  lemma HasTailIs(raw: string, fast: string)
    ensures EndsWith(raw, "." + fast) <==> HasTail(raw, fast)
  {
    if EndsWith(raw, "." + fast) {
      assert raw == raw[..|raw| - |fast| - 1] + ("." + fast);
    }
  }

  function Found(raw: string, digit: char, from: nat): nat
    requires from <= |raw|
  {
    if IndexOf(raw, digit, from) == -1 then 0 else 1
  }

  /** What the scan for two digits counts: each taken at its first place after the last one found. */
  function Greedy(x: char, y: char, raw: string): nat {
    var at := IndexOf(raw, x, 0);
    (if at == -1 then 0 else 1) + Found(raw, y, at + 1)
  }

  lemma {:induction false} OneFound(y: char, raw: string, from: nat)
    requires from <= |raw|
    ensures Lcs([y], raw[from..]) == Found(raw, y, from)
    ensures Subsequence([y], raw[from..]) <==> Found(raw, y, from) == 1
    decreases |raw| - from
  {
    if from < |raw| {
      OneFound(y, raw, from + 1);
      assert raw[from..][1..] == raw[from + 1..];
      assert [y][1..] == [];
    }
  }

  lemma {:induction false} FoundLater(y: char, raw: string, from: nat, at: int)
    requires from <= |raw| && (at == -1 || from <= at < |raw|)
    ensures at != -1 ==> Found(raw, y, at + 1) <= Found(raw, y, from)
  {
  }

  lemma {:induction false} TwoFound(x: char, y: char, raw: string, from: nat)
    requires from <= |raw|
    ensures var at := IndexOf(raw, x, from);
            && Lcs([x, y], raw[from..]) == (if at == -1 then Found(raw, y, from) else 1 + Found(raw, y, at + 1))
            && (Subsequence([x, y], raw[from..]) <==> at != -1 && Found(raw, y, at + 1) == 1)
    decreases |raw| - from
  {
    if from < |raw| {
      assert raw[from..][1..] == raw[from + 1..] && [x, y][1..] == [y];
      if raw[from] == x {
        OneFound(y, raw, from + 1);
      } else {
        TwoFound(x, y, raw, from + 1);
        OneFound(y, raw, from);
        FoundLater(y, raw, from, IndexOf(raw, x, from));
      }
    }
  }

  /** For two digits the greedy scan is optimal. */
  lemma GreedyIsLcs(x: char, y: char, raw: string)
    ensures Greedy(x, y, raw) == Lcs([x, y], raw) <= 2
    ensures Greedy(x, y, raw) == 2 <==> Subsequence([x, y], raw)
  {
    TwoFound(x, y, raw, 0);
    assert raw[0..] == raw;
  }

  lemma {:induction false} SuffixSubsequence(before: string, a: string)
    ensures Subsequence(a, before + a)
    decreases |before| + |a|
  {
    if before == [] {
      assert before + a == a;
      if a != [] {
        SuffixSubsequence([], a[1..]);
        assert [] + a[1..] == a[1..];
      }
    } else {
      SuffixSubsequence(before[1..], a);
      assert (before + a)[1..] == before[1..] + a;
      SkipHead(a, before + a);
    }
  }

  lemma TailIsSubsequence(fast: string, raw: string)
    requires EndsWith(raw, "." + fast)
    ensures Subsequence(fast, raw)
  {
    var before := raw[..|raw| - |fast|];
    assert raw == before + fast by {
      assert raw[|raw| - |fast|..] == ("." + fast)[1..];
    }
    SuffixSubsequence(before, fast);
  }

  method CorroborationConfidence(canonical: string, raw: string) returns (r: Result<Confidence, string>)
    ensures r.Success? <==> IsTime(canonical)
    ensures r.Success? ==>
              && r.value.fast == canonical[9..]
              && r.value.matchedFastDigits == Lcs(canonical[9..], raw)
              && r.value.confidence == r.value.matchedFastDigits as real / 2.0
              && (r.value.confidence == 1.0 <==> Subsequence(canonical[9..], raw))
              && (r.value.fractionalTailMatched <==> HasTail(raw, canonical[9..]))
              && (r.value.fractionalTailMatched ==> r.value.confidence == 1.0)
  {
    CanonicalIs(canonical);
    if !Canonical(canonical) {
      return Failure("canonicalObservedText must match hh:mm:ss.cc");
    }
    var fast := canonical[9..];
    var cursor := -1;
    var matched := 0;
    for i := 0 to |fast|
      invariant -1 <= cursor < |raw| && (i == 0 ==> cursor == -1 && matched == 0)
      invariant i >= 1 ==> cursor == IndexOf(raw, fast[0], 0) || (i == 2 && IndexOf(raw, fast[0], 0) == -1)
                           || (i == 2 && IndexOf(raw, fast[1], IndexOf(raw, fast[0], 0) + 1) == cursor)
      invariant i >= 1 ==> matched == (if i == 1 then Found(raw, fast[0], 0) else Greedy(fast[0], fast[1], raw))
    {
      var at := IndexOf(raw, fast[i], cursor + 1);
      if at > cursor {
        matched := matched + 1;
        cursor := at;
      }
    }
    GreedyIsLcs(fast[0], fast[1], raw);
    assert fast == [fast[0], fast[1]];
    var tail := EndsWith(raw, "." + fast);
    HasTailIs(raw, fast);
    if tail {
      TailIsSubsequence(fast, raw);
    }
    return Success(Confidence(fast, matched, matched as real / |fast| as real, tail));
  }

  // ---------------------------------------------------------------- optimality

  /** For three digits the same scan would not be optimal: a late first digit can hide two others. */
  lemma GreedyNeedsTwoDigits()
    ensures IndexOf("231", '1', 0) == 2 && IndexOf("231", '2', 3) == IndexOf("231", '3', 3) == -1
            && Lcs("123", "231") == 2
  {
    assert Lcs("3", "31") == 1;
    assert Lcs("23", "231") == 2;
  }
}
