/** The 64-bit gradient hash of a frame and the Hamming distance of two hashes. */
module Dhash {
  import opened Wrappers

  const OUT_W := 9
  const OUT_H := 8

  type bit = b: int | 0 <= b <= 1

  type Nibble = x: int | 0 <= x < 16

  // ---------------------------------------------------------------- sampling

  /** The byte index of the red component of sample column `ox`, row `oy`. */
  function SampleIndex(w: nat, h: nat, ox: nat, oy: nat): int {
    ((oy * h / OUT_H) * w + ox * w / OUT_W) * 4
  }

  lemma MulLess(a: nat, b: nat, c: nat)
    requires a < b && c >= 1
    ensures a * c < b * c
  {
  }

  lemma DivLess(x: nat, d: nat, q: nat)
    requires d >= 1 && x < d * q
    ensures 0 <= x / d < q
  {
  }

  lemma SampleBelow(k: nat, parts: nat, size: nat)
    requires k < parts && size >= 1
    ensures 0 <= k * size / parts < size
  {
    assert k * size < parts * size by {
      MulLess(k, parts, size);
    }
    DivLess(k * size, parts, size);
  }

  lemma RowInside(sx: nat, sy: nat, w: nat, h: nat)
    requires sx < w && sy < h
    ensures sy * w + sx <= w * h - 1
    ensures 4 * (sy * w + sx) + 3 < 4 * w * h
  {
    assert sy * w <= (h - 1) * w;
    assert (h - 1) * w == w * h - w;
  }

  /** Every sampled pixel lies inside a w x h buffer of four bytes a pixel, for all w, h >= 1. */
  lemma SampleInside(w: nat, h: nat, ox: nat, oy: nat)
    requires w >= 1 && h >= 1 && ox < OUT_W && oy < OUT_H
    ensures 0 <= SampleIndex(w, h, ox, oy) && SampleIndex(w, h, ox, oy) + 3 < 4 * w * h
  {
    SampleBelow(oy, OUT_H, h);
    SampleBelow(ox, OUT_W, w);
    var sy, sx := oy * h / OUT_H, ox * w / OUT_W;
    RowInside(sx, sy, w, h);
  }

  predicate Frame(buf: seq<int>, w: nat, h: nat) {
    w >= 1 && h >= 1 && |buf| == 4 * w * h && forall i :: 0 <= i < |buf| ==> 0 <= buf[i] < 256
  }

  /** Integer luma of the red, green and blue components. */
  function Luma(r: int, g: int, b: int): int {
    (77 * r + 150 * g + 29 * b) / 256
  }

  lemma LumaInRange(r: int, g: int, b: int)
    requires 0 <= r < 256 && 0 <= g < 256 && 0 <= b < 256
    ensures 0 <= Luma(r, g, b) <= 255
    ensures r == g == b ==> Luma(r, g, b) == r
  {
  }

  function Gray(buf: seq<int>, w: nat, h: nat, ox: nat, oy: nat): int
    requires Frame(buf, w, h) && ox < OUT_W && oy < OUT_H
  {
    SampleInside(w, h, ox, oy);
    var p := SampleIndex(w, h, ox, oy);
    Luma(buf[p], buf[p + 1], buf[p + 2])
  }

  /** Gradient bit `k`, row by row: the sample is brighter than its right neighbour. */
  function Bit(buf: seq<int>, w: nat, h: nat, k: nat): bit
    requires Frame(buf, w, h) && k < 64
  {
    if Gray(buf, w, h, k % 8, k / 8) > Gray(buf, w, h, k % 8 + 1, k / 8) then 1 else 0
  }

  // ---------------------------------------------------------------- the hash

  function Pack(b3: bit, b2: bit, b1: bit, b0: bit): Nibble {
    8 * b3 + 4 * b2 + 2 * b1 + b0
  }

  function HexDigit(n: Nibble): char {
    if n < 10 then ('0' as int + n) as char else ('a' as int + n - 10) as char
  }

  /** What int(c, 16) reads; it raises for any other character. */
  predicate IsHexDigit(c: char) {
    '0' <= c <= '9' || 'a' <= c <= 'f' || 'A' <= c <= 'F'
  }

  predicate AllHex(s: string) {
    forall i :: 0 <= i < |s| ==> IsHexDigit(s[i])
  }

  function HexValue(c: char): (n: Nibble)
    requires IsHexDigit(c)
  {
    if '0' <= c <= '9' then c as int - '0' as int
    else if 'a' <= c <= 'f' then c as int - 'a' as int + 10
    else c as int - 'A' as int + 10
  }

  /** The digits of `bits`, four to a digit, the first highest. */
  function Hex(bits: seq<bit>): (s: string)
    ensures 4 * |s| <= |bits| < 4 * |s| + 4
    ensures AllHex(s)
  {
    if |bits| < 4 then "" else [HexDigit(Pack(bits[0], bits[1], bits[2], bits[3]))] + Hex(bits[4..])
  }

  /** The samples of rows 0 to oy - 1 and of the first ox columns of row oy. */
  ghost predicate Sampled(gray: seq<int>, buf: seq<int>, w: nat, h: nat)
    requires Frame(buf, w, h)
  {
    forall k :: 0 <= k < |gray| && k < OUT_W * OUT_H ==> gray[k] == Gray(buf, w, h, k % OUT_W, k / OUT_W)
  }

  ghost function GradientBits(buf: seq<int>, w: nat, h: nat): seq<bit>
    requires Frame(buf, w, h)
  {
    seq(64, k requires 0 <= k < 64 => Bit(buf, w, h, k))
  }

  method SampleGray(buf: seq<int>, w: nat, h: nat) returns (gray: seq<int>)
    requires Frame(buf, w, h)
    ensures |gray| == OUT_W * OUT_H && Sampled(gray, buf, w, h)
  {
    gray := [];
    for oy := 0 to OUT_H
      invariant |gray| == oy * OUT_W && Sampled(gray, buf, w, h)
    {
      var sy := (oy * h) / OUT_H;
      for ox := 0 to OUT_W
        invariant |gray| == oy * OUT_W + ox && Sampled(gray, buf, w, h)
      {
        var sx := (ox * w) / OUT_W;
        SampleInside(w, h, ox, oy);
        var p := (sy * w + sx) * 4;
        assert (oy * OUT_W + ox) % OUT_W == ox && (oy * OUT_W + ox) / OUT_W == oy;
        gray := gray + [(77 * buf[p] + 150 * buf[p + 1] + 29 * buf[p + 2]) / 256];
      }
    }
  }

  /** Where sample column `ox` of row `oy` stands among the samples, and its gradient among the bits. */
  lemma GridAt(ox: nat, oy: nat)
    requires ox < OUT_W - 1 && oy < OUT_H
    ensures var at := oy * OUT_W + ox;
            && at % OUT_W == ox && at / OUT_W == oy && (at + 1) % OUT_W == ox + 1 && (at + 1) / OUT_W == oy
    ensures (oy * 8 + ox) % 8 == ox && (oy * 8 + ox) / 8 == oy
  {
  }

  lemma BitAt(gray: seq<int>, buf: seq<int>, w: nat, h: nat, ox: nat, oy: nat)
    requires Frame(buf, w, h) && |gray| == OUT_W * OUT_H && Sampled(gray, buf, w, h)
    requires ox < OUT_W - 1 && oy < OUT_H
    ensures var at := oy * OUT_W + ox;
            && at + 1 < |gray| && oy * 8 + ox < 64
            && Bit(buf, w, h, oy * 8 + ox) == if gray[at] > gray[at + 1] then 1 else 0
  {
    GridAt(ox, oy);
    var at := oy * OUT_W + ox;
    assert gray[at] == Gray(buf, w, h, ox, oy) && gray[at + 1] == Gray(buf, w, h, ox + 1, oy);
  }

  lemma PrefixSnoc(bits: seq<bit>, all: seq<bit>)
    requires bits <= all && |bits| < |all|
    ensures bits + [all[|bits|]] <= all
  {
  }

  method GradientsOf(gray: seq<int>, buf: seq<int>, w: nat, h: nat) returns (bits: seq<bit>)
    requires Frame(buf, w, h) && |gray| == OUT_W * OUT_H && Sampled(gray, buf, w, h)
    ensures bits == GradientBits(buf, w, h)
  {
    bits := [];
    ghost var all := GradientBits(buf, w, h);
    for oy := 0 to OUT_H
      invariant |bits| == oy * 8 && bits <= all
    {
      for ox := 0 to OUT_W - 1
        invariant |bits| == oy * 8 + ox && bits <= all
      {
        BitAt(gray, buf, w, h, ox, oy);
        var at := oy * OUT_W + ox;
        PrefixSnoc(bits, all);
        bits := bits + [if gray[at] > gray[at + 1] then 1 else 0];
      }
    }
  }

  lemma HexUnfold(bits: seq<bit>)
    requires |bits| >= 4
    ensures Hex(bits) == [HexDigit(Pack(bits[0], bits[1], bits[2], bits[3]))] + Hex(bits[4..])
  {
  }

  lemma HexFrom(bits: seq<bit>, i: nat)
    requires i + 4 <= |bits|
    ensures Hex(bits[i..]) == [HexDigit(Pack(bits[i], bits[i + 1], bits[i + 2], bits[i + 3]))] + Hex(bits[i + 4..])
  {
    assert bits[i..][4..] == bits[i + 4..];
    HexUnfold(bits[i..]);
  }

  lemma HexStep(s: string, bits: seq<bit>, i: nat)
    requires i + 4 <= |bits|
    ensures s + Hex(bits[i..]) == (s + [HexDigit(Pack(bits[i], bits[i + 1], bits[i + 2], bits[i + 3]))])
            + Hex(bits[i + 4..])
  {
    HexFrom(bits, i);
    Associate(s, [HexDigit(Pack(bits[i], bits[i + 1], bits[i + 2], bits[i + 3]))], Hex(bits[i + 4..]));
  }

  method HexOf(bits: seq<bit>) returns (s: string)
    requires |bits| == 64
    ensures s == Hex(bits)
  {
    s := "";
    var i := 0;
    assert bits[0..] == bits;
    while i < 64
      invariant 0 <= i == 4 * |s| <= 64 && s + Hex(bits[i..]) == Hex(bits)
    {
      HexStep(s, bits, i);
      s := s + [HexDigit(Pack(bits[i], bits[i + 1], bits[i + 2], bits[i + 3]))];
      i := i + 4;
    }
    assert s + "" == s;
  }

  const DIGITS := "0123456789abcdef"
  const UPPER_DIGITS := "0123456789ABCDEF"

  lemma HexDigitIs(n: Nibble)
    ensures HexDigit(n) == DIGITS[n]
  {
  }

  lemma LowerDigit(c: char)
    ensures c in DIGITS <==> '0' <= c <= '9' || 'a' <= c <= 'f'
  {
    if '0' <= c <= '9' {
      assert DIGITS[c as int - '0' as int] == c;
    } else if 'a' <= c <= 'f' {
      assert DIGITS[c as int - 'a' as int + 10] == c;
    }
  }

  lemma UpperDigit(c: char)
    ensures c in UPPER_DIGITS <==> '0' <= c <= '9' || 'A' <= c <= 'F'
  {
    if '0' <= c <= '9' {
      assert UPPER_DIGITS[c as int - '0' as int] == c;
    } else if 'A' <= c <= 'F' {
      assert UPPER_DIGITS[c as int - 'A' as int + 10] == c;
    }
  }

  /** Hex digits of either case, and no other character, read as their place in the alphabet. */
  lemma HexValueIs(c: char)
    ensures IsHexDigit(c) <==> c in DIGITS || c in UPPER_DIGITS
    ensures IsHexDigit(c) ==> DIGITS[HexValue(c)] == c || UPPER_DIGITS[HexValue(c)] == c
  {
    LowerDigit(c);
    UpperDigit(c);
  }

  /** The number that bits write, the first highest. */
  function Base2(bits: seq<bit>): nat {
    if bits == [] then 0 else 2 * Base2(bits[..|bits| - 1]) + bits[|bits| - 1]
  }

  lemma DigitIs(b3: bit, b2: bit, b1: bit, b0: bit)
    ensures Base2([b3, b2, b1, b0]) < 16
    ensures HexDigit(Pack(b3, b2, b1, b0)) == DIGITS[Base2([b3, b2, b1, b0])]
  {
    var all := [b3, b2, b1, b0];
    assert all[..3] == [b3, b2, b1] && all[..3][..2] == [b3, b2] && all[..3][..2][..1] == [b3];
    assert Base2([b3]) == b3 as int;
    assert Base2([b3, b2]) == 2 * Base2([b3]) + b2;
    assert Base2([b3, b2, b1]) == 2 * Base2([b3, b2]) + b1;
    HexDigitIs(Pack(b3, b2, b1, b0));
  }

  lemma FourBits(bits: seq<bit>, i: nat)
    requires i + 4 <= |bits|
    ensures Base2(bits[i..i + 4]) < 16
    ensures HexDigit(Pack(bits[i], bits[i + 1], bits[i + 2], bits[i + 3])) == DIGITS[Base2(bits[i..i + 4])]
  {
    assert bits[i..i + 4] == [bits[i], bits[i + 1], bits[i + 2], bits[i + 3]];
    DigitIs(bits[i], bits[i + 1], bits[i + 2], bits[i + 3]);
  }

  lemma Rest<T>(s: seq<T>, i: nat, first: T, rest: seq<T>)
    requires i <= |s| && s[i..] == [first] + rest
    ensures i < |s| && s[i] == first && s[i + 1..] == rest
  {
    assert s[i..][0] == first && s[i..][1..] == rest;
  }

  /** The digits from the k-th on are those of the bits from the 4k-th on. */
  lemma {:induction false} HexSuffix(bits: seq<bit>, k: nat)
    requires 4 * k <= |bits|
    ensures k <= |Hex(bits)| && Hex(bits)[k..] == Hex(bits[4 * k..])
    decreases k
  {
    if k == 0 {
      assert bits[0..] == bits;
    } else {
      var from := 4 * (k - 1);
      HexSuffix(bits, k - 1);
      HexFrom(bits, from);
      Rest(Hex(bits), k - 1, HexDigit(Pack(bits[from], bits[from + 1], bits[from + 2], bits[from + 3])),
           Hex(bits[from + 4..]));
    }
  }

  /** Digit `k` of a hash writes bits 4k to 4k + 3 in base 2, the first highest. */
  lemma HexReads(bits: seq<bit>, k: nat)
    requires 4 * k + 4 <= |bits|
    ensures k < |Hex(bits)| && Base2(bits[4 * k..4 * k + 4]) < 16
    ensures Hex(bits)[k] == DIGITS[Base2(bits[4 * k..4 * k + 4])]
  {
    var from := 4 * k;
    HexSuffix(bits, k);
    HexFrom(bits, from);
    Rest(Hex(bits), k, HexDigit(Pack(bits[from], bits[from + 1], bits[from + 2], bits[from + 3])),
         Hex(bits[from + 4..]));
    FourBits(bits, from);
  }

  /** The luma of the pixel that stands for sample column `ox` of row `oy`, where the buffer has it. */
  lemma GrayIs(buf: seq<int>, w: nat, h: nat, ox: nat, oy: nat)
    requires Frame(buf, w, h) && ox < 9 && oy < 8
    ensures var p := 4 * (oy * h / 8 * w + ox * w / 9);
            && 0 <= p && p + 2 < |buf|
            && Gray(buf, w, h, ox, oy) == (77 * buf[p] + 150 * buf[p + 1] + 29 * buf[p + 2]) / 256
  {
    SampleInside(w, h, ox, oy);
  }

  /** The bits of a frame go row by row, and a bit is 1 exactly if its sample is brighter than the one to its right. */
  lemma GradientReads(buf: seq<int>, w: nat, h: nat, ox: nat, oy: nat)
    requires Frame(buf, w, h) && ox < 8 && oy < 8
    ensures 8 * oy + ox < 64
    ensures GradientBits(buf, w, h)[8 * oy + ox] == 1 <==> Gray(buf, w, h, ox, oy) > Gray(buf, w, h, ox + 1, oy)
  {
    assert (8 * oy + ox) % 8 == ox && (8 * oy + ox) / 8 == oy;
  }

  method DhashHex(buf: seq<int>, w: nat, h: nat) returns (s: string)
    requires Frame(buf, w, h)
    ensures s == Hex(GradientBits(buf, w, h))
  {
    var gray := SampleGray(buf, w, h);
    var bits := GradientsOf(gray, buf, w, h);
    s := HexOf(bits);
  }

  // ---------------------------------------------------------------- the distance

  /** Bitwise exclusive or. */
  function Xor(a: nat, b: nat): nat {
    if a == 0 && b == 0 then 0 else (if a % 2 != b % 2 then 1 else 0) + 2 * Xor(a / 2, b / 2)
  }

  function Ones(x: nat): nat {
    if x == 0 then 0 else x % 2 + Ones(x / 2)
  }

  /** Positions at which two bit sequences differ. */
  function Differing(a: seq<bit>, b: seq<bit>): nat
    requires |a| == |b|
  {
    if a == [] then 0 else (if a[0] != b[0] then 1 else 0) + Differing(a[1..], b[1..])
  }

  function Distance(a: string, b: string): nat
    requires |a| == |b| && AllHex(a) && AllHex(b)
  {
    if a == [] then 0 else Ones(Xor(HexValue(a[0]), HexValue(b[0]))) + Distance(a[1..], b[1..])
  }

  function Shorter(a: string, b: string): nat {
    if |a| <= |b| then |a| else |b|
  }

  /** zip stops at the shorter text; up to there a character that is no hex digit raises. */
  method HammingHex(a: string, b: string) returns (d: Option<nat>)
    ensures var n := Shorter(a, b);
            d == if AllHex(a[..n]) && AllHex(b[..n]) then Some(Distance(a[..n], b[..n])) else None
  {
    var sum := 0;
    var n := Shorter(a, b);
    for i := 0 to n
      invariant AllHex(a[..i]) && AllHex(b[..i])
      invariant AllHex(a[i..n]) && AllHex(b[i..n]) ==>
                  AllHex(a[..n]) && AllHex(b[..n]) && sum + Distance(a[i..n], b[i..n]) == Distance(a[..n], b[..n])
    {
      if !IsHexDigit(a[i]) || !IsHexDigit(b[i]) {
        assert a[..n][i] == a[i] && b[..n][i] == b[i];
        return None;
      }
      var x := Xor(HexValue(a[i]), HexValue(b[i]));
      ghost var before := sum;
      ghost var whole := Ones(x);
      while x > 0
        invariant sum + Ones(x) == before + whole
      {
        sum := sum + x % 2;
        x := x / 2;
      }
      assert a[i..n][1..] == a[i + 1..n] && b[i..n][1..] == b[i + 1..n];
      assert a[i..n] == [a[i]] + a[i + 1..n] && b[i..n] == [b[i]] + b[i + 1..n];
    }
    return Some(sum);
  }

  lemma XorUnfold(m: nat, n: nat)
    ensures Xor(m, n) == (if m % 2 != n % 2 then 1 else 0) + 2 * Xor(m / 2, n / 2)
  {
  }

  lemma OnesUnfold(low: bit, high: nat)
    ensures Ones(low + 2 * high) == low + Ones(high)
  {
    var x := low + 2 * high;
    assert x % 2 == low && x / 2 == high;
  }

  lemma XorBit(a: nat, b: nat, x: bit, y: bit, m: nat, n: nat)
    requires m == 2 * a + x && n == 2 * b + y
    ensures Ones(Xor(m, n)) == (if x != y then 1 else 0) + Ones(Xor(a, b))
  {
    XorUnfold(m, n);
    OnesUnfold(if x != y then 1 else 0, Xor(a, b));
  }

  function Differ(x: int, y: int): nat {
    if x != y then 1 else 0
  }

  lemma XorHigh(a3: bit, a2: bit, b3: bit, b2: bit)
    ensures Ones(Xor(2 * a3 + a2, 2 * b3 + b2)) == Differ(a3, b3) + Differ(a2, b2)
  {
    XorBit(a3, b3, a2, b2, 2 * a3 + a2, 2 * b3 + b2);
    XorBit(0, 0, a3, b3, a3, b3);
  }

  lemma XorBits(p: nat, q: nat, x: bit, y: bit, x': bit, y': bit, m: nat, n: nat)
    requires m == 4 * p + 2 * x + x' && n == 4 * q + 2 * y + y'
    ensures Ones(Xor(m, n)) == Differ(x, y) + Differ(x', y') + Ones(Xor(p, q))
  {
    var p', q' := 2 * p + x, 2 * q + y;
    XorBit(p, q, x, y, p', q');
    XorBit(p', q', x', y', m, n);
  }

  lemma XorPack(a3: bit, a2: bit, a1: bit, a0: bit, b3: bit, b2: bit, b1: bit, b0: bit)
    ensures Ones(Xor(Pack(a3, a2, a1, a0), Pack(b3, b2, b1, b0)))
            == Differ(a3, b3) + Differ(a2, b2) + Differ(a1, b1) + Differ(a0, b0)
  {
    XorHigh(a3, a2, b3, b2);
    XorBits(2 * a3 + a2, 2 * b3 + b2, a1, b1, a0, b0, Pack(a3, a2, a1, a0), Pack(b3, b2, b1, b0));
  }

  lemma DifferingFour(a: seq<bit>, b: seq<bit>)
    requires |a| == |b| >= 4
    ensures Differing(a, b) ==
            Differ(a[0], b[0]) + Differ(a[1], b[1]) + Differ(a[2], b[2]) + Differ(a[3], b[3])
              + Differing(a[4..], b[4..])
  {
    assert a[1..][1..] == a[2..] && a[2..][1..] == a[3..] && a[3..][1..] == a[4..];
    assert b[1..][1..] == b[2..] && b[2..][1..] == b[3..] && b[3..][1..] == b[4..];
    assert Differing(a[3..], b[3..]) == Differ(a[3], b[3]) + Differing(a[4..], b[4..]);
    assert Differing(a[2..], b[2..]) == Differ(a[2], b[2]) + Differing(a[3..], b[3..]);
    assert Differing(a[1..], b[1..]) == Differ(a[1], b[1]) + Differing(a[2..], b[2..]);
  }

  lemma DistanceCons(c: char, s: string, d: char, t: string)
    requires |s| == |t| && AllHex(s) && AllHex(t) && IsHexDigit(c) && IsHexDigit(d)
    ensures Distance([c] + s, [d] + t) == Ones(Xor(HexValue(c), HexValue(d))) + Distance(s, t)
  {
    assert ([c] + s)[1..] == s && ([d] + t)[1..] == t;
  }

  lemma HexRoundTrip(n: Nibble)
    ensures IsHexDigit(HexDigit(n)) && HexValue(HexDigit(n)) == n
  {
  }

  lemma DigitDistance(a3: bit, a2: bit, a1: bit, a0: bit, b3: bit, b2: bit, b1: bit, b0: bit, s: string, t: string)
    requires |s| == |t| && AllHex(s) && AllHex(t)
    ensures IsHexDigit(HexDigit(Pack(a3, a2, a1, a0))) && IsHexDigit(HexDigit(Pack(b3, b2, b1, b0)))
    ensures Distance([HexDigit(Pack(a3, a2, a1, a0))] + s, [HexDigit(Pack(b3, b2, b1, b0))] + t)
            == Differ(a3, b3) + Differ(a2, b2) + Differ(a1, b1) + Differ(a0, b0) + Distance(s, t)
  {
    HexRoundTrip(Pack(a3, a2, a1, a0));
    HexRoundTrip(Pack(b3, b2, b1, b0));
    DistanceCons(HexDigit(Pack(a3, a2, a1, a0)), s, HexDigit(Pack(b3, b2, b1, b0)), t);
    XorPack(a3, a2, a1, a0, b3, b2, b1, b0);
  }

  /** The distance of two hashes is the number of gradient bits in which the frames differ. */
  lemma {:induction false} DistanceCountsBits(a: seq<bit>, b: seq<bit>, digits: nat)
    requires |a| == |b| == 4 * digits
    ensures Distance(Hex(a), Hex(b)) == Differing(a, b)
    decreases digits
  {
    if digits == 0 {
    } else {
      DistanceCountsBits(a[4..], b[4..], digits - 1);
      HexUnfold(a);
      HexUnfold(b);
      DigitDistance(a[0], a[1], a[2], a[3], b[0], b[1], b[2], b[3], Hex(a[4..]), Hex(b[4..]));
      DifferingFour(a, b);
    }
  }

  lemma {:induction false} DifferingIsMetric(a: seq<bit>, b: seq<bit>, c: seq<bit>)
    requires |a| == |b| == |c|
    ensures Differing(a, b) == Differing(b, a) <= |a|
    ensures Differing(a, b) == 0 <==> a == b
    ensures Differing(a, c) <= Differing(a, b) + Differing(b, c)
    decreases |a|
  {
    if a == [] {
    } else {
      DifferingIsMetric(a[1..], b[1..], c[1..]);
      assert a == [a[0]] + a[1..] && b == [b[0]] + b[1..];
    }
  }

  lemma {:induction false} XorSelf(x: nat)
    ensures Xor(x, x) == 0
  {
    if x == 0 {
    } else {
      XorSelf(x / 2);
    }
  }

  /** Equal hashes are hashes of equal bits: their distance is zero. */
  lemma {:induction false} DistanceToSelf(s: string)
    requires AllHex(s)
    ensures Distance(s, s) == 0
  {
    if s == [] {
    } else {
      XorSelf(HexValue(s[0]));
      DistanceToSelf(s[1..]);
    }
  }

  /** On hashes of bit sequences the Hamming distance is a metric bounded by the number of bits, and it is
      zero exactly on equal hashes. */
  lemma HashMetric(a: seq<bit>, b: seq<bit>, c: seq<bit>)
    requires |a| == |b| == |c| == 64
    ensures Distance(Hex(a), Hex(b)) == Distance(Hex(b), Hex(a)) <= 64
    ensures Distance(Hex(a), Hex(b)) == 0 <==> Hex(a) == Hex(b)
    ensures Hex(a) == Hex(b) <==> a == b
    ensures Distance(Hex(a), Hex(c)) <= Distance(Hex(a), Hex(b)) + Distance(Hex(b), Hex(c))
  {
    DistanceCountsBits(a, b, 16);
    DistanceCountsBits(b, a, 16);
    DistanceCountsBits(b, c, 16);
    DistanceCountsBits(a, c, 16);
    DifferingIsMetric(a, b, c);
    DistanceToSelf(Hex(a));
  }

  method HashDistance(ghost a: seq<bit>, ghost b: seq<bit>, x: string, y: string) returns (d: nat)
    requires |a| == |b| == 64 && x == Hex(a) && y == Hex(b)
    ensures d == Differing(a, b) <= 64 && (d == 0 <==> x == y) && (x == y <==> a == b)
  {
    var r := HammingHex(x, y);
    assert x[..16] == x && y[..16] == y;
    HashMetric(a, b, b);
    DistanceCountsBits(a, b, 16);
    d := r.value;
  }

  /** Hashing two frames, of any sizes, and comparing the hashes counts their differing gradient bits. */
  method FrameDistance(f: seq<int>, fw: nat, fh: nat, g: seq<int>, gw: nat, gh: nat) returns (d: nat, same: bool)
    requires Frame(f, fw, fh) && Frame(g, gw, gh)
    ensures d == Differing(GradientBits(f, fw, fh), GradientBits(g, gw, gh)) <= 64
    ensures (d == 0 <==> same) && (same <==> GradientBits(f, fw, fh) == GradientBits(g, gw, gh))
  {
    var hf := DhashHex(f, fw, fh);
    var hg := DhashHex(g, gw, gh);
    d := HashDistance(GradientBits(f, fw, fh), GradientBits(g, gw, gh), hf, hg);
    same := hf == hg;
  }
}
