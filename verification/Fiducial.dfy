/** The fiducial row: eight grey bands that carry the low seven bits of a tick. */
module Fiducial {
  const BANDS := 8
  const ANCHOR := 4
  const LIT := 230
  const DARK := 20

  function Pow2(n: nat): (p: nat)
    ensures p >= 1
  {
    if n == 0 then 1 else 2 * Pow2(n - 1)
  }

  /** `(tick >> bit) & 1`, for negative ticks as well: both operators round down. */
  function TickBit(tick: int, bit: nat): int {
    tick / Pow2(bit) % 2
  }

  function BitOfBand(b: nat): nat
    requires b < BANDS && b != ANCHOR
  {
    if b < ANCHOR then b else b - 1
  }

  predicate BandOn(tick: int, b: nat)
    requires b < BANDS
  {
    b == ANCHOR || TickBit(tick, BitOfBand(b)) == 1
  }

  /** The band that pixel `x` falls in; the last band takes the remainder of the width. */
  function BandOf(x: nat, width: nat): (b: nat)
    requires x < width && width >= BANDS
    ensures b < BANDS
  {
    var b := x / (width / BANDS);
    if b < BANDS - 1 then b else BANDS - 1
  }

  function Pixel(row: seq<int>, x: nat): seq<int>
    requires 4 * x + 4 <= |row|
  {
    row[4 * x..4 * x + 4]
  }

  function Level(tick: int, b: nat): int
    requires b < BANDS
  {
    if BandOn(tick, b) then LIT else DARK
  }

  function Shade(tick: int, x: nat, width: nat): seq<int>
    requires x < width && width >= BANDS
  {
    var v := Level(tick, BandOf(x, width));
    [v, v, v, 255]
  }

  predicate IsRow(row: seq<int>, tick: int, width: nat)
    requires width >= BANDS
  {
    && |row| == 4 * width
    && forall x :: 0 <= x < width ==> Pixel(row, x) == Shade(tick, x, width)
  }

  /** The first `n` pixels are painted. */
  ghost predicate Painted(row: seq<int>, tick: int, n: nat, width: nat)
    requires width >= BANDS
  {
    && 4 * n <= |row| && n <= width
    && forall x :: 0 <= x < n ==> Pixel(row, x) == Shade(tick, x, width)
  }

  /** The row with pixel `x` painted grey. */
  function WithPixel(row: seq<int>, x: nat, v: int): seq<int>
    requires 4 * x + 4 <= |row|
  {
    row[4 * x := v][4 * x + 1 := v][4 * x + 2 := v][4 * x + 3 := 255]
  }

  lemma PaintedNext(row: seq<int>, tick: int, n: nat, width: nat)
    requires width >= BANDS && Painted(row, tick, n, width) && 4 * n + 4 <= |row| && n < width
    ensures Painted(WithPixel(row, n, Level(tick, BandOf(n, width))), tick, n + 1, width)
  {
    var after := WithPixel(row, n, Level(tick, BandOf(n, width)));
    forall x | 0 <= x < n ensures Pixel(after, x) == Shade(tick, x, width) {
      assert Pixel(after, x) == Pixel(row, x);
    }
  }

  /** The four bytes of one pixel. */
  method Paint(row: array<int>, x: nat, v: int)
    requires 4 * x + 4 <= row.Length
    modifies row
    ensures row[..] == WithPixel(old(row[..]), x, v)
  {
    var o := x * 4;
    row[o] := v;
    row[o + 1] := v;
    row[o + 2] := v;
    row[o + 3] := 255;
  }

  method MakeRow(tick: int, width: nat) returns (row: array<int>)
    requires width >= BANDS
    ensures fresh(row) && IsRow(row[..], tick, width)
  {
    var bandW := width / BANDS;
    row := new int[width * 4];
    for x := 0 to width
      invariant Painted(row[..], tick, x, width)
    {
      var q := x / bandW;
      var b := if q < BANDS - 1 then q else BANDS - 1;
      var v := if BandOn(tick, b) then 230 else 20;
      PaintedNext(row[..], tick, x, width);
      Paint(row, x, v);
    }
  }

  lemma Powers()
    ensures Pow2(0) == 1 && Pow2(1) == 2 && Pow2(2) == 4 && Pow2(3) == 8 && Pow2(4) == 16 && Pow2(5) == 32
            && Pow2(6) == 64
  {
    assert Pow2(3) == 8;
    assert Pow2(5) == 32;
  }

  /** The bytes of a pixel: opaque, and grey 230 where its band is the fifth or stands for a bit of the tick that is
      set, and 20 elsewhere. The first four bands stand for the bits 0 to 3, the last three for 4 to 6. */
  lemma RowBytes(row: seq<int>, tick: int, width: nat, x: nat)
    requires width >= BANDS && IsRow(row, tick, width) && x < width
    ensures var b := x / (width / 8);
            && row[4 * x] == row[4 * x + 1] == row[4 * x + 2] && row[4 * x + 3] == 255
            && row[4 * x] == (if b == 4 then 230
                              else if (if b == 0 then tick % 2 else if b == 1 then tick / 2 % 2
                                       else if b == 2 then tick / 4 % 2 else if b == 3 then tick / 8 % 2
                                       else if b == 5 then tick / 16 % 2 else if b == 6 then tick / 32 % 2
                                       else tick / 64 % 2) == 1 then 230
                              else 20)
  {
    Powers();
    var p := Pixel(row, x);
    assert p[0] == row[4 * x] && p[1] == row[4 * x + 1] && p[2] == row[4 * x + 2] && p[3] == row[4 * x + 3];
    assert p == Shade(tick, x, width);
  }

  // ---------------------------------------------------------------- reading a row

  lemma BandFits(b: nat, w: nat)
    requires b < BANDS && w >= 1
    ensures b * w < 8 * w
  {
  }

  /** A multiple of `d` from 0 to d - 1 is zero. */
  lemma Between(n: int, d: nat)
    requires d >= 1 && 0 <= n * d < d
    ensures n == 0
  {
  }

  lemma DivFits(x: nat, d: nat, q: nat)
    requires d >= 1 && x == q * d
    ensures x / d == q
  {
    var k, r := x / d, x % d;
    assert (q - k) * d == r;
    Between(q - k, d);
  }

  lemma MulDiv(b: nat, w: nat)
    requires w >= 1
    ensures b * w / w == b
  {
    DivFits(b * w, w, b);
  }

  lemma BandStart(width: nat, b: nat)
    requires width >= BANDS && b < BANDS
    ensures b * (width / BANDS) < width && BandOf(b * (width / BANDS), width) == b
  {
    var bandW := width / BANDS;
    BandFits(b, bandW);
    assert 8 * bandW <= width;
    MulDiv(b, bandW);
  }

  /** One pixel of each band, anywhere in it. */
  predicate OneInEach(xs: seq<nat>, width: nat)
    requires width >= BANDS
  {
    |xs| == BANDS && forall b :: 0 <= b < BANDS ==> xs[b] < width && BandOf(xs[b], width) == b
  }

  /** The first pixel of each band. */
  function FirstPixels(width: nat): (xs: seq<nat>)
    requires width >= BANDS
    ensures OneInEach(xs, width)
  {
    var w := width / BANDS;
    forall b | 0 <= b < BANDS ensures b * w < width && BandOf(b * w, width) == b {
      BandStart(width, b);
    }
    seq(BANDS, b requires 0 <= b < BANDS => b * w)
  }

  /** Is pixel `x` lit? */
  predicate Sampled(row: seq<int>, width: nat, x: nat)
    requires |row| == 4 * width && x < width
  {
    row[4 * x] == LIT
  }

  function Weight(on: bool, weight: nat): nat {
    if on then weight else 0
  }

  /** The tick, modulo 128, that a row shows at the pixels `xs`. */
  function Decode(row: seq<int>, width: nat, xs: seq<nat>): nat
    requires width >= BANDS && |row| == 4 * width && OneInEach(xs, width)
  {
    Weight(Sampled(row, width, xs[0]), 1) + Weight(Sampled(row, width, xs[1]), 2)
    + Weight(Sampled(row, width, xs[2]), 4) + Weight(Sampled(row, width, xs[3]), 8)
    + Weight(Sampled(row, width, xs[5]), 16)
    + Weight(Sampled(row, width, xs[6]), 32) + Weight(Sampled(row, width, xs[7]), 64)
  }

  lemma SampledIsOn(row: seq<int>, tick: int, width: nat, x: nat)
    requires width >= BANDS && IsRow(row, tick, width) && x < width
    ensures Sampled(row, width, x) <==> BandOn(tick, BandOf(x, width))
  {
    assert Pixel(row, x)[0] == Level(tick, BandOf(x, width));
  }

  lemma Halve(x: int)
    ensures x == 2 * (x / 2) + x % 2
  {
  }

  lemma Halves(x: int)
    ensures x / 2 / 2 == x / 4 && x / 4 / 2 == x / 8 && x / 8 / 2 == x / 16
    ensures x / 16 / 2 == x / 32 && x / 32 / 2 == x / 64 && x / 64 / 2 == x / 128
  {
  }

  lemma BitsOfTick(tick: int)
    ensures tick % 128 == tick % 2 + 2 * (tick / 2 % 2) + 4 * (tick / 4 % 2) + 8 * (tick / 8 % 2) + 16 * (tick / 16 % 2)
                          + 32 * (tick / 32 % 2) + 64 * (tick / 64 % 2)
  {
    Halves(tick);
    Halve(tick);
    Halve(tick / 2);
    Halve(tick / 4);
    Halve(tick / 8);
    Halve(tick / 16);
    Halve(tick / 32);
    Halve(tick / 64);
    assert tick == 128 * (tick / 128) + tick % 128;
  }

  function Shown(tick: int): nat {
    Weight(BandOn(tick, 0), 1) + Weight(BandOn(tick, 1), 2) + Weight(BandOn(tick, 2), 4) + Weight(BandOn(tick, 3), 8)
    + Weight(BandOn(tick, 5), 16) + Weight(BandOn(tick, 6), 32) + Weight(BandOn(tick, 7), 64)
  }

  lemma TickBits(tick: int)
    ensures TickBit(tick, 0) == tick % 2 && TickBit(tick, 1) == tick / 2 % 2 && TickBit(tick, 2) == tick / 4 % 2
    ensures TickBit(tick, 3) == tick / 8 % 2 && TickBit(tick, 4) == tick / 16 % 2
    ensures TickBit(tick, 5) == tick / 32 % 2 && TickBit(tick, 6) == tick / 64 % 2
  {
    Powers();
  }

  lemma ShownBits(tick: int)
    ensures Shown(tick) == TickBit(tick, 0) + 2 * TickBit(tick, 1) + 4 * TickBit(tick, 2) + 8 * TickBit(tick, 3)
                           + 16 * TickBit(tick, 4) + 32 * TickBit(tick, 5) + 64 * TickBit(tick, 6)
  {
  }

  lemma ShownIsTick(tick: int)
    ensures Shown(tick) == tick % 128
  {
    ShownBits(tick);
    TickBits(tick);
    BitsOfTick(tick);
  }

  /** One pixel of each band, wherever in it, decodes the row, whatever the width. */
  lemma DecodeRow(row: seq<int>, tick: int, width: nat, xs: seq<nat>)
    requires width >= BANDS && IsRow(row, tick, width) && OneInEach(xs, width)
    ensures Decode(row, width, xs) == tick % 128
  {
    forall b | 0 <= b < BANDS ensures Sampled(row, width, xs[b]) <==> BandOn(tick, b) {
      SampledIsOn(row, tick, width, xs[b]);
    }
    ShownIsTick(tick);
  }

  lemma Peel(x: int, a: int, y: int, b: int)
    requires 0 <= x <= 1 && 0 <= y <= 1 && x + 2 * a == y + 2 * b
    ensures x == y && a == b
  {
  }

  /** Seven binary digits are determined by their sum. */
  lemma SameDigits(a: seq<int>, b: seq<int>)
    requires |a| == |b| == 7
    requires forall i :: 0 <= i < 7 ==> 0 <= a[i] <= 1 && 0 <= b[i] <= 1
    requires a[0] + 2 * a[1] + 4 * a[2] + 8 * a[3] + 16 * a[4] + 32 * a[5] + 64 * a[6]
             == b[0] + 2 * b[1] + 4 * b[2] + 8 * b[3] + 16 * b[4] + 32 * b[5] + 64 * b[6]
    ensures a == b
  {
    var a5, b5 := a[5] + 2 * a[6], b[5] + 2 * b[6];
    var a4, b4 := a[4] + 2 * a5, b[4] + 2 * b5;
    var a3, b3 := a[3] + 2 * a4, b[3] + 2 * b4;
    var a2, b2 := a[2] + 2 * a3, b[2] + 2 * b3;
    var a1, b1 := a[1] + 2 * a2, b[1] + 2 * b2;
    Peel(a[0], a1, b[0], b1);
    Peel(a[1], a2, b[1], b2);
    Peel(a[2], a3, b[2], b3);
    Peel(a[3], a4, b[3], b4);
    Peel(a[4], a5, b[4], b5);
    Peel(a[5], a[6], b[5], b[6]);
  }

  function LowBits(tick: int): seq<int> {
    [TickBit(tick, 0), TickBit(tick, 1), TickBit(tick, 2), TickBit(tick, 3), TickBit(tick, 4), TickBit(tick, 5),
      TickBit(tick, 6)]
  }

  lemma SameBands(t: int, u: int, b: nat)
    requires b < BANDS && t % 128 == u % 128
    ensures BandOn(t, b) <==> BandOn(u, b)
  {
    ShownIsTick(t);
    ShownIsTick(u);
    ShownBits(t);
    ShownBits(u);
    SameDigits(LowBits(t), LowBits(u));
    if b != ANCHOR {
      assert TickBit(t, BitOfBand(b)) == LowBits(t)[BitOfBand(b)];
      assert TickBit(u, BitOfBand(b)) == LowBits(u)[BitOfBand(b)];
    }
  }

  /** Two rows of one width are equal exactly when the low seven bits of their ticks are. */
  lemma RowsEqual(row: seq<int>, other: seq<int>, t: int, u: int, width: nat)
    requires width >= BANDS && IsRow(row, t, width) && IsRow(other, u, width)
    ensures row == other <==> t % 128 == u % 128
  {
    DecodeRow(row, t, width, FirstPixels(width));
    DecodeRow(other, u, width, FirstPixels(width));
    if t % 128 == u % 128 {
      forall i | 0 <= i < |row| ensures row[i] == other[i] {
        var x := i / 4;
        SameBands(t, u, BandOf(x, width));
        assert row[i] == Pixel(row, x)[i - 4 * x] && other[i] == Pixel(other, x)[i - 4 * x];
      }
    }
  }
}
