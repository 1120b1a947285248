/** From the bytes of a scanline to samples: bit depths 1, 2, 4, 8 and 16, and the added alpha channel. */
module PngSamples {
  import opened BitStream

  predicate Depth(depth: nat) {
    depth == 1 || depth == 2 || depth == 4 || depth == 8 || depth == 16
  }

  /** Section 7.2 of the PNG specification packs samples of fewer than 8 bits into bytes, the leftmost in the
      high-order bits: the value of the low-order bit of sample `r`. */
  function Unit(depth: nat, r: nat): (u: nat)
    requires depth == 1 || depth == 2 || depth == 4
    ensures u > 0
  {
    if depth == 4 then (if r == 0 then 16 else 1)
    else if depth == 2 then (if r == 0 then 64 else if r == 1 then 16 else if r == 2 then 4 else 1)
    else (if r == 0 then 128 else if r == 1 then 64 else if r == 2 then 32 else if r == 3 then 16
          else if r == 4 then 8 else if r == 5 then 4 else if r == 6 then 2 else 1)
  }

  /** The number of values a sample can take. */
  function Range(depth: nat): (n: nat)
    requires depth == 1 || depth == 2 || depth == 4
    ensures n > 0
  {
    if depth == 4 then 16 else if depth == 2 then 4 else 2
  }

  /** Sample `r` of a packed byte. */
  function Packed(b: Byte, depth: nat, r: nat): nat
    requires depth == 1 || depth == 2 || depth == 4
  {
    b / Unit(depth, r) % Range(depth)
  }

  /** How many samples a byte packs. */
  function PerByte(depth: nat): (n: nat)
    requires depth == 1 || depth == 2 || depth == 4
    ensures n > 0
  {
    if depth == 4 then 2 else if depth == 2 then 4 else 8
  }

  /** The bytes a scanline of `n` samples takes. */
  function RowBytes(n: nat, depth: nat): nat {
    (n * depth + 7) / 8
  }

  lemma SampleInRow(n: nat, depth: nat, s: nat)
    requires Depth(depth) && s < n
    ensures depth < 8 ==> s / PerByte(depth) < RowBytes(n, depth)
    ensures depth == 8 ==> s < RowBytes(n, depth)
    ensures depth == 16 ==> 2 * s + 1 < RowBytes(n, depth)
  {
    assert depth == 1 ==> n * depth == n;
    assert depth == 2 ==> n * depth == 2 * n;
    assert depth == 4 ==> n * depth == 4 * n;
    assert depth == 8 ==> n * depth == 8 * n;
    assert depth == 16 ==> n * depth == 16 * n;
  }

  /** Sample `s` of a scanline of `n` samples; 16-bit samples have the high byte first. */
  function Sample(row: seq<Byte>, n: nat, depth: nat, s: nat): nat
    requires Depth(depth) && s < n && |row| == RowBytes(n, depth)
  {
    SampleInRow(n, depth, s);
    if depth == 8 then row[s]
    else if depth == 16 then row[2 * s] * 256 + row[2 * s + 1]
    else Packed(row[s / PerByte(depth)], depth, s % PerByte(depth))
  }

  /** Grayscale samples of fewer than eight bits are stretched to 0..255. */
  function Scale(depth: nat, color: nat): nat {
    if depth >= 8 || color != 0 then 1 else if depth == 4 then 0x11 else if depth == 2 then 0x55 else 0xff
  }

  function Opaque(depth: nat): nat {
    if depth == 16 then 0xffff else 255
  }

  /** The samples of a scanline, scaled. */
  function Samples(row: seq<Byte>, n: nat, depth: nat, color: nat): (s: seq<nat>)
    requires Depth(depth) && |row| == RowBytes(n, depth)
    ensures |s| == n
  {
    seq(n, i requires 0 <= i < n => Scaled(row, n, depth, color, i))
  }

  function Scaled(row: seq<Byte>, n: nat, depth: nat, color: nat, i: nat): nat
    requires Depth(depth) && i < n && |row| == RowBytes(n, depth)
  {
    Scale(depth, color) * Sample(row, n, depth, i)
  }

  /** The samples of `n` pixels of `k` channels with an opaque alpha after each. */
  function WithAlpha(s: seq<nat>, n: nat, k: nat, opaque_value: nat): (r: seq<nat>)
    requires |s| == n * k
    ensures |r| == n * (k + 1)
  {
    if n == 0 then [] else
      NextTimes(n - 1, k);
      NextTimes(n - 1, k + 1);
      WithAlpha(s[..(n - 1) * k], n - 1, k, opaque_value) + s[(n - 1) * k..] + [opaque_value]
  }

  lemma NextTimes(n: nat, m: nat)
    ensures (n + 1) * m == n * m + m
  {
  }

  lemma {:induction false} WithAlpha1At(s: seq<nat>, n: nat, v: nat, i: nat)
    requires |s| == n * 1 && i < n
    ensures WithAlpha(s, n, 1, v)[2 * i] == s[i] && WithAlpha(s, n, 1, v)[2 * i + 1] == v
  {
    var before := WithAlpha(s[..(n - 1) * 1], n - 1, 1, v);
    assert WithAlpha(s, n, 1, v) == before + s[(n - 1) * 1..] + [v];
    if i < n - 1 {
      WithAlpha1At(s[..(n - 1) * 1], n - 1, v, i);
    }
  }

  lemma {:induction false} WithAlpha3At(s: seq<nat>, n: nat, v: nat, i: nat)
    requires |s| == n * 3 && i < n
    ensures WithAlpha(s, n, 3, v)[4 * i] == s[3 * i] && WithAlpha(s, n, 3, v)[4 * i + 1] == s[3 * i + 1]
    ensures WithAlpha(s, n, 3, v)[4 * i + 2] == s[3 * i + 2] && WithAlpha(s, n, 3, v)[4 * i + 3] == v
  {
    var before := WithAlpha(s[..(n - 1) * 3], n - 1, 3, v);
    assert WithAlpha(s, n, 3, v) == before + s[(n - 1) * 3..] + [v];
    if i < n - 1 {
      WithAlpha3At(s[..(n - 1) * 3], n - 1, v, i);
    }
  }

  /** The output row of a scanline. */
  function OutRow(row: seq<Byte>, x: nat, img_n: nat, out_n: nat, depth: nat, color: nat): (r: seq<nat>)
    requires Depth(depth) && |row| == RowBytes(x * img_n, depth) && (out_n == img_n || out_n == img_n + 1)
    ensures |r| == x * out_n
  {
    var s := Samples(row, x * img_n, depth, color);
    if out_n == img_n then s else WithAlpha(s, x, img_n, Opaque(depth))
  }

  // ------------------------------------------------------------------------------------- alpha channel

  /** Outside `from..to` the array is as it was. */
  twostate predicate OnlyWithin(a: array<nat>, from: nat, to: nat)
    reads a
  {
    forall t :: 0 <= t < a.Length && !(from <= t < to) ==> a[t] == old(a[t])
  }

  /** `stbi__create_png_alpha_expand8` for one channel, from the last pixel to the first; the source may be the
      start of the destination itself. */
  method AlphaExpand1(dest: array<nat>, d: nat, src: array<nat>, o: nat, x: nat)
    requires d + 2 * x <= dest.Length && o + x <= src.Length && (dest == src ==> d == o)
    modifies dest
    ensures dest[d..d + 2 * x] == WithAlpha(old(src[o..o + x]), x, 1, 255)
    ensures OnlyWithin(dest, d, d + 2 * x)
  {
    hide WithAlpha, Pair, Pairs;
    ghost var s := src[o..o + x];
    var i := x - 1;
    PairsNone(dest[d..d + 2 * x], s, x);
    while i >= 0
      invariant -1 <= i < x
      invariant src[o..o + (i + 1)] == s[..i + 1]
      invariant Pairs(dest[d..d + 2 * x], s, i + 1, x)
      invariant OnlyWithin(dest, d, d + 2 * x)
    {
      ghost var r := dest[d..d + 2 * x];
      label Before:
      AlphaPixel1(dest, d, src, o, x, i, s);
      forall t | 2 * i + 2 <= t < 2 * x
        ensures dest[d..d + 2 * x][t] == r[t]
      {
        assert r[t] == old@Before(dest[d + t]);
      }
      PairsKeep(r, dest[d..d + 2 * x], s, i, x);
      i := i - 1;
    }
    Alpha1Slice(dest[d..d + 2 * x], s, x);
  }

  /** Pixel `k` of `r` is pixel `k` of `s` with an alpha. */
  predicate Pair(r: seq<nat>, s: seq<nat>, k: nat)
    requires 2 * k + 2 <= |r| && k < |s|
  {
    r[2 * k] == s[k] && r[2 * k + 1] == 255
  }

  predicate Pairs(r: seq<nat>, s: seq<nat>, from: nat, x: nat)
    requires |r| == 2 * x && |s| == x
  {
    forall k :: from <= k < x ==> Pair(r, s, k)
  }

  lemma PairsNone(r: seq<nat>, s: seq<nat>, x: nat)
    requires |r| == 2 * x && |s| == x
    ensures Pairs(r, s, x, x)
  {
  }

  lemma PairsKeep(r: seq<nat>, r': seq<nat>, s: seq<nat>, i: nat, x: nat)
    requires |r| == |r'| == 2 * x && |s| == x && i < x
    requires (forall t :: 2 * i + 2 <= t < 2 * x ==> r'[t] == r[t]) && Pairs(r, s, i + 1, x) && Pair(r', s, i)
    ensures Pairs(r', s, i, x)
  {
    forall k | i < k < x
      ensures Pair(r', s, k)
    {
      assert Pair(r, s, k);
      assert r'[2 * k] == r[2 * k] && r'[2 * k + 1] == r[2 * k + 1];
    }
  }

  method AlphaPixel1(dest: array<nat>, d: nat, src: array<nat>, o: nat, x: nat, i: nat, ghost s: seq<nat>)
    requires d + 2 * x <= dest.Length && o + x <= src.Length && (dest == src ==> d == o)
    requires i < x && |s| == x && src[o..o + (i + 1)] == s[..i + 1]
    modifies dest
    ensures src[o..o + i] == s[..i]
    ensures Pair(dest[d..d + 2 * x], s, i)
    ensures OnlyWithin(dest, d + 2 * i, d + 2 * i + 2)
  {
    assert s[i] == src[o..o + (i + 1)][i];
    ghost var before := src[o..o + i];
    assert before == src[o..o + (i + 1)][..i] == s[..i];
    dest[d + i * 2 + 1] := 255;
    dest[d + i * 2] := src[o + i];
    assert src[o..o + i] == before;
  }

  lemma Alpha1Slice(r: seq<nat>, s: seq<nat>, x: nat)
    requires |r| == 2 * x && |s| == x && Pairs(r, s, 0, x)
    ensures r == WithAlpha(s, x, 1, 255)
  {
    forall t | 0 <= t < 2 * x
      ensures r[t] == WithAlpha(s, x, 1, 255)[t]
    {
      WithAlpha1At(s, x, 255, t / 2);
      assert Pair(r, s, t / 2);
    }
  }

  /** `stbi__create_png_alpha_expand8` for three channels. */
  method AlphaExpand3(dest: array<nat>, d: nat, src: array<nat>, o: nat, x: nat)
    requires d + 4 * x <= dest.Length && o + 3 * x <= src.Length && (dest == src ==> d == o)
    modifies dest
    ensures dest[d..d + 4 * x] == WithAlpha(old(src[o..o + 3 * x]), x, 3, 255)
    ensures OnlyWithin(dest, d, d + 4 * x)
  {
    hide Quad, Quads, WithAlpha;
    ghost var s := src[o..o + 3 * x];
    var i := x - 1;
    QuadsNone(dest[d..d + 4 * x], s, x);
    assert s[..3 * x] == s;
    while i >= 0
      invariant -1 <= i < x
      invariant src[o..o + 3 * (i + 1)] == s[..3 * (i + 1)]
      invariant Quads(dest[d..d + 4 * x], s, i + 1, x)
      invariant OnlyWithin(dest, d, d + 4 * x)
    {
      ghost var r := dest[d..d + 4 * x];
      label Before:
      AlphaPixel3(dest, d, src, o, x, i, s);
      forall t | 4 * i + 4 <= t < 4 * x
        ensures dest[d..d + 4 * x][t] == r[t]
      {
        assert r[t] == old@Before(dest[d + t]);
      }
      QuadsKeep(r, dest[d..d + 4 * x], s, i, x);
      i := i - 1;
    }
    Alpha3Slice(dest[d..d + 4 * x], s, x);
  }

  /** Pixel `k` of `r` is pixel `k` of `s` with an alpha. */
  predicate Quad(r: seq<nat>, s: seq<nat>, k: nat)
    requires 4 * k + 4 <= |r| && 3 * k + 3 <= |s|
  {
    r[4 * k] == s[3 * k] && r[4 * k + 1] == s[3 * k + 1] && r[4 * k + 2] == s[3 * k + 2] && r[4 * k + 3] == 255
  }

  predicate Quads(r: seq<nat>, s: seq<nat>, from: nat, x: nat)
    requires |r| == 4 * x && |s| == 3 * x
  {
    forall k :: from <= k < x ==> Quad(r, s, k)
  }

  lemma QuadsNone(r: seq<nat>, s: seq<nat>, x: nat)
    requires |r| == 4 * x && |s| == 3 * x
    ensures Quads(r, s, x, x)
  {
  }

  lemma QuadsKeep(r: seq<nat>, r': seq<nat>, s: seq<nat>, i: nat, x: nat)
    requires |r| == |r'| == 4 * x && |s| == 3 * x && i < x
    requires (forall t :: 4 * i + 4 <= t < 4 * x ==> r'[t] == r[t]) && Quads(r, s, i + 1, x) && Quad(r', s, i)
    ensures Quads(r', s, i, x)
  {
    forall k | i < k < x
      ensures Quad(r', s, k)
    {
      assert Quad(r, s, k);
      assert r'[4 * k] == r[4 * k] && r'[4 * k + 1] == r[4 * k + 1];
      assert r'[4 * k + 2] == r[4 * k + 2] && r'[4 * k + 3] == r[4 * k + 3];
    }
  }

  method AlphaPixel3(dest: array<nat>, d: nat, src: array<nat>, o: nat, x: nat, i: nat, ghost s: seq<nat>)
    requires d + 4 * x <= dest.Length && o + 3 * x <= src.Length && (dest == src ==> d == o)
    requires i < x && |s| == 3 * x && src[o..o + 3 * (i + 1)] == s[..3 * (i + 1)]
    modifies dest
    ensures src[o..o + 3 * i] == s[..3 * i]
    ensures Quad(dest[d..d + 4 * x], s, i)
    ensures OnlyWithin(dest, d + 4 * i, d + 4 * i + 4)
  {
    ghost var k := 3 * i;
    PrefixEnd(src[o..o + 3 * (i + 1)], s, k);
    assert src[o..o + k] == src[o..o + 3 * (i + 1)][..k];
    ghost var before := src[o..o + k];
    Pixel3(dest, d + i * 4, src, o + i * 3);
    assert src[o..o + k] == before;
    ghost var r := dest[d..d + 4 * x];
    assert r[4 * i] == dest[d + 4 * i] && r[4 * i + 1] == dest[d + 4 * i + 1];
    assert r[4 * i + 2] == dest[d + 4 * i + 2] && r[4 * i + 3] == dest[d + 4 * i + 3];
  }

  /** The last three of a prefix, and the rest of it. */
  lemma PrefixEnd(w: seq<nat>, s: seq<nat>, k: nat)
    requires |w| == k + 3 <= |s| && w == s[..k + 3]
    ensures w[k] == s[k] && w[k + 1] == s[k + 1] && w[k + 2] == s[k + 2] && w[..k] == s[..k]
  {
  }

  /** One pixel, the alpha first and the first channel last. */
  method Pixel3(dest: array<nat>, d: nat, src: array<nat>, o: nat)
    requires d + 4 <= dest.Length && o + 3 <= src.Length && (dest == src ==> o <= d)
    modifies dest
    ensures dest[d] == old(src[o]) && dest[d + 1] == old(src[o + 1]) && dest[d + 2] == old(src[o + 2])
    ensures dest[d + 3] == 255
    ensures OnlyWithin(dest, d, d + 4)
  {
    dest[d + 3] := 255;
    dest[d + 2] := src[o + 2];
    dest[d + 1] := src[o + 1];
    dest[d] := src[o];
  }

  lemma Alpha3Slice(r: seq<nat>, s: seq<nat>, x: nat)
    requires |r| == 4 * x && |s| == 3 * x && Quads(r, s, 0, x)
    ensures r == WithAlpha(s, x, 3, 255)
  {
    forall t | 0 <= t < 4 * x
      ensures r[t] == WithAlpha(s, x, 3, 255)[t]
    {
      WithAlpha3At(s, x, 255, t / 4);
      assert Quad(r, s, t / 4);
    }
  }

  // ---------------------------------------------------------------------------------- packed samples

  /** What `r` shifts by a sample have multiplied the rest of a byte by. */
  function Gain(depth: nat, r: nat): (u: nat)
    requires depth == 1 || depth == 2 || depth == 4
    ensures u > 0
  {
    if depth == 4 then (if r == 0 then 1 else 16)
    else if depth == 2 then (if r == 0 then 1 else if r == 1 then 4 else if r == 2 then 16 else 64)
    else (if r == 0 then 1 else if r == 1 then 2 else if r == 2 then 4 else if r == 3 then 8
          else if r == 4 then 16 else if r == 5 then 32 else if r == 6 then 64 else 128)
  }

  /** A byte after `r` of its samples have been shifted out at the high-order end. */
  function Shifted(b: Byte, depth: nat, r: nat): nat
    requires depth == 1 || depth == 2 || depth == 4
  {
    b % (Unit(depth, r) * Range(depth)) * Gain(depth, r)
  }

  /** `inb >> 8 - depth`. */
  function TopBits(b: Byte, depth: nat): Byte
    requires depth == 1 || depth == 2 || depth == 4
  {
    if depth == 4 then b / 16 else if depth == 2 then b / 64 else b / 128
  }

  /** `inb <<= depth`. */
  function ShiftOut(b: Byte, depth: nat): Byte
    requires depth == 1 || depth == 2 || depth == 4
  {
    if depth == 4 then b * 16 % 256 else if depth == 2 then b * 4 % 256 else b * 2 % 256
  }

  lemma TimesMonotone(d: nat, a: nat, b: nat)
    requires a <= b
    ensures d * a <= d * b
  {
  }

  lemma DivUnique(a: nat, d: nat, q: nat, r: nat)
    requires a == d * q + r && r < d
    ensures a / d == q && a % d == r
  {
    assert a == d * (a / d) + a % d;
    if a / d > q {
      TimesMonotone(d, q + 1, a / d);
    } else if a / d < q {
      TimesMonotone(d, a / d + 1, q);
    }
  }

  /** The part of `b` below `m = h * n` has the digit of `b` at `h` on top and the part below `h` under it. */
  lemma LowerDigits(b: nat, h: nat, n: nat, m: nat)
    requires h > 0 && n > 0 && m == h * n
    ensures 0 < m && b % m / h == b / h % n && b % m % h == b % h
  {
    var c := b / h;
    assert b == h * c + b % h && c == n * (c / n) + c % n;
    LowerPart(b, h, n, m, c, c / n, c % n, b % h);
  }

  lemma LowerPart(b: nat, h: nat, n: nat, m: nat, c: nat, q: nat, t: nat, u: nat)
    requires m == h * n && u < h && t < n && c == n * q + t && b == h * c + u
    ensures 0 < m && b % m / h == t && b % m % h == u
  {
    Regroup(h, n, q, t, u);
    TimesMonotone(h, t + 1, n);
    DivUnique(b, m, q, h * t + u);
    assert b % m == h * t + u;
    DivUnique(b % m, h, t, u);
  }

  lemma Regroup(h: nat, n: nat, q: nat, t: nat, u: nat)
    ensures h * (n * q + t) + u == h * n * q + (h * t + u)
  {
    assert h * (n * q + t) == h * (n * q) + h * t;
    TimesAssociates(h, n, q);
  }

  /** `s * k` has the digit of `s` at `h` at the place `h * k`. */
  lemma TopDigit(s: nat, h: nat, k: nat)
    requires h > 0 && k > 0
    ensures h * k > 0 && s * k / (h * k) == s / h && s * k == h * k * (s / h) + s % h * k && s % h * k + k <= h * k
  {
    var t, u := s / h, s % h;
    assert s * k == h * k * t + u * k by {
      assert s == h * t + u;
      assert (h * t + u) * k == h * t * k + u * k;
      assert h * t * k == h * k * t;
    }
    TimesMonotone(k, u + 1, h);
    DivUnique(s * k, h * k, t, u * k);
  }

  /** Multiplying by `n` modulo 256 drops the top digit. */
  lemma DropTop(v: nat, base: nat, t: nat, w: nat, n: nat)
    requires base * n == 256 && v == base * t + w && w < base
    ensures v * n % 256 == w * n
  {
    assert v * n == 256 * t + w * n by {
      assert (base * t + w) * n == base * t * n + w * n;
      assert base * t * n == base * n * t;
    }
    TimesMonotone(n, w + 1, base);
    DivUnique(v * n, 256, t, w * n);
  }

  /** Taking the top digit of `s * k` and shifting it out takes the digit at `h` off `s`. */
  lemma DropDigit(s: nat, h: nat, k: nat, n: nat)
    requires h * k * n == 256 && s < h * n && h > 0 && k > 0
    ensures s * k < 256 && s * k / (h * k) == s / h && s * k * n % 256 == s % h * (k * n)
  {
    TopDigit(s, h, k);
    DropTop(s * k, h * k, s / h, s % h * k, n);
    TimesAssociates(s % h, k, n);
    BelowProduct(s, h, k, n);
  }

  lemma TimesAssociates(a: nat, b: nat, c: nat)
    ensures a * b * c == a * (b * c)
  {
  }

  lemma BelowProduct(s: nat, h: nat, k: nat, n: nat)
    requires h * k * n == 256 && s < h * n && k > 0
    ensures s * k < 256
  {
    TimesMonotone(k, s + 1, h * n);
    assert k * (h * n) == h * k * n;
  }

  lemma UnitGain(depth: nat, r: nat)
    requires (depth == 1 || depth == 2 || depth == 4) && r < PerByte(depth)
    ensures Unit(depth, r) * Gain(depth, r) * Range(depth) == 256
    ensures r + 1 < PerByte(depth) ==>
      Unit(depth, r) == Unit(depth, r + 1) * Range(depth) && Gain(depth, r + 1) == Gain(depth, r) * Range(depth)
  {
  }

  /** The top bits of the shifted byte are its next packed sample. */
  lemma TopIsPacked(b: Byte, depth: nat, r: nat)
    requires (depth == 1 || depth == 2 || depth == 4) && r < PerByte(depth)
    ensures Shifted(b, depth, r) < 256
    ensures TopBits(Shifted(b, depth, r), depth) == Packed(b, depth, r)
    ensures r + 1 < PerByte(depth) ==> ShiftOut(Shifted(b, depth, r), depth) == Shifted(b, depth, r + 1)
  {
    var h, k, n := Unit(depth, r), Gain(depth, r), Range(depth);
    hide Unit, Gain;
    UnitGain(depth, r);
    LowerDigits(b, h, n, h * n);
    DropDigit(b % (h * n), h, k, n);
    assert h * k == if depth == 4 then 16 else if depth == 2 then 64 else 128;
  }

  /** The next sample is in the same byte, or is the first of the next byte. */
  lemma NextPlace(depth: nat, i: nat)
    requires depth == 1 || depth == 2 || depth == 4
    ensures (i + 1) % PerByte(depth) ==
      if i % PerByte(depth) + 1 == PerByte(depth) then 0 else i % PerByte(depth) + 1
    ensures (i + 1) / PerByte(depth) ==
      if i % PerByte(depth) + 1 == PerByte(depth) then i / PerByte(depth) + 1 else i / PerByte(depth)
  {
  }

  /** The loops that expand samples of 1, 2 or 4 bits to bytes. */
  method ExpandBits(buf: array<nat>, co: nat, out: array<nat>, d: nat, n: nat, depth: nat, color: nat,
                    ghost row: seq<Byte>)
    requires (depth == 1 || depth == 2 || depth == 4) && buf != out && |row| == RowBytes(n, depth)
    requires co + |row| <= buf.Length && buf[co..co + |row|] == row && d + n <= out.Length
    modifies out
    ensures out[d..d + n] == Samples(row, n, depth, color)
    ensures OnlyWithin(out, d, d + n)
  {
    hide Shifted, TopBits, ShiftOut, Packed, Scale, RowBytes, Scaled, PerByte, Product;
    var scale := Scale(depth, color);
    var i, at, inb := 0, 0, 0;
    while i < n
      invariant 0 <= i <= n && 0 <= inb < 256
      invariant at == if i % PerByte(depth) == 0 then i / PerByte(depth) else i / PerByte(depth) + 1
      invariant i % PerByte(depth) != 0 ==>
        i / PerByte(depth) < |row| && inb == Shifted(row[i / PerByte(depth)], depth, i % PerByte(depth))
      invariant forall t :: 0 <= t < i ==> out[d + t] == Scaled(row, n, depth, color, t)
      invariant OnlyWithin(out, d, d + n)
    {
      SampleInRow(n, depth, i);
      if i % PerByte(depth) == 0 {
        inb := buf[co + at];
        at := at + 1;
        assert inb == row[i / PerByte(depth)];
        ShiftedNone(inb, depth);
      }
      TopIsPacked(row[i / PerByte(depth)], depth, i % PerByte(depth));
      NextPlace(depth, i);
      ScaledPacked(row, n, depth, color, i);
      out[d + i] := Product(scale, TopBits(inb, depth));
      inb := ShiftOut(inb, depth);
      i := i + 1;
    }
    assert forall t :: 0 <= t < n ==> out[d..d + n][t] == Samples(row, n, depth, color)[t];
  }

  function Product(a: nat, b: nat): nat {
    a * b
  }

  lemma ShiftedNone(b: Byte, depth: nat)
    requires depth == 1 || depth == 2 || depth == 4
    ensures Shifted(b, depth, 0) == b
  {
    assert Unit(depth, 0) * Range(depth) == 256;
  }

  lemma ScaledPacked(row: seq<Byte>, n: nat, depth: nat, color: nat, i: nat)
    requires (depth == 1 || depth == 2 || depth == 4) && i < n && |row| == RowBytes(n, depth)
    ensures i / PerByte(depth) < |row|
    ensures Scaled(row, n, depth, color, i)
         == Product(Scale(depth, color), Packed(row[i / PerByte(depth)], depth, i % PerByte(depth)))
  {
    SampleInRow(n, depth, i);
  }
}
