/** What the samples of a PNG image are, in the words of the PNG specification: section 7.2 for how they lie in a
    scanline, section 12.5 for how they are stretched. */
module PngPixels {
  import opened Shifts
  import opened BitStream
  import opened PngSamples
  import opened PngImage

  // ------------------------------------------------------------------------------------- bits of a scanline

  /** Bit `i` of a scanline, from the left: the high-order bit of the first byte comes first. */
  function RowBit(row: seq<Byte>, i: nat): Bit
    requires i < 8 * |row|
  {
    Shr(row[i / 8], 7 - i % 8) % 2
  }

  /** The number that `n` bits write, the first the most significant. */
  function RowBits(row: seq<Byte>, p: nat, n: nat): nat
    requires p + n <= 8 * |row|
  {
    if n == 0 then 0 else 2 * RowBits(row, p, n - 1) + RowBit(row, p + n - 1)
  }

  lemma {:induction false} ShrOneMore(v: nat, n: nat)
    ensures Shr(v, n + 1) == Shr(v, n) / 2
    decreases n
  {
    if n > 0 {
      ShrOneMore(v / 2, n - 1);
    } else {
      assert Shr(v, 1) == Shr(v / 2, 0);
    }
  }

  /** Bits inside one byte. */
  lemma {:induction false} BitsInByte(row: seq<Byte>, q: nat, r: nat, n: nat)
    requires q < |row| && r + n <= 8
    ensures RowBits(row, 8 * q + r, n) == Low(Shr(row[q], 8 - r - n), n)
    decreases n
  {
    hide Shr, Low;
    if n > 0 {
      BitsInByte(row, q, r, n - 1);
      var i := 8 * q + r + n - 1;
      assert i / 8 == q && i % 8 == r + n - 1;
      ShrOneMore(row[q], 8 - r - n);
      LowOneMore(Shr(row[q], 8 - r - n), n);
    } else {
      LowNone(Shr(row[q], 8 - r));
    }
  }

  lemma LowOneMore(v: nat, n: nat)
    requires n > 0
    ensures Low(v, n) == 2 * Low(v / 2, n - 1) + v % 2
  {
  }

  lemma LowNone(v: nat)
    ensures Low(v, 0) == 0
  {
  }

  lemma {:induction false} BitsSplit(row: seq<Byte>, p: nat, m: nat, n: nat)
    requires p + m + n <= 8 * |row|
    ensures RowBits(row, p, m + n) == RowBits(row, p, m) * Pow2(n) + RowBits(row, p + m, n)
    decreases n
  {
    hide RowBit, Pow2;
    if n > 0 {
      BitsSplit(row, p, m, n - 1);
      TwiceScaled(RowBits(row, p, m), n);
    } else {
      assert Pow2(0) == 1 by {
        Pow2Values();
      }
    }
  }

  lemma TwiceScaled(v: nat, n: nat)
    requires n > 0
    ensures v * Pow2(n) == 2 * (v * Pow2(n - 1))
  {
  }

  // ----------------------------------------------------------------------------------------------- samples

  lemma PackedIs1(b: Byte, r: nat)
    requires r < 8
    ensures Packed(b, 1, r) == Low(Shr(b, 7 - r), 1)
  {
    Powers(b);
    assert forall v: nat :: Low(v, 1) == v % 2;
  }

  lemma PackedIs2(b: Byte, r: nat)
    requires r < 4
    ensures Packed(b, 2, r) == Low(Shr(b, 6 - 2 * r), 2)
  {
    hide Low, Shr;
    Powers(b);
    LowTwo(b / Unit(2, r));
  }

  lemma LowTwo(v: nat)
    ensures Low(v, 2) == v % 4
  {
    assert Low(v, 2) == v % 2 + 2 * Low(v / 2, 1) && Low(v / 2, 1) == v / 2 % 2;
  }

  lemma LowFour(v: nat)
    ensures Low(v, 4) == v % 16
  {
    LowTwo(v / 4);
    assert Low(v, 4) == v % 2 + 2 * Low(v / 2, 3) && Low(v / 2, 3) == v / 2 % 2 + 2 * Low(v / 2 / 2, 2);
    assert v / 2 / 2 == v / 4;
  }

  lemma PackedIs4(b: Byte, r: nat)
    requires r < 2
    ensures Packed(b, 4, r) == Low(Shr(b, 4 - 4 * r), 4)
  {
    hide Low, Shr;
    Powers(b);
    LowFour(b / Unit(4, r));
  }

  lemma Powers(v: nat)
    ensures Shr(v, 0) == v && Shr(v, 1) == v / 2 && Shr(v, 2) == v / 4 && Shr(v, 3) == v / 8
    ensures Shr(v, 4) == v / 16 && Shr(v, 5) == v / 32 && Shr(v, 6) == v / 64 && Shr(v, 7) == v / 128
  {
    ShrOneMore(v, 0);
    ShrOneMore(v, 1);
    ShrOneMore(v, 2);
    ShrOneMore(v, 3);
    ShrOneMore(v, 4);
    ShrOneMore(v, 5);
    ShrOneMore(v, 6);
  }

  lemma InRow(row: seq<Byte>, n: nat, depth: nat, s: nat)
    requires Depth(depth) && s < n && |row| == RowBytes(n, depth)
    ensures s * depth + depth <= 8 * |row|
  {
    SampleInRow(n, depth, s);
    Places(depth, s);
  }

  /** Where the bits of a sample are. */
  lemma Places(depth: nat, s: nat)
    requires Depth(depth)
    ensures depth == 1 ==> s * depth == 8 * (s / 8) + s % 8 && PerByte(depth) == 8
    ensures depth == 2 ==> s * depth == 8 * (s / 4) + 2 * (s % 4) && PerByte(depth) == 4
    ensures depth == 4 ==> s * depth == 8 * (s / 2) + 4 * (s % 2) && PerByte(depth) == 2
    ensures depth == 8 ==> s * depth == 8 * s
    ensures depth == 16 ==> s * depth == 8 * (2 * s)
  {
  }

  /** Samples are packed into scanlines from the left, each with its most significant bit first, at all depths. */
  lemma SampleIsBits(row: seq<Byte>, n: nat, depth: nat, s: nat)
    requires Depth(depth) && s < n && |row| == RowBytes(n, depth)
    ensures s * depth + depth <= 8 * |row| && Sample(row, n, depth, s) == RowBits(row, s * depth, depth)
  {
    hide RowBits, Packed, RowBytes, Low, Shr;
    InRow(row, n, depth, s);
    SampleInRow(n, depth, s);
    Places(depth, s);
    if depth == 1 {
      BitsInByte(row, s / 8, s % 8, 1);
      PackedIs1(row[s / 8], s % 8);
    } else if depth == 2 {
      BitsInByte(row, s / 4, 2 * (s % 4), 2);
      PackedIs2(row[s / 4], s % 4);
    } else if depth == 4 {
      BitsInByte(row, s / 2, 4 * (s % 2), 4);
      PackedIs4(row[s / 2], s % 2);
    } else if depth == 8 {
      WholeByte(row, s);
    } else {
      WholeByte(row, 2 * s);
      WholeByte(row, 2 * s + 1);
      BitsSplit(row, 8 * (2 * s), 8, 8);
      Pow2Values();
    }
  }

  lemma WholeByte(row: seq<Byte>, q: nat)
    requires q < |row|
    ensures RowBits(row, 8 * q, 8) == row[q]
  {
    hide RowBits;
    BitsInByte(row, q, 0, 8);
    Pow2Values();
    LowIdentity(row[q], 8);
  }

  /** The largest value of a sample in the output: 16 bits stay 16 bits, everything else becomes 8 bits. */
  function Brightest(depth: nat): nat {
    if depth == 16 then 65535 else 255
  }

  /** Gray samples of fewer than 8 bits are stretched evenly to 0..255; all others are what the scanline says. */
  lemma SampleMeans(row: seq<Byte>, n: nat, depth: nat, color: nat, i: nat)
    requires Depth(depth) && i < n && |row| == RowBytes(n, depth)
    ensures i * depth + depth <= 8 * |row|
    ensures var v, s := RowBits(row, i * depth, depth), Samples(row, n, depth, color)[i];
      if color == 0 && depth < 8 then s * (Pow2(depth) - 1) == v * 255 else s == v
  {
    hide RowBits, Sample, RowBytes, Pow2;
    SampleIsBits(row, n, depth, i);
    Pow2Values();
    assert Samples(row, n, depth, color)[i] == Scale(depth, color) * Sample(row, n, depth, i);
  }

  /** A scanline has as many bytes as its bits need. */
  lemma RowBytesLeast(n: nat, depth: nat)
    ensures n * depth <= 8 * RowBytes(n, depth) < n * depth + 8
  {
  }

  // ------------------------------------------------------------------------------------------------ images

  lemma AlphaNext(s: seq<nat>, n: nat, k: nat, v: nat)
    requires n > 0 && |s| == n * k
    ensures Off(n, k) == |s| == Off(n - 1, k) + k && Off(n, k + 1) == Off(n - 1, k + 1) + (k + 1) == n * (k + 1)
    ensures Off(n - 1, k) == (n - 1) * k && Off(n - 1, k + 1) == (n - 1) * (k + 1)
    ensures WithAlpha(s, n, k, v) == WithAlpha(s[..Off(n - 1, k)], n - 1, k, v) + s[Off(n - 1, k)..] + [v]
  {
    OffNext(n - 1, k);
    OffNext(n - 1, k + 1);
  }

  /** Channel `c` of pixel `i` of a row with an alpha channel added. */
  lemma {:induction false} AlphaAt(s: seq<nat>, n: nat, k: nat, v: nat, i: nat, c: nat)
    requires |s| == n * k && i < n && c <= k
    ensures Off(i, k + 1) + c < n * (k + 1) && (c < k ==> Off(i, k) + c < |s|)
    ensures WithAlpha(s, n, k, v)[Off(i, k + 1) + c] == if c < k then s[Off(i, k) + c] else v
    decreases n
  {
    hide Off, WithAlpha;
    AlphaNext(s, n, k, v);
    var some := s[..Off(n - 1, k)];
    if i < n - 1 {
      AlphaAt(some, n - 1, k, v, i, c);
      OffBefore(i, n - 1, k);
      OffBefore(i, n - 1, k + 1);
      FromFirst(WithAlpha(some, n - 1, k, v), s[Off(n - 1, k)..] + [v], Off(i, k + 1) + c);
    } else {
      FromLast(WithAlpha(some, n - 1, k, v), s[Off(n - 1, k)..], v, c);
    }
  }

  lemma FromFirst(a: seq<nat>, b: seq<nat>, t: nat)
    requires t < |a|
    ensures (a + b)[t] == a[t]
  {
  }

  lemma FromLast(a: seq<nat>, b: seq<nat>, v: nat, c: nat)
    requires c <= |b|
    ensures (a + b + [v])[|a| + c] == if c < |b| then b[c] else v
  {
  }

  lemma OffIs(n: nat, size: nat)
    ensures Off(n, size) == n * size
  {
  }

  /** Channel `c` of pixel `i` of an output row. */
  lemma RowPixel(row: seq<Byte>, x: nat, img_n: nat, out_n: nat, depth: nat, color: nat, i: nat, c: nat)
    requires Depth(depth) && |row| == RowBytes(x * img_n, depth) && (out_n == img_n || out_n == img_n + 1)
    requires i < x && c < out_n
    ensures Off(i, out_n) + c < x * out_n && (c < img_n ==> Off(i, img_n) + c < x * img_n)
    ensures OutRow(row, x, img_n, out_n, depth, color)[Off(i, out_n) + c]
         == if c < img_n then Samples(row, x * img_n, depth, color)[Off(i, img_n) + c] else Brightest(depth)
  {
    hide Off, Samples, WithAlpha, RowBytes;
    OffBefore(i, x, out_n);
    OffBefore(i, x, img_n);
    OffIs(x, out_n);
    OffIs(x, img_n);
    if out_n == img_n + 1 {
      AlphaAt(Samples(row, x * img_n, depth, color), x, img_n, Opaque(depth), i, c);
    }
  }

  lemma {:induction false} ImageRow(rows: seq<seq<Byte>>, x: nat, img_n: nat, out_n: nat, depth: nat, color: nat,
                                    j: nat)
    requires Depth(depth) && Width(rows, RowBytes(x * img_n, depth)) && (out_n == img_n || out_n == img_n + 1)
    requires j < |rows|
    ensures Off(j, x * out_n) + x * out_n <= Off(|rows|, x * out_n)
    ensures Image(rows, x, img_n, out_n, depth, color)[Off(j, x * out_n)..Off(j, x * out_n) + x * out_n]
         == OutRow(rows[j], x, img_n, out_n, depth, color)
    decreases |rows|
  {
    hide Off, OutRow, RowBytes;
    var n := |rows| - 1;
    OffBefore(j, n + 1, x * out_n);
    OffNext(n, x * out_n);
    var before, last := Image(rows[..n], x, img_n, out_n, depth, color), OutRow(rows[n], x, img_n, out_n, depth, color);
    assert Image(rows, x, img_n, out_n, depth, color) == before + last;
    if j < n {
      ImageRow(rows[..n], x, img_n, out_n, depth, color, j);
      OffBefore(j, n, x * out_n);
      SliceFirst(before, last, Off(j, x * out_n), x * out_n);
    } else {
      SliceLast(before, last);
    }
  }

  lemma SliceFirst(a: seq<nat>, b: seq<nat>, at: nat, n: nat)
    requires at + n <= |a|
    ensures (a + b)[at..at + n] == a[at..at + n]
  {
  }

  lemma SliceLast(a: seq<nat>, b: seq<nat>)
    ensures (a + b)[|a|..|a| + |b|] == b
  {
  }

  /** Channel `c` of the pixel in row `j` and column `i` of an image: the bits of the scanline, stretched evenly to
      0..255 if it is gray with fewer than 8 bits; or the opaque alpha that was added. */
  lemma ImagePixel(rows: seq<seq<Byte>>, x: nat, img_n: nat, out_n: nat, depth: nat, color: nat, j: nat, i: nat,
                   c: nat)
    requires Depth(depth) && Width(rows, RowBytes(x * img_n, depth)) && (out_n == img_n || out_n == img_n + 1)
    requires j < |rows| && i < x && c < out_n
    ensures var at := Off(j, x * out_n) + (Off(i, out_n) + c);
      && at < Off(|rows|, x * out_n)
      && var s, p := Image(rows, x, img_n, out_n, depth, color)[at], (Off(i, img_n) + c) * depth;
      if c == img_n then s == if depth == 16 then 65535 else 255
      else
        && p + depth <= 8 * |rows[j]|
        && if color == 0 && depth < 8 then s * (Pow2(depth) - 1) == RowBits(rows[j], p, depth) * 255
           else s == RowBits(rows[j], p, depth)
  {
    hide Off, OutRow, RowBytes, RowBits, Image, Samples, Pow2;
    ImageRow(rows, x, img_n, out_n, depth, color, j);
    RowPixel(rows[j], x, img_n, out_n, depth, color, i, c);
    var d, n := Off(j, x * out_n), x * out_n;
    var image := Image(rows, x, img_n, out_n, depth, color);
    assert image[d..d + n][Off(i, out_n) + c] == image[d + (Off(i, out_n) + c)];
    if c < img_n {
      SampleMeans(rows[j], x * img_n, depth, color, Off(i, img_n) + c);
    }
  }
}
