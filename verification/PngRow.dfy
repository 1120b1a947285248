/** From a reconstructed scanline in the filter workspace to a row of output samples. */
module PngRow {
  import opened BitStream
  import opened PngSamples

  lemma SamplesAt8(row: seq<Byte>, n: nat, color: nat, i: nat)
    requires |row| == RowBytes(n, 8) && i < n
    ensures |row| == n && Samples(row, n, 8, color)[i] == row[i]
  {
    SampleInRow(n, 8, i);
    assert Scaled(row, n, 8, color, i) == row[i];
  }

  lemma SamplesAt16(row: seq<Byte>, n: nat, color: nat, i: nat)
    requires |row| == RowBytes(n, 16) && i < n
    ensures |row| == 2 * n && Samples(row, n, 16, color)[i] == row[2 * i] as nat * 256 + row[2 * i + 1]
  {
    SampleInRow(n, 16, i);
    assert Scaled(row, n, 16, color, i) == row[2 * i] as nat * 256 + row[2 * i + 1];
  }

  lemma SamplesAre8(row: seq<Byte>, n: nat, color: nat)
    requires |row| == RowBytes(n, 8)
    ensures |row| == n && Samples(row, n, 8, color) == row
  {
    var s := Samples(row, n, 8, color);
    forall i | 0 <= i < n
      ensures |row| == n && s[i] == row[i]
    {
      SamplesAt8(row, n, color, i);
    }
  }

  lemma RowBytesAre(n: nat)
    ensures RowBytes(n, 8) == n && RowBytes(n, 16) == 2 * n
  {
  }

  /** The 16-bit loop without an alpha channel: big-endian pairs to samples. */
  method Join16(buf: array<nat>, co: nat, out: array<nat>, d: nat, n: nat, color: nat, ghost row: seq<Byte>)
    requires buf != out && |row| == RowBytes(n, 16)
    requires co + |row| <= buf.Length && buf[co..co + |row|] == row && d + n <= out.Length
    modifies out
    ensures out[d..d + n] == Samples(row, n, 16, color)
    ensures OnlyWithin(out, d, d + n)
  {
    hide Samples;
    RowBytesAre(n);
    var i := 0;
    while i < n
      invariant 0 <= i <= n
      invariant forall t :: 0 <= t < i ==> out[d + t] == Samples(row, n, 16, color)[t]
      invariant OnlyWithin(out, d, d + n)
    {
      SamplesAt16(row, n, color, i);
      assert buf[co + 2 * i] == row[2 * i] && buf[co + 2 * i + 1] == row[2 * i + 1];
      out[d + i] := buf[co + 2 * i] * 256 + buf[co + 2 * i + 1];
      i := i + 1;
    }
  }

  /** The first `i` pixels with an alpha, one pixel more. */
  lemma WithAlphaStep(s: seq<nat>, i: nat, k: nat, v: nat)
    requires |s| >= (i + 1) * k
    ensures i * k <= (i + 1) * k == i * k + k
    ensures WithAlpha(s[..(i + 1) * k], i + 1, k, v) == WithAlpha(s[..i * k], i, k, v) + s[i * k..(i + 1) * k] + [v]
  {
    NextTimes(i, k);
    var t := s[..(i + 1) * k];
    assert t[..i * k] == s[..i * k];
    assert t[i * k..] == s[i * k..(i + 1) * k];
  }

  /** The 16-bit loop that adds an alpha channel to gray pixels. */
  method Join16Alpha1(buf: array<nat>, co: nat, out: array<nat>, d: nat, x: nat, color: nat, ghost row: seq<Byte>)
    requires buf != out && |row| == RowBytes(x * 1, 16)
    requires co + |row| <= buf.Length && buf[co..co + |row|] == row && d + 2 * x <= out.Length
    modifies out
    ensures out[d..d + 2 * x] == WithAlpha(Samples(row, x * 1, 16, color), x, 1, 0xffff)
    ensures OnlyWithin(out, d, d + 2 * x)
  {
    hide Samples, WithAlpha;
    RowBytesAre(x);
    ghost var s := Samples(row, x * 1, 16, color);
    var i := 0;
    assert out[d..d] == WithAlpha(s[..0 * 1], 0, 1, 0xffff);
    while i < x
      invariant 0 <= i <= x
      invariant out[d..d + 2 * i] == WithAlpha(s[..i * 1], i, 1, 0xffff)
      invariant OnlyWithin(out, d, d + 2 * x)
    {
      ghost var before := out[d..d + 2 * i];
      SamplesAt16(row, x * 1, color, i);
      assert buf[co + 2 * i] == row[2 * i] && buf[co + 2 * i + 1] == row[2 * i + 1];
      out[d + 2 * i] := buf[co + 2 * i] * 256 + buf[co + 2 * i + 1];
      out[d + 2 * i + 1] := 0xffff;
      WithAlphaStep(s, i, 1, 0xffff);
      assert out[d..d + 2 * (i + 1)] == before + [out[d + 2 * i]] + [out[d + 2 * i + 1]];
      assert s[i * 1..(i + 1) * 1] == [s[i]];
      i := i + 1;
    }
    assert s[..x * 1] == s;
  }

  /** The 16-bit loop that adds an alpha channel to color pixels. */
  method Join16Alpha3(buf: array<nat>, co: nat, out: array<nat>, d: nat, x: nat, color: nat, ghost row: seq<Byte>)
    requires buf != out && |row| == RowBytes(x * 3, 16)
    requires co + |row| <= buf.Length && buf[co..co + |row|] == row && d + 4 * x <= out.Length
    modifies out
    ensures out[d..d + 4 * x] == WithAlpha(Samples(row, x * 3, 16, color), x, 3, 0xffff)
    ensures OnlyWithin(out, d, d + 4 * x)
  {
    hide Samples, WithAlpha;
    RowBytesAre(x * 3);
    ghost var s := Samples(row, x * 3, 16, color);
    var i := 0;
    assert out[d..d] == WithAlpha(s[..0 * 3], 0, 3, 0xffff);
    while i < x
      invariant 0 <= i <= x
      invariant out[d..d + 4 * i] == WithAlpha(s[..i * 3], i, 3, 0xffff)
      invariant OnlyWithin(out, d, d + 4 * x)
    {
      ghost var before := out[d..d + 4 * i];
      Join16Pixel3(buf, co, out, d, x, i, color, row);
      WithAlphaStep(s, i, 3, 0xffff);
      assert out[d..d + 4 * (i + 1)] == before + out[d + 4 * i..d + 4 * i + 4];
      i := i + 1;
    }
    assert s[..x * 3] == s;
  }

  method Join16Pixel3(buf: array<nat>, co: nat, out: array<nat>, d: nat, x: nat, i: nat, color: nat,
                      ghost row: seq<Byte>)
    requires buf != out && |row| == RowBytes(x * 3, 16) && i < x
    requires co + |row| <= buf.Length && buf[co..co + |row|] == row && d + 4 * x <= out.Length
    modifies out
    ensures out[d + 4 * i..d + 4 * i + 4] == Samples(row, x * 3, 16, color)[i * 3..(i + 1) * 3] + [0xffff]
    ensures OnlyWithin(out, d + 4 * i, d + 4 * i + 4)
  {
    hide Samples;
    RowBytesAre(x * 3);
    ghost var s := Samples(row, x * 3, 16, color);
    SamplesAt16(row, x * 3, color, i * 3);
    SamplesAt16(row, x * 3, color, i * 3 + 1);
    SamplesAt16(row, x * 3, color, i * 3 + 2);
    assert forall t :: 0 <= t < |row| ==> buf[co + t] == row[t];
    var at := co + 6 * i;
    out[d + 4 * i] := buf[at] * 256 + buf[at + 1];
    out[d + 4 * i + 1] := buf[at + 2] * 256 + buf[at + 3];
    out[d + 4 * i + 2] := buf[at + 4] * 256 + buf[at + 5];
    out[d + 4 * i + 3] := 0xffff;
  }

  /** Copies a row that needs no change. */
  method CopyRow(buf: array<nat>, co: nat, out: array<nat>, d: nat, n: nat)
    requires buf != out && co + n <= buf.Length && d + n <= out.Length
    modifies out
    ensures out[d..d + n] == buf[co..co + n]
    ensures OnlyWithin(out, d, d + n)
  {
    var i := 0;
    while i < n
      invariant 0 <= i <= n
      invariant out[d..d + i] == buf[co..co + i]
      invariant OnlyWithin(out, d, d + n)
    {
      out[d + i] := buf[co + i];
      i := i + 1;
    }
  }

  /** `stbi__create_png_alpha_expand8`: the samples of `x` pixels, with an opaque alpha after each. */
  method AlphaExpand8(dest: array<nat>, d: nat, src: array<nat>, o: nat, x: nat, img_n: nat)
    requires img_n == 1 || img_n == 3
    requires d + x * (img_n + 1) <= dest.Length && o + x * img_n <= src.Length && (dest == src ==> d == o)
    modifies dest
    ensures dest[d..d + x * (img_n + 1)] == WithAlpha(old(src[o..o + x * img_n]), x, img_n, 255)
    ensures OnlyWithin(dest, d, d + x * (img_n + 1))
  {
    hide WithAlpha, OnlyWithin;
    if img_n == 1 {
      assert src[o..o + x] == src[o..o + x * 1];
      AlphaExpand1(dest, d, src, o, x);
    } else {
      assert src[o..o + 3 * x] == src[o..o + x * 3];
      AlphaExpand3(dest, d, src, o, x);
    }
  }

  /** Scanlines of fewer than 8 bits a sample: bits to bytes first, then the alpha channel in place. */
  method ExpandPacked(buf: array<nat>, co: nat, out: array<nat>, d: nat, x: nat, img_n: nat, out_n: nat, depth: nat,
                      color: nat, ghost row: seq<Byte>)
    requires (depth == 1 || depth == 2 || depth == 4) && buf != out
    requires out_n == img_n || (out_n == img_n + 1 && (img_n == 1 || img_n == 3))
    requires |row| == RowBytes(x * img_n, depth) && co + |row| <= buf.Length && buf[co..co + |row|] == row
    requires d + x * out_n <= out.Length
    modifies out
    ensures out[d..d + x * out_n] == OutRow(row, x, img_n, out_n, depth, color)
    ensures OnlyWithin(out, d, d + x * out_n)
  {
    hide Samples, WithAlpha, RowBytes, OutRow;
    OneMore(x, img_n);
    OutRowPacked(row, x, img_n, out_n, depth, color);
    ExpandBits(buf, co, out, d, x * img_n, depth, color, row);
    assert OnlyWithin(out, d, d + x * out_n);
    if out_n != img_n {
      AlphaExpand8(out, d, out, d, x, img_n);
    }
  }

  lemma OutRowPacked(row: seq<Byte>, x: nat, img_n: nat, out_n: nat, depth: nat, color: nat)
    requires depth == 1 || depth == 2 || depth == 4
    requires |row| == RowBytes(x * img_n, depth) && (out_n == img_n || out_n == img_n + 1)
    ensures var s := Samples(row, x * img_n, depth, color);
      OutRow(row, x, img_n, out_n, depth, color) == if out_n == img_n then s else WithAlpha(s, x, img_n, 255)
  {
    hide Samples, WithAlpha, RowBytes;
  }

  lemma OneMore(x: nat, n: nat)
    ensures x * n + x == x * (n + 1)
  {
  }

  /** Scanlines of 8-bit samples. */
  method ExpandBytes(buf: array<nat>, co: nat, out: array<nat>, d: nat, x: nat, img_n: nat, out_n: nat, color: nat,
                   ghost row: seq<Byte>)
    requires buf != out && (out_n == img_n || (out_n == img_n + 1 && (img_n == 1 || img_n == 3)))
    requires |row| == RowBytes(x * img_n, 8) && co + |row| <= buf.Length && buf[co..co + |row|] == row
    requires d + x * out_n <= out.Length
    modifies out
    ensures out[d..d + x * out_n] == OutRow(row, x, img_n, out_n, 8, color)
    ensures OnlyWithin(out, d, d + x * out_n)
  {
    hide Samples, WithAlpha, RowBytes, OutRow, OnlyWithin;
    OutRow8(row, x, img_n, out_n, color);
    if img_n == out_n {
      CopyRow(buf, co, out, d, x * img_n);
    } else {
      AlphaExpand8(out, d, buf, co, x, img_n);
    }
  }

  lemma OutRow8(row: seq<Byte>, x: nat, img_n: nat, out_n: nat, color: nat)
    requires |row| == RowBytes(x * img_n, 8) && (out_n == img_n || out_n == img_n + 1)
    ensures |row| == x * img_n
    ensures OutRow(row, x, img_n, out_n, 8, color) == if out_n == img_n then row else WithAlpha(row, x, img_n, 255)
  {
    hide Samples, WithAlpha, RowBytes;
    SamplesAre8(row, x * img_n, color);
  }

  /** Scanlines of 16-bit samples. */
  method ExpandWords(buf: array<nat>, co: nat, out: array<nat>, d: nat, x: nat, img_n: nat, out_n: nat, color: nat,
                   ghost row: seq<Byte>)
    requires buf != out && (out_n == img_n || (out_n == img_n + 1 && (img_n == 1 || img_n == 3)))
    requires |row| == RowBytes(x * img_n, 16) && co + |row| <= buf.Length && buf[co..co + |row|] == row
    requires d + x * out_n <= out.Length
    modifies out
    ensures out[d..d + x * out_n] == OutRow(row, x, img_n, out_n, 16, color)
    ensures OnlyWithin(out, d, d + x * out_n)
  {
    hide Samples, WithAlpha, RowBytes;
    if img_n == out_n {
      Join16(buf, co, out, d, x * img_n, color, row);
    } else if img_n == 1 {
      Join16Alpha1(buf, co, out, d, x, color, row);
    } else {
      Join16Alpha3(buf, co, out, d, x, color, row);
    }
  }

  /** The part of `stbi__create_png_image_raw` that expands one scanline, at `co` of the workspace, into the
      output row at `d`. */
  method ExpandRow(buf: array<nat>, co: nat, out: array<nat>, d: nat, x: nat, img_n: nat, out_n: nat, depth: nat,
                   color: nat, ghost row: seq<Byte>)
    requires Depth(depth) && buf != out && (out_n == img_n || (out_n == img_n + 1 && (img_n == 1 || img_n == 3)))
    requires |row| == RowBytes(x * img_n, depth) && co + |row| <= buf.Length && buf[co..co + |row|] == row
    requires d + x * out_n <= out.Length
    modifies out
    ensures out[d..d + x * out_n] == OutRow(row, x, img_n, out_n, depth, color)
    ensures OnlyWithin(out, d, d + x * out_n)
  {
    hide OutRow, RowBytes;
    if depth < 8 {
      ExpandPacked(buf, co, out, d, x, img_n, out_n, depth, color, row);
    } else if depth == 8 {
      ExpandBytes(buf, co, out, d, x, img_n, out_n, color, row);
    } else {
      ExpandWords(buf, co, out, d, x, img_n, out_n, color, row);
    }
  }
}
