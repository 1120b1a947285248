/** `stbi__create_png_image`: plain images, and the seven passes of interlaced ones. */
module PngInterlace {
  import opened BitStream
  import opened PngSamples
  import opened PngImage
  import opened Adam7

  datatype Header = Header(width: nat, height: nat, img_n: nat, out_n: nat, depth: nat, color: nat)
  {
    ghost predicate Valid() {
      && Depth(depth) && 0 < width <= MAX_DIMENSIONS && 0 < height <= MAX_DIMENSIONS && 0 < img_n
      && (out_n == img_n || (out_n == img_n + 1 && (img_n == 1 || img_n == 3)))
    }

    /** The scanline bytes of an image `w` pixels wide. */
    function Stride(w: nat): nat {
      RowBytes(w * img_n, depth)
    }

    function Bpp(): nat {
      FilterBytes(img_n, depth)
    }

    /** `data` starts with an image of `w` by `h` pixels. */
    ghost predicate Decodable(data: seq<Byte>, w: nat, h: nat) {
      SizesOk(w, h, img_n, out_n, depth) && RawOk(data, Stride(w), h)
    }

    /** Its samples. */
    ghost function Decoded(data: seq<Byte>, w: nat, h: nat): seq<nat>
      requires Valid() && w > 0 && Decodable(data, w, h)
    {
      LoopBytes(w, img_n, depth);
      Image(Recon(data, Stride(w), Bpp(), h), w, img_n, out_n, depth, color)
    }

    /** The pixels of pass `p`. */
    function PassW(p: nat): nat
      requires p < 7
    {
      PassWidth(p, width)
    }

    function PassH(p: nat): nat
      requires p < 7
    {
      PassHeight(p, height)
    }

    /** The data that is left for the passes from `p` on. An empty pass takes none. */
    function Rest(data: seq<Byte>, p: nat): seq<Byte>
      requires p <= 7
    {
      if p == 0 then data
      else
        var d := Rest(data, p - 1);
        var w, h := PassW(p - 1), PassH(p - 1);
        if w == 0 || h == 0 then d
        else if Off(h, Stride(w) + 1) <= |d| then d[Off(h, Stride(w) + 1)..]
        else []
    }

    ghost predicate PassOk(data: seq<Byte>, p: nat)
      requires p < 7
    {
      PassW(p) > 0 && PassH(p) > 0 ==> Decodable(Rest(data, p), PassW(p), PassH(p))
    }

    ghost predicate PassesOk(data: seq<Byte>, n: nat)
      requires n <= 7
    {
      forall p :: 0 <= p < n ==> PassOk(data, p)
    }

    /** The samples of pass `p`; none if it is empty or cannot be decoded. */
    ghost function PassImage(data: seq<Byte>, p: nat): seq<nat>
      requires p < 7 && Valid()
    {
      if PassW(p) == 0 || PassH(p) == 0 || !PassOk(data, p) then [] else Decoded(Rest(data, p), PassW(p), PassH(p))
    }

    ghost function PassImages(data: seq<Byte>): (parts: seq<seq<nat>>)
      requires Valid()
      ensures |parts| == 7
    {
      seq(7, p requires 0 <= p < 7 => PassImage(data, p))
    }
  }

  /** Pixel `k` of a list of pixels of `n` samples each. */
  function Pixel(s: seq<nat>, k: nat, n: nat): seq<nat> {
    if Off(k, n) + n <= |s| then s[Off(k, n)..Off(k, n) + n] else []
  }

  /** The number of the pixel at (x, y). */
  function Number(x: nat, y: nat, w: nat): nat {
    Off(y, w) + x
  }

  /** The pixel of `s`, an image of width `w`, at (x, y). */
  function PixelAt(s: seq<nat>, x: nat, y: nat, w: nat, n: nat): seq<nat> {
    Pixel(s, Number(x, y, w), n)
  }

  lemma NumberFits(x: nat, y: nat, w: nat, h: nat)
    requires x < w && y < h
    ensures Number(x, y, w) < Off(h, w)
  {
    OffBefore(y, h, w);
  }

  /** Different places have different numbers. */
  lemma NumberUnique(x: nat, y: nat, x': nat, y': nat, w: nat)
    requires x < w && x' < w && Number(x, y, w) == Number(x', y', w)
    ensures x == x' && y == y'
  {
    hide Off;
    if y < y' {
      OffBefore(y, y', w);
    } else if y' < y {
      OffBefore(y', y, w);
    }
  }

  lemma PixelInside(k: nat, count: nat, n: nat)
    requires k < count
    ensures Off(k, n) + n <= Off(count, n)
  {
    OffBefore(k, count, n);
  }

  /** Copies a pixel; every other pixel stays. */
  method PutPixel(final: array<nat>, k: nat, count: nat, img: array<nat>, k': nat, n: nat)
    requires final != img && k < count && final.Length == Off(count, n) && Off(k', n) + n <= img.Length
    modifies final
    ensures Pixel(final[..], k, n) == Pixel(img[..], k', n)
    ensures forall m :: 0 <= m < count && m != k ==> Pixel(final[..], m, n) == old(Pixel(final[..], m, n))
  {
    hide Off;
    PixelInside(k, count, n);
    var to, from := Off(k, n), Off(k', n);
    ghost var was := final[..];
    var c := 0;
    while c < n
      invariant 0 <= c <= n && to + n <= final.Length
      invariant final[to..to + c] == img[from..from + c]
      invariant final[..to] == was[..to] && final[to + n..] == was[to + n..]
    {
      final[to + c] := img[from + c];
      c := c + 1;
    }
    assert final[..][to..to + n] == img[..][from..from + n];
    forall m | 0 <= m < count && m != k
      ensures Pixel(final[..], m, n) == Pixel(was, m, n)
    {
      PixelInside(m, count, n);
      PixelApart(final[..], was, m, k, n);
    }
  }

  /** Sequences that agree before `lo` agree on a slice before `lo`. */
  lemma SliceBefore(s: seq<nat>, s': seq<nat>, lo: nat, at: nat, n: nat)
    requires at + n <= lo <= |s| && |s| == |s'| && s[..lo] == s'[..lo]
    ensures s[at..at + n] == s'[at..at + n]
  {
    forall i | at <= i < at + n
      ensures s[i] == s'[i]
    {
      assert s[..lo][i] == s'[..lo][i];
    }
  }

  /** Sequences that agree from `hi` on agree on a slice from `hi` on. */
  lemma SliceAfter(s: seq<nat>, s': seq<nat>, hi: nat, at: nat, n: nat)
    requires hi <= at && at + n <= |s| && |s| == |s'| && s[hi..] == s'[hi..]
    ensures s[at..at + n] == s'[at..at + n]
  {
    forall i | at <= i < at + n
      ensures s[i] == s'[i]
    {
      assert s[hi..][i - hi] == s'[hi..][i - hi];
    }
  }

  lemma PixelApart(s: seq<nat>, s': seq<nat>, m: nat, k: nat, n: nat)
    requires m != k && |s| == |s'| && Off(k, n) + n <= |s| && Off(m, n) + n <= |s|
    requires s[..Off(k, n)] == s'[..Off(k, n)] && s[Off(k, n) + n..] == s'[Off(k, n) + n..]
    ensures Pixel(s, m, n) == Pixel(s', m, n)
  {
    hide Off;
    if m < k {
      OffBefore(m, k, n);
      SliceBefore(s, s', Off(k, n), Off(m, n), n);
    } else {
      OffBefore(k, m, n);
      SliceAfter(s, s', Off(k, n) + n, Off(m, n), n);
    }
  }

  // ----------------------------------------------------------------------------------- de-interlacing

  /** What the passes `parts` say about the pixel at (x, y). */
  function Expected(parts: seq<seq<nat>>, hd: Header, x: nat, y: nat): seq<nat>
    requires |parts| == 7
  {
    var p := PassOf(x, y);
    PixelAt(parts[p], ColumnOf(x, y), RowOf(x, y), hd.PassW(p), hd.out_n)
  }

  /** The pixel at (x, y) is copied before the loops reach pixel (i, j) of pass `p`. */
  predicate Earlier(x: nat, y: nat, p: nat, i: nat, j: nat) {
    var q := PassOf(x, y);
    q < p || (q == p && (RowOf(x, y) < j || (RowOf(x, y) == j && ColumnOf(x, y) < i)))
  }

  ghost predicate PixelDone(final: seq<nat>, parts: seq<seq<nat>>, hd: Header, x: nat, y: nat)
    requires |parts| == 7
  {
    PixelAt(final, x, y, hd.width, hd.out_n) == Expected(parts, hd, x, y)
  }

  /** Every pixel that should have been copied has been. */
  ghost predicate Done(final: seq<nat>, parts: seq<seq<nat>>, hd: Header, p: nat, i: nat, j: nat)
    requires |parts| == 7
  {
    forall x, y :: 0 <= x < hd.width && 0 <= y < hd.height && Earlier(x, y, p, i, j) ==>
      PixelDone(final, parts, hd, x, y)
  }

  /** Copying pixel (i, j) of pass `p` where it belongs is one step. */
  lemma DoneStep(final: seq<nat>, final': seq<nat>, parts: seq<seq<nat>>, hd: Header, p: nat, i: nat, j: nat)
    requires |parts| == 7 && p < 7 && i < hd.PassW(p) && j < hd.PassH(p) && Done(final, parts, hd, p, i, j)
    requires OutX(p, i) < hd.width && OutY(p, j) < hd.height
    requires PixelAt(final', OutX(p, i), OutY(p, j), hd.width, hd.out_n)
          == PixelAt(parts[p], i, j, hd.PassW(p), hd.out_n)
    requires forall m :: 0 <= m < Off(hd.height, hd.width) && m != Number(OutX(p, i), OutY(p, j), hd.width) ==>
      Pixel(final', m, hd.out_n) == Pixel(final, m, hd.out_n)
    ensures Done(final', parts, hd, p, i + 1, j)
  {
    hide PassOf, ColumnOf, RowOf, OutX, OutY, Pixel, Number, Header.PassW, Header.PassH;
    Once(p, i, j);
    forall x, y | 0 <= x < hd.width && 0 <= y < hd.height && Earlier(x, y, p, i + 1, j)
      ensures PixelDone(final', parts, hd, x, y)
    {
      Covered(x, y, hd.width, hd.height);
      if x != OutX(p, i) || y != OutY(p, j) {
        assert Earlier(x, y, p, i, j);
        NumberFits(x, y, hd.width, hd.height);
        if Number(x, y, hd.width) == Number(OutX(p, i), OutY(p, j), hd.width) {
          NumberUnique(x, y, OutX(p, i), OutY(p, j), hd.width);
        }
        assert PixelDone(final, parts, hd, x, y);
      }
    }
  }

  /** The end of a row of a pass, and the end of a pass. */
  lemma DoneNext(final: seq<nat>, parts: seq<seq<nat>>, hd: Header, p: nat, i: nat, j: nat)
    requires |parts| == 7 && p < 7 && Done(final, parts, hd, p, i, j)
    ensures i >= hd.PassW(p) ==> Done(final, parts, hd, p, 0, j + 1)
    ensures j >= hd.PassH(p) || hd.PassW(p) == 0 ==> Done(final, parts, hd, p + 1, 0, 0)
  {
    hide PassOf, ColumnOf, RowOf, PixelDone, PassWidth, PassHeight;
    forall x, y | 0 <= x < hd.width && 0 <= y < hd.height && i >= hd.PassW(p) && Earlier(x, y, p, 0, j + 1)
      ensures PixelDone(final, parts, hd, x, y)
    {
      Covered(x, y, hd.width, hd.height);
      assert Earlier(x, y, p, i, j);
    }
    forall x, y | 0 <= x < hd.width && 0 <= y < hd.height && (j >= hd.PassH(p) || hd.PassW(p) == 0)
      && Earlier(x, y, p + 1, 0, 0)
      ensures PixelDone(final, parts, hd, x, y)
    {
      Covered(x, y, hd.width, hd.height);
      assert Earlier(x, y, p, i, j);
    }
  }

  /** The two inner loops: pass `p` of `img` into `final`. */
  method CopyPass(final: array<nat>, img: array<nat>, hd: Header, p: nat, ghost parts: seq<seq<nat>>)
    requires final != img && p < 7 && hd.PassW(p) > 0 && hd.PassH(p) > 0 && |parts| == 7 && img[..] == parts[p]
    requires final.Length == Off(Off(hd.height, hd.width), hd.out_n)
    requires img.Length == Off(Off(hd.PassH(p), hd.PassW(p)), hd.out_n)
    requires Done(final[..], parts, hd, p, 0, 0)
    modifies final
    ensures Done(final[..], parts, hd, p + 1, 0, 0)
  {
    hide Off, Done, PassWidth, PassHeight, OutX, OutY;
    var j := 0;
    while j < hd.PassH(p)
      invariant 0 <= j <= hd.PassH(p)
      invariant Done(final[..], parts, hd, p, 0, j)
    {
      var i := 0;
      while i < hd.PassW(p)
        invariant 0 <= i <= hd.PassW(p)
        invariant Done(final[..], parts, hd, p, i, j)
      {
        CopyPixel(final, img, hd, p, i, j, parts);
        i := i + 1;
      }
      DoneNext(final[..], parts, hd, p, i, j);
      j := j + 1;
    }
    DoneNext(final[..], parts, hd, p, 0, j);
  }

  method CopyPixel(final: array<nat>, img: array<nat>, hd: Header, p: nat, i: nat, j: nat, ghost parts: seq<seq<nat>>)
    requires final != img && p < 7 && i < hd.PassW(p) && j < hd.PassH(p) && |parts| == 7 && img[..] == parts[p]
    requires final.Length == Off(Off(hd.height, hd.width), hd.out_n)
    requires img.Length == Off(Off(hd.PassH(p), hd.PassW(p)), hd.out_n)
    requires Done(final[..], parts, hd, p, i, j)
    modifies final
    ensures Done(final[..], parts, hd, p, i + 1, j)
  {
    hide Off, Done, PassWidth, PassHeight, OutX, OutY, Pixel;
    InPass(p, i, j, hd.width, hd.height);
    NumberFits(OutX(p, i), OutY(p, j), hd.width, hd.height);
    NumberFits(i, j, hd.PassW(p), hd.PassH(p));
    PixelInside(Number(i, j, hd.PassW(p)), Off(hd.PassH(p), hd.PassW(p)), hd.out_n);
    ghost var was := final[..];
    PutPixel(final, Number(OutX(p, i), OutY(p, j), hd.width), Off(hd.height, hd.width),
             img, Number(i, j, hd.PassW(p)), hd.out_n);
    DoneStep(was, final[..], parts, hd, p, i, j);
  }

  /** Passes are no larger than the image. */
  lemma PassBounded(p: nat, w: nat)
    requires p < 7
    ensures w > 0 ==> PassWidth(p, w) <= w && PassHeight(p, w) <= w
  {
    if p == 0 {
    } else if p == 1 {
    } else if p == 2 {
    } else if p == 3 {
    } else if p == 4 {
    } else if p == 5 {
    }
  }

  lemma OffAssociates(h: nat, w: nat, n: nat)
    ensures Off(h, w * n) == Off(Off(h, w), n)
  {
    TimesAssociates(h, w, n);
  }

  /** `stbi__create_png_image`. An interlaced image decodes exactly when its size fits and every non-empty pass
      decodes from the data the earlier passes leave; each pixel is then the pixel of its pass. */
  method CreatePngImage(data: seq<Byte>, hd: Header, interlaced: bool) returns (ok: bool, out: array<nat>)
    requires hd.Valid()
    ensures fresh(out)
    ensures !interlaced ==> ok == hd.Decodable(data, hd.width, hd.height)
    ensures !interlaced && ok ==> out[..] == hd.Decoded(data, hd.width, hd.height)
    ensures interlaced ==> ok == (FinalFits(hd) && hd.PassesOk(data, 7))
    ensures interlaced && ok ==> out.Length == Off(Off(hd.height, hd.width), hd.out_n)
    ensures interlaced && ok ==> Done(out[..], hd.PassImages(data), hd, 7, 0, 0)
  {
    hide SizesOk, RawOk, Image, Recon, Mad3Valid, Off, Done;
    if !interlaced {
      ok, out := CreatePngImageRaw(data, hd.out_n, hd.width, hd.height, hd.depth, hd.color, hd.img_n);
      return;
    }
    ok := false;
    if !Mad3Valid(hd.width, hd.height, hd.out_n * (if hd.depth == 16 then 2 else 1), 0) {
      out := new nat[0];
      return;
    }
    out := new nat[Off(Off(hd.height, hd.width), hd.out_n)];
    ok := DecodePasses(data, hd, out);
  }

  ghost predicate FinalFits(hd: Header) {
    Mad3Valid(hd.width, hd.height, hd.out_n * (if hd.depth == 16 then 2 else 1), 0)
  }

  /** The size of the whole picture, in bytes, fits an `int`. */
  lemma FinalMeans(hd: Header)
    requires hd.out_n > 0
    ensures FinalFits(hd) <==> hd.width * hd.height * (hd.out_n * if hd.depth == 16 then 2 else 1) <= 0x7fff_ffff
  {
    Mad3Fits(hd.width, hd.height, hd.out_n * (if hd.depth == 16 then 2 else 1), 0);
  }

  method DecodePasses(data: seq<Byte>, hd: Header, final: array<nat>) returns (ok: bool)
    requires hd.Valid() && final.Length == Off(Off(hd.height, hd.width), hd.out_n)
    modifies final
    ensures ok == hd.PassesOk(data, 7)
    ensures ok ==> Done(final[..], hd.PassImages(data), hd, 7, 0, 0)
  {
    hide Off, Done, SizesOk, RawOk, Image, Recon, PassWidth, PassHeight, Header.Stride, Header.Bpp, Header.Decodable;
    hide Header.Decoded, Header.Rest, Header.PassImage, Header.PassOk;
    ghost var parts := hd.PassImages(data);
    var rest := data;
    var p := 0;
    NothingDone(final[..], parts, hd, data);
    while p < 7
      invariant 0 <= p <= 7 && rest == hd.Rest(data, p)
      invariant hd.PassesOk(data, p)
      invariant Done(final[..], parts, hd, p, 0, 0)
    {
      var passed;
      passed, rest := DecodePass(data, rest, hd, p, final, parts);
      if !passed {
        return false;
      }
      p := p + 1;
    }
    ok := true;
  }

  lemma NothingDone(final: seq<nat>, parts: seq<seq<nat>>, hd: Header, data: seq<Byte>)
    requires |parts| == 7
    ensures Done(final, parts, hd, 0, 0, 0) && hd.Rest(data, 0) == data
  {
  }

  /** One pass: skipped when empty, otherwise decoded and copied. */
  method DecodePass(ghost data: seq<Byte>, rest: seq<Byte>, hd: Header, p: nat, final: array<nat>,
                    ghost parts: seq<seq<nat>>)
    returns (passed: bool, rest': seq<Byte>)
    requires hd.Valid() && p < 7 && final.Length == Off(Off(hd.height, hd.width), hd.out_n)
    requires parts == hd.PassImages(data) && rest == hd.Rest(data, p) && Done(final[..], parts, hd, p, 0, 0)
    modifies final
    ensures passed == hd.PassOk(data, p)
    ensures passed ==> rest' == hd.Rest(data, p + 1) && Done(final[..], parts, hd, p + 1, 0, 0)
  {
    hide Off, Done, SizesOk, RowBytes, Image, Recon, PassWidth, PassHeight, TypesOk;
    var x, y := hd.PassW(p), hd.PassH(p);
    PassBounded(p, hd.width);
    PassBounded(p, hd.height);
    rest' := rest;
    passed := true;
    if x == 0 || y == 0 {
      DoneNext(final[..], parts, hd, p, 0, 0);
    } else {
      var img;
      passed, img := CreatePngImageRaw(rest, hd.out_n, x, y, hd.depth, hd.color, hd.img_n);
      if passed {
        assert img[..] == hd.Decoded(rest, x, y) == parts[p];
        OffAssociates(y, x, hd.out_n);
        CopyPass(final, img, hd, p, parts);
        rest' := rest[Off(y, hd.Stride(x) + 1)..];
      }
    }
  }

  // -------------------------------------------------------------------------------------- round trip

  /** `part` holds the pixels of `pic` that pass `p` takes. */
  ghost predicate Taken(pic: seq<nat>, part: seq<nat>, hd: Header, p: nat)
    requires p < 7
  {
    forall i, j :: 0 <= i < hd.PassW(p) && 0 <= j < hd.PassH(p) ==>
      PixelAt(part, i, j, hd.PassW(p), hd.out_n) == PixelAt(pic, OutX(p, i), OutY(p, j), hd.width, hd.out_n)
  }

  /** De-interlacing the seven passes of a picture gives the picture back. */
  lemma Deinterlaced(final: seq<nat>, pic: seq<nat>, parts: seq<seq<nat>>, hd: Header)
    requires |parts| == 7 && |final| == |pic| == Off(Off(hd.height, hd.width), hd.out_n)
    requires Done(final, parts, hd, 7, 0, 0)
    requires forall p :: 0 <= p < 7 ==> Taken(pic, parts[p], hd, p)
    ensures final == pic
  {
    hide Off, PassOf, ColumnOf, RowOf, OutX, OutY, PassWidth, PassHeight;
    forall x, y | 0 <= x < hd.width && 0 <= y < hd.height
      ensures PixelAt(final, x, y, hd.width, hd.out_n) == PixelAt(pic, x, y, hd.width, hd.out_n)
    {
      hide Pixel, Number;
      assert Earlier(x, y, 7, 0, 0);
      assert PixelDone(final, parts, hd, x, y);
      Covered(x, y, hd.width, hd.height);
      assert Taken(pic, parts[PassOf(x, y)], hd, PassOf(x, y));
    }
    PixelsDecide(final, pic, hd.width, hd.height, hd.out_n);
  }

  /** Images with the same pixels are the same. */
  lemma PixelsDecide(s: seq<nat>, t: seq<nat>, w: nat, h: nat, n: nat)
    requires |s| == |t| == Off(Off(h, w), n)
    requires forall x, y :: 0 <= x < w && 0 <= y < h ==> PixelAt(s, x, y, w, n) == PixelAt(t, x, y, w, n)
    ensures s == t
  {
    hide Off, Pixel;
    forall m | 0 <= m < |s|
      ensures s[m] == t[m]
    {
      var k, c := Split(m, Off(h, w), n);
      var y, x := Split(k, h, w);
      assert PixelAt(s, x, y, w, n) == PixelAt(t, x, y, w, n);
      PixelInside(k, Off(h, w), n);
      InPixel(s, t, k, c, n);
    }
  }

  lemma Split(m: nat, count: nat, n: nat) returns (k: nat, c: nat)
    requires m < Off(count, n)
    ensures k < count && c < n && m == Off(k, n) + c
  {
    if n == 0 {
      assert false;
    } else {
      k, c := m / n, m % n;
      assert m == Off(k, n) + c;
      if k >= count {
        TimesMonotone(n, count, k);
      }
    }
  }

  lemma InPixel(s: seq<nat>, t: seq<nat>, k: nat, c: nat, n: nat)
    requires |s| == |t| && Off(k, n) + n <= |s| && c < n && Pixel(s, k, n) == Pixel(t, k, n)
    ensures s[Off(k, n) + c] == t[Off(k, n) + c]
  {
    hide Off;
    assert Pixel(s, k, n)[c] == Pixel(t, k, n)[c];
  }
}
