/** PNG reconstruction: from filtered scanlines to the samples of an image. */
module PngImage {
  import opened BitStream
  import opened PngFilter
  import opened PngSamples
  import opened PngRow

  const INT_MAX := 0x7fff_ffff
  const MAX_DIMENSIONS := 0x100_0000

  // ------------------------------------------------------------------------------------- specification

  /** Where item `n` of size `size` starts in a list of them. */
  function Off(n: nat, size: nat): nat {
    n * size
  }

  lemma OffNext(n: nat, size: nat)
    ensures Off(n + 1, size) == Off(n, size) + size
  {
  }

  lemma OffBefore(j: nat, n: nat, size: nat)
    requires j < n
    ensures Off(j, size) + size == Off(j + 1, size) <= Off(n, size)
  {
    TimesMonotone(size, j + 1, n);
  }

  /** The row above the next one: the last row so far, or zeros. */
  function Above(rows: seq<seq<Byte>>, w: nat): (r: seq<Byte>)
    requires Width(rows, w)
    ensures |r| == w
  {
    if rows == [] then Zeros(w) else rows[|rows| - 1]
  }

  predicate Width(rows: seq<seq<Byte>>, w: nat) {
    forall j :: 0 <= j < |rows| ==> |rows[j]| == w
  }

  /** Rows filtered one by one, each after the byte that names its filter. */
  function Filtered(types: seq<Byte>, rows: seq<seq<Byte>>, w: nat, bpp: nat): (s: seq<Byte>)
    requires |types| == |rows| && Width(rows, w) && bpp > 0
    ensures |s| == Off(|rows|, w + 1)
  {
    if rows == [] then []
    else
      var n := |rows| - 1;
      OffNext(n, w + 1);
      Filtered(types[..n], rows[..n], w, bpp) + [types[n]]
      + FilterRow(types[n], rows[n], Above(rows[..n], w), bpp)
  }

  /** The filter type of row `j`. */
  function TypeOf(raw: seq<Byte>, w: nat, j: nat): Byte
    requires Off(j + 1, w + 1) <= |raw|
  {
    OffNext(j, w + 1);
    raw[Off(j, w + 1)]
  }

  /** The filtered bytes of row `j`. */
  function BytesOf(raw: seq<Byte>, w: nat, j: nat): (r: seq<Byte>)
    requires Off(j + 1, w + 1) <= |raw|
    ensures |r| == w
  {
    OffNext(j, w + 1);
    raw[Off(j, w + 1) + 1..Off(j, w + 1) + 1 + w]
  }

  /** The first `n` scanlines that `raw` is the filtered form of. */
  function Recon(raw: seq<Byte>, w: nat, bpp: nat, n: nat): (rows: seq<seq<Byte>>)
    requires Off(n, w + 1) <= |raw| && bpp > 0
    ensures |rows| == n && Width(rows, w)
  {
    if n == 0 then []
    else
      OffNext(n - 1, w + 1);
      var before := Recon(raw, w, bpp, n - 1);
      before + [Unfilter(TypeOf(raw, w, n - 1), BytesOf(raw, w, n - 1), Above(before, w), bpp)]
  }

  /** Every one of the first `n` rows names one of the five filters. */
  ghost predicate TypesOk(raw: seq<Byte>, w: nat, n: nat)
    requires Off(n, w + 1) <= |raw|
  {
    forall j :: 0 <= j < n ==> (OffBefore(j, n, w + 1); TypeOf(raw, w, j) <= F_PAETH)
  }

  function Types(raw: seq<Byte>, w: nat, n: nat): (t: seq<Byte>)
    requires Off(n, w + 1) <= |raw|
    ensures |t| == n
  {
    if n == 0 then []
    else
      OffNext(n - 1, w + 1);
      Types(raw, w, n - 1) + [TypeOf(raw, w, n - 1)]
  }

  /** The samples of a list of scanlines, row after row. */
  function Image(rows: seq<seq<Byte>>, x: nat, img_n: nat, out_n: nat, depth: nat, color: nat): (s: seq<nat>)
    requires Depth(depth) && Width(rows, RowBytes(x * img_n, depth)) && (out_n == img_n || out_n == img_n + 1)
    ensures |s| == Off(|rows|, x * out_n)
  {
    if rows == [] then []
    else
      var n := |rows| - 1;
      OffNext(n, x * out_n);
      Image(rows[..n], x, img_n, out_n, depth, color) + OutRow(rows[n], x, img_n, out_n, depth, color)
  }

  // -------------------------------------------------------------------------------------- round trips

  /** The last row of a filtered list. */
  lemma LastRow(types: seq<Byte>, rows: seq<seq<Byte>>, w: nat, bpp: nat, extra: seq<Byte>)
    requires |types| == |rows| > 0 && Width(rows, w) && bpp > 0
    ensures var n := |rows| - 1;
      var all := Filtered(types, rows, w, bpp) + extra;
      var coded := FilterRow(types[n], rows[n], Above(rows[..n], w), bpp);
      && Off(n, w + 1) <= Off(n + 1, w + 1) <= |all|
      && all == Filtered(types[..n], rows[..n], w, bpp) + ([types[n]] + coded + extra)
      && TypeOf(all, w, n) == types[n] && BytesOf(all, w, n) == coded
  {
    hide Off, FilterRow, Above;
    OffNext(|rows| - 1, w + 1);
  }

  /** Reconstruction inverts filtering, whatever filter each row was given and whatever follows the rows. */
  lemma {:induction false} RowsRecovered(types: seq<Byte>, rows: seq<seq<Byte>>, w: nat, bpp: nat, extra: seq<Byte>)
    requires |types| == |rows| && Width(rows, w) && bpp > 0
    ensures Off(|rows|, w + 1) <= |Filtered(types, rows, w, bpp) + extra|
    ensures Recon(Filtered(types, rows, w, bpp) + extra, w, bpp, |rows|) == rows
    ensures Types(Filtered(types, rows, w, bpp) + extra, w, |rows|) == types
  {
    hide Off, Unfilter, FilterRow, Above, Filtered, TypeOf, BytesOf, Recon, Types, Width;
    if rows != [] {
      var n := |rows| - 1;
      var all := Filtered(types, rows, w, bpp) + extra;
      LastRow(types, rows, w, bpp, extra);
      WidthBefore(rows, n, w);
      var above := Above(rows[..n], w);
      RowsRecovered(types[..n], rows[..n], w, bpp, [types[n]] + FilterRow(types[n], rows[n], above, bpp) + extra);
      ReconNext(all, w, bpp, n);
      UnfilterFilter(types[n], rows[n], above, bpp);
      assert rows == rows[..n] + [rows[n]] && types == types[..n] + [types[n]];
    }
  }

  lemma WidthBefore(rows: seq<seq<Byte>>, n: nat, w: nat)
    requires n < |rows| && Width(rows, w)
    ensures Width(rows[..n], w) && |rows[n]| == w
  {
  }

  lemma ReconNext(raw: seq<Byte>, w: nat, bpp: nat, n: nat)
    requires Off(n + 1, w + 1) <= |raw| && bpp > 0
    ensures Off(n, w + 1) <= |raw| && Width(Recon(raw, w, bpp, n), w)
    ensures Recon(raw, w, bpp, n + 1)
         == Recon(raw, w, bpp, n)
          + [Unfilter(TypeOf(raw, w, n), BytesOf(raw, w, n), Above(Recon(raw, w, bpp, n), w), bpp)]
    ensures Types(raw, w, n + 1) == Types(raw, w, n) + [TypeOf(raw, w, n)]
  {
    hide Unfilter, Above, TypeOf, BytesOf;
    OffNext(n, w + 1);
  }

  lemma FilteredNext(types: seq<Byte>, rows: seq<seq<Byte>>, w: nat, bpp: nat, t: Byte, row: seq<Byte>)
    requires |types| == |rows| && Width(rows, w) && |row| == w && bpp > 0
    ensures Width(rows + [row], w)
    ensures Filtered(types + [t], rows + [row], w, bpp)
         == Filtered(types, rows, w, bpp) + [t] + FilterRow(t, row, Above(rows, w), bpp)
  {
    hide Off, FilterRow, Above;
    var types', rows' := types + [t], rows + [row];
    assert types'[..|rows|] == types && rows'[..|rows|] == rows;
  }

  lemma RowPieces(raw: seq<Byte>, w: nat, n: nat)
    requires Off(n + 1, w + 1) <= |raw|
    ensures Off(n, w + 1) <= |raw|
    ensures raw[..Off(n + 1, w + 1)] == raw[..Off(n, w + 1)] + [TypeOf(raw, w, n)] + BytesOf(raw, w, n)
  {
    hide Off;
    OffNext(n, w + 1);
  }

  /** And what is reconstructed filters back to the input, so it is the only list of rows that does. */
  lemma {:induction false} RowsFilterBack(raw: seq<Byte>, w: nat, bpp: nat, n: nat)
    requires Off(n, w + 1) <= |raw| && bpp > 0
    ensures Filtered(Types(raw, w, n), Recon(raw, w, bpp, n), w, bpp) == raw[..Off(n, w + 1)]
  {
    hide Off, Unfilter, FilterRow, Above, Filtered, TypeOf, BytesOf, Recon, Types, Width;
    if n == 0 {
      NoneFiltered(raw, w, bpp);
    } else {
      ReconNext(raw, w, bpp, n - 1);
      RowsFilterBack(raw, w, bpp, n - 1);
      var rows := Recon(raw, w, bpp, n - 1);
      var t, bytes := TypeOf(raw, w, n - 1), BytesOf(raw, w, n - 1);
      var row := Unfilter(t, bytes, Above(rows, w), bpp);
      FilterUnfilter(t, bytes, Above(rows, w), bpp);
      FilteredNext(Types(raw, w, n - 1), rows, w, bpp, t, row);
      RowPieces(raw, w, n - 1);
    }
  }

  lemma NoneFiltered(raw: seq<Byte>, w: nat, bpp: nat)
    requires bpp > 0
    ensures Off(0, w + 1) == 0
    ensures Filtered(Types(raw, w, 0), Recon(raw, w, bpp, 0), w, bpp) == []
  {
  }

  lemma {:induction false} TypesAre(raw: seq<Byte>, w: nat, n: nat, j: nat)
    requires Off(n, w + 1) <= |raw| && j < n
    ensures Off(j + 1, w + 1) <= |raw| && Types(raw, w, n)[j] == TypeOf(raw, w, j)
  {
    hide Off, TypeOf;
    OffBefore(j, n, w + 1);
    OffNext(n - 1, w + 1);
    if j < n - 1 {
      TypesAre(raw, w, n - 1, j);
    }
  }

  /** Rows filtered with the five filters are accepted, and come back. */
  lemma FilteredDecodes(types: seq<Byte>, rows: seq<seq<Byte>>, w: nat, bpp: nat, extra: seq<Byte>)
    requires |types| == |rows| && Width(rows, w) && bpp > 0 && forall j :: 0 <= j < |types| ==> types[j] <= F_PAETH
    ensures RawOk(Filtered(types, rows, w, bpp) + extra, w, |rows|)
    ensures Recon(Filtered(types, rows, w, bpp) + extra, w, bpp, |rows|) == rows
  {
    hide Off, Types, TypeOf, Recon, Filtered;
    var raw := Filtered(types, rows, w, bpp) + extra;
    RowsRecovered(types, rows, w, bpp, extra);
    forall j | 0 <= j < |rows|
      ensures (OffBefore(j, |rows|, w + 1); TypeOf(raw, w, j) <= F_PAETH)
    {
      TypesAre(raw, w, |rows|, j);
    }
  }

  // ------------------------------------------------------------------------------------------- sizes

  predicate Mul2Valid(a: nat, b: nat) {
    b == 0 || a <= INT_MAX / b
  }

  predicate Mad2Valid(a: nat, b: nat, add: nat) {
    Mul2Valid(a, b) && a * b <= INT_MAX - add
  }

  predicate Mad3Valid(a: nat, b: nat, c: nat, add: nat) {
    Mul2Valid(a, b) && Mul2Valid(a * b, c) && a * b * c <= INT_MAX - add
  }

  lemma Mul2Fits(a: nat, b: nat)
    ensures Mul2Valid(a, b) <==> a * b <= INT_MAX
  {
    if b > 0 {
      assert INT_MAX == b * (INT_MAX / b) + INT_MAX % b;
      if a <= INT_MAX / b {
        TimesMonotone(b, a, INT_MAX / b);
      } else {
        TimesMonotone(b, INT_MAX / b + 1, a);
      }
    }
  }

  /** The overflow checks hold exactly when the exact product, with `add`, fits an `int`. */
  lemma Mad3Fits(a: nat, b: nat, c: nat, add: nat)
    requires c > 0
    ensures Mad3Valid(a, b, c, add) <==> a * b * c + add <= INT_MAX
  {
    Mul2Fits(a, b);
    Mul2Fits(a * b, c);
    TimesMonotone(a * b, 1, c);
  }

  predicate SizesOk(x: nat, y: nat, img_n: nat, out_n: nat, depth: nat) {
    var w := RowBytes(x * img_n, depth);
    && Mad3Valid(x, y, out_n * (if depth == 16 then 2 else 1), 0)
    && Mad3Valid(img_n, x, depth, 7)
    && Mad2Valid(w, y, w)
    && Mad2Valid(w, 2, 0)
  }

  lemma Mad2Fits(a: nat, b: nat, add: nat)
    ensures Mad2Valid(a, b, add) <==> a * b + add <= INT_MAX
  {
    Mul2Fits(a, b);
  }

  /** The sizes are fine exactly when four byte counts fit an `int`: that of the output, that of the bits of a row,
      that of the filtered data, and that of the two rows of the workspace. */
  lemma SizesMean(x: nat, y: nat, img_n: nat, out_n: nat, depth: nat)
    requires Depth(depth) && out_n > 0
    ensures SizesOk(x, y, img_n, out_n, depth) <==>
      && x * y * (out_n * if depth == 16 then 2 else 1) <= 0x7fff_ffff
      && img_n * x * depth + 7 <= 0x7fff_ffff
      && RowBytes(x * img_n, depth) * y + RowBytes(x * img_n, depth) <= 0x7fff_ffff
      && RowBytes(x * img_n, depth) * 2 <= 0x7fff_ffff
  {
    hide RowBytes, Mad3Valid, Mad2Valid;
    Mad3Fits(x, y, out_n * (if depth == 16 then 2 else 1), 0);
    Mad3Fits(img_n, x, depth, 7);
    Mad2Fits(RowBytes(x * img_n, depth), y, RowBytes(x * img_n, depth));
    Mad2Fits(RowBytes(x * img_n, depth), 2, 0);
  }

  /** The distance between bytes that a filter compares: a pixel, or one byte when pixels are smaller. */
  function FilterBytes(img_n: nat, depth: nat): nat {
    if depth < 8 then 1 else if depth == 16 then img_n * 2 else img_n
  }

  /** `raw` holds `y` scanlines of `w` bytes whose filter types are known. */
  ghost predicate RawOk(raw: seq<Byte>, w: nat, y: nat) {
    Off(y, w + 1) <= |raw| && TypesOk(raw, w, y)
  }

  // ------------------------------------------------------------------------------------------ decoder

  /** The bytes the filter loops run over are the bytes of the scanline. */
  lemma LoopBytes(x: nat, img_n: nat, depth: nat)
    requires Depth(depth) && x > 0 && img_n > 0
    ensures depth == 8 ==> x * FilterBytes(img_n, depth) == RowBytes(x * img_n, depth)
    ensures depth == 16 ==> x * FilterBytes(img_n, depth) == RowBytes(x * img_n, depth)
    ensures 0 < FilterBytes(img_n, depth) <= RowBytes(x * img_n, depth)
  {
    TimesMonotone(img_n, 1, x);
    assert x * (img_n * 2) == x * img_n * 2;
    SampleInRow(x * img_n, depth, 0);
  }

  /** Row `j` of the image: undoes its filter in the workspace, then expands it into the output. */
  method DecodeRow(raw: seq<Byte>, filter: nat, buf: array<nat>, out: array<nat>, d: nat, j: nat, x: nat, stride: nat,
                   img_n: nat, out_n: nat, depth: nat, color: nat, w: nat, bpp: nat, ghost rows: seq<seq<Byte>>,
                   ghost row: seq<Byte>)
    requires Depth(depth) && (out_n == img_n || (out_n == img_n + 1 && (img_n == 1 || img_n == 3)))
    requires w == RowBytes(x * img_n, depth) && 0 < bpp <= w && buf != out && buf.Length == w * 2
    requires |raw| == |row| == w && filter <= F_PAETH && stride == x * out_n && d + stride <= out.Length
    requires |rows| == j && Width(rows, w) && (if j == 0 then Junk(buf) else Holding(buf, w, j + 1, rows[j - 1]))
    requires row == Unfilter(filter, raw, Above(rows, w), bpp)
    modifies buf, out
    ensures Holding(buf, w, j, row)
    ensures OutAt(out, d, stride, OutRow(row, x, img_n, out_n, depth, color))
    ensures KeptBelow(out, old(out[..]), d)
  {
    hide OutRow, RowBytes, Unfilter, Holding, OutAt;
    var co, po := if j % 2 == 1 then w else 0, if j % 2 == 1 then 0 else w;
    UndoRow(raw, filter, buf, co, po, j, w, bpp, rows);
    HoldingAt(buf, w, j, row);
    ExpandRow(buf, co, out, d, x, img_n, out_n, depth, color, row);
    OutAtHolds(out, d, stride, OutRow(row, x, img_n, out_n, depth, color));
  }

  /** The half of the workspace that row `j` uses holds `row`. */
  ghost predicate Holding(buf: array<nat>, w: nat, j: nat, row: seq<Byte>)
    requires buf.Length == w * 2
    reads buf
  {
    if j % 2 == 1 then buf[w..w + w] == row else buf[0..w] == row
  }

  /** Memory fresh from the allocator: any bytes. */
  ghost predicate Junk(buf: array<nat>)
    reads buf
  {
    forall i :: 0 <= i < buf.Length ==> buf[i] < 256
  }

  lemma HoldingAt(buf: array<nat>, w: nat, j: nat, row: seq<Byte>)
    requires buf.Length == w * 2
    ensures Holding(buf, w, j, row) <==>
      (var co := if j % 2 == 1 then w else 0; buf[co..co + w] == row)
  {
  }

  ghost predicate OutAt(out: array<nat>, d: nat, stride: nat, row: seq<nat>)
    reads out
  {
    d + stride <= out.Length && out[d..d + stride] == row
  }

  lemma OutAtHolds(out: array<nat>, d: nat, stride: nat, row: seq<nat>)
    requires d + stride <= out.Length && out[d..d + stride] == row
    ensures OutAt(out, d, stride, row)
  {
  }

  ghost predicate KeptBelow(out: array<nat>, was: seq<nat>, d: nat)
    reads out
  {
    d <= |was| == out.Length && out[..d] == was[..d]
  }

  /** Undoing the filter of row `j`: the other half of the workspace holds the row above, except for the first
      row, whose filter is substituted. */
  method UndoRow(raw: seq<Byte>, filter: nat, buf: array<nat>, co: nat, po: nat, j: nat, w: nat, bpp: nat,
                 ghost rows: seq<seq<Byte>>)
    requires |raw| == w && 0 < bpp <= w && buf.Length == w * 2 && filter <= F_PAETH
    requires co == (if j % 2 == 1 then w else 0) && po == (if j % 2 == 1 then 0 else w)
    requires |rows| == j && Width(rows, w) && (if j == 0 then Junk(buf) else Holding(buf, w, j + 1, rows[j - 1]))
    modifies buf
    ensures Holding(buf, w, j, Unfilter(filter, raw, Above(rows, w), bpp))
  {
    hide DecodeTo, UnfilterTo, FirstRowFilter;
    var f := filter;
    ghost var prior: seq<Byte>;
    if j == 0 {
      f := FirstRowFilter(filter);
      FirstFilterKnown(filter);
      prior := buf[po..po + w];
      DecodeFirst(filter, raw, prior, bpp, w);
    } else {
      prior := rows[j - 1];
      HoldingAt(buf, w, j + 1, prior);
      DecodeLater(filter, raw, prior, bpp, w);
    }
    UndoFilter(f, raw, buf, co, po, bpp, prior);
  }

  lemma FirstFilterKnown(ft: nat)
    requires ft <= 4
    ensures FirstRowFilter(ft) <= 5
  {
  }

  /** One more reconstructed row is one more row of the image. */
  lemma ReconStep(raw: seq<Byte>, w: nat, bpp: nat, j: nat, x: nat, img_n: nat, out_n: nat, depth: nat, color: nat)
    requires Off(j + 1, w + 1) <= |raw| && Off(j, w + 1) <= |raw| && bpp > 0 && w == RowBytes(x * img_n, depth)
    requires Depth(depth) && (out_n == img_n || out_n == img_n + 1)
    ensures var row := Unfilter(TypeOf(raw, w, j), BytesOf(raw, w, j), Above(Recon(raw, w, bpp, j), w), bpp);
      && Recon(raw, w, bpp, j + 1) == Recon(raw, w, bpp, j) + [row]
      && Image(Recon(raw, w, bpp, j + 1), x, img_n, out_n, depth, color)
      == Image(Recon(raw, w, bpp, j), x, img_n, out_n, depth, color) + OutRow(row, x, img_n, out_n, depth, color)
  {
    hide Off, Unfilter, OutRow, Above, TypeOf, BytesOf, RowBytes;
    var rows := Recon(raw, w, bpp, j + 1);
    assert rows[..j] == Recon(raw, w, bpp, j);
  }

  /** The filter types up to row `j`, and row `j`'s. */
  lemma TypesStep(raw: seq<Byte>, w: nat, j: nat, y: nat)
    requires j < y && Off(y, w + 1) <= |raw|
    ensures Off(j, w + 1) <= Off(j + 1, w + 1) <= |raw|
    ensures TypesOk(raw, w, j + 1) <==> TypesOk(raw, w, j) && TypeOf(raw, w, j) <= F_PAETH
    ensures TypeOf(raw, w, j) > F_PAETH ==> !TypesOk(raw, w, y)
  {
    hide TypeOf;
    OffBefore(j, y, w + 1);
  }

  /** A row joins the image written so far. */
  lemma RowJoins(out: array<nat>, was: seq<nat>, d: nat, stride: nat, row: seq<nat>)
    requires KeptBelow(out, was, d) && OutAt(out, d, stride, row)
    ensures d + stride <= out.Length && out[..d + stride] == was[..d] + row
  {
    assert out[..d + stride] == out[..d] + out[d..d + stride];
  }

  /** `stbi__create_png_image_raw`. Without enough data, with sizes that overflow, or with an unknown filter type
      it fails; otherwise the output is the image of the reconstructed scanlines. */
  method CreatePngImageRaw(raw: seq<Byte>, out_n: nat, x: nat, y: nat, depth: nat, color: nat, img_n: nat)
    returns (ok: bool, out: array<nat>)
    requires Depth(depth) && 0 < x <= MAX_DIMENSIONS && 0 < y <= MAX_DIMENSIONS && 0 < img_n
    requires out_n == img_n || (out_n == img_n + 1 && (img_n == 1 || img_n == 3))
    ensures fresh(out)
    ensures ok <==> SizesOk(x, y, img_n, out_n, depth) && RawOk(raw, RowBytes(x * img_n, depth), y)
    ensures ok ==>
      var rows := Recon(raw, RowBytes(x * img_n, depth), FilterBytes(img_n, depth), y);
      out[..] == Image(rows, x, img_n, out_n, depth, color)
  {
    hide Image, Recon, TypesOk, Mad3Valid, Mad2Valid, RowBytes, FilterBytes;
    ok := false;
    out := new nat[0];
    if !Mad3Valid(x, y, out_n * (if depth == 16 then 2 else 1), 0) {
      return;
    }
    if !Mad3Valid(img_n, x, depth, 7) {
      return;
    }
    var w := RowBytes(x * img_n, depth);
    if !Mad2Valid(w, y, w) {
      return;
    }
    var imgLen := (w + 1) * y;
    assert imgLen == Off(y, w + 1);
    if |raw| < imgLen {
      return;
    }
    if !Mad2Valid(w, 2, 0) {
      return;
    }
    out := new nat[Off(y, x * out_n)];
    ok := DecodeRows(raw, out, out_n, x, y, depth, color, img_n, w);
  }

  method DecodeRows(raw: seq<Byte>, out: array<nat>, out_n: nat, x: nat, y: nat, depth: nat, color: nat, img_n: nat,
                    w: nat)
    returns (ok: bool)
    requires Depth(depth) && 0 < x && 0 < img_n && w == RowBytes(x * img_n, depth)
    requires out_n == img_n || (out_n == img_n + 1 && (img_n == 1 || img_n == 3))
    requires Off(y, w + 1) <= |raw| && out.Length == Off(y, x * out_n)
    modifies out
    ensures ok <==> TypesOk(raw, w, y)
    ensures ok ==>
      out[..] == Image(Recon(raw, w, FilterBytes(img_n, depth), y), x, img_n, out_n, depth, color)
  {
    hide Off, OutRow, RowBytes, Unfilter, Holding, OutAt, FilterBytes, TypesOk, KeptBelow, Above, Recon;
    hide Image, BytesOf, TypeOf;
    var bpp := FilterBytes(img_n, depth);
    LoopBytes(x, img_n, depth);
    var memory := new Byte[w * 2];
    var buf := new nat[w * 2](i requires 0 <= i < w * 2 reads memory => memory[i]);
    var stride := x * out_n;
    var at := 0;
    var j := 0;
    NoRows(raw, w, bpp, x, img_n, out_n, depth, color);
    while j < y
      invariant 0 <= j <= y && at == Off(j, w + 1) <= |raw| && Off(j, stride) <= out.Length == Off(y, stride)
      invariant TypesOk(raw, w, j)
      invariant if j == 0 then Junk(buf) else Holding(buf, w, j + 1, Recon(raw, w, bpp, j)[j - 1])
      invariant out[..Off(j, stride)] == Image(Recon(raw, w, bpp, j), x, img_n, out_n, depth, color)
    {
      TypesStep(raw, w, j, y);
      OffBefore(j, y, w + 1);
      OffBefore(j, y, stride);
      RowSlice(raw, w, j);
      var filter := raw[at];
      at := at + 1;
      if filter > 4 {
        return false;
      }
      var dest := Off(j, stride);
      ghost var was, rows := out[..], Recon(raw, w, bpp, j);
      ghost var row := Unfilter(filter, BytesOf(raw, w, j), Above(rows, w), bpp);
      DecodeRow(raw[at..at + w], filter, buf, out, dest, j, x, stride, img_n, out_n, depth, color, w, bpp, rows, row);
      ReconStep(raw, w, bpp, j, x, img_n, out_n, depth, color);
      RowJoins(out, was, dest, stride, OutRow(row, x, img_n, out_n, depth, color));
      at := at + w;
      j := j + 1;
      HoldingNext(buf, w, j, row);
    }
    ok := true;
  }

  lemma NoRows(raw: seq<Byte>, w: nat, bpp: nat, x: nat, img_n: nat, out_n: nat, depth: nat, color: nat)
    requires Depth(depth) && w == RowBytes(x * img_n, depth) && (out_n == img_n || out_n == img_n + 1) && bpp > 0
    ensures Off(0, w + 1) == Off(0, x * out_n) == 0
    ensures TypesOk(raw, w, 0) && Image(Recon(raw, w, bpp, 0), x, img_n, out_n, depth, color) == []
  {
  }

  lemma RowSlice(raw: seq<Byte>, w: nat, j: nat)
    requires Off(j + 1, w + 1) <= |raw|
    ensures Off(j, w + 1) + 1 + w <= |raw| && TypeOf(raw, w, j) == raw[Off(j, w + 1)]
    ensures BytesOf(raw, w, j) == raw[Off(j, w + 1) + 1..Off(j, w + 1) + 1 + w]
  {
    OffNext(j, w + 1);
  }

  /** Two rows on, the workspace half is the same. */
  lemma HoldingNext(buf: array<nat>, w: nat, j: nat, row: seq<Byte>)
    requires buf.Length == w * 2 && j > 0
    ensures Holding(buf, w, j + 1, row) <==> Holding(buf, w, j - 1, row)
  {
  }
}
