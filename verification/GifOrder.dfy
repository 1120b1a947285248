/** The order in which a frame is drawn: symbol k of a run lands on pixel k of that order, and the first symbols, as
    many as the frame has pixels, hit each pixel once. */
module GifOrder {
  import opened BitStream
  import opened GifRaster

  /** The cursor after `k` symbols. */
  function CursorAt(f: Frame, interlaced: bool, k: nat): (c: Cursor)
    ensures Reachable(f, interlaced, c)
  {
    if k == 0 then
      FirstReachable(f, interlaced);
      First(f, interlaced)
    else
      var c := CursorAt(f, interlaced, k - 1);
      if c.row >= f.fh then c
      else
        AdvanceDraws(f, interlaced, c, c.col, c.row);
        Advance(f, c)
  }

  // ------------------------------------------------------------------------------------- ranks of rows

  /** How many rows of a frame of height `h` a pass has; passes are numbered by how many come after. */
  function RowsOf(parse: nat, h: nat): nat {
    if parse == 3 then (h + 7) / 8 else if parse == 2 then (h + 3) / 8 else if parse == 1 then (h + 1) / 4 else h / 2
  }

  /** How many rows are drawn before a pass. */
  function RowsBefore(parse: nat, h: nat): nat {
    if parse >= 3 then 0
    else if parse == 2 then RowsOf(3, h)
    else if parse == 1 then RowsOf(3, h) + RowsOf(2, h)
    else RowsOf(3, h) + RowsOf(2, h) + RowsOf(1, h)
  }

  /** The place of a row among the rows of its pass. */
  function WithinPass(parse: nat, row: nat): nat {
    if parse == 3 then row / 8 else if parse == 2 then row / 8 else if parse == 1 then row / 4 else row / 2
  }

  /** How many rows are drawn before `row`. */
  function RowRank(interlaced: bool, row: nat, h: nat): nat {
    if !interlaced then row
    else RowsBefore(PassOf(true, row), h) + WithinPass(PassOf(true, row), row)
  }

  lemma RowsAddUp(h: nat)
    ensures RowsBefore(0, h) + RowsOf(0, h) == h
  {
    Halved((h + 7) / 4);
    Halved((h + 3) / 2);
    Halved(h + 1);
    Quarters(h);
  }

  lemma Halved(n: nat)
    ensures n / 2 + (n - 1) / 2 == n - 1
  {
  }

  lemma Quarters(h: nat)
    ensures (h + 7) / 4 / 2 == (h + 7) / 8 && ((h + 7) / 4 - 1) / 2 == (h + 3) / 8
    ensures (h + 3) / 2 / 2 == (h + 3) / 4 && ((h + 3) / 2 - 1) / 2 == (h + 1) / 4
  {
  }

  /** Rows of a pass are inside the frame exactly as far as the pass has rows. */
  lemma RowInside(row: nat, h: nat)
    ensures row < h <==> WithinPass(PassOf(true, row), row) < RowsOf(PassOf(true, row), h)
  {
    hide PassOf;
    PassResidue(row);
    assert row == 8 * (row / 8) + row % 8 == 4 * (row / 4) + row % 4 == 2 * (row / 2) + row % 2;
  }

  /** Ranks are below the height, and no two rows share one. */
  lemma RowRankFits(interlaced: bool, row: nat, h: nat)
    requires row < h
    ensures RowRank(interlaced, row, h) < h
  {
    hide PassOf, WithinPass, RowsOf;
    RowInside(row, h);
    RowsAddUp(h);
  }

  lemma RowRankUnique(interlaced: bool, a: nat, b: nat, h: nat)
    requires a < h && b < h && RowRank(interlaced, a, h) == RowRank(interlaced, b, h)
    ensures a == b
  {
    hide PassOf, WithinPass, RowsOf;
    if interlaced {
      RowInside(a, h);
      RowInside(b, h);
      SamePass(a, b);
    }
  }

  lemma SamePass(a: nat, b: nat)
    requires PassOf(true, a) == PassOf(true, b) && WithinPass(PassOf(true, a), a) == WithinPass(PassOf(true, b), b)
    ensures a == b
  {
    hide PassOf;
    PassResidue(a);
    PassResidue(b);
    assert a == 8 * (a / 8) + a % 8 == 4 * (a / 4) + a % 4 == 2 * (a / 2) + a % 2;
    assert b == 8 * (b / 8) + b % 8 == 4 * (b / 4) + b % 4 == 2 * (b / 2) + b % 2;
  }

  // ------------------------------------------------------------------------------------ stepping down

  /** The rank of the row the cursor is in, or of the end of its pass when it has gone past it. */
  function Rank(interlaced: bool, c: Cursor, h: nat): nat {
    if c.row < h then RowRank(interlaced, c.row, h)
    else if !interlaced then h
    else RowsBefore(c.parse, h) + RowsOf(c.parse, h)
  }

  predicate Stepping(interlaced: bool, c: Cursor) {
    && c.parse <= 3
    && if !interlaced then c.step == 1 && c.parse == 0
       else c.step == (if c.parse == 3 then 8 else if c.parse == 2 then 8 else if c.parse == 1 then 4 else 2)
  }

  /** Stepping down in a pass goes to the next rank. */
  lemma StepDown(interlaced: bool, c: Cursor, h: nat)
    requires Stepping(interlaced, c) && c.row < h && PassOf(interlaced, c.row) == c.parse
    ensures PassOf(interlaced, c.row + c.step) == c.parse
    ensures Rank(interlaced, c.(row := c.row + c.step), h) == RowRank(interlaced, c.row, h) + 1
  {
    StepKeepsPass(interlaced, c.row, c.step, c.parse, 0);
    if interlaced {
      hide PassOf;
      RowInside(c.row, h);
      RowInside(c.row + c.step, h);
      NextWithin(c.row, c.step, c.parse);
    }
  }

  lemma NextWithin(row: nat, step: nat, parse: nat)
    requires parse <= 3 && step == (if parse == 3 then 8 else if parse == 2 then 8 else if parse == 1 then 4 else 2)
    ensures WithinPass(parse, row + step) == WithinPass(parse, row) + 1
  {
  }

  /** Going to the first row of the next pass that has any keeps the rank. */
  lemma {:induction false} NextPassRank(f: Frame, interlaced: bool, c: Cursor)
    requires Stepping(interlaced, c) && PassOf(interlaced, c.row) == c.parse
    ensures Rank(interlaced, NextPass(f, c), f.fh) == Rank(interlaced, c, f.fh)
    ensures NextPass(f, c).row >= f.fh ==> Rank(interlaced, c, f.fh) == f.fh
    decreases c.parse
  {
    hide RowsOf;
    RowsAddUp(f.fh);
    if c.row >= f.fh && c.parse > 0 {
      var n := Cursor(c.col, Power(c.parse) / 2, Power(c.parse), c.parse - 1);
      FirstOfPass(n.parse, n.row);
      RowInside(n.row, f.fh);
      NextPassRank(f, interlaced, n);
    }
  }

  lemma FirstOfPass(parse: nat, row: nat)
    requires parse < 3 && row == (if parse == 2 then 4 else if parse == 1 then 2 else 1)
    ensures PassOf(true, row) == parse && WithinPass(parse, row) == 0
  {
  }

  // ----------------------------------------------------------------------------------- ranks of pixels

  function Times(a: nat, b: nat): nat {
    a * b
  }

  lemma TimesNext(a: nat, b: nat)
    ensures Times(a + 1, b) == Times(a, b) + b
  {
  }

  lemma {:induction false} TimesBelow(a: nat, n: nat, b: nat)
    requires a < n
    ensures Times(a, b) + b <= Times(n, b)
    decreases n
  {
    hide Times;
    TimesNext(n - 1, b);
    if a < n - 1 {
      TimesBelow(a, n - 1, b);
    }
  }

  /** How many pixels are drawn before the one at (`col`, `row`). */
  function PixelRank(f: Frame, interlaced: bool, col: nat, row: nat): nat {
    Times(RowRank(interlaced, row, f.fh), f.fw) + col
  }

  /** How many symbols it took to get where the cursor is. */
  function Drawings(f: Frame, interlaced: bool, c: Cursor): nat {
    if c.row < f.fh then PixelRank(f, interlaced, c.col, c.row) else Times(f.fh, f.fw)
  }

  /** Every pixel has a rank of its own below the number of pixels. */
  lemma PixelRankFits(f: Frame, interlaced: bool, col: nat, row: nat)
    requires col < f.fw && row < f.fh
    ensures PixelRank(f, interlaced, col, row) < Times(f.fh, f.fw)
  {
    hide Times, RowRank;
    RowRankFits(interlaced, row, f.fh);
    TimesBelow(RowRank(interlaced, row, f.fh), f.fh, f.fw);
  }

  lemma PixelRankUnique(f: Frame, interlaced: bool, col: nat, row: nat, col': nat, row': nat)
    requires col < f.fw && row < f.fh && col' < f.fw && row' < f.fh
    requires PixelRank(f, interlaced, col, row) == PixelRank(f, interlaced, col', row')
    ensures col == col' && row == row'
  {
    hide Times, RowRank;
    var a, b := RowRank(interlaced, row, f.fh), RowRank(interlaced, row', f.fh);
    if a < b {
      TimesBelow(a, b, f.fw);
    } else if b < a {
      TimesBelow(b, a, f.fw);
    }
    RowRankUnique(interlaced, row, row', f.fh);
  }

  lemma AdvanceRank(f: Frame, interlaced: bool, c: Cursor)
    requires Reachable(f, interlaced, c) && c.row < f.fh
    ensures Drawings(f, interlaced, Advance(f, c)) == Drawings(f, interlaced, c) + 1
  {
    hide Times, RowRank, RowsOf;
    if c.col + 1 >= f.fw {
      var n := Cursor(0, c.row + c.step, c.step, c.parse);
      StepDown(interlaced, c, f.fh);
      NextPassRank(f, interlaced, n);
      NextPassCol(f, n);
      AdvanceDraws(f, interlaced, c, c.col, c.row);
      TimesNext(RowRank(interlaced, c.row, f.fh), f.fw);
    }
  }

  /** Symbol `k` lands on the pixel of rank `k`; after as many symbols as there are pixels the frame is full. */
  lemma {:induction false} SymbolPlace(f: Frame, interlaced: bool, k: nat)
    ensures k < Times(f.fh, f.fw) ==>
      var c := CursorAt(f, interlaced, k);
      c.row < f.fh && c.col < f.fw && PixelRank(f, interlaced, c.col, c.row) == k
    ensures k >= Times(f.fh, f.fw) ==> CursorAt(f, interlaced, k).row >= f.fh
  {
    hide Times, RowRank, Advance;
    var c := CursorAt(f, interlaced, k);
    if k == 0 {
      FirstPlace(f, interlaced);
    } else {
      SymbolPlace(f, interlaced, k - 1);
      var b := CursorAt(f, interlaced, k - 1);
      if b.row < f.fh {
        AdvanceRank(f, interlaced, b);
      }
    }
    if c.row < f.fh {
      PixelRankFits(f, interlaced, c.col, c.row);
    }
  }

  lemma FirstPlace(f: Frame, interlaced: bool)
    ensures Drawings(f, interlaced, First(f, interlaced)) == 0
  {
    if f.fw == 0 || f.fh == 0 {
      assert Times(f.fh, f.fw) == 0;
    }
    assert PassOf(true, 0) == 3;
  }

  /** And every pixel of the frame is the place of exactly one of the first symbols. */
  lemma PixelSymbol(f: Frame, interlaced: bool, col: nat, row: nat) returns (k: nat)
    requires col < f.fw && row < f.fh
    ensures k < Times(f.fh, f.fw) && CursorAt(f, interlaced, k).col == col && CursorAt(f, interlaced, k).row == row
    ensures forall j: nat :: j < Times(f.fh, f.fw) && j != k ==>
      CursorAt(f, interlaced, j).col != col || CursorAt(f, interlaced, j).row != row
  {
    hide Times, PixelRank, CursorAt;
    k := PixelRank(f, interlaced, col, row);
    PixelRankFits(f, interlaced, col, row);
    SymbolPlace(f, interlaced, k);
    var c := CursorAt(f, interlaced, k);
    PixelRankUnique(f, interlaced, c.col, c.row, col, row);
    forall j: nat | j < Times(f.fh, f.fw) && j != k
      ensures CursorAt(f, interlaced, j).col != col || CursorAt(f, interlaced, j).row != row
    {
      SymbolPlace(f, interlaced, j);
    }
  }

  // ------------------------------------------------------------------------------------- a run of symbols

  /** The four bytes of pixel `i` of a canvas. */
  function PixelOf(out: seq<Byte>, i: nat): seq<Byte>
    requires 4 * i + 4 <= |out|
  {
    out[4 * i..4 * i + 4]
  }

  /** A pixel after a symbol has been drawn on it. */
  function Painted(palette: seq<Byte>, sym: Byte, was: seq<Byte>): seq<Byte>
    requires |palette| == 1024
  {
    if palette[4 * sym + 3] <= 128 then was
    else [palette[4 * sym + 2], palette[4 * sym + 1], palette[4 * sym], palette[4 * sym + 3]]
  }

  lemma PutPixelAt(out: seq<Byte>, i: nat, palette: seq<Byte>, sym: Byte, j: nat)
    requires 4 * i + 4 <= |out| && 4 * j + 4 <= |out| && |palette| == 1024
    ensures PixelOf(PutPixel(out, i, palette, sym), j)
         == if j == i then Painted(palette, sym, PixelOf(out, i)) else PixelOf(out, j)
  {
  }

  /** Where symbol `k` lands on the canvas. */
  function PlaceOf(f: Frame, interlaced: bool, k: nat): (i: nat)
    requires f.Inside() && k < Times(f.fh, f.fw)
    ensures i < f.w * f.h
  {
    SymbolPlace(f, interlaced, k);
    Index(f, CursorAt(f, interlaced, k))
  }

  lemma IndexUnique(f: Frame, c: Cursor, c': Cursor)
    requires f.Inside() && c.col < f.fw && c.row < f.fh && c'.col < f.fw && c'.row < f.fh && Index(f, c) == Index(f, c')
    ensures c.col == c'.col && c.row == c'.row
  {
    RowMajor(f.y0 + c.row, f.x0 + c.col, f.y0 + c'.row, f.x0 + c'.col, f.w);
  }

  lemma RowMajor(y: nat, x: nat, y': nat, x': nat, w: nat)
    requires x < w && x' < w && y * w + x == y' * w + x'
    ensures y == y' && x == x'
  {
    if y < y' {
      RowsApart(y, y', w);
    } else if y' < y {
      RowsApart(y', y, w);
    }
  }

  lemma RowsApart(y: nat, y': nat, w: nat)
    requires y < y'
    ensures y * w + w <= y' * w
  {
    TimesBelow(y, y', w);
  }

  /** Different symbols land in different places. */
  lemma PlacesDiffer(f: Frame, interlaced: bool, j: nat, k: nat)
    requires f.Inside() && j < Times(f.fh, f.fw) && k < Times(f.fh, f.fw) && j != k
    ensures PlaceOf(f, interlaced, j) != PlaceOf(f, interlaced, k)
  {
    hide Times, Index, CursorAt;
    SymbolPlace(f, interlaced, j);
    SymbolPlace(f, interlaced, k);
    if PlaceOf(f, interlaced, j) == PlaceOf(f, interlaced, k) {
      IndexUnique(f, CursorAt(f, interlaced, j), CursorAt(f, interlaced, k));
    }
  }

  /** The cursor depends only on how many symbols there were. */
  lemma {:induction false} RunCursor(f: Frame, interlaced: bool, palette: seq<Byte>, r: Raster, syms: seq<Byte>)
    requires Fits(f, r) && |palette| == 1024 && r.cur == First(f, interlaced)
    ensures PutAll(f, palette, r, syms).cur == CursorAt(f, interlaced, |syms|)
    decreases |syms|
  {
    hide Fits, First, Advance;
    if syms != [] {
      RunCursor(f, interlaced, palette, r, syms[..|syms| - 1]);
    }
  }

  /** The last symbol of a run: dropped if the frame is full, else drawn in its place. */
  lemma RunLast(f: Frame, interlaced: bool, palette: seq<Byte>, r: Raster, syms: seq<Byte>)
    requires Fits(f, r) && |palette| == 1024 && r.cur == First(f, interlaced) && syms != []
    ensures var k := |syms| - 1;
      var before, after := PutAll(f, palette, r, syms[..k]), PutAll(f, palette, r, syms);
      if k >= Times(f.fh, f.fw) then after == before
      else
        var i := PlaceOf(f, interlaced, k);
        after.out == PutPixel(before.out, i, palette, syms[k]) && after.history == before.history[i := 1]
  {
    hide Fits, First, Advance, Times, CursorAt, Index, PutPixel;
    var k := |syms| - 1;
    RunCursor(f, interlaced, palette, r, syms[..k]);
    SymbolPlace(f, interlaced, k);
  }

  /** Pixels that no symbol lands on stay as they were. */
  lemma {:induction false} RunKeeps(f: Frame, interlaced: bool, palette: seq<Byte>, r: Raster, syms: seq<Byte>, i: nat)
    requires Fits(f, r) && |palette| == 1024 && r.cur == First(f, interlaced) && i < f.w * f.h
    requires forall k :: 0 <= k < |syms| && k < Times(f.fh, f.fw) ==> PlaceOf(f, interlaced, k) != i
    ensures var after := PutAll(f, palette, r, syms);
      PixelOf(after.out, i) == PixelOf(r.out, i) && after.history[i] == r.history[i]
    decreases |syms|
  {
    hide First, Times, PlaceOf, PixelOf, PutPixel, PutAll;
    if syms == [] {
      RunNothing(f, palette, r);
    } else {
      var k := |syms| - 1;
      RunKeeps(f, interlaced, palette, r, syms[..k], i);
      RunLast(f, interlaced, palette, r, syms);
      if k < Times(f.fh, f.fw) {
        PutPixelAt(PutAll(f, palette, r, syms[..k]).out, PlaceOf(f, interlaced, k), palette, syms[k], i);
      }
    }
  }

  lemma RunNothing(f: Frame, palette: seq<Byte>, r: Raster)
    requires Fits(f, r) && |palette| == 1024
    ensures PutAll(f, palette, r, []) == r
  {
  }

  /** Symbol `k` of a run is what is seen in its place in the end; symbols after the frame is full are dropped. */
  lemma {:induction false} RunDraws(f: Frame, interlaced: bool, palette: seq<Byte>, r: Raster, syms: seq<Byte>, k: nat)
    requires Fits(f, r) && |palette| == 1024 && r.cur == First(f, interlaced)
    requires k < |syms| && k < Times(f.fh, f.fw)
    ensures var after, i := PutAll(f, palette, r, syms), PlaceOf(f, interlaced, k);
      PixelOf(after.out, i) == Painted(palette, syms[k], PixelOf(r.out, i)) && after.history[i] == 1
    decreases |syms|
  {
    hide First, Times, PlaceOf, PixelOf, PutPixel, PutAll, Painted;
    var n, i := |syms| - 1, PlaceOf(f, interlaced, k);
    var before := PutAll(f, palette, r, syms[..n]);
    RunLast(f, interlaced, palette, r, syms);
    if k < n {
      RunDraws(f, interlaced, palette, r, syms[..n], k);
      if n < Times(f.fh, f.fw) {
        PlacesDiffer(f, interlaced, k, n);
        PutPixelAt(before.out, PlaceOf(f, interlaced, n), palette, syms[n], i);
      }
    } else {
      forall j | 0 <= j < n && j < Times(f.fh, f.fw)
        ensures PlaceOf(f, interlaced, j) != i
      {
        PlacesDiffer(f, interlaced, j, k);
      }
      RunKeeps(f, interlaced, palette, r, syms[..n], i);
      PutPixelAt(before.out, i, palette, syms[n], i);
    }
  }
}
