/** Where the pixels of a GIF frame go, in order: Appendix E of the GIF89a specification, in pixel coordinates. */
module GifRaster {
  import opened BitStream

  /** A frame of `fw` by `fh` pixels at (`x0`, `y0`) of a canvas of `w` by `h`. */
  datatype Frame = Frame(w: nat, h: nat, x0: nat, y0: nat, fw: nat, fh: nat) {
    predicate Inside() {
      x0 + fw <= w && y0 + fh <= h
    }
  }

  /** The next pixel: its column and row in the frame, the row step, and the number of passes still to come. */
  datatype Cursor = Cursor(col: nat, row: nat, step: nat, parse: nat)

  function Power(parse: nat): (s: nat)
    requires parse <= 3
    ensures s > 0
  {
    if parse == 3 then 8 else if parse == 2 then 4 else if parse == 1 then 2 else 1
  }

  /** Past the last row of a pass, the first row of the next pass that has any. */
  function NextPass(f: Frame, c: Cursor): Cursor
    requires c.parse <= 3
    decreases c.parse
  {
    if c.row >= f.fh && c.parse > 0
    then NextPass(f, Cursor(c.col, Power(c.parse) / 2, Power(c.parse), c.parse - 1))
    else c
  }

  function Advance(f: Frame, c: Cursor): Cursor
    requires c.parse <= 3
  {
    if c.col + 1 < f.fw then c.(col := c.col + 1)
    else NextPass(f, Cursor(0, c.row + c.step, c.step, c.parse))
  }

  function First(f: Frame, interlaced: bool): Cursor {
    Cursor(0, if f.fw == 0 then f.fh else 0, if interlaced then 8 else 1, if interlaced then 3 else 0)
  }

  // ------------------------------------------------------------------------- every pixel exactly once

  /** The number of passes still to come when a row is drawn: rows 0, 8, 16, ... then 4, 12, ..., then 2, 6, ...,
      then the odd ones. Without interlacing there is one pass. */
  function PassOf(interlaced: bool, row: nat): (p: nat)
    ensures p <= 3
  {
    if !interlaced then 0 else if row % 8 == 0 then 3 else if row % 4 == 0 then 2 else if row % 2 == 0 then 1 else 0
  }

  /** A cursor that some prefix of the pixels leads to. */
  predicate Reachable(f: Frame, interlaced: bool, c: Cursor) {
    && c.parse <= 3
    && (if !interlaced then c.step == 1 && c.parse == 0
        else c.step == (if c.parse == 3 then 8 else if c.parse == 2 then 8 else if c.parse == 1 then 4 else 2))
    && (c.row < f.fh ==> c.col < f.fw && PassOf(interlaced, c.row) == c.parse)
    && (c.row >= f.fh ==> c.parse == 0 || f.fw == 0 || f.fh == 0)
  }

  /** The pixel was drawn before the cursor got where it is. */
  predicate Drawn(f: Frame, interlaced: bool, c: Cursor, col: nat, row: nat) {
    || PassOf(interlaced, row) > c.parse
    || (PassOf(interlaced, row) == c.parse && (row < c.row || (row == c.row && col < c.col)))
  }

  lemma FirstReachable(f: Frame, interlaced: bool)
    ensures Reachable(f, interlaced, First(f, interlaced))
    ensures f.fw > 0 ==> forall col: nat, row: nat :: col < f.fw && row < f.fh ==>
      !Drawn(f, interlaced, First(f, interlaced), col, row)
  {
    forall col: nat, row: nat | col < f.fw && row < f.fh
      ensures !Drawn(f, interlaced, First(f, interlaced), col, row)
    {
      assert row == 0 ==> PassOf(interlaced, row) == First(f, interlaced).parse;
    }
  }

  /** A cursor at the end of a pass: nothing of the later passes is drawn yet. */
  lemma {:induction false} NextPassDrawn(f: Frame, interlaced: bool, c: Cursor, col: nat, row: nat)
    requires c.parse <= 3 && c.col == 0 && (c.parse > 0 ==> interlaced) && f.fw > 0
    requires c.row < f.fh ==> PassOf(interlaced, c.row) == c.parse
    requires if !interlaced then c.step == 1
      else c.step == (if c.parse == 3 then 8 else if c.parse == 2 then 8 else if c.parse == 1 then 4 else 2)
    requires row < f.fh
    ensures Reachable(f, interlaced, NextPass(f, c))
    ensures Drawn(f, interlaced, NextPass(f, c), col, row) <==> Drawn(f, interlaced, c, col, row)
    decreases c.parse
  {
    if c.row >= f.fh && c.parse > 0 {
      var n := Cursor(c.col, Power(c.parse) / 2, Power(c.parse), c.parse - 1);
      NextPassDrawn(f, interlaced, n, col, row);
      assert row < n.row ==> PassOf(interlaced, row) != n.parse;
    }
  }

  /** Drawing one pixel adds exactly that pixel to what is drawn, in every state that can be reached. */
  lemma AdvanceDraws(f: Frame, interlaced: bool, c: Cursor, col: nat, row: nat)
    requires Reachable(f, interlaced, c) && c.row < f.fh && col < f.fw && row < f.fh
    ensures Reachable(f, interlaced, Advance(f, c))
    ensures !Drawn(f, interlaced, c, c.col, c.row)
    ensures Drawn(f, interlaced, Advance(f, c), col, row) <==>
      Drawn(f, interlaced, c, col, row) || (col == c.col && row == c.row)
  {
    if c.col + 1 >= f.fw {
      var n := Cursor(0, c.row + c.step, c.step, c.parse);
      StepKeepsPass(interlaced, c.row, c.step, c.parse, row);
      NextPassDrawn(f, interlaced, n, col, row);
    }
  }

  /** Stepping down by `step` stays in the pass and skips no row of it. */
  lemma StepKeepsPass(interlaced: bool, row: nat, step: nat, parse: nat, other: nat)
    requires if !interlaced then step == 1 && parse == 0
      else parse <= 3 && step == (if parse == 3 then 8 else if parse == 2 then 8 else if parse == 1 then 4 else 2)
    requires PassOf(interlaced, row) == parse
    ensures PassOf(interlaced, row + step) == parse
    ensures PassOf(interlaced, other) == parse && row < other ==> other >= row + step
  {
    if interlaced {
      StepKeepsResidue(row, step, parse, other);
    }
  }

  lemma StepKeepsResidue(row: nat, step: nat, parse: nat, other: nat)
    requires parse <= 3 && step == (if parse == 3 then 8 else if parse == 2 then 8 else if parse == 1 then 4 else 2)
    requires PassOf(true, row) == parse
    ensures PassOf(true, row + step) == parse
    ensures PassOf(true, other) == parse && row < other ==> other >= row + step
  {
    hide PassOf;
    if parse == 3 {
      Eighth(row, other);
    } else if parse == 2 {
      OtherEighth(row, other);
    } else if parse == 1 {
      Quarter(row, other);
    } else {
      Half(row, other);
    }
  }

  lemma Eighth(row: nat, other: nat)
    requires PassOf(true, row) == 3
    ensures PassOf(true, row + 8) == 3 && (PassOf(true, other) == 3 && row < other ==> other >= row + 8)
  {
    hide PassOf;
    InEighth(row);
    InEighth(row + 8);
    InEighth(other);
  }

  lemma InEighth(row: nat)
    ensures PassOf(true, row) == 3 <==> row % 8 == 0
  {
    PassResidue(row);
  }

  lemma OtherEighth(row: nat, other: nat)
    requires PassOf(true, row) == 2
    ensures PassOf(true, row + 8) == 2 && (PassOf(true, other) == 2 && row < other ==> other >= row + 8)
  {
    hide PassOf;
    InOtherEighth(row);
    InOtherEighth(row + 8);
    InOtherEighth(other);
  }

  lemma InOtherEighth(row: nat)
    ensures PassOf(true, row) == 2 <==> row % 8 == 4
  {
    PassResidue(row);
  }

  lemma Quarter(row: nat, other: nat)
    requires PassOf(true, row) == 1
    ensures PassOf(true, row + 4) == 1 && (PassOf(true, other) == 1 && row < other ==> other >= row + 4)
  {
    hide PassOf;
    InQuarter(row);
    InQuarter(row + 4);
    InQuarter(other);
  }

  lemma InQuarter(row: nat)
    ensures PassOf(true, row) == 1 <==> row % 4 == 2
  {
    PassResidue(row);
  }

  lemma Half(row: nat, other: nat)
    requires PassOf(true, row) == 0
    ensures PassOf(true, row + 2) == 0 && (PassOf(true, other) == 0 && row < other ==> other >= row + 2)
  {
    hide PassOf;
    InHalf(row);
    InHalf(row + 2);
    InHalf(other);
  }

  lemma InHalf(row: nat)
    ensures PassOf(true, row) == 0 <==> row % 2 == 1
  {
    PassResidue(row);
  }

  /** The passes are residue classes. */
  lemma PassResidue(row: nat)
    ensures PassOf(true, row) == 3 <==> row % 8 == 0
    ensures PassOf(true, row) == 2 <==> row % 8 == 4
    ensures PassOf(true, row) == 1 <==> row % 4 == 2
    ensures PassOf(true, row) == 0 <==> row % 2 == 1
  {
    assert row % 8 == 0 || row % 8 == 1 || row % 8 == 2 || row % 8 == 3 || row % 8 == 4 || row % 8 == 5 || row % 8 == 6
      || row % 8 == 7;
  }

  /** When the cursor has left the frame, every pixel has been drawn. */
  lemma AllDrawn(f: Frame, interlaced: bool, c: Cursor, col: nat, row: nat)
    requires Reachable(f, interlaced, c) && c.row >= f.fh && col < f.fw && row < f.fh
    ensures Drawn(f, interlaced, c, col, row)
  {
  }

  // ------------------------------------------------------------------------------------------ drawing

  /** The canvas in RGBA, the marks of touched pixels, and the cursor. */
  datatype Raster = Raster(out: seq<Byte>, history: seq<Byte>, cur: Cursor)

  predicate Fits(f: Frame, r: Raster) {
    f.Inside() && |r.history| == f.w * f.h && |r.out| == 4 * (f.w * f.h) && r.cur.parse <= 3
      && (r.cur.row < f.fh ==> r.cur.col < f.fw)
  }

  /** The index of a pixel of the frame on the canvas. */
  function Index(f: Frame, c: Cursor): (i: nat)
    requires f.Inside() && c.col < f.fw && c.row < f.fh
    ensures i < f.w * f.h
  {
    InCanvas(f.y0 + c.row, f.x0 + c.col, f.w, f.h);
    (f.y0 + c.row) * f.w + (f.x0 + c.col)
  }

  lemma InCanvas(y: nat, x: nat, w: nat, h: nat)
    requires x < w && y < h
    ensures 0 <= y * w + x < w * h
  {
    assert (y + 1) * w <= h * w;
    assert (y + 1) * w == y * w + w;
  }

  /** A palette entry is stored as blue, green, red, alpha; mostly transparent entries are not drawn. */
  function PutPixel(out: seq<Byte>, i: nat, palette: seq<Byte>, sym: Byte): (r: seq<Byte>)
    requires 4 * i + 4 <= |out| && |palette| == 1024
    ensures |r| == |out|
  {
    if palette[4 * sym + 3] > 128
    then out[4 * i := palette[4 * sym + 2]][4 * i + 1 := palette[4 * sym + 1]][4 * i + 2 := palette[4 * sym]]
            [4 * i + 3 := palette[4 * sym + 3]]
    else out
  }

  /** Drawing the next symbol. Once the frame is full, symbols are dropped. */
  function Put(f: Frame, palette: seq<Byte>, r: Raster, sym: Byte): (r': Raster)
    requires Fits(f, r) && |palette| == 1024
    ensures Fits(f, r')
  {
    if r.cur.row >= f.fh then r
    else
      var i := Index(f, r.cur);
      NextFits(f, r.cur);
      Raster(PutPixel(r.out, i, palette, sym), r.history[i := 1], Advance(f, r.cur))
  }

  lemma {:induction false} NextPassCol(f: Frame, c: Cursor)
    requires c.parse <= 3
    ensures NextPass(f, c).parse <= 3 && NextPass(f, c).col == c.col
    decreases c.parse
  {
    if c.row >= f.fh && c.parse > 0 {
      NextPassCol(f, Cursor(c.col, Power(c.parse) / 2, Power(c.parse), c.parse - 1));
    }
  }

  lemma NextFits(f: Frame, c: Cursor)
    requires c.parse <= 3 && c.col < f.fw
    ensures Advance(f, c).parse <= 3 && Advance(f, c).col < f.fw
  {
    NextPassCol(f, Cursor(0, c.row + c.step, c.step, c.parse));
  }

  function PutAll(f: Frame, palette: seq<Byte>, r: Raster, syms: seq<Byte>): (r': Raster)
    requires Fits(f, r) && |palette| == 1024
    ensures Fits(f, r')
    decreases |syms|
  {
    if syms == [] then r else Put(f, palette, PutAll(f, palette, r, syms[..|syms| - 1]), syms[|syms| - 1])
  }

  lemma {:induction false} PutAllAppend(f: Frame, palette: seq<Byte>, r: Raster, a: seq<Byte>, b: seq<Byte>)
    requires Fits(f, r) && |palette| == 1024
    ensures PutAll(f, palette, r, a + b) == PutAll(f, palette, PutAll(f, palette, r, a), b)
    decreases |b|
  {
    hide Put, Fits;
    if b == [] {
      assert a + b == a;
    } else {
      assert (a + b)[..|a + b| - 1] == a + b[..|b| - 1];
      PutAllAppend(f, palette, r, a, b[..|b| - 1]);
    }
  }
}
