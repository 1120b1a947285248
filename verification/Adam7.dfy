/** Adam7 interlacing (section 8.2 of the PNG specification): seven passes that tile the image. */
module Adam7 {
  // The tables of `stbi__create_png_image`.
  const X_ORIG := [0, 4, 0, 2, 0, 1, 0]
  const Y_ORIG := [0, 0, 4, 0, 2, 0, 1]
  const X_SPC := [8, 8, 4, 4, 2, 2, 1]
  const Y_SPC := [8, 8, 8, 4, 4, 2, 2]

  /** The columns of pass `p` in an image of width `w`. */
  function PassWidth(p: nat, w: nat): nat
    requires p < 7
  {
    (w - X_ORIG[p] + X_SPC[p] - 1) / X_SPC[p]
  }

  /** The rows of pass `p` in an image of height `h`. */
  function PassHeight(p: nat, h: nat): nat
    requires p < 7
  {
    (h - Y_ORIG[p] + Y_SPC[p] - 1) / Y_SPC[p]
  }

  function OutX(p: nat, i: nat): nat
    requires p < 7
  {
    i * X_SPC[p] + X_ORIG[p]
  }

  function OutY(p: nat, j: nat): nat
    requires p < 7
  {
    j * Y_SPC[p] + Y_ORIG[p]
  }

  /** The pass of the pixel at (x, y), by its place in the 8 by 8 pattern. */
  function PassOf(x: nat, y: nat): (p: nat)
    ensures p < 7
  {
    if y % 2 == 1 then 6 else if x % 2 == 1 then 5
    else if y % 4 == 2 then 4 else if x % 4 == 2 then 3
    else if y % 8 == 4 then 2 else if x % 8 == 4 then 1
    else 0
  }

  /** The pattern that section 8.2 of the PNG specification shows, with passes counted from 0. */
  const PATTERN: seq<seq<nat>> := [
    [0, 5, 3, 5, 1, 5, 3, 5],
    [6, 6, 6, 6, 6, 6, 6, 6],
    [4, 5, 4, 5, 4, 5, 4, 5],
    [6, 6, 6, 6, 6, 6, 6, 6],
    [2, 5, 3, 5, 2, 5, 3, 5],
    [6, 6, 6, 6, 6, 6, 6, 6],
    [4, 5, 4, 5, 4, 5, 4, 5],
    [6, 6, 6, 6, 6, 6, 6, 6]]

  lemma PatternIs(x: nat, y: nat)
    ensures PassOf(x, y) == PATTERN[y % 8][x % 8]
  {
    ModEight(x);
    ModEight(y);
    assert PassOf(x, y) == PassOf(x % 8, y % 8);
    PatternRow(x % 8, y % 8);
  }

  lemma PatternRow(x: nat, y: nat)
    requires x < 8 && y < 8
    ensures PassOf(x, y) == PATTERN[y][x]
  {
  }

  function ColumnOf(x: nat, y: nat): nat {
    x / X_SPC[PassOf(x, y)]
  }

  function RowOf(x: nat, y: nat): nat {
    y / Y_SPC[PassOf(x, y)]
  }

  /** Every pixel is in a pass, and within the pass's size exactly when it is within the image. */
  lemma Covered(x: nat, y: nat, w: nat, h: nat)
    ensures OutX(PassOf(x, y), ColumnOf(x, y)) == x && OutY(PassOf(x, y), RowOf(x, y)) == y
    ensures x < w <==> ColumnOf(x, y) < PassWidth(PassOf(x, y), w)
    ensures y < h <==> RowOf(x, y) < PassHeight(PassOf(x, y), h)
  {
    PlaceInPattern(x, y);
    InPass(PassOf(x, y), ColumnOf(x, y), RowOf(x, y), w, h);
  }

  lemma PlaceInPattern(x: nat, y: nat)
    ensures OutX(PassOf(x, y), ColumnOf(x, y)) == x && OutY(PassOf(x, y), RowOf(x, y)) == y
  {
    ModEight(x);
    ModEight(y);
    if PassOf(x, y) == 6 {
    } else if PassOf(x, y) == 5 {
    } else if PassOf(x, y) == 4 {
    } else if PassOf(x, y) == 3 {
    } else if PassOf(x, y) == 2 {
    } else if PassOf(x, y) == 1 {
    }
  }

  lemma ModEight(x: nat)
    ensures x == x / 8 * 8 + x % 8 == x / 4 * 4 + x % 4 == x / 2 * 2 + x % 2
    ensures x % 4 == x % 8 || x % 4 + 4 == x % 8
    ensures x % 2 == x % 4 || x % 2 + 2 == x % 4
  {
    var q := x / 8;
    assert x / 4 == 2 * q || x / 4 == 2 * q + 1;
    var r := x / 4;
    assert x / 2 == 2 * r || x / 2 == 2 * r + 1;
  }

  /** A pass ends exactly where its pixels would leave the image. */
  lemma InPass(p: nat, i: nat, j: nat, w: nat, h: nat)
    requires p < 7
    ensures i < PassWidth(p, w) <==> OutX(p, i) < w
    ensures j < PassHeight(p, h) <==> OutY(p, j) < h
  {
    if p == 0 {
    } else if p == 1 {
    } else if p == 2 {
    } else if p == 3 {
    } else if p == 4 {
    } else if p == 5 {
    }
  }

  /** No pixel is in two passes, or twice in one. */
  lemma Once(p: nat, i: nat, j: nat)
    requires p < 7
    ensures PassOf(OutX(p, i), OutY(p, j)) == p
    ensures ColumnOf(OutX(p, i), OutY(p, j)) == i && RowOf(OutX(p, i), OutY(p, j)) == j
  {
    hide PassOf, OutX, OutY;
    PassAt(p, i, j);
    PlaceAt(p, i, j);
  }

  lemma PlaceAt(p: nat, i: nat, j: nat)
    requires p < 7
    ensures OutX(p, i) / X_SPC[p] == i && OutY(p, j) / Y_SPC[p] == j
  {
    if p == 0 {
    } else if p == 1 {
    } else if p == 2 {
    } else if p == 3 {
    } else if p == 4 {
    } else if p == 5 {
    }
  }

  lemma PassAt(p: nat, i: nat, j: nat)
    requires p < 7
    ensures PassOf(OutX(p, i), OutY(p, j)) == p
  {
    if p == 0 {
      Residue8(i, 0);
      Residue8(j, 0);
    } else if p == 1 {
      Residue8(i, 4);
      Residue8(j, 0);
    } else if p == 2 {
      Residue4(i, 0);
      Residue8(j, 4);
    } else if p == 3 {
      Residue4(i, 2);
      Residue4(j, 0);
    } else if p == 4 {
      Remainder2(i * 2, i, 0);
      Residue4(j, 2);
    } else if p == 5 {
      Remainder2(i * 2 + 1, i, 1);
      Remainder2(j * 2, j, 0);
    } else {
      Remainder2(j * 2 + 1, j, 1);
    }
  }

  lemma Residue8(k: nat, r: nat)
    requires r == 0 || r == 4
    ensures (k * 8 + r) % 8 == r && (k * 8 + r) % 4 == 0 && (k * 8 + r) % 2 == 0
  {
    var v := k * 8 + r;
    Remainder8(v, k, r);
    Remainder4(v, if r == 0 then 2 * k else 2 * k + 1, 0);
    Remainder2(v, if r == 0 then 4 * k else 4 * k + 2, 0);
  }

  lemma Residue4(k: nat, r: nat)
    requires r == 0 || r == 2
    ensures (k * 4 + r) % 4 == r && (k * 4 + r) % 2 == 0
  {
    var v := k * 4 + r;
    Remainder4(v, k, r);
    Remainder2(v, if r == 0 then 2 * k else 2 * k + 1, 0);
  }

  lemma Remainder8(v: nat, k: nat, r: nat)
    requires v == 8 * k + r && r < 8
    ensures v % 8 == r
  {
  }

  lemma Remainder4(v: nat, k: nat, r: nat)
    requires v == 4 * k + r && r < 4
    ensures v % 4 == r
  {
  }

  lemma Remainder2(v: nat, k: nat, r: nat)
    requires v == 2 * k + r && r < 2
    ensures v % 2 == r
  {
  }

  function Area(w: nat, h: nat): nat {
    w * h
  }

  function PassArea(p: nat, w: nat, h: nat): nat
    requires p < 7
  {
    Area(PassWidth(p, w), PassHeight(p, h))
  }

  /** The passes together have as many pixels as the image. */
  lemma PassesAddUp(w: nat, h: nat)
    ensures PassArea(0, w, h) + PassArea(1, w, h) + PassArea(2, w, h) + PassArea(3, w, h) + PassArea(4, w, h)
          + PassArea(5, w, h) + PassArea(6, w, h) == w * h
  {
    hide Area, PassWidth, PassHeight;
    MergeWidths(w);
    MergeHeights(h);
    Beside(PassWidth(0, w), PassWidth(1, w), PassHeight(0, h));
    Under((w + 3) / 4, PassHeight(0, h), PassHeight(2, h));
    Beside(PassWidth(2, w), PassWidth(3, w), (h + 3) / 4);
    Under((w + 1) / 2, (h + 3) / 4, PassHeight(4, h));
    Beside(PassWidth(4, w), PassWidth(5, w), (h + 1) / 2);
    Under(w, (h + 1) / 2, PassHeight(6, h));
    AreaIs(w, h);
  }

  /** Passes side by side interleave into all the columns of their rows. */
  lemma MergeWidths(w: nat)
    ensures PassWidth(0, w) + PassWidth(1, w) == PassWidth(2, w) == (w + 3) / 4
    ensures PassWidth(2, w) + PassWidth(3, w) == PassWidth(4, w) == (w + 1) / 2
    ensures PassWidth(4, w) + PassWidth(5, w) == PassWidth(6, w) == w
  {
    assert PassWidth(0, w) == (w + 7) / 8 && PassWidth(1, w) == (w + 3) / 8;
    assert PassWidth(2, w) == (w + 3) / 4 && PassWidth(3, w) == (w + 1) / 4;
    assert PassWidth(4, w) == (w + 1) / 2 && PassWidth(5, w) == w / 2 && PassWidth(6, w) == w;
    EighthsMerge(w);
    FourthsMerge(w);
  }

  /** Each pass of whole rows fills the gaps between the rows so far. */
  lemma MergeHeights(h: nat)
    ensures PassHeight(0, h) == PassHeight(1, h)
    ensures PassHeight(0, h) + PassHeight(2, h) == PassHeight(3, h) == (h + 3) / 4
    ensures (h + 3) / 4 + PassHeight(4, h) == PassHeight(5, h) == (h + 1) / 2
    ensures (h + 1) / 2 + PassHeight(6, h) == h
  {
    assert PassHeight(2, h) == (h + 3) / 8 && PassHeight(4, h) == (h + 1) / 4 && PassHeight(6, h) == h / 2;
    EighthsMerge(h);
    FourthsMerge(h);
  }

  lemma EighthsMerge(h: nat)
    ensures (h + 7) / 8 + (h + 3) / 8 == (h + 3) / 4
  {
  }

  lemma FourthsMerge(h: nat)
    ensures (h + 3) / 4 + (h + 1) / 4 == (h + 1) / 2 && (h + 1) / 2 + h / 2 == h
  {
  }

  lemma Beside(a: nat, b: nat, h: nat)
    ensures Area(a, h) + Area(b, h) == Area(a + b, h)
  {
  }

  lemma Under(w: nat, a: nat, b: nat)
    ensures Area(w, a) + Area(w, b) == Area(w, a + b)
  {
  }

  lemma AreaIs(w: nat, h: nat)
    ensures Area(w, h) == w * h
  {
  }
}
