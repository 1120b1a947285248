/** A GIF raster from the writer's side: codes, packed into bytes, cut into sub-blocks, come out as the pixels that
    the codes stand for. */
module GifPicture {
  import opened Shifts
  import opened BitStream
  import opened GifRaster
  import opened GifOrder
  import opened Lzw
  import opened GifFormat
  import opened Gif

  // ------------------------------------------------------------------------------------------- sub-blocks

  predicate ChunksOk(chunks: seq<seq<Byte>>) {
    forall i :: 0 <= i < |chunks| ==> 0 < |chunks[i]| < 256
  }

  /** Each piece after its length, and an empty piece at the end. */
  function SubBlocks(chunks: seq<seq<Byte>>): seq<Byte>
    requires ChunksOk(chunks)
  {
    if chunks == [] then [0] else [|chunks[0]|] + chunks[0] + SubBlocks(chunks[1..])
  }

  function Joined(chunks: seq<seq<Byte>>): seq<Byte> {
    if chunks == [] then [] else chunks[0] + Joined(chunks[1..])
  }

  /** `w` is in the file at `p`. */
  predicate InFile(data: seq<Byte>, p: nat, w: seq<Byte>) {
    p + |w| <= |data| && data[p..p + |w|] == w
  }

  lemma InFileSplit(data: seq<Byte>, p: nat, v: seq<Byte>, w: seq<Byte>)
    requires InFile(data, p, v + w)
    ensures InFile(data, p, v) && InFile(data, p + |v|, w)
  {
    var s := data[p..p + |v + w|];
    assert s[..|v|] == v && s[|v|..] == w;
  }

  /** The decoder reads the pieces as one, and ends after the empty one. */
  lemma {:induction false} PayloadRead(data: seq<Byte>, p: nat, chunks: seq<seq<Byte>>)
    requires ChunksOk(chunks) && InFile(data, p, SubBlocks(chunks))
    ensures Payload(data, p) == Joined(chunks) && AfterBlocks(data, p) == p + |SubBlocks(chunks)|
    decreases chunks
  {
    hide InFile, FileBytes, Payload, AfterBlocks;
    if chunks == [] {
      assert [0] + [] == SubBlocks(chunks);
      OneByte(data, p, 0, []);
      Unfolded(data, p);
    } else {
      var c, rest := chunks[0], SubBlocks(chunks[1..]);
      assert [|c|] + c + rest == [|c|] + (c + rest);
      OneByte(data, p, |c|, c + rest);
      Unfolded(data, p);
      InFileSplit(data, p + 1, c, rest);
      FileBytesAre(data, p + 1, c);
      PayloadRead(data, p + 1 + |c|, chunks[1..]);
    }
  }

  lemma Unfolded(data: seq<Byte>, p: nat)
    requires p < |data|
    ensures data[p] == 0 ==> Payload(data, p) == [] && AfterBlocks(data, p) == p + 1
    ensures data[p] > 0 ==>
      && Payload(data, p) == FileBytes(data, p + 1, data[p]) + Payload(data, p + 1 + data[p])
      && AfterBlocks(data, p) == AfterBlocks(data, p + 1 + data[p])
  {
    hide FileBytes;
  }

  lemma OneByte(data: seq<Byte>, p: nat, b: Byte, w: seq<Byte>)
    requires InFile(data, p, [b] + w)
    ensures p < |data| && data[p] == b == ByteAt(data, p) && InFile(data, p + 1, w)
  {
    InFileSplit(data, p, [b], w);
    assert data[p] == data[p..p + 1][0];
  }

  lemma FileBytesAre(data: seq<Byte>, p: nat, w: seq<Byte>)
    requires InFile(data, p, w)
    ensures FileBytes(data, p, |w|) == w
  {
    forall i | 0 <= i < |w|
      ensures ByteAt(data, p + i) == w[i]
    {
      assert data[p..p + |w|][i] == data[p + i];
    }
  }

  // ---------------------------------------------------------------------------------------------- rasters

  /** The codes and the end code, in bits. */
  function Ended(cs: nat, codes: seq<nat>): seq<Bit> {
    Coded(Pow2(cs), codes) + Field(Pow2(cs) + 1, WidthAfter(Pow2(cs), codes))
  }

  /** A code size, and the codes in sub-blocks. */
  predicate RasterAt(data: seq<Byte>, p: nat, cs: nat, codes: seq<nat>, chunks: seq<seq<Byte>>) {
    && 2 <= cs <= 11 && ChunksOk(chunks) && InFile(data, p, [cs] + SubBlocks(chunks))
    && Joined(chunks) == Pack(Ended(cs, codes))
  }

  lemma EndFits(cs: nat, codes: seq<nat>)
    requires 2 <= cs <= 11
    ensures Pow2(cs) + 1 < Pow2(WidthAfter(Pow2(cs), codes))
  {
    hide NumBits, Pow2, Since;
    var n := Size(Pow2(cs), codes);
    NumBitsBound(n, CodeWidth(n));
    Pow2Values();
    Pow2Mono(cs, 11);
  }

  /** What was written is what the raster denotes. */
  lemma RasterRead(data: seq<Byte>, p: nat, cs: nat, codes: seq<nat>, chunks: seq<seq<Byte>>)
    requires RasterAt(data, p, cs, codes, chunks) && AllLegal(Pow2(cs), codes) && AllFit(Pow2(cs), codes)
    ensures ByteAt(data, p) == cs && Rendering(data, p) == Result(Texts(Pow2(cs), codes), true)
    ensures AfterBlocks(data, p + 1) == p + 1 + |SubBlocks(chunks)|
  {
    hide InFile, SubBlocks, Joined, AllLegal, AllFit, Coded, WidthAfter, Pack, Unpack, Field, Pow2, Holds, Decode;
    OneByte(data, p, cs, SubBlocks(chunks));
    PayloadRead(data, p + 1, chunks);
    ShlOne(cs);
    var bits, end := Unpack(Joined(chunks)), Field(Pow2(cs) + 1, WidthAfter(Pow2(cs), codes));
    PackUnpack(Ended(cs, codes), []);
    assert Joined(chunks) + [] == Joined(chunks);
    HoldsSplit(bits, 0, Coded(Pow2(cs), codes), end);
    EndFits(cs, codes);
    PeekField(bits, |Coded(Pow2(cs), codes)|, Pow2(cs) + 1, WidthAfter(Pow2(cs), codes));
    LowIdentity(Pow2(cs) + 1, WidthAfter(Pow2(cs), codes));
    StreamRead(cs, codes, bits);
  }

  /** Every raster with an ordinary code size is legal codes up to some place; it is accepted exactly if they are
      over there. */
  lemma RasterFound(data: seq<Byte>, p: nat) returns (codes: seq<nat>)
    requires 2 <= ByteAt(data, p) <= 11
    ensures var cs := ByteAt(data, p);
      && AllLegal(Pow2(cs), codes) && AllFit(Pow2(cs), codes)
      && Holds(Unpack(Payload(data, p + 1)), 0, Coded(Pow2(cs), codes))
      && Rendering(data, p) == Result(Texts(Pow2(cs), codes), Over(Pow2(cs), codes, Unpack(Payload(data, p + 1))))
  {
    hide AllLegal, AllFit, Coded, Unpack, Pow2, Holds, Over, Decode, Payload;
    var cs := ByteAt(data, p);
    ShlOne(cs);
    codes := StreamFound(cs, Unpack(Payload(data, p + 1)));
  }

  // ---------------------------------------------------------------------------------------------- pixels

  /** The pixel in column `x` and row `y` of the frame shows symbol `sym`, in the order red, green, blue, alpha, where
      the colour table has blue first; or, if that colour is transparent, what it showed before. */
  predicate Shows(f: Frame, palette: seq<Byte>, out: seq<Byte>, was: seq<Byte>, x: nat, y: nat, sym: Byte)
    requires f.Inside() && x < f.fw && y < f.fh && |palette| == 1024 && |out| == |was| == 4 * (f.w * f.h)
  {
    InCanvas(f.y0 + y, f.x0 + x, f.w, f.h);
    var b, c := 4 * ((f.y0 + y) * f.w + (f.x0 + x)), 4 * sym;
    if palette[c + 3] > 128 then
      && out[b] == palette[c + 2] && out[b + 1] == palette[c + 1] && out[b + 2] == palette[c]
      && out[b + 3] == palette[c + 3]
    else
      out[b] == was[b] && out[b + 1] == was[b + 1] && out[b + 2] == was[b + 2] && out[b + 3] == was[b + 3]
  }

  /** After a run of symbols the pixel shows the symbol of its rank. */
  lemma RunShows(f: Frame, interlaced: bool, palette: seq<Byte>, r: Raster, syms: seq<Byte>, x: nat, y: nat)
    requires Fits(f, r) && |palette| == 1024 && r.cur == First(f, interlaced) && x < f.fw && y < f.fh
    requires PixelRank(f, interlaced, x, y) < |syms|
    ensures |PutAll(f, palette, r, syms).out| == |r.out| == 4 * (f.w * f.h)
    ensures Shows(f, palette, PutAll(f, palette, r, syms).out, r.out, x, y, syms[PixelRank(f, interlaced, x, y)])
  {
    hide PutAll, First, PixelRank, CursorAt, Times;
    var k := PixelRank(f, interlaced, x, y);
    PixelRankFits(f, interlaced, x, y);
    SymbolPlace(f, interlaced, k);
    var c := CursorAt(f, interlaced, k);
    PixelRankUnique(f, interlaced, c.col, c.row, x, y);
    RunDraws(f, interlaced, palette, r, syms, k);
    ShownAt(f, palette, PutAll(f, palette, r, syms).out, r.out, x, y, syms[k]);
  }

  lemma ShownAt(f: Frame, palette: seq<Byte>, out: seq<Byte>, was: seq<Byte>, x: nat, y: nat, sym: Byte)
    requires f.Inside() && x < f.fw && y < f.fh && |palette| == 1024 && |out| == |was| == 4 * (f.w * f.h)
    requires var i := Index(f, Cursor(x, y, 0, 0)); PixelOf(out, i) == Painted(palette, sym, PixelOf(was, i))
    ensures Shows(f, palette, out, was, x, y, sym)
  {
    var b := 4 * Index(f, Cursor(x, y, 0, 0));
    var p, q := out[b..b + 4], was[b..b + 4];
    assert out[b] == p[0] && out[b + 1] == p[1] && out[b + 2] == p[2] && out[b + 3] == p[3];
    assert was[b] == q[0] && was[b + 1] == q[1] && was[b + 2] == q[2] && was[b + 3] == q[3];
  }

  /** A frame whose raster was written as codes is drawn: every pixel for which there is a symbol shows it. */
  method DrawFrame(data: seq<Byte>, p: nat, f: Frame, interlaced: bool, palette: seq<Byte>, out: array<Byte>,
                   history: array<Byte>, ghost cs: nat, ghost codes: seq<nat>, ghost chunks: seq<seq<Byte>>)
    returns (ok: bool, end: nat)
    requires f.Inside() && |palette| == 1024 && out != history
    requires history.Length == f.w * f.h && out.Length == 4 * (f.w * f.h)
    requires RasterAt(data, p, cs, codes, chunks) && AllLegal(Pow2(cs), codes) && AllFit(Pow2(cs), codes)
    modifies out, history
    ensures ok && out.Length == |old(out[..])|
    ensures forall x: nat, y: nat :: x < f.fw && y < f.fh ==>
      PixelRank(f, interlaced, x, y) < |Texts(Pow2(cs), codes)| ==>
        Shows(f, palette, out[..], old(out[..]), x, y, Texts(Pow2(cs), codes)[PixelRank(f, interlaced, x, y)])
    ensures Clamp(data, end) == p + 1 + |SubBlocks(chunks)|
  {
    hide RasterAt, AllLegal, AllFit, Rendering, Texts, PutAll, PixelRank, First, Shows, AfterBlocks, SubBlocks, Pow2;
    ghost var was := out[..];
    var d := new GifDecoder(data, p, f, interlaced, palette, out, history);
    ghost var before := d.Now();
    RasterRead(data, p, cs, codes, chunks);
    CodeSizeSmall(data, p, cs, codes, chunks);
    ghost var r;
    ok, r := d.ProcessGifRaster();
    end := d.img;
    forall x: nat, y: nat | x < f.fw && y < f.fh && PixelRank(f, interlaced, x, y) < |r.syms|
      ensures Shows(f, palette, out[..], was, x, y, r.syms[PixelRank(f, interlaced, x, y)])
    {
      RunShows(f, interlaced, palette, before, r.syms, x, y);
    }
  }

  lemma CodeSizeSmall(data: seq<Byte>, p: nat, cs: nat, codes: seq<nat>, chunks: seq<seq<Byte>>)
    requires RasterAt(data, p, cs, codes, chunks)
    ensures cs <= 11
  {
  }
}
