/** From a picture to an interlaced PNG image and back. */
module PngPicture {
  import opened BitStream
  import opened PngFilter
  import opened PngImage
  import opened PngInterlace

  /** The scanlines of a pass and the filter each is stored with. */
  datatype Pass = Pass(types: seq<Byte>, rows: seq<seq<Byte>>)

  predicate Empty(hd: Header, p: nat)
    requires p < 7
  {
    hd.PassW(p) == 0 || hd.PassH(p) == 0
  }

  /** The scanlines have the sizes of pass `p`, and each names one of the five filters. */
  predicate Fitting(hd: Header, p: nat, pass: Pass)
    requires p < 7
  {
    && |pass.types| == |pass.rows| == hd.PassH(p) && Width(pass.rows, hd.Stride(hd.PassW(p)))
    && forall j :: 0 <= j < |pass.types| ==> pass.types[j] <= F_PAETH
  }

  predicate AllFitting(hd: Header, passes: seq<Pass>) {
    |passes| == 7 && forall p :: 0 <= p < 7 && !Empty(hd, p) ==> Fitting(hd, p, passes[p])
  }

  lemma BppPositive(hd: Header)
    requires hd.Valid()
    ensures hd.Bpp() > 0
  {
    LoopBytes(1, hd.img_n, hd.depth);
  }

  /** What the file stores for a pass: its filtered scanlines, or nothing if it is empty. */
  function PassBytes(hd: Header, p: nat, pass: Pass): seq<Byte>
    requires p < 7 && hd.Valid() && (!Empty(hd, p) ==> Fitting(hd, p, pass))
  {
    BppPositive(hd);
    if Empty(hd, p) then [] else Filtered(pass.types, pass.rows, hd.Stride(hd.PassW(p)), hd.Bpp())
  }

  /** The passes from `p` on, and whatever follows them. */
  function Stored(hd: Header, passes: seq<Pass>, p: nat, extra: seq<Byte>): seq<Byte>
    requires p <= 7 && hd.Valid() && AllFitting(hd, passes)
    decreases 7 - p, hd
  {
    if p == 7 then extra else PassBytes(hd, p, passes[p]) + Stored(hd, passes, p + 1, extra)
  }

  /** Every pass starts where the ones before it end. */
  lemma {:induction false} RestIsStored(hd: Header, passes: seq<Pass>, p: nat, extra: seq<Byte>)
    requires p <= 7 && hd.Valid() && AllFitting(hd, passes)
    ensures hd.Rest(Stored(hd, passes, 0, extra), p) == Stored(hd, passes, p, extra)
    decreases p
  {
    hide AllFitting, Filtered, Off, Header.PassW, Header.PassH, Header.Stride, Header.Bpp, Header.Valid;
    if p > 0 {
      RestIsStored(hd, passes, p - 1, extra);
      RestSkips(hd, passes, p - 1, extra);
    }
  }

  lemma RestSkips(hd: Header, passes: seq<Pass>, p: nat, extra: seq<Byte>)
    requires p < 7 && hd.Valid() && AllFitting(hd, passes)
    requires hd.Rest(Stored(hd, passes, 0, extra), p) == Stored(hd, passes, p, extra)
    ensures hd.Rest(Stored(hd, passes, 0, extra), p + 1) == Stored(hd, passes, p + 1, extra)
  {
    hide Off, Header.PassW, Header.PassH, Header.Stride, Header.Bpp, Header.Valid;
    var bytes, after := PassBytes(hd, p, passes[p]), Stored(hd, passes, p + 1, extra);
    assert (bytes + after)[|bytes|..] == after;
    if Empty(hd, p) {
      assert bytes + after == after;
    } else {
      assert Fitting(hd, p, passes[p]);
    }
  }

  /** The sizes of pass `p` fit, if it has any pixels. */
  ghost predicate PassSizesOk(hd: Header, p: nat)
    requires p < 7
  {
    !Empty(hd, p) ==> SizesOk(hd.PassW(p), hd.PassH(p), hd.img_n, hd.out_n, hd.depth)
  }

  /** The samples of pass `p`, from its scanlines. */
  ghost function PassSamples(hd: Header, p: nat, pass: Pass): seq<nat>
    requires p < 7 && hd.Valid() && (!Empty(hd, p) ==> Fitting(hd, p, pass))
  {
    if Empty(hd, p) then [] else Image(pass.rows, hd.PassW(p), hd.img_n, hd.out_n, hd.depth, hd.color)
  }

  /** Every pass decodes to the samples of its scanlines. */
  lemma PassDecodes(hd: Header, passes: seq<Pass>, p: nat, extra: seq<Byte>)
    requires p < 7 && hd.Valid() && AllFitting(hd, passes) && PassSizesOk(hd, p)
    ensures hd.PassOk(Stored(hd, passes, 0, extra), p)
    ensures hd.PassImage(Stored(hd, passes, 0, extra), p) == PassSamples(hd, p, passes[p])
  {
    hide Off, Filtered, Recon, RawOk, SizesOk, Image, Header.PassW, Header.PassH, Header.Rest, Width;
    RestIsStored(hd, passes, p, extra);
    if !Empty(hd, p) {
      assert Fitting(hd, p, passes[p]);
      BppPositive(hd);
      var after := Stored(hd, passes, p + 1, extra);
      FilteredDecodes(passes[p].types, passes[p].rows, hd.Stride(hd.PassW(p)), hd.Bpp(), after);
    }
  }

  /** The seven passes hold the pixels that `pic` has where they belong. */
  ghost predicate TakenFrom(hd: Header, pic: seq<nat>, passes: seq<Pass>)
    requires hd.Valid() && AllFitting(hd, passes)
  {
    && |pic| == Off(Off(hd.height, hd.width), hd.out_n)
    && forall p :: 0 <= p < 7 ==> Taken(pic, PassSamples(hd, p, passes[p]), hd, p)
  }

  /** A picture that is taken apart into seven passes, whose scanlines are filtered in any way and stored one pass
      after the other, comes back. */
  method DecodePicture(data: seq<Byte>, hd: Header, ghost pic: seq<nat>, ghost passes: seq<Pass>,
                       ghost extra: seq<Byte>)
    returns (ok: bool, out: array<nat>)
    requires hd.Valid() && AllFitting(hd, passes) && TakenFrom(hd, pic, passes)
    requires FinalFits(hd) && forall p :: 0 <= p < 7 ==> PassSizesOk(hd, p)
    requires data == Stored(hd, passes, 0, extra)
    ensures ok && out[..] == pic
  {
    hide Stored, Off, Done, Header.Valid, Header.PassOk, Header.PassImage, PassSamples, PassSizesOk, FinalFits, Taken;
    hide Empty, Header.PassW, Header.PassH, Fitting;
    forall p | 0 <= p < 7
      ensures hd.PassOk(data, p) && hd.PassImages(data)[p] == PassSamples(hd, p, passes[p])
    {
      PassDecodes(hd, passes, p, extra);
    }
    ok, out := CreatePngImage(data, hd, true);
    Deinterlaced(out[..], pic, hd.PassImages(data), hd);
  }
}
