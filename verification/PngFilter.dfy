/** PNG scanline filters: section 9 of the PNG specification (second edition), and their inversion. */
module PngFilter {
  import opened BitStream

  const F_NONE := 0
  const F_SUB := 1
  const F_UP := 2
  const F_AVG := 3
  const F_PAETH := 4
  const F_AVG_FIRST := 5

  function Abs(v: int): nat {
    if v < 0 then -v else v
  }

  /** The Paeth predictor as section 9.4 defines it. */
  function PaethPredictor(a: int, b: int, c: int): int {
    var p := a + b - c;
    var pa, pb, pc := Abs(p - a), Abs(p - b), Abs(p - c);
    if pa <= pb && pa <= pc then a else if pb <= pc then b else c
  }

  /** `stbi__paeth`, which compares against a threshold instead of distances. */
  function Paeth(a: int, b: int, c: int): (r: int)
    ensures r == PaethPredictor(a, b, c)
  {
    var thresh := c * 3 - (a + b);
    var lo := if a < b then a else b;
    var hi := if a < b then b else a;
    var t0 := if hi <= thresh then lo else c;
    if thresh <= lo then hi else t0
  }

  /** The prediction of filter `ft` from the bytes to the left, above, and above left. */
  function Predict(ft: nat, a: Byte, b: Byte, c: Byte): (r: Byte)
  {
    if ft == F_SUB then a
    else if ft == F_UP then b
    else if ft == F_AVG then (a + b) / 2
    else if ft == F_PAETH then PaethPredictor(a, b, c)
    else 0
  }

  /** Addition and subtraction of bytes. */
  function Plus(v: Byte, p: Byte): Byte {
    (v + p) % 256
  }

  function Less(v: Byte, p: Byte): Byte {
    (v + 256 - p) % 256
  }

  /** The byte `bpp` places before place `k`, or 0 at the start of the row. */
  function Back(row: seq<Byte>, k: nat, bpp: nat): Byte
    requires k <= |row| + bpp && bpp > 0
  {
    if k < bpp then 0 else if k - bpp < |row| then row[k - bpp] else 0
  }

  /** A filtered scanline. */
  function FilterRow(ft: nat, row: seq<Byte>, prior: seq<Byte>, bpp: nat): (r: seq<Byte>)
    requires |row| == |prior| && bpp > 0
    ensures |r| == |row|
  {
    seq<Byte>(|row|, k requires 0 <= k < |row| =>
      Less(row[k], Predict(ft, Back(row, k, bpp), prior[k], Back(prior, k, bpp))))
  }

  /** The first `n` bytes of the scanline that `raw` is the filtered form of. */
  function UnfilterTo(ft: nat, raw: seq<Byte>, prior: seq<Byte>, bpp: nat, n: nat): (r: seq<Byte>)
    requires n <= |raw| == |prior| && bpp > 0
    ensures |r| == n
  {
    if n == 0 then []
    else
      var before := UnfilterTo(ft, raw, prior, bpp, n - 1);
      before + [Plus(raw[n - 1], Predict(ft, Back(before, n - 1, bpp), prior[n - 1], Back(prior, n - 1, bpp)))]
  }

  function Unfilter(ft: nat, raw: seq<Byte>, prior: seq<Byte>, bpp: nat): (r: seq<Byte>)
    requires |raw| == |prior| && bpp > 0
    ensures |r| == |raw|
  {
    UnfilterTo(ft, raw, prior, bpp, |raw|)
  }

  lemma AddBack(v: Byte, p: Byte)
    ensures Plus(Less(v, p), p) == v && Less(Plus(v, p), p) == v
  {
    assert Less(v, p) == if v >= p then v - p else v + 256 - p;
    assert Plus(v, p) == if v + p < 256 then v + p else v + p - 256;
  }

  /** Looking back from place `k` only sees what is before it. */
  lemma BackPrefix(row: seq<Byte>, k: nat, bpp: nat)
    requires k <= |row| && bpp > 0
    ensures Back(row[..k], k, bpp) == Back(row, k, bpp)
  {
  }

  lemma {:induction false} UnfilterFilterTo(ft: nat, row: seq<Byte>, prior: seq<Byte>, bpp: nat, n: nat)
    requires n <= |row| == |prior| && bpp > 0
    ensures UnfilterTo(ft, FilterRow(ft, row, prior, bpp), prior, bpp, n) == row[..n]
  {
    hide Predict, Back, Plus, Less;
    if n > 0 {
      UnfilterFilterTo(ft, row, prior, bpp, n - 1);
      var k := n - 1;
      BackPrefix(row, k, bpp);
      AddBack(row[k], Predict(ft, Back(row, k, bpp), prior[k], Back(prior, k, bpp)));
      assert row[..n] == row[..k] + [row[k]];
    }
  }

  /** Unfiltering recovers every scanline from its filtered form. */
  lemma UnfilterFilter(ft: nat, row: seq<Byte>, prior: seq<Byte>, bpp: nat)
    requires |row| == |prior| && bpp > 0
    ensures Unfilter(ft, FilterRow(ft, row, prior, bpp), prior, bpp) == row
  {
    UnfilterFilterTo(ft, row, prior, bpp, |row|);
    assert row[..|row|] == row;
  }

  lemma {:induction false} UnfilterPrefix(ft: nat, raw: seq<Byte>, prior: seq<Byte>, bpp: nat, m: nat, n: nat)
    requires m <= n <= |raw| == |prior| && bpp > 0
    ensures UnfilterTo(ft, raw, prior, bpp, n)[..m] == UnfilterTo(ft, raw, prior, bpp, m)
    decreases n
  {
    hide Predict, Back, Plus;
    if m < n {
      UnfilterPrefix(ft, raw, prior, bpp, m, n - 1);
    }
  }

  /** And filtering what was recovered gives the filtered form back. */
  lemma FilterUnfilter(ft: nat, raw: seq<Byte>, prior: seq<Byte>, bpp: nat)
    requires |raw| == |prior| && bpp > 0
    ensures FilterRow(ft, Unfilter(ft, raw, prior, bpp), prior, bpp) == raw
  {
    hide Unfilter, UnfilterTo, Predict, Back, Plus, Less;
    var row := Unfilter(ft, raw, prior, bpp);
    forall k | 0 <= k < |raw|
      ensures FilterRow(ft, row, prior, bpp)[k] == raw[k]
    {
      UnfilteredAt(ft, raw, prior, bpp, k);
      AddBack(raw[k], Predict(ft, Back(row, k, bpp), prior[k], Back(prior, k, bpp)));
    }
  }

  lemma UnfilteredAt(ft: nat, raw: seq<Byte>, prior: seq<Byte>, bpp: nat, k: nat)
    requires k < |raw| == |prior| && bpp > 0
    ensures var row := Unfilter(ft, raw, prior, bpp);
      row[k] == Plus(raw[k], Predict(ft, Back(row, k, bpp), prior[k], Back(prior, k, bpp)))
  {
    hide Predict, Back, Plus;
    var row := Unfilter(ft, raw, prior, bpp);
    UnfilterPrefix(ft, raw, prior, bpp, k, |raw|);
    UnfilterPrefix(ft, raw, prior, bpp, k + 1, |raw|);
    BackPrefix(row, k, bpp);
    assert row[k] == row[..k + 1][k];
  }

  /** `p` is the neighbour nearest to `a + b - c`; of equally near ones `a` comes before `b` and `b` before `c`. */
  predicate Nearest(p: int, a: int, b: int, c: int) {
    var e := a + b - c;
    || (p == a && Abs(e - a) <= Abs(e - b) && Abs(e - a) <= Abs(e - c))
    || (p == b && Abs(e - b) < Abs(e - a) && Abs(e - b) <= Abs(e - c))
    || (p == c && Abs(e - c) < Abs(e - a) && Abs(e - c) < Abs(e - b))
  }

  /** What a filtered byte is: with the neighbours `a` to the left, `b` above and `c` above left, the byte that gives
      the original when 0, `a`, `b`, the mean of `a` and `b`, or the nearest neighbour is added. */
  lemma FilterMeans(ft: nat, row: seq<Byte>, prior: seq<Byte>, bpp: nat, k: nat)
    requires ft <= 4 && k < |row| == |prior| && bpp > 0
    ensures var f := FilterRow(ft, row, prior, bpp)[k];
      var a: int, b: int := if k < bpp then 0 else row[k - bpp], prior[k];
      var c: int := if k < bpp then 0 else prior[k - bpp];
      && (ft == 0 ==> f == row[k])
      && (ft == 1 ==> (f + a) % 256 == row[k])
      && (ft == 2 ==> (f + b) % 256 == row[k])
      && (ft == 3 ==> (f + (a + b) / 2) % 256 == row[k])
      && (ft == 4 ==> exists p :: Nearest(p, a, b, c) && (f + p) % 256 == row[k])
  {
    hide PaethPredictor, Plus, Less;
    var a, b, c := Back(row, k, bpp), prior[k], Back(prior, k, bpp);
    var f, p := FilterRow(ft, row, prior, bpp)[k], Predict(ft, a, b, c);
    AddBack(row[k], p);
    PlusIs(f, p);
    PredictorNearest(a, b, c);
    if ft == 0 {
      assert (f + 0) % 256 == f;
    }
  }

  lemma PlusIs(v: Byte, p: Byte)
    ensures Plus(v, p) == (v + p) % 256
  {
  }

  lemma PredictorNearest(a: int, b: int, c: int)
    ensures Nearest(PaethPredictor(a, b, c), a, b, c)
  {
  }

  // ------------------------------------------------------------------------------------- substitution

  function Zeros(n: nat): (r: seq<Byte>)
    ensures |r| == n && forall i :: 0 <= i < n ==> r[i] == 0
  {
    seq<Byte>(n, i => 0)
  }

  /** The filter used instead of `ft` in the first row, where everything above is zero. */
  function FirstRowFilter(ft: nat): nat
    requires ft <= 4
  {
    [F_NONE, F_SUB, F_NONE, F_AVG_FIRST, F_SUB][ft]
  }

  /** What the decoder's filter `f` predicts, with `F_AVG_FIRST` as well. */
  function Predict'(f: nat, a: Byte, b: Byte, c: Byte): Byte {
    if f == F_AVG_FIRST then a / 2 else Predict(f, a, b, c)
  }

  /** In the first row the substitute predicts the same without looking at the row above. */
  lemma SubstitutePredicts(ft: nat, a: Byte, b: Byte, c: Byte)
    requires ft <= 4
    ensures Predict'(FirstRowFilter(ft), a, b, c) == Predict(ft, a, 0, 0)
  {
  }

  /** The scanline that `raw` stands for under the decoder's filter `f`, up to place `n`. */
  function DecodeTo(f: nat, raw: seq<Byte>, prior: seq<Byte>, bpp: nat, n: nat): (r: seq<Byte>)
    requires n <= |raw| == |prior| && bpp > 0
    ensures |r| == n
  {
    if n == 0 then []
    else
      var before := DecodeTo(f, raw, prior, bpp, n - 1);
      before + [Plus(raw[n - 1], Predict'(f, Back(before, n - 1, bpp), prior[n - 1], Back(prior, n - 1, bpp)))]
  }

  lemma {:induction false} DecodeFirst(ft: nat, raw: seq<Byte>, junk: seq<Byte>, bpp: nat, n: nat)
    requires ft <= 4 && n <= |raw| == |junk| && bpp > 0
    ensures DecodeTo(FirstRowFilter(ft), raw, junk, bpp, n) == UnfilterTo(ft, raw, Zeros(|raw|), bpp, n)
  {
    hide Predict, Predict', FirstRowFilter, Plus;
    if n > 0 {
      DecodeFirst(ft, raw, junk, bpp, n - 1);
      var before := UnfilterTo(ft, raw, Zeros(|raw|), bpp, n - 1);
      SubstitutePredicts(ft, Back(before, n - 1, bpp), junk[n - 1], Back(junk, n - 1, bpp));
    }
  }

  lemma {:induction false} DecodeLater(ft: nat, raw: seq<Byte>, prior: seq<Byte>, bpp: nat, n: nat)
    requires ft <= 4 && n <= |raw| == |prior| && bpp > 0
    ensures DecodeTo(ft, raw, prior, bpp, n) == UnfilterTo(ft, raw, prior, bpp, n)
  {
    hide Predict, Back, Plus;
    if n > 0 {
      DecodeLater(ft, raw, prior, bpp, n - 1);
    }
  }

  // ------------------------------------------------------------------------------- the filtering loops

  /** The loops of `stbi__create_png_image_raw` that undo filter `f`, from `raw` and the row at `po` of the
      workspace into the row at `co`. */
  method UndoFilter(f: nat, raw: seq<Byte>, buf: array<nat>, co: nat, po: nat, bpp: nat, ghost prior: seq<Byte>)
    requires f <= 5 && 0 < bpp <= |raw| == |prior|
    requires co + |raw| <= buf.Length && po + |raw| <= buf.Length && (co + |raw| <= po || po + |raw| <= co)
    requires buf[po..po + |raw|] == prior
    modifies buf
    ensures buf[co..co + |raw|] == DecodeTo(f, raw, prior, bpp, |raw|)
    ensures buf[po..po + |raw|] == prior
  {
    hide DecodeTo;
    var nk := |raw|;
    var k := 0;
    assert buf[co..co] == DecodeTo(f, raw, prior, bpp, 0) by {
      DecodeNone(f, raw, prior, bpp);
    }
    // the first bytes, with nothing to the left of them
    while k < bpp
      invariant 0 <= k <= bpp
      invariant buf[co..co + k] == DecodeTo(f, raw, prior, bpp, k) && buf[po..po + nk] == prior
    {
      k := UndoStart(f, raw, buf, co, po, bpp, k, prior);
    }
    while k < nk
      invariant bpp <= k <= nk
      invariant buf[co..co + k] == DecodeTo(f, raw, prior, bpp, k) && buf[po..po + nk] == prior
    {
      k := UndoRest(f, raw, buf, co, po, bpp, k, prior);
    }
  }

  lemma DecodeNone(f: nat, raw: seq<Byte>, prior: seq<Byte>, bpp: nat)
    requires |raw| == |prior| && bpp > 0
    ensures DecodeTo(f, raw, prior, bpp, 0) == []
  {
  }

  method UndoStart(f: nat, raw: seq<Byte>, buf: array<nat>, co: nat, po: nat, bpp: nat, k: nat, ghost prior: seq<Byte>)
    returns (k': nat)
    requires f <= 5 && k < bpp <= |raw| == |prior|
    requires co + |raw| <= buf.Length && po + |raw| <= buf.Length && (co + |raw| <= po || po + |raw| <= co)
    requires buf[po..po + |raw|] == prior && buf[co..co + k] == DecodeTo(f, raw, prior, bpp, k)
    modifies buf
    ensures k' == k + 1 && buf[po..po + |raw|] == prior && buf[co..co + k'] == DecodeTo(f, raw, prior, bpp, k')
  {
    hide DecodeTo, Back, Predict', PaethPredictor;
    var above := buf[po + k];
    assert above == prior[k];
    StartValue(f, raw, prior, bpp, k);
    buf[co + k] :=
      if f == F_UP || f == F_PAETH then (raw[k] + above) % 256
      else if f == F_AVG then (raw[k] + above / 2) % 256
      else raw[k];
    k' := k + 1;
    assert buf[co..co + k'] == buf[co..co + k] + [buf[co + k]];
  }

  /** With nothing to the left the prediction uses the byte above only. */
  lemma StartValue(f: nat, raw: seq<Byte>, prior: seq<Byte>, bpp: nat, k: nat)
    requires f <= 5 && k < bpp <= |raw| == |prior|
    ensures var above: int := prior[k];
      DecodeTo(f, raw, prior, bpp, k + 1) == DecodeTo(f, raw, prior, bpp, k)
      + [if f == F_UP || f == F_PAETH then (raw[k] + above) % 256
         else if f == F_AVG then (raw[k] + above / 2) % 256
         else raw[k]]
  {
    PaethStart(prior[k]);
  }

  method UndoRest(f: nat, raw: seq<Byte>, buf: array<nat>, co: nat, po: nat, bpp: nat, k: nat, ghost prior: seq<Byte>)
    returns (k': nat)
    requires f <= 5 && 0 < bpp <= k < |raw| == |prior|
    requires co + |raw| <= buf.Length && po + |raw| <= buf.Length && (co + |raw| <= po || po + |raw| <= co)
    requires buf[po..po + |raw|] == prior && buf[co..co + k] == DecodeTo(f, raw, prior, bpp, k)
    modifies buf
    ensures k' == k + 1 && buf[po..po + |raw|] == prior && buf[co..co + k'] == DecodeTo(f, raw, prior, bpp, k')
  {
    hide DecodeTo, Back, Predict', PaethPredictor;
    var left, above, corner := buf[co + k - bpp], buf[po + k], buf[po + k - bpp];
    assert left == buf[co..co + k][k - bpp] && above == prior[k] && corner == prior[k - bpp];
    RestValue(f, raw, prior, bpp, k);
    buf[co + k] :=
      if f == F_SUB then (raw[k] + left) % 256
      else if f == F_UP then (raw[k] + above) % 256
      else if f == F_AVG then (raw[k] + (above + left) / 2) % 256
      else if f == F_PAETH then (raw[k] + Paeth(left, above, corner)) % 256
      else if f == F_AVG_FIRST then (raw[k] + left / 2) % 256
      else raw[k];
    k' := k + 1;
    assert buf[co..co + k'] == buf[co..co + k] + [buf[co + k]];
  }

  lemma RestValue(f: nat, raw: seq<Byte>, prior: seq<Byte>, bpp: nat, k: nat)
    requires f <= 5 && 0 < bpp <= k < |raw| == |prior|
    ensures var before := DecodeTo(f, raw, prior, bpp, k);
      var left, above, corner := before[k - bpp], prior[k], prior[k - bpp];
      DecodeTo(f, raw, prior, bpp, k + 1) == before
      + [if f == F_SUB then (raw[k] + left) % 256
         else if f == F_UP then (raw[k] + above) % 256
         else if f == F_AVG then (raw[k] + (above + left) / 2) % 256
         else if f == F_PAETH then (raw[k] + Paeth(left, above, corner)) % 256
         else if f == F_AVG_FIRST then (raw[k] + left / 2) % 256
         else raw[k]]
  {
    hide PaethPredictor;
  }

  /** With nothing to the left, the Paeth predictor is the byte above. */
  lemma PaethStart(b: nat)
    ensures PaethPredictor(0, b, 0) == b
  {
  }
}
