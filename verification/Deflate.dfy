/** What a DEFLATE stream means, read bit by bit: sections 3.2.3 to 3.2.7 of RFC 1951.
    `capacity` is the most output the caller can hold; a stream that denotes more does not decode. */
module Deflate {
  import opened Shifts
  import opened BitStream
  import opened Canonical

  const LENGTH_ORDER: seq<nat> := [16, 17, 18, 0, 8, 7, 9, 6, 10, 5, 11, 4, 12, 3, 13, 2, 14, 1, 15]

  const END_OF_BLOCK: nat := 256

  /** The extra bits of length code `257 + z` (the table of section 3.2.5). */
  function LengthExtra(z: nat): (r: nat)
    requires z < 29
    ensures r <= 5
  {
    if z < 8 || z == 28 then 0 else z / 4 - 1
  }

  /** The shortest length of code `257 + z`: each code starts where the ones before it end; 258 has its own. */
  function LengthBase(z: nat): (r: nat)
    requires z < 29
    ensures r >= 3
  {
    if z == 0 then 3 else if z == 28 then 258 else LengthBase(z - 1) + Pow2(LengthExtra(z - 1))
  }

  function DistExtra(z: nat): (r: nat)
    requires z < 30
    ensures r <= 13
  {
    if z < 2 then 0 else z / 2 - 1
  }

  function DistBase(z: nat): (r: nat)
    requires z < 30
    ensures r >= 1
  {
    if z == 0 then 1 else DistBase(z - 1) + Pow2(DistExtra(z - 1))
  }

  function LengthOrder(i: nat): (r: nat)
    requires i < 19
    ensures r < 19
  {
    assert forall j :: 0 <= j < 19 ==> LENGTH_ORDER[j] < 19;
    LENGTH_ORDER[i]
  }

  /** The fixed code lengths of section 3.2.6. */
  function FixedLit(): (lens: seq<nat>)
    ensures Lengths(lens) && |lens| == 288
  {
    seq(288, i => if i < 144 then 8 else if i < 256 then 9 else if i < 280 then 7 else 8)
  }

  function FixedDist(): (lens: seq<nat>)
    ensures Lengths(lens) && |lens| == 32
  {
    seq(32, i => 5)
  }

  /** A match appends `len` bytes, one at a time, each the byte `dist` back; the copy may overlap itself. */
  function Copy(out: seq<Byte>, dist: nat, len: nat): (r: seq<Byte>)
    requires 1 <= dist <= |out|
    ensures |r| == |out| + len
    decreases len
  {
    if len == 0 then out else Copy(out + [out[|out| - dist]], dist, len - 1)
  }

  /** A match is the periodic extension of the last `dist` bytes: what is already out stays, and byte `k` of
      the match is byte `k % dist` of the period. */
  lemma {:induction false} CopyPeriodic(out: seq<Byte>, dist: nat, len: nat)
    requires 1 <= dist <= |out|
    ensures Copy(out, dist, len)[..|out|] == out
    ensures forall k :: 0 <= k < len ==> Copy(out, dist, len)[|out| + k] == out[|out| - dist + k % dist]
    decreases len
  {
    if len > 0 {
      var next := out + [out[|out| - dist]];
      CopyPeriodic(next, dist, len - 1);
      var r := Copy(out, dist, len);
      assert r[..|out|] == r[..|next|][..|out|];
      forall k | 0 <= k < len
        ensures r[|out| + k] == out[|out| - dist + k % dist]
      {
        PeriodShift(k, dist);
        if k == 0 {
          assert r[|out|] == r[..|next|][|out|];
        } else {
          assert r[|next| + (k - 1)] == next[|next| - dist + (k - 1) % dist];
        }
      }
    }
  }

  lemma PeriodShift(k: nat, d: nat)
    requires d > 0
    ensures k % d < d && (k > 0 ==> k % d == if (k - 1) % d == d - 1 then 0 else (k - 1) % d + 1)
    ensures k == 0 ==> k % d == 0
  {
    if k > 0 {
      var q, r := (k - 1) / d, (k - 1) % d;
      assert k == q * d + r + 1;
      if r == d - 1 {
        assert k == (q + 1) * d;
        ModUnique(k, d, q + 1, 0);
      } else {
        ModUnique(k, d, q, r + 1);
      }
    }
  }

  lemma ModUnique(x: nat, d: nat, q: nat, r: nat)
    requires r < d && x == q * d + r
    ensures x % d == r
  {
    var q', r' := x / d, x % d;
    assert x == q' * d + r';
    assert q' > q ==> q' * d >= (q + 1) * d;
    assert q' < q ==> (q' + 1) * d <= q * d;
    assert (q + 1) * d == q * d + d && (q' + 1) * d == q' * d + d;
  }

  datatype Run = Run(len: nat, dist: nat)

  /** The length and distance of a match whose length symbol was `257 + z`. */
  function RunAt(z: nat, dst: seq<nat>, bits: seq<Bit>, q: nat): (r: Step<Run>)
    requires z < 29
    ensures r.Got? ==> r.next >= q && 3 <= r.value.len && 1 <= r.value.dist
  {
    var d := ReadSymbol(dst, bits, q + LengthExtra(z));
    if d.Fail? || d.value >= 30 then Fail
    else Got(Run(LengthBase(z) + Peek(bits, q, LengthExtra(z)),
                 DistBase(d.value) + Peek(bits, d.next, DistExtra(d.value))),
             d.next + DistExtra(d.value))
  }

  /** The symbols of one compressed block, appended to `out`. */
  function Symbols(lit: seq<nat>, dst: seq<nat>, bits: seq<Bit>, p: nat, out: seq<Byte>,
                   capacity: nat): (r: Step<seq<Byte>>)
    ensures r.Got? ==> r.next >= p && |r.value| >= |out|
    decreases capacity - |out|
  {
    var s := ReadSymbol(lit, bits, p);
    if s.Fail? then Fail
    else if s.value < 256 then
      if |out| + 1 > capacity then Fail
      else Symbols(lit, dst, bits, s.next, out + [s.value], capacity)
    else if s.value == END_OF_BLOCK then Got(out, s.next)
    else if s.value >= 286 then Fail
    else
      var m := RunAt(s.value - 257, dst, bits, s.next);
      if m.Fail? || |out| < m.value.dist || |out| + m.value.len > capacity then Fail
      else Symbols(lit, dst, bits, m.next, Copy(out, m.value.dist, m.value.len), capacity)
  }

  datatype Tables = Tables(lit: seq<nat>, dst: seq<nat>)

  /** The code lengths for the code length alphabet: `n` three-bit fields in the RFC's peculiar order. */
  function CodeLengthLens(bits: seq<Bit>, p: nat, n: nat): (lens: seq<nat>)
    requires n <= 19
    ensures |lens| == 19 && Lengths(lens)
  {
    if n == 0 then seq(19, i => 0)
    else
      var f := Peek(bits, p + 3 * (n - 1), 3);
      assert f < Pow2(3) == 8;
      CodeLengthLens(bits, p, n - 1)[LengthOrder(n - 1) := f]
  }

  function Repeat(v: nat, n: nat): seq<nat> {
    seq(n, i => v)
  }

  /** One instruction of the run-length code: a length, or a repetition. */
  function ReadInstr(cl: seq<nat>, bits: seq<Bit>, p: nat, acc: seq<nat>): (r: Step<seq<nat>>)
    ensures r.Got? ==> r.next >= p && |r.value| > |acc|
  {
    var s := ReadSymbol(cl, bits, p);
    if s.Fail? then Fail
    else if s.value < 16 then Got(acc + [s.value], s.next)
    else if s.value == 16 then
      if acc == [] then Fail else Got(acc + Repeat(acc[|acc| - 1], 3 + Peek(bits, s.next, 2)), s.next + 2)
    else if s.value == 17 then Got(acc + Repeat(0, 3 + Peek(bits, s.next, 3)), s.next + 3)
    else if s.value == 18 then Got(acc + Repeat(0, 11 + Peek(bits, s.next, 7)), s.next + 7)
    else Fail
  }

  predicate AtMost15(ls: seq<nat>) {
    forall i :: 0 <= i < |ls| ==> ls[i] <= MAX_BITS
  }

  lemma InstrAtMost15(cl: seq<nat>, bits: seq<Bit>, p: nat, acc: seq<nat>)
    requires AtMost15(acc) && ReadInstr(cl, bits, p, acc).Got?
    ensures AtMost15(ReadInstr(cl, bits, p, acc).value)
  {
    hide ReadSymbol, Peek;
  }

  /** The run-length coded list of `total` code lengths, of which `acc` is already read. */
  function ReadLengths(cl: seq<nat>, bits: seq<Bit>, p: nat, acc: seq<nat>, total: nat): (r: Step<seq<nat>>)
    ensures r.Got? ==> r.next >= p && |r.value| == total
    decreases total - |acc|
  {
    if |acc| > total then Fail
    else if |acc| == total then Got(acc, p)
    else
      var s := ReadInstr(cl, bits, p, acc);
      if s.Fail? then Fail else ReadLengths(cl, bits, s.next, s.value, total)
  }

  lemma {:induction false} LengthsAtMost15(cl: seq<nat>, bits: seq<Bit>, p: nat, acc: seq<nat>, total: nat)
    requires AtMost15(acc) && ReadLengths(cl, bits, p, acc, total).Got?
    ensures AtMost15(ReadLengths(cl, bits, p, acc, total).value)
    decreases total - |acc|
  {
    hide ReadInstr;
    if |acc| < total {
      var s := ReadInstr(cl, bits, p, acc);
      InstrAtMost15(cl, bits, p, acc);
      LengthsAtMost15(cl, bits, s.next, s.value, total);
    }
  }

  /** The code lengths in a dynamic header; the first `hlit` are for literals and lengths. */
  datatype Listing = Listing(lens: seq<nat>, hlit: nat)

  /** The sizes the three fields at the start of a dynamic header can have. */
  lemma HeaderFields(bits: seq<Bit>, p: nat)
    ensures Peek(bits, p, 5) < 32 && Peek(bits, p + 5, 5) < 32 && Peek(bits, p + 10, 4) < 16
  {
    assert Pow2(5) == 32 && Pow2(4) == 16;
  }

  /** The three fields, the code length code and the list of code lengths it codes. */
  function ReadListing(bits: seq<Bit>, p: nat): (r: Step<Listing>)
    ensures r.Got? ==> r.next >= p && 257 <= r.value.hlit <= 288 && |r.value.lens| <= r.value.hlit + 32
    ensures r.Got? ==> r.value.hlit < |r.value.lens| && AtMost15(r.value.lens)
  {
    hide Kraft, CodeLengthLens, Pow2, Peek, ReadLengths, AtMost15, Lengths;
    var hlit := Peek(bits, p, 5) + 257;
    var hdist := Peek(bits, p + 5, 5) + 1;
    var hclen := Peek(bits, p + 10, 4) + 4;
    HeaderFields(bits, p);
    var cl := CodeLengthLens(bits, p + 14, hclen);
    if !Kraft(cl) then Fail
    else
      var ls := ReadLengths(cl, bits, p + 14 + 3 * hclen, [], hlit + hdist);
      if ls.Fail? then Fail
      else
        LengthsAtMost15(cl, bits, p + 14 + 3 * hclen, [], hlit + hdist);
        Got(Listing(ls.value, hlit), ls.next)
  }

  /** The header of a block with dynamic Huffman codes: section 3.2.7. */
  function ReadTables(bits: seq<Bit>, p: nat): (r: Step<Tables>)
    ensures r.Got? ==> r.next >= p
    ensures r.Got? ==> Lengths(r.value.lit) && Kraft(r.value.lit) && Lengths(r.value.dst) && Kraft(r.value.dst)
  {
    var l := ReadListing(bits, p);
    if l.Fail? then Fail
    else
      var lit, dst := l.value.lens[..l.value.hlit], l.value.lens[l.value.hlit..];
      if !Kraft(lit) || !Kraft(dst) then Fail else Got(Tables(lit, dst), l.next)
  }

  /** The next byte boundary at or after `p`. */
  function Align(p: nat): (r: nat)
    ensures p <= r < p + 8 && r % 8 == 0
  {
    8 * ((p + 7) / 8)
  }

  /** `n` whole bytes of the stream. */
  function BytesAt(bits: seq<Bit>, p: nat, n: nat): (r: seq<Byte>)
    ensures |r| == n
    decreases n, bits
  {
    assert Pow2(8) == 256;
    if n == 0 then [] else [Peek(bits, p, 8)] + BytesAt(bits, p + 8, n - 1)
  }

  /** A stored block: section 3.2.4. */
  function Stored(bits: seq<Bit>, p: nat, out: seq<Byte>, capacity: nat): (r: Step<seq<Byte>>)
    ensures r.Got? ==> p <= r.next <= |bits|
  {
    var q := Align(p);
    var len := Peek(bits, q, 16);
    var nlen := Peek(bits, q + 16, 16);
    if nlen != 0xFFFF - len then Fail
    else if q + 32 + 8 * len > |bits| then Fail
    else if |out| + len > capacity then Fail
    else Got(out + BytesAt(bits, q + 32, len), q + 32 + 8 * len)
  }

  function Block(kind: nat, bits: seq<Bit>, p: nat, out: seq<Byte>, capacity: nat): (r: Step<seq<Byte>>)
    ensures r.Got? ==> r.next >= p
  {
    if kind == 0 then Stored(bits, p, out, capacity)
    else if kind == 1 then Symbols(FixedLit(), FixedDist(), bits, p, out, capacity)
    else if kind == 2 then
      var t := ReadTables(bits, p);
      if t.Fail? then Fail else Symbols(t.value.lit, t.value.dst, bits, t.next, out, capacity)
    else Fail
  }

  /** The blocks from `p` on: section 3.2.3. A block starts inside the input. */
  function Blocks(bits: seq<Bit>, p: nat, out: seq<Byte>, capacity: nat): (r: Step<seq<Byte>>)
    ensures r.Got? ==> r.next >= p
    decreases |bits| - p
  {
    if p >= |bits| then Fail
    else
      var r := Block(Peek(bits, p + 1, 2), bits, p + 3, out, capacity);
      if r.Fail? || Peek(bits, p, 1) == 1 then r
      else Blocks(bits, r.next, r.value, capacity)
  }
}
