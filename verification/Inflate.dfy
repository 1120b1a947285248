/** The zlib decoder: `stbi__zbuf` and the functions that update it. */
module Inflate {
  import opened Shifts
  import opened BitStream
  import opened Canonical
  import opened SwapNetworks
  import opened HuffmanTable
  import opened Deflate
  import opened DeflateFormat
  import opened Lookahead
  import opened Wrappers

  const UINT_MAX: nat := 0xFFFF_FFFF

  /** How far an output buffer of `limit` bytes can grow: it doubles while the doubled size is a 32-bit
      unsigned number, and a buffer that is not expandable does not grow. */
  function Capacity(limit: nat, expandable: bool): (r: nat)
    requires expandable ==> limit > 0
    ensures r >= limit
    ensures limit <= UINT_MAX ==> r <= UINT_MAX
    ensures expandable ==> r > UINT_MAX / 2
    decreases UINT_MAX - limit
  {
    if !expandable || limit > UINT_MAX / 2 then limit else Capacity(2 * limit, true)
  }

  /** A size after `k` doublings. */
  function Doubled(limit: nat, k: nat): nat {
    if k == 0 then limit else 2 * Doubled(limit, k - 1)
  }

  lemma {:induction false} DoubledZero(k: nat)
    ensures Doubled(0, k) == 0
  {
    if k > 0 {
      DoubledZero(k - 1);
    }
  }

  lemma {:induction false} DoubledGrows(limit: nat, k: nat)
    requires limit > 0
    ensures Doubled(limit, k) > k
  {
    if k > 0 {
      DoubledGrows(limit, k - 1);
    }
  }

  /** The doubling loop reaches a size exactly when it starts from a positive size or is there already: from an
      empty buffer it would never end. */
  lemma DoublingReaches(limit: nat, need: nat)
    ensures (exists k: nat :: Doubled(limit, k) >= need) <==> limit > 0 || need <= limit
  {
    if limit > 0 {
      DoubledGrows(limit, need);
    } else {
      assert Doubled(limit, 0) == limit;
      forall k: nat
        ensures Doubled(limit, k) == 0
      {
        DoubledZero(k);
      }
    }
  }

  lemma {:induction false} DoubledOnce(limit: nat, k: nat)
    ensures Doubled(2 * limit, k) == Doubled(limit, k + 1)
  {
    if k > 0 {
      DoubledOnce(limit, k - 1);
    }
  }

  /** The capacity is the last doubling of the size that is a 32-bit unsigned number. */
  lemma {:induction false} CapacityIs(limit: nat) returns (k: nat)
    requires 0 < limit <= UINT_MAX
    ensures Capacity(limit, true) == Doubled(limit, k) < 0x1_0000_0000 <= Doubled(limit, k + 1)
    decreases UINT_MAX - limit
  {
    if limit > UINT_MAX / 2 {
      k := 0;
      assert Doubled(limit, 1) == 2 * Doubled(limit, 0);
    } else {
      var j := CapacityIs(2 * limit);
      DoubledOnce(limit, j);
      DoubledOnce(limit, j + 1);
      k := j + 1;
    }
  }

  // ----------------------------------------------------------------------------------- static tables

  const LENGTH_BASE: seq<nat> :=
    [3, 4, 5, 6, 7, 8, 9, 10, 11, 13, 15, 17, 19, 23, 27, 31,
     35, 43, 51, 59, 67, 83, 99, 115, 131, 163, 195, 227, 258, 0, 0]

  const LENGTH_EXTRA: seq<nat> :=
    [0, 0, 0, 0, 0, 0, 0, 0, 1, 1, 1, 1, 2, 2, 2, 2, 3, 3, 3, 3, 4, 4, 4, 4, 5, 5, 5, 5, 0, 0, 0]

  const DIST_BASE: seq<nat> :=
    [1, 2, 3, 4, 5, 7, 9, 13, 17, 25, 33, 49, 65, 97, 129, 193, 257, 385, 513, 769, 1025, 1537, 2049, 3073, 4097, 6145,
     8193, 12289, 16385, 24577, 0, 0]

  const DIST_EXTRA: seq<nat> :=
    [0, 0, 0, 0, 1, 1, 2, 2, 3, 3, 4, 4, 5, 5, 6, 6, 7, 7, 8, 8, 9, 9, 10, 10, 11, 11, 12, 12, 13, 13]

  const LENGTH_DEZIGZAG: seq<nat> := [16, 17, 18, 0, 8, 7, 9, 6, 10, 5, 11, 4, 12, 3, 13, 2, 14, 1, 15]

  lemma DezigzagIsOrder(i: nat)
    requires i < 19
    ensures LENGTH_DEZIGZAG[i] == LengthOrder(i)
  {
  }

  /** The tables are those of the RFC: each entry starts where the codes before it end. */
  lemma {:induction false} LengthTables(z: nat)
    requires z < 29
    ensures LENGTH_BASE[z] == LengthBase(z) && LENGTH_EXTRA[z] == LengthExtra(z)
  {
    LengthExtras();
    if 0 < z < 28 {
      LengthTables(z - 1);
      LengthSteps();
    }
  }

  lemma LengthExtras()
    ensures forall z :: 0 <= z < 29 ==> LENGTH_EXTRA[z] == LengthExtra(z)
  {
  }

  lemma LengthSteps()
    ensures forall z :: 0 < z < 28 ==> LENGTH_BASE[z] == LENGTH_BASE[z - 1] + Pow2(LENGTH_EXTRA[z - 1])
  {
    Pow2Values();
  }

  lemma {:induction false} DistTables(z: nat)
    requires z < 30
    ensures DIST_BASE[z] == DistBase(z) && DIST_EXTRA[z] == DistExtra(z)
  {
    DistExtras();
    if z > 0 {
      DistTables(z - 1);
      DistSteps();
    }
  }

  lemma DistExtras()
    ensures forall z :: 0 <= z < 30 ==> DIST_EXTRA[z] == DistExtra(z)
  {
  }

  lemma DistSteps()
    ensures forall z :: 0 < z < 30 ==> DIST_BASE[z] == DIST_BASE[z - 1] + Pow2(DIST_EXTRA[z - 1])
  {
    Pow2Values();
  }

  /** What the decoder reads from its length tables. */
  method LengthCode(z: nat) returns (base: nat, extra: nat)
    requires z < 29
    ensures base == LengthBase(z) && extra == LengthExtra(z)
  {
    LengthTables(z);
    base, extra := LENGTH_BASE[z], LENGTH_EXTRA[z];
  }

  method DistCode(z: nat) returns (base: nat, extra: nat)
    requires z < 30
    ensures base == DistBase(z) && extra == DistExtra(z)
  {
    DistTables(z);
    base, extra := DIST_BASE[z], DIST_EXTRA[z];
  }

  // The fixed code lengths (section 3.2.6) satisfy the Kraft inequality, with equality.

  lemma {:induction false} FixedLitKraft(n: nat)
    requires n <= 288
    ensures KraftTo(FixedLit(), MAX_BITS, n) ==
        if n <= 144 then 128 * n
        else if n <= 256 then 128 * 144 + 64 * (n - 144)
        else if n <= 280 then 128 * 144 + 64 * 112 + 256 * (n - 256)
        else 128 * 144 + 64 * 112 + 256 * 24 + 128 * (n - 280)
  {
    if n > 0 {
      FixedLitKraft(n - 1);
      Pow2Values();
    }
  }

  lemma {:induction false} FixedDistKraft(n: nat)
    requires n <= 32
    ensures KraftTo(FixedDist(), MAX_BITS, n) == 1024 * n
  {
    if n > 0 {
      FixedDistKraft(n - 1);
      Pow2Values();
    }
  }

  lemma FixedAccepted()
    ensures Lengths(FixedLit()) && Lengths(FixedDist()) && Kraft(FixedLit()) && Kraft(FixedDist())
  {
    FixedLitKraft(288);
    FixedDistKraft(32);
    Pow2Values();
  }

  // ------------------------------------------------------------------------------------ table lookups

  /** A fast entry names the symbol that comes next. */
  lemma FastFound(lens: seq<nat>, bits: seq<Bit>, pos: nat, e: nat)
    requires Lengths(lens) && Kraft(lens)
    requires FastEntry(lens, |lens|, Peek(bits, pos, FAST_BITS), e) && e != 0
    ensures ReadSymbol(lens, bits, pos) == Got(e % 512, pos + e / 512)
    ensures 0 < e / 512 <= FAST_BITS
  {
    var i := e % 512;
    var s, c := lens[i], CodeOf(lens, i);
    CodeFits(lens, i);
    calc {
      Code(bits, pos, s);
      { ReversePeek(bits, pos, s); }
      Reverse(Peek(bits, pos, s), s);
      { PeekMaskShift(bits, pos, FAST_BITS, s); }
      Reverse(Reverse(c, s), s);
      { ReverseInvolutive(c, s); }
      c;
    }
    assert Reads(lens, bits, pos, i);
    ReadSymbolCorrect(lens, bits, pos);
  }

  /** An empty fast entry means that no code of up to nine bits comes next. */
  lemma FastMissed(lens: seq<nat>, bits: seq<Bit>, pos: nat)
    requires Lengths(lens) && Kraft(lens)
    requires FastEntry(lens, |lens|, Peek(bits, pos, FAST_BITS), 0)
    ensures Code(bits, pos, 16) >= Ceiling(lens, FAST_BITS)
  {
    var w := Code(bits, pos, 16);
    if w < Ceiling(lens, FAST_BITS) {
      var i := BelowStarts(lens, w, FAST_BITS);
      var s := lens[i];
      StartsReads(lens, bits, pos, i);
      PeekMaskShift(bits, pos, FAST_BITS, s);
      ReversePeek(bits, pos, s);
      ReverseInvolutive(Peek(bits, pos, s), s);
      assert FastHit(lens, Peek(bits, pos, FAST_BITS), i);
    }
  }

  /** The first length above nine whose ceiling is over the window is the length of the next code. */
  lemma SlowFound(lens: seq<nat>, bits: seq<Bit>, pos: nat, s: nat) returns (i: nat)
    requires Lengths(lens) && Kraft(lens) && FAST_BITS < s <= MAX_BITS
    requires Ceiling(lens, s - 1) <= Code(bits, pos, 16) < Ceiling(lens, s)
    ensures ReadSymbol(lens, bits, pos) == Got(i, pos + s)
    ensures i < |lens| && lens[i] == s && Place(lens, i) < |lens|
    ensures Shr(Code(bits, pos, 16), 16 - s) - FirstCode(lens, s) + FirstSymbol(lens, s) == Place(lens, i)
  {
    hide Kraft, ReadSymbol, Code, Ceiling, FirstCode, FirstSymbol, CountTo;
    i := BelowStarts(lens, Code(bits, pos, 16), s);
    StartsReads(lens, bits, pos, i);
    ReadSymbolCorrect(lens, bits, pos);
    PlaceBound(lens, i);
  }

  lemma SlowMissed(lens: seq<nat>, bits: seq<Bit>, pos: nat)
    requires Lengths(lens) && Kraft(lens)
    requires Code(bits, pos, 16) >= Ceiling(lens, MAX_BITS)
    ensures ReadSymbol(lens, bits, pos).Fail?
  {
    ReadSymbolCorrect(lens, bits, pos);
    var r := ReadSymbol(lens, bits, pos);
    if r.Got? {
      StartsReads(lens, bits, pos, r.value);
      StartsBelow(lens, Code(bits, pos, 16), r.value, MAX_BITS);
    }
  }

  lemma CopyNext(s: seq<Byte>, dist: nat, len: nat)
    requires 1 <= dist <= |s| && len > 0
    ensures Copy(s, dist, len) == Copy(s + [s[|s| - dist]], dist, len - 1)
  {
  }

  lemma CopyNone(s: seq<Byte>, dist: nat)
    requires 1 <= dist <= |s|
    ensures Copy(s, dist, 0) == s
  {
  }

  lemma NoFields(bits: seq<Bit>, g: Gauge)
    ensures CodeLengthLens(bits, g.pos, 0) == seq(19, i => 0) && FieldsAhead(g, 0) == g
  {
  }

  /** One more three-bit field. */
  lemma FieldsNext(bits: seq<Bit>, g: Gauge, i: nat)
    requires i < 19
    ensures CodeLengthLens(bits, g.pos, i + 1)
         == CodeLengthLens(bits, g.pos, i)[LengthOrder(i) := Peek(bits, g.pos + 3 * i, 3)]
    ensures FieldsAhead(g, i + 1) == Receive(FieldsAhead(g, i), 3)
  {
  }

  class ZBuf {
    const data: seq<Byte>
    var zbuffer: nat
    var num_bits: nat
    var hit_zeof_once: bool
    var code_buffer: nat

    var out: array<Byte>
    var zout: nat
    const z_expandable: bool

    const z_length: ZHuffman
    const z_distance: ZHuffman

    /** The bit position the decoder has reached. */
    ghost var pos: nat

    /** How much output the buffer can grow to hold. */
    ghost const capacity: nat

    constructor (data: seq<Byte>, obuf: array<Byte>, expandable: bool)
      requires obuf.Length <= UINT_MAX && (expandable ==> obuf.Length > 0)
      ensures this.data == data && zbuffer == 0 && out == obuf && zout == 0 && z_expandable == expandable
      ensures capacity == Capacity(obuf.Length, expandable)
      ensures fresh(z_length.Storage()) && fresh(z_distance.Storage()) && OutputOk()
    {
      capacity := Capacity(obuf.Length, expandable);
      this.data := data;
      zbuffer, num_bits, hit_zeof_once, code_buffer, pos := 0, 0, false, 0, 0;
      out := obuf;
      zout := 0;
      z_expandable := expandable;
      z_length := new ZHuffman();
      z_distance := new ZHuffman();
    }

    /** The two tables share no storage with each other or with the output. */
    ghost predicate Apart()
      reads `out
    {
      && z_length.Shape() && z_distance.Shape()
      && z_length.Storage() !! z_distance.Storage()
      && out !in z_length.Storage() && out !in z_distance.Storage()
    }

    ghost predicate OutputOk()
      reads `out, `zout
    {
      && Apart()
      && zout <= out.Length <= UINT_MAX
      && (z_expandable ==> out.Length > 0)
      && Capacity(out.Length, z_expandable) == capacity
    }

    ghost function Bits(): seq<Bit> {
      Unpack(data)
    }

    /** How far the decoder has got and how far the buffer is ahead. */
    ghost function Now(): Gauge
      reads `pos, `num_bits, `hit_zeof_once
    {
      Gauge(pos, pos + num_bits, hit_zeof_once)
    }

    /** The buffer holds the next `num_bits` bits of the stream, extended by zeros; all whole bytes up to there
        are read; two or more bytes of padding are in once `hit_zeof_once` is set. */
    ghost predicate BufferOk()
      reads `pos, `num_bits, `hit_zeof_once, `zbuffer, `code_buffer
    {
      && num_bits <= 32
      && code_buffer == Peek(Bits(), pos, num_bits)
      && (pos + num_bits) % 8 == 0
      && zbuffer == Min((pos + num_bits) / 8, |data|)
      && (hit_zeof_once ==> (pos + num_bits) / 8 >= |data| + 2)
    }

    lemma GaugeFits()
      requires BufferOk()
      ensures GaugeOk(Now(), |Bits()|) && |Bits()| % 8 == 0
    {
    }

    method Zget8() returns (b: Byte)
      requires zbuffer <= |data|
      modifies `zbuffer
      ensures b == ByteAt(data, old(zbuffer)) && zbuffer == Min(old(zbuffer) + 1, |data|)
    {
      if zbuffer >= |data| {
        b := 0;
      } else {
        b := data[zbuffer];
        zbuffer := zbuffer + 1;
      }
    }

    /** `stbi__fill_bits`. The bits of the new byte go above the ones in the buffer, so `|=` is a sum. The test
        for bits above `num_bits`, which would give up on the input, never succeeds. */
    method FillBits()
      requires BufferOk() && num_bits <= 24
      modifies `zbuffer, `num_bits, `code_buffer
      ensures BufferOk() && Now() == Filled(old(Now()))
    {
      hide Unpack, Peek, Shl, Pow2;
      var first := true;
      while first || num_bits <= 24
        invariant BufferOk() && (first ==> num_bits <= 24)
        decreases 32 - num_bits
      {
        BelowTop(Bits(), pos, num_bits);
        if code_buffer >= Shl(1, num_bits) {
          assert false;
        }
        NextByte(data, pos, num_bits);
        var b := Zget8();
        code_buffer := code_buffer + Shl(b, num_bits);
        num_bits := num_bits + 8;
        first := false;
      }
      FilledIs(pos, num_bits);
    }

    /** Takes a code of `s` bits off the buffer. */
    method Consume(s: nat)
      requires BufferOk() && s <= num_bits
      modifies `num_bits, `code_buffer, `pos
      ensures BufferOk() && pos == old(pos) + s && num_bits == old(num_bits) - s
    {
      hide Unpack, Peek, Shr, Low, Pow2;
      PeekMaskShift(Bits(), pos, num_bits, s);
      code_buffer := Shr(code_buffer, s);
      num_bits := num_bits - s;
      pos := pos + s;
    }

    /** `stbi__zreceive`: the next `n` bits, least significant first. */
    method Zreceive(n: nat) returns (k: nat)
      requires BufferOk() && n <= 13
      modifies `zbuffer, `num_bits, `code_buffer, `pos
      ensures BufferOk() && num_bits + n <= 32 && Now() == Receive(old(Now()), n)
      ensures k == Peek(Bits(), old(pos), n) && pos == old(pos) + n
    {
      hide Unpack, Peek, Low, Pow2;
      if num_bits < n {
        FillBits();
      }
      PeekMaskShift(Bits(), pos, num_bits, n);
      k := Low(code_buffer, n);
      Consume(n);
    }

    /** `stbi__zhuffman_decode_slowpath`. The two checks on `b` never fire. */
    method SlowPath(z: ZHuffman, ghost lens: seq<nat>) returns (sym: int)
      requires BufferOk() && num_bits >= 16 && z.Table(lens)
      requires FastEntry(lens, |lens|, Peek(Bits(), pos, FAST_BITS), 0)
      modifies `num_bits, `code_buffer, `pos
      ensures BufferOk() && pos + num_bits == old(pos + num_bits)
      ensures sym >= 0 ==> ReadSymbol(lens, Bits(), old(pos)) == Got(sym, pos)
      ensures sym < 0 ==> ReadSymbol(lens, Bits(), old(pos)).Fail? && pos == old(pos)
    {
      hide Unpack, Peek, Low, Kraft, Code, BitReverse, ReadSymbol, FirstCode, Ceiling, Place, FirstSymbol, FastEntry;
      var k := BitReverse(code_buffer, 16);
      Window16(code_buffer);
      FastMissed(lens, Bits(), pos);
      var s := FAST_BITS + 1;
      assert z.Ranges(lens, 16);
      while k >= z.maxcode[s]
        invariant FAST_BITS < s <= 16
        invariant k >= Ceiling(lens, s - 1)
        decreases 16 - s
      {
        assert s < 16 ==> z.Range(lens, s);
        s := s + 1;
      }
      if s >= 16 {
        SlowMissed(lens, Bits(), pos);
        return -1;
      }
      assert z.Range(lens, s);
      ghost var i := SlowFound(lens, Bits(), pos, s);
      var b := Shr(k, 16 - s) - z.firstcode[s] + z.firstsymbol[s];
      assert b == Place(lens, i) && z.Sorted(lens, |lens|);
      if b >= SYMBOLS {
        assert false;
      }
      if z.size[b] != s {
        assert false;
      }
      Consume(s);
      sym := z.value[b];
    }

    /** The reversed low 16 bits of the buffer are the next 16 bits read as a code. */
    lemma Window16(buffer: nat)
      requires BufferOk() && buffer == code_buffer && num_bits >= 16
      ensures BitReverse(buffer, 16) == Code(Bits(), pos, 16)
    {
      BitReverseCorrect(buffer, 16);
      ReverseLow(buffer, 16);
      PeekMaskShift(Bits(), pos, num_bits, 16);
      ReversePeek(Bits(), pos, 16);
    }

    /** Makes sure that 16 bits are in the buffer: from the input, or once, at its end, as padding. */
    method Ensure16() returns (ok: bool)
      requires BufferOk()
      modifies `zbuffer, `num_bits, `hit_zeof_once, `code_buffer
      ensures BufferOk() && (ok ==> num_bits >= 16)
      ensures Ready(old(Now()), |Bits()|) == if ok then Have((), Now()) else Stop
    {
      if num_bits < 16 {
        if zbuffer >= |data| {
          if !hit_zeof_once {
            PadBits(data, pos, num_bits);
            hit_zeof_once := true;
            num_bits := num_bits + 16;
          } else {
            return false;
          }
        } else {
          FillBits();
        }
      }
      ok := true;
    }

    /** `stbi__zhuffman_decode`: the next symbol, or -1 exactly if no code comes next or the padding is used up. */
    method Decode(z: ZHuffman, ghost lens: seq<nat>) returns (sym: int)
      requires BufferOk() && z.Table(lens)
      modifies `zbuffer, `num_bits, `hit_zeof_once, `code_buffer, `pos
      ensures BufferOk() && pos >= old(pos)
      ensures SymbolAhead(lens, Bits(), old(Now())) == if sym >= 0 then Have(sym as nat, Now()) else Stop
    {
      hide Unpack, Peek, Low, Kraft, ReadSymbol, FastEntry;
      var enough := Ensure16();
      if !enough {
        return -1;
      }
      ghost var p := Peek(Bits(), pos, FAST_BITS);
      PeekMaskShift(Bits(), pos, num_bits, FAST_BITS);
      NineBits(Bits(), pos);
      assert z.FastTable(lens, |lens|);
      var b := z.fast[Low(code_buffer, FAST_BITS)];
      assert FastEntry(lens, |lens|, p, b);
      if b != 0 {
        FastFound(lens, Bits(), pos, b);
        Consume(b / 512);
        return b % 512;
      }
      sym := SlowPath(z, lens);
    }

    /** `stbi__zexpand`: room for `n` more bytes after `w`. Assumes that memory for the new buffer is there. */
    method Expand(w: nat, n: nat) returns (ok: bool)
      requires OutputOk() && w <= out.Length < w + n
      modifies `out, `zout
      ensures OutputOk() && zout == w
      ensures ok <==> w + n <= capacity
      ensures ok ==> w + n <= out.Length && fresh(out) && out[..w] == old(out[..w])
      ensures !ok ==> out == old(out)
    {
      zout := w;
      if !z_expandable {
        return false;
      }
      var cur, limit := zout, out.Length;
      if UINT_MAX - cur < n {
        return false;
      }
      while cur + n > limit
        invariant 0 < limit <= UINT_MAX && out.Length <= limit && Capacity(limit, true) == capacity
        decreases cur + n - limit
      {
        if limit > UINT_MAX / 2 {
          return false;
        }
        limit := limit * 2;
      }
      var q := new Byte[limit];
      forall i | 0 <= i < out.Length {
        q[i] := out[i];
      }
      out := q;
      ok := true;
    }

    /** One literal byte at `w`. */
    method PutLiteral(w: nat, c: Byte) returns (ok: bool)
      requires OutputOk() && w <= out.Length
      modifies `out, `zout, out
      ensures OutputOk() && (out == old(out) || fresh(out))
      ensures ok <==> w + 1 <= capacity
      ensures ok ==> w + 1 <= out.Length && out[..w + 1] == old(out[..w]) + [c]
    {
      if w >= out.Length {
        var room := Expand(w, 1);
        if !room {
          return false;
        }
      }
      out[w] := c;
      ok := true;
    }

    /** The copy loops of a match, with room for all of it: a run of one byte, or byte by byte. */
    method CopyMatch(w: nat, dist: nat, len: nat)
      requires 1 <= dist <= w && w + len <= out.Length
      modifies out
      ensures out[..w + len] == Copy(old(out[..w]), dist, len)
    {
      hide Copy;
      var p, to, left := w - dist, w, len;
      if dist == 1 {
        var v := out[p];
        while left != 0
          invariant w <= to && 0 <= left && to + left == w + len
          invariant out[to - 1] == v
          invariant Copy(out[..to], 1, left) == Copy(old(out[..w]), 1, len)
        {
          ghost var before := out[..to];
          out[to] := v;
          to, left := to + 1, left - 1;
          assert out[..to] == before + [before[|before| - 1]];
          CopyNext(before, 1, left + 1);
        }
      } else {
        while left != 0
          invariant w <= to && 0 <= left && to + left == w + len && p == to - dist
          invariant Copy(out[..to], dist, left) == Copy(old(out[..w]), dist, len)
        {
          ghost var before := out[..to];
          out[to] := out[p];
          to, p, left := to + 1, p + 1, left - 1;
          assert out[..to] == before + [before[|before| - dist]];
          CopyNext(before, dist, left + 1);
        }
      }
      CopyNone(out[..w + len], dist);
    }

    /** A base value with its extra bits, which are read only if there are any. */
    method AddExtra(base: nat, extra: nat) returns (v: nat)
      requires BufferOk() && extra <= 13
      modifies `zbuffer, `num_bits, `code_buffer, `pos
      ensures BufferOk() && v == base + Peek(Bits(), old(pos), extra)
      ensures pos == old(pos) + extra && Now() == Receive(old(Now()), extra)
    {
      v := base;
      if extra != 0 {
        var x := Zreceive(extra);
        v := v + x;
      }
    }

    /** A length symbol `z` has been read: the length and the distance of the match. */
    method ReadRun(z: nat, ghost dst: seq<nat>) returns (ok: bool, run: Run)
      requires BufferOk() && z_distance.Table(dst) && z < 29
      modifies `zbuffer, `num_bits, `hit_zeof_once, `code_buffer, `pos
      ensures BufferOk() && pos >= old(pos) && (ok ==> 3 <= run.len && 1 <= run.dist)
      ensures RunAhead(z, dst, Bits(), old(Now())) == if ok then Have(run, Now()) else Stop
    {
      hide SymbolAhead, Receive, LengthBase, DistBase, LengthExtra, DistExtra, Unpack, Peek, Pow2, ZHuffman.Table;
      var lenBase, lenExtra := LengthCode(z);
      var len := AddExtra(lenBase, lenExtra);
      var d := Decode(z_distance, dst);
      if d < 0 || d >= 30 {
        return false, Run(0, 0);
      }
      var distBase, distExtra := DistCode(d);
      var dist := AddExtra(distBase, distExtra);
      return true, Run(len, dist);
    }

    /** Appends a match at `w`. */
    method PutMatch(run: Run, w: nat) returns (ok: bool)
      requires OutputOk() && w <= out.Length && 1 <= run.dist
      modifies `out, `zout, out
      ensures OutputOk() && (out == old(out) || fresh(out))
      ensures ok <==> run.dist <= w && w + run.len <= capacity
      ensures ok ==> w + run.len <= out.Length && out[..w + run.len] == Copy(old(out[..w]), run.dist, run.len)
    {
      if w < run.dist {
        return false;
      }
      if run.len > out.Length - w {
        var room := Expand(w, run.len);
        if !room {
          return false;
        }
      }
      CapacityBound();
      CopyMatch(w, run.dist, run.len);
      ok := true;
    }

    lemma CapacityBound()
      requires OutputOk()
      ensures out.Length <= capacity
    {
    }

    /** One turn of the loop over the symbols of a block. */
    method ParseSymbol(w: nat, ghost lit: seq<nat>, ghost dst: seq<nat>) returns (r: Progress, w': nat)
      requires BufferOk() && OutputOk() && z_length.Table(lit) && z_distance.Table(dst) && w <= out.Length
      modifies this, out
      ensures BufferOk() && OutputOk() && (out == old(out) || fresh(out))
      ensures w' <= out.Length
      ensures var s := SymbolsAhead(lit, dst, Bits(), old(Now()), old(out[..w]), capacity);
        match r
        case More => w < w' && s == SymbolsAhead(lit, dst, Bits(), Now(), out[..w'], capacity)
        case Done => w' == w && s == if PaddingUsed(Now()) then Stop else Have(out[..w'], Now())
        case Bad => s == Stop
    {
      hide SymbolAhead, RunAhead, PaddingUsed, Unpack, Peek, Pow2, Copy, Capacity, ZHuffman.Table;
      CapacityBound();
      w' := w;
      var z := Decode(z_length, lit);
      if z < 256 {
        if z < 0 {
          return Bad, w;
        }
        var put := PutLiteral(w, z);
        if put {
          return More, w + 1;
        }
        return Bad, 0;
      }
      if z == END_OF_BLOCK {
        return Done, w;
      }
      if z >= 286 {
        return Bad, w;
      }
      var got, run := ReadRun(z - 257, dst);
      if !got {
        return Bad, w;
      }
      var put := PutMatch(run, w);
      if put {
        return More, w + run.len;
      }
      return Bad, 0;
    }

    /** `stbi__parse_huffman_block`: the symbols of one block. */
    method ParseHuffmanBlock(ghost lit: seq<nat>, ghost dst: seq<nat>) returns (ok: bool)
      requires BufferOk() && OutputOk() && z_length.Table(lit) && z_distance.Table(dst)
      modifies this, out
      ensures BufferOk() && OutputOk() && (out == old(out) || fresh(out))
      ensures SymbolsAhead(lit, dst, Bits(), old(Now()), old(out[..zout]), capacity)
           == if ok then Have(out[..zout], Now()) else Stop
    {
      hide SymbolsAhead, SymbolAhead, RunAhead, Unpack, Peek, Pow2, Copy, Capacity, ZHuffman.Table;
      var w := zout;
      ghost var goal := SymbolsAhead(lit, dst, Bits(), Now(), out[..w], capacity);
      while true
        invariant BufferOk() && OutputOk() && z_length.Table(lit) && z_distance.Table(dst)
        invariant out == old(out) || fresh(out)
        invariant w <= out.Length
        invariant goal == SymbolsAhead(lit, dst, Bits(), Now(), out[..w], capacity)
        decreases capacity - w
      {
        CapacityBound();
        var r, w' := ParseSymbol(w, lit, dst);
        CapacityBound();
        match r {
          case More =>
            w := w';
          case Done =>
            zout := w';
            return !(hit_zeof_once && num_bits < 16);
          case Bad =>
            return false;
        }
      }
    }

    /** The code lengths of the code length alphabet, put in place as they are read. */
    method ReadCodeLengthSizes(hclen: nat) returns (sizes: array<nat>)
      requires BufferOk() && hclen <= 19
      modifies `zbuffer, `num_bits, `code_buffer, `pos
      ensures BufferOk() && pos == old(pos) + 3 * hclen && Now() == FieldsAhead(old(Now()), hclen)
      ensures fresh(sizes) && sizes[..] == CodeLengthLens(Bits(), old(pos), hclen)
    {
      hide Unpack, Peek, Pow2, Receive, BufferOk, LengthOrder, CodeLengthLens, FieldsAhead;
      sizes := new nat[19](_ => 0);
      var i := 0;
      NoFields(Bits(), Now());
      assert sizes[..] == CodeLengthLens(Bits(), pos, 0);
      while i < hclen
        invariant BufferOk() && 0 <= i <= hclen && pos == old(pos) + 3 * i && Now() == FieldsAhead(old(Now()), i)
        invariant sizes[..] == CodeLengthLens(Bits(), old(pos), i)
      {
        var s := Zreceive(3);
        ghost var before := sizes[..];
        sizes[LENGTH_DEZIGZAG[i]] := s;
        DezigzagIsOrder(i);
        FieldsNext(Bits(), old(Now()), i);
        assert sizes[..] == before[LengthOrder(i) := s];
        i := i + 1;
      }
    }

    /** The repeat instructions 16, 17 and 18: how often, and what. */
    method ReadRepeat(c: nat, lencodes: array<nat>, n: nat) returns (ok: bool, count: nat, fill: nat)
      requires BufferOk() && 16 <= c && n <= lencodes.Length
      modifies `zbuffer, `num_bits, `code_buffer, `pos
      ensures BufferOk() && pos >= old(pos)
      ensures ok <==> c <= 18 && !(c == 16 && n == 0)
      ensures ok && c == 16 ==> Now() == Receive(old(Now()), 2) && count == 3 + Peek(Bits(), old(pos), 2)
      ensures ok && c == 16 ==> fill == lencodes[n - 1]
      ensures ok && c == 17 ==> Now() == Receive(old(Now()), 3) && count == 3 + Peek(Bits(), old(pos), 3) && fill == 0
      ensures ok && c == 18 ==> Now() == Receive(old(Now()), 7) && count == 11 + Peek(Bits(), old(pos), 7) && fill == 0
    {
      hide Unpack, Peek, Pow2, Receive;
      fill := 0;
      if c == 16 {
        count := Zreceive(2);
        count := count + 3;
        if n == 0 {
          return false, count, fill;
        }
        fill := lencodes[n - 1];
      } else if c == 17 {
        count := Zreceive(3);
        count := count + 3;
      } else if c == 18 {
        count := Zreceive(7);
        count := count + 11;
      } else {
        return false, 0, 0;
      }
      ok := true;
    }

    /** One instruction: a length or a run of lengths, written at `n`. */
    method ReadLengthCode(z: ZHuffman, ghost cl: seq<nat>, lencodes: array<nat>, n: nat, ntot: nat)
      returns (ok: bool, n': nat)
      requires BufferOk() && z.Table(cl) && n < ntot <= lencodes.Length && lencodes !in z.Storage()
      modifies `zbuffer, `num_bits, `hit_zeof_once, `code_buffer, `pos, lencodes
      ensures BufferOk()
      ensures var s := InstrAhead(cl, Bits(), old(Now()), old(lencodes[..n]));
        if ok then n < n' <= ntot && s == Have(lencodes[..n'], Now()) else s.Stop? || |s.value| > ntot
    {
      hide SymbolAhead, Receive, Unpack, Peek, Pow2, ZHuffman.Table;
      ghost var acc := lencodes[..n];
      var c := Decode(z, cl);
      if c < 0 || c >= 19 {
        return false, n;
      }
      if c < 16 {
        lencodes[n] := c;
        assert lencodes[..n + 1] == acc + [c];
        return true, n + 1;
      }
      var valid, count, fill := ReadRepeat(c, lencodes, n);
      if !valid || ntot - n < count {
        return false, n;
      }
      forall i | n <= i < n + count {
        lencodes[i] := fill;
      }
      assert lencodes[..n + count] == acc + Repeat(fill, count);
      return true, n + count;
    }

    /** The run-length coded list of code lengths. */
    method ReadLengthCodes(z: ZHuffman, ghost cl: seq<nat>, ntot: nat) returns (ok: bool, lencodes: array<nat>)
      requires BufferOk() && z.Table(cl) && ntot <= 320
      modifies `zbuffer, `num_bits, `hit_zeof_once, `code_buffer, `pos
      ensures BufferOk() && fresh(lencodes)
      ensures ntot <= lencodes.Length
      ensures LengthsAhead(cl, Bits(), old(Now()), [], ntot) == if ok then Have(lencodes[..ntot], Now()) else Stop
    {
      hide InstrAhead, Unpack, Peek, Pow2, ZHuffman.Table;
      lencodes := new nat[286 + 32 + 137];
      var n := 0;
      ghost var goal := LengthsAhead(cl, Bits(), Now(), [], ntot);
      assert lencodes[..0] == [];
      while n < ntot
        invariant BufferOk() && z.Table(cl) && 0 <= n <= ntot
        invariant goal == LengthsAhead(cl, Bits(), Now(), lencodes[..n], ntot)
        decreases ntot - n
      {
        var read, n' := ReadLengthCode(z, cl, lencodes, n, ntot);
        if !read {
          return false, lencodes;
        }
        n := n';
      }
      ok := true;
    }

    /** The three fields a dynamic header starts with. */
    method ReadCounts() returns (hlit: nat, hdist: nat, hclen: nat)
      requires BufferOk()
      modifies `zbuffer, `num_bits, `code_buffer, `pos
      ensures BufferOk() && pos == old(pos) + 14
      ensures Now() == Receive(Receive(Receive(old(Now()), 5), 5), 4)
      ensures hlit == Peek(Bits(), old(pos), 5) + 257 && hdist == Peek(Bits(), old(pos) + 5, 5) + 1
      ensures hclen == Peek(Bits(), old(pos) + 10, 4) + 4
      ensures hlit <= 288 && hdist <= 32 && hclen <= 19
    {
      hide Unpack, Peek, Receive;
      hlit := Zreceive(5);
      hdist := Zreceive(5);
      hclen := Zreceive(4);
      hlit, hdist, hclen := hlit + 257, hdist + 1, hclen + 4;
      HeaderFields(Bits(), old(pos));
    }

    /** The header up to and including the list of code lengths. */
    method ReadCodeLengths() returns (ok: bool, lencodes: array<nat>, hlit: nat, hdist: nat)
      requires BufferOk()
      modifies `zbuffer, `num_bits, `hit_zeof_once, `code_buffer, `pos
      ensures BufferOk() && fresh(lencodes)
      ensures ok ==> hlit + hdist <= lencodes.Length
      ensures ListingAhead(Bits(), old(Now()))
           == if ok then Have(Listing(lencodes[..hlit + hdist], hlit), Now()) else Stop
    {
      hide LengthsAhead, FieldsAhead, Receive, CodeLengthLens, Unpack, Peek, Kraft, ZHuffman.Table, AtMost15, Lengths;
      hide BufferOk;
      var hclen;
      hlit, hdist, hclen := ReadCounts();
      var sizes := ReadCodeLengthSizes(hclen);
      ghost var cl := CodeLengthLens(Bits(), old(pos) + 14, hclen);
      var z := new ZHuffman();
      var built := z.Build(sizes[..]);
      if !built {
        return false, sizes, hlit, hdist;
      }
      ok, lencodes := ReadLengthCodes(z, cl, hlit + hdist);
    }

    /** `stbi__compute_huffman_codes`: the header of a block with dynamic codes, and its two tables. */
    method ComputeHuffmanCodes() returns (ok: bool, ghost t: Tables)
      requires BufferOk() && OutputOk()
      modifies `zbuffer, `num_bits, `hit_zeof_once, `code_buffer, `pos, z_length.Storage(), z_distance.Storage()
      ensures BufferOk() && OutputOk()
      ensures TablesAhead(Bits(), old(Now())) == if ok then Have(t, Now()) else Stop
      ensures ok ==> z_length.Table(t.lit) && z_distance.Table(t.dst)
    {
      hide ListingAhead, Unpack, Peek, Capacity, Kraft, ZHuffman.Table, BufferOk;
      t := Tables([], []);
      GaugeFits();
      ListingAgrees(Bits(), Now());
      var read, lencodes, hlit, hdist := ReadCodeLengths();
      if !read {
        return false, t;
      }
      ghost var all := lencodes[..hlit + hdist];
      t := Tables(all[..hlit], all[hlit..]);
      assert lencodes[..hlit] == t.lit && lencodes[hlit..hlit + hdist] == t.dst;
      var built := z_length.Build(lencodes[..hlit]);
      if !built {
        return false, t;
      }
      built := z_distance.Build(lencodes[hlit..hlit + hdist]);
      return built, t;
    }

    /** Drops the bits up to the next byte boundary. */
    method DiscardToByte()
      requires BufferOk() && num_bits <= 31
      modifies `zbuffer, `num_bits, `code_buffer, `pos
      ensures BufferOk() && pos == Align(old(pos)) && num_bits % 8 == 0 && num_bits <= 24
    {
      hide Unpack, Peek, Pow2, Align, Min;
      AlignIs(pos, num_bits);
      if num_bits % 8 != 0 {
        Consume(num_bits % 8);
      }
    }

    /** Moves what is left in the bit buffer, at most three whole bytes, to the start of the block header. */
    method DrainBuffer(header: array<Byte>) returns (k: nat)
      requires BufferOk() && num_bits % 8 == 0 && num_bits <= 24 && header.Length == 4
      modifies `num_bits, `code_buffer, `pos, header
      ensures BufferOk() && num_bits == 0 && k <= 3 && pos == old(pos) + 8 * k
      ensures forall i :: 0 <= i < k ==> header[i] == Peek(Bits(), old(pos) + 8 * i, 8)
    {
      hide Unpack, Peek, Pow2, Shr, Low, Min;
      ghost var left := num_bits / 8;
      k := 0;
      while num_bits > 0
        invariant BufferOk() && num_bits == 8 * left && left + k <= 3
        invariant pos == old(pos) + 8 * k
        invariant forall i :: 0 <= i < k ==> header[i] == Peek(Bits(), old(pos) + 8 * i, 8)
      {
        OctetAt(Bits(), pos, num_bits);
        header[k] := Low(code_buffer, 8);
        k, left := k + 1, left - 1;
        Consume(8);
      }
    }

    /** Reads the rest of the four header bytes straight from the input. */
    method FillHeader(header: array<Byte>, k: nat, ghost q: nat)
      requires BufferOk() && num_bits == 0 && header.Length == 4 && k <= 4
      requires q % 8 == 0 && pos == q + 8 * k
      requires forall i :: 0 <= i < k ==> header[i] == Peek(Bits(), q + 8 * i, 8)
      modifies `zbuffer, `pos, header
      ensures BufferOk() && pos == q + 32
      ensures forall i :: 0 <= i < 4 ==> header[i] == Peek(Bits(), q + 8 * i, 8)
    {
      hide Unpack, Pow2;
      var j := k;
      while j < 4
        invariant k <= j <= 4 && BufferOk() && pos == q + 8 * j
        invariant forall i :: 0 <= i < j ==> header[i] == Peek(Bits(), q + 8 * i, 8)
      {
        PeekByte(data, pos / 8);
        assert 8 * (pos / 8) == pos;
        ZgetPast(pos / 8);
        var b := Zget8();
        header[j] := b;
        j, pos := j + 1, pos + 8;
      }
    }

    lemma ZgetPast(i: nat)
      requires zbuffer == Min(i, |data|)
      ensures ByteAt(data, zbuffer) == ByteAt(data, i)
    {
    }

    /** The header of a stored block, after the padding: the length, checked against its complement.
        `len ^ 0xffff` is `0xFFFF - len` for a 16-bit `len`. A header that runs past the end of the input
        has a zero high byte in the complement, so its length is not 0. */
    method ReadStoredHeader() returns (ok: bool, len: nat)
      requires BufferOk() && num_bits <= 31
      modifies `zbuffer, `num_bits, `code_buffer, `pos
      ensures BufferOk() && num_bits == 0 && pos == Align(old(pos)) + 32
      ensures len == Peek(Bits(), Align(old(pos)), 16)
      ensures ok <==> Peek(Bits(), Align(old(pos)) + 16, 16) == 0xFFFF - len
      ensures ok && pos / 8 > |data| ==> len > 0
    {
      hide Unpack, Peek, Pow2;
      ghost var q := Align(pos);
      var header := new Byte[4];
      DiscardToByte();
      var k := DrainBuffer(header);
      FillHeader(header, k, q);
      var nlen: nat;
      len, nlen := header[1], header[3];
      len, nlen := len * 256 + header[0], nlen * 256 + header[2];
      TwoOctets(Bits(), q);
      TwoOctets(Bits(), q + 16);
      PeekByte(data, q / 8 + 3);
      assert 8 * (q / 8 + 3) == q + 24;
      ok := nlen == 0xFFFF - len;
    }

    /** Copies `len` input bytes to the output. */
    method CopyStored(len: nat)
      requires BufferOk() && num_bits == 0 && pos == 8 * zbuffer && zbuffer + len <= |data|
      requires OutputOk() && zout + len <= out.Length
      modifies `zbuffer, `zout, `pos, out
      ensures BufferOk() && OutputOk() && pos == old(pos) + 8 * len
      ensures out[..zout] == old(out[..zout]) + BytesAt(Bits(), old(pos), len)
    {
      hide Unpack, Peek, Pow2, BytesAt, Capacity;
      BytesAtData(data, zbuffer, len);
      ghost var before := out[..zout];
      forall i | 0 <= i < len {
        out[zout + i] := data[zbuffer + i];
      }
      assert out[..zout + len] == before + data[zbuffer..zbuffer + len];
      EmptyBuffer(Bits(), pos);
      zbuffer := zbuffer + len;
      zout := zout + len;
      pos := pos + 8 * len;
      EmptyBuffer(Bits(), pos);
    }

    /** `stbi__parse_uncompressed_block`: agrees with the specification on every input, even past its end. */
    method ParseUncompressedBlock() returns (ok: bool)
      requires BufferOk() && OutputOk() && num_bits <= 31
      modifies this, out
      ensures BufferOk() && OutputOk() && (out == old(out) || fresh(out))
      ensures StoredAhead(Bits(), old(Now()), old(out[..zout]), capacity) ==
        if ok then Have(out[..zout], Now()) else Stop
    {
      hide Unpack, Peek, Pow2, BytesAt, Capacity, Align;
      var valid, len := ReadStoredHeader();
      if !valid {
        return false;
      }
      WholeBytes(pos, |data|);
      if zbuffer + len > |data| {
        return false;
      }
      if zout + len > out.Length {
        var room := Expand(zout, len);
        if !room {
          return false;
        }
      }
      CapacityBound();
      CopyStored(len);
      ok := true;
    }

    /** One block of the given type. */
    method ParseBlock(kind: nat) returns (ok: bool)
      requires BufferOk() && OutputOk() && num_bits <= 31 && kind < 4
      modifies this, out, z_length.Storage(), z_distance.Storage()
      ensures BufferOk() && OutputOk() && (out == old(out) || fresh(out))
      ensures BlockAhead(kind, Bits(), old(Now()), old(out[..zout]), capacity)
           == if ok then Have(out[..zout], Now()) else Stop
    {
      hide StoredAhead, SymbolsAhead, TablesAhead, Unpack, Peek, Pow2, Capacity, FixedLit, FixedDist, Kraft;
      hide ZHuffman.Table;
      if kind == 0 {
        ok := ParseUncompressedBlock();
        return;
      }
      if kind == 3 {
        return false;
      }
      ghost var t := Tables(FixedLit(), FixedDist());
      if kind == 1 {
        FixedAccepted();
        var built := z_length.Build(FixedLit());
        built := z_distance.Build(FixedDist());
      } else {
        ok, t := ComputeHuffmanCodes();
        if !ok {
          return;
        }
      }
      ok := ParseHuffmanBlock(t.lit, t.dst);
    }

    /** `stbi__parse_zlib_header` (section 2.2 of RFC 1950). */
    method ParseZlibHeader() returns (ok: bool)
      requires zbuffer == 0
      modifies `zbuffer
      ensures ok <==> HasHeader(data)
      ensures ok ==> zbuffer == 2
    {
      var cmf: nat, flg: nat;
      cmf := Zget8();
      flg := Zget8();
      if zbuffer >= |data| {
        return false;
      }
      HeaderByBits(cmf, flg);
      if (cmf * 256 + flg) % 31 != 0 {
        return false;
      }
      if flg / 32 % 2 == 1 {
        return false;
      }
      ok := cmf % 16 == 8;
    }

    /** `stbi__parse_zlib`: succeeds exactly when the header, if one is expected, and the blocks are accepted. */
    method ParseZlib(parse_header: bool) returns (ok: bool)
      requires zbuffer == 0 && zout == 0 && OutputOk()
      modifies this, out, z_length.Storage(), z_distance.Storage()
      ensures OutputOk() && (out == old(out) || fresh(out))
      ensures parse_header && !HasHeader(data) ==> !ok
      ensures parse_header ==> HasHeader(data) ==>
        BlocksAhead(Bits(), AtStart(parse_header), [], capacity) == if ok then Have(out[..zout], Now()) else Stop
      ensures !parse_header ==>
        BlocksAhead(Bits(), AtStart(parse_header), [], capacity) == if ok then Have(out[..zout], Now()) else Stop
    {
      hide BlockAhead, BlocksAhead, Receive, Unpack, Peek, Pow2, Capacity, HasHeader, BufferOk, Start;
      StartIs(parse_header);
      if parse_header {
        var valid := ParseZlibHeader();
        if !valid {
          return false;
        }
        HeaderLength(data);
      }
      StartBlocks(parse_header);
      ghost var goal := BlocksAhead(Bits(), Now(), out[..zout], capacity);
      while true
        invariant BufferOk() && OutputOk() && (out == old(out) || fresh(out))
        invariant goal == BlocksAhead(Bits(), Now(), out[..zout], capacity)
        decreases |Bits()| - pos
      {
        var r := NextBlock();
        match r {
          case More =>
          case Done =>
            return true;
          case Bad =>
            return false;
        }
      }
    }

    /** The bit buffer is empty before the first block. */
    method StartBlocks(parse_header: bool)
      requires zbuffer == Start(parse_header) / 8 <= |data|
      modifies `num_bits, `code_buffer, `hit_zeof_once, `pos
      ensures BufferOk() && Now() == AtStart(parse_header)
    {
      num_bits := 0;
      code_buffer := 0;
      hit_zeof_once := false;
      pos := 8 * zbuffer;
      EmptyBuffer(Bits(), pos);
    }

    /** One turn of the loop over the blocks. */
    method NextBlock() returns (r: Progress)
      requires BufferOk() && OutputOk()
      modifies this, out, z_length.Storage(), z_distance.Storage()
      ensures BufferOk() && OutputOk() && (out == old(out) || fresh(out))
      ensures var b := BlocksAhead(Bits(), old(Now()), old(out[..zout]), capacity);
        match r
        case More => old(pos) < |Bits()| && old(pos) < pos && b == BlocksAhead(Bits(), Now(), out[..zout], capacity)
        case Done => b == Have(out[..zout], Now())
        case Bad => b == Stop
    {
      hide BlockAhead, Receive, Unpack, Peek, Pow2, Capacity;
      var final := Zreceive(1);
      var kind := Zreceive(2);
      BlockHeader(Bits(), old(pos));
      ZeroBlockFails(Bits(), Now(), old(pos), out[..zout], capacity);
      var parsed := ParseBlock(kind);
      r := if !parsed then Bad else if final == 1 then Done else More;
    }
  }

  /** The low byte of the buffer is the next byte of the stream. */
  lemma OctetAt(bits: seq<Bit>, p: nat, n: nat)
    requires n >= 8
    ensures Low(Peek(bits, p, n), 8) == Peek(bits, p, 8) < 256
  {
    PeekMaskShift(bits, p, n, 8);
    Pow2Values();
  }

  lemma TwoOctets(bits: seq<Bit>, q: nat)
    ensures Peek(bits, q, 16) == Peek(bits, q, 8) + 256 * Peek(bits, q + 8, 8)
  {
    PeekAppend(bits, q, 8, 8);
    ShlEight(Peek(bits, q + 8, 8));
  }

  lemma ShlEight(v: nat)
    ensures Shl(v, 8) == 256 * v
  {
    assert Shl(v, 1) == 2 * Shl(v, 0);
    assert Shl(v, 2) == 4 * v && Shl(v, 3) == 8 * v;
    assert Shl(v, 4) == 16 * v && Shl(v, 5) == 32 * v;
    assert Shl(v, 6) == 64 * v && Shl(v, 7) == 128 * v;
  }

  lemma WholeBytes(p: nat, n: nat)
    ensures p % 8 == 0 ==> 8 * (p / 8) == p
  {
  }

  lemma AlignIs(p: nat, n: nat)
    requires (p + n) % 8 == 0
    ensures Align(p) == p + n % 8
  {
  }

  lemma EmptyBuffer(bits: seq<Bit>, p: nat)
    ensures Peek(bits, p, 0) == 0
  {
  }

  lemma {:induction false} BytesAtData(data: seq<Byte>, i: nat, n: nat)
    requires i + n <= |data|
    ensures BytesAt(Unpack(data), 8 * i, n) == data[i..i + n]
    decreases n
  {
    if n > 0 {
      PeekByte(data, i);
      BytesAtData(data, i + 1, n - 1);
      assert 8 * i + 8 == 8 * (i + 1);
      assert data[i..i + n] == [data[i]] + data[i + 1..i + n];
    }
  }

  lemma HeaderLength(data: seq<Byte>)
    requires HasHeader(data)
    ensures |data| > 2
  {
  }

  /** Where the first block starts. */
  function Start(parse_header: bool): nat {
    if parse_header then 16 else 0
  }

  lemma StartIs(parse_header: bool)
    ensures Start(parse_header) / 8 == if parse_header then 2 else 0
  {
  }

  /** Nothing is in the buffer there. */
  function AtStart(parse_header: bool): Gauge {
    Gauge(Start(parse_header), Start(parse_header), false)
  }

  lemma BlockHeader(bits: seq<Bit>, p: nat)
    ensures Peek(bits, p, 1) < 2 && Peek(bits, p + 1, 2) < 4
  {
    Pow2Values();
  }

  /** Past the end of the input, the padding reads as a stored block, which does not fit. */
  lemma ZeroBlockFails(bits: seq<Bit>, g: Gauge, p: nat, o: seq<Byte>, capacity: nat)
    requires g.pos == p + 3
    ensures p >= |bits| ==> BlockAhead(Peek(bits, p + 1, 2), bits, g, o, capacity).Stop?
  {
    if p >= |bits| {
      PeekPastEnd(bits, p + 1, 2);
    }
  }

  /** A buffer of whole bytes with more than 24 and at most 32 bits. */
  lemma FilledIs(p: nat, n: nat)
    requires 24 < n <= 32 && (p + n) % 8 == 0
    ensures p + n == 8 * (p / 8 + 4)
  {
  }

  lemma BelowTop(bits: seq<Bit>, pos: nat, n: nat)
    ensures Peek(bits, pos, n) < Shl(1, n)
  {
    ShlOne(n);
  }

  /** Reading the next byte in above `n` buffered bits. */
  lemma NextByte(data: seq<Byte>, pos: nat, n: nat)
    requires (pos + n) % 8 == 0
    ensures Peek(Unpack(data), pos, n + 8)
         == Peek(Unpack(data), pos, n) + Shl(ByteAt(data, (pos + n) / 8), n)
  {
    hide Unpack, Shl, Peek, ByteAt;
    PeekAppend(Unpack(data), pos, n, 8);
    PeekByte(data, (pos + n) / 8);
  }

  /** Past the end, sixteen zero bits are what the stream, extended by zeros, holds. */
  lemma PadBits(data: seq<Byte>, pos: nat, n: nat)
    requires pos + n >= 8 * |data|
    ensures Peek(Unpack(data), pos, n + 16) == Peek(Unpack(data), pos, n)
  {
    PeekAppend(Unpack(data), pos, n, 16);
    PeekPastEnd(Unpack(data), pos + n, 16);
    ShlZero(n);
  }

  lemma NineBits(bits: seq<Bit>, pos: nat)
    ensures Peek(bits, pos, FAST_BITS) < FAST_SIZE
  {
    Pow2Values();
  }

  function Min(a: nat, b: nat): nat {
    if a < b then a else b
  }

  lemma {:induction false} ShlZero(n: nat)
    ensures Shl(0, n) == 0
  {
    if n > 0 {
      ShlZero(n - 1);
    }
  }
}
