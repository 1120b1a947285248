/** The bit order of section 3.1.1 of RFC 1951: bytes are read least significant bit first; Huffman codes
    are packed most significant bit first, every other field least significant bit first. */
module BitStream {
  import opened Shifts

  type Byte = b: nat | b < 256

  /** A bit of the stream; past the end of the input the decoder is fed zeros. */
  function At(bits: seq<Bit>, p: nat): Bit {
    if p < |bits| then bits[p] else 0
  }

  /** The next `n` bits as a number whose first bit is least significant. */
  function Peek(bits: seq<Bit>, p: nat, n: nat): (r: nat)
    ensures r < Pow2(n)
    decreases n, bits
  {
    if n == 0 then 0 else At(bits, p) + 2 * Peek(bits, p + 1, n - 1)
  }

  /** The next `n` bits as a number whose first bit is most significant. */
  function Code(bits: seq<Bit>, p: nat, n: nat): (r: nat)
    ensures r < Pow2(n)
  {
    if n == 0 then 0 else 2 * Code(bits, p, n - 1) + At(bits, p + n - 1)
  }

  /** Masking and shifting a window of the stream gives the two parts of the window. */
  lemma {:induction false} PeekMaskShift(bits: seq<Bit>, p: nat, n: nat, k: nat)
    requires k <= n
    ensures Low(Peek(bits, p, n), k) == Peek(bits, p, k)
    ensures Shr(Peek(bits, p, n), k) == Peek(bits, p + k, n - k)
    decreases k
  {
    if k > 0 {
      PeekMaskShift(bits, p + 1, n - 1, k - 1);
      Halves(At(bits, p), Peek(bits, p + 1, n - 1));
    }
  }

  /** Appending the bits after the window, shifted above it, widens the window. */
  lemma {:induction false} PeekAppend(bits: seq<Bit>, p: nat, n: nat, k: nat)
    ensures Peek(bits, p, n + k) == Peek(bits, p, n) + Shl(Peek(bits, p + n, k), n)
    decreases n
  {
    if n > 0 {
      PeekAppend(bits, p + 1, n - 1, k);
    }
  }

  lemma {:induction false} PeekPastEnd(bits: seq<Bit>, p: nat, n: nat)
    requires p >= |bits|
    ensures Peek(bits, p, n) == 0
    decreases n
  {
    if n > 0 {
      PeekPastEnd(bits, p + 1, n - 1);
    }
  }

  /** Dropping the low bits of a longer code leaves its prefix. */
  lemma {:induction false} CodePrefix(bits: seq<Bit>, p: nat, n: nat, k: nat)
    requires k <= n
    ensures Shr(Code(bits, p, n), n - k) == Code(bits, p, k)
    decreases n
  {
    if k < n {
      CodePrefix(bits, p, n - 1, k);
    }
  }

  lemma {:induction false} CodeCons(bits: seq<Bit>, p: nat, n: nat)
    requires n > 0
    ensures Code(bits, p, n) == (if At(bits, p) == 1 then Pow2(n - 1) else 0) + Code(bits, p + 1, n - 1)
    decreases n
  {
    if n > 1 {
      CodeCons(bits, p, n - 1);
    } else {
      assert Code(bits, p, 0) == 0;
    }
  }

  /** Reading the same bits in the other order reverses the number. */
  lemma {:induction false} ReversePeek(bits: seq<Bit>, p: nat, n: nat)
    ensures Reverse(Peek(bits, p, n), n) == Code(bits, p, n)
    decreases n
  {
    if n > 0 {
      ReversePeek(bits, p + 1, n - 1);
      CodeCons(bits, p, n);
    }
  }

  /** The `n` low bits of `v`, least significant first. */
  function Field(v: nat, n: nat): (w: seq<Bit>)
    ensures |w| == n
    decreases n, v
  {
    if n == 0 then [] else [v % 2] + Field(v / 2, n - 1)
  }

  /** The `n` low bits of `v`, most significant first. */
  function CodeBits(v: nat, n: nat): (w: seq<Bit>)
    ensures |w| == n
    decreases n, v
  {
    if n == 0 then [] else CodeBits(v / 2, n - 1) + [v % 2]
  }

  /** `w` occurs in the stream at position `p`. */
  ghost predicate Holds(bits: seq<Bit>, p: nat, w: seq<Bit>) {
    p + |w| <= |bits| && bits[p..p + |w|] == w
  }

  lemma HoldsSplit(bits: seq<Bit>, p: nat, v: seq<Bit>, w: seq<Bit>)
    ensures Holds(bits, p, v + w) <==> Holds(bits, p, v) && Holds(bits, p + |v|, w)
  {
    if p + |v + w| <= |bits| {
      var s := bits[p..p + |v + w|];
      assert s[..|v|] == bits[p..p + |v|] && s[|v|..] == bits[p + |v|..p + |v + w|];
      assert (v + w)[..|v|] == v && (v + w)[|v|..] == w;
      assert s == s[..|v|] + s[|v|..];
    }
  }

  lemma HoldsInside(bits: seq<Bit>, p: nat, w: seq<Bit>)
    requires Holds(bits, p, w)
    ensures p + |w| <= |bits|
  {
  }

  /** Four pieces in a row. */
  lemma HoldsFour(bits: seq<Bit>, p: nat, a: seq<Bit>, b: seq<Bit>, c: seq<Bit>, d: seq<Bit>)
    requires Holds(bits, p, a + (b + (c + d)))
    ensures Holds(bits, p, a) && Holds(bits, p + |a|, b)
    ensures Holds(bits, p + |a| + |b|, c) && Holds(bits, p + |a| + |b| + |c|, d)
  {
    hide Holds;
    HoldsSplit(bits, p, a, b + (c + d));
    HoldsSplit(bits, p + |a|, b, c + d);
    HoldsSplit(bits, p + |a| + |b|, c, d);
  }

  lemma {:induction false} PeekField(bits: seq<Bit>, p: nat, v: nat, n: nat)
    requires Holds(bits, p, Field(v, n))
    ensures Peek(bits, p, n) == Low(v, n)
    decreases n
  {
    if n > 0 {
      HoldsSplit(bits, p, [v % 2], Field(v / 2, n - 1));
      assert bits[p] == bits[p..p + 1][0];
      PeekField(bits, p + 1, v / 2, n - 1);
    }
  }

  lemma {:induction false} FieldPeek(bits: seq<Bit>, p: nat, n: nat)
    requires p + n <= |bits|
    ensures Holds(bits, p, Field(Peek(bits, p, n), n))
    decreases n
  {
    if n > 0 {
      FieldPeek(bits, p + 1, n - 1);
      var v := Peek(bits, p, n);
      assert Holds(bits, p, [v % 2]);
      HoldsSplit(bits, p, [v % 2], Field(v / 2, n - 1));
    }
  }

  lemma {:induction false} CodeCodeBits(bits: seq<Bit>, p: nat, v: nat, n: nat)
    requires Holds(bits, p, CodeBits(v, n)) && v < Pow2(n)
    ensures Code(bits, p, n) == v
    decreases n
  {
    if n > 0 {
      HoldsSplit(bits, p, CodeBits(v / 2, n - 1), [v % 2]);
      CodeCodeBits(bits, p, v / 2, n - 1);
      assert bits[p + n - 1] == bits[p + n - 1..p + n][0];
    }
  }

  lemma {:induction false} CodeBitsCode(bits: seq<Bit>, p: nat, n: nat)
    requires p + n <= |bits|
    ensures Holds(bits, p, CodeBits(Code(bits, p, n), n))
    decreases n
  {
    if n > 0 {
      CodeBitsCode(bits, p, n - 1);
      var v := Code(bits, p, n);
      assert Holds(bits, p + n - 1, [v % 2]);
      HoldsSplit(bits, p, CodeBits(v / 2, n - 1), [v % 2]);
    }
  }

  /** The bits of a byte string in reading order. */
  function Unpack(data: seq<Byte>): (bits: seq<Bit>)
    ensures |bits| == 8 * |data|
  {
    if data == [] then [] else Field(data[0], 8) + Unpack(data[1..])
  }

  lemma SliceHead<T>(a: seq<T>, b: seq<T>)
    ensures (a + b)[0..|a|] == a
  {
  }

  lemma SliceTail<T>(a: seq<T>, b: seq<T>, i: nat, j: nat)
    requires i <= j <= |b|
    ensures (a + b)[|a| + i..|a| + j] == b[i..j]
  {
  }

  lemma {:induction false} UnpackAt(data: seq<Byte>, i: nat)
    requires i < |data|
    ensures Holds(Unpack(data), 8 * i, Field(data[i], 8))
  {
    if i == 0 {
      SliceHead(Field(data[0], 8), Unpack(data[1..]));
    } else {
      UnpackAt(data[1..], i - 1);
      SliceTail(Field(data[0], 8), Unpack(data[1..]), 8 * (i - 1), 8 * i);
    }
  }

  function ByteAt(data: seq<Byte>, i: nat): Byte {
    if i < |data| then data[i] else 0
  }

  /** Eight bits from a byte boundary are that byte. */
  lemma PeekByte(data: seq<Byte>, i: nat)
    ensures Peek(Unpack(data), 8 * i, 8) == ByteAt(data, i)
  {
    if i < |data| {
      UnpackAt(data, i);
      PeekField(Unpack(data), 8 * i, data[i], 8);
      Pow2Values();
      LowIdentity(data[i], 8);
    } else {
      PeekPastEnd(Unpack(data), 8 * i, 8);
    }
  }

  /** Bits packed into bytes, the last byte filled up with zeros. */
  function Pack(bits: seq<Bit>): (data: seq<Byte>)
    ensures |data| == (|bits| + 7) / 8
  {
    Pow2Values();
    if bits == [] then []
    else if |bits| <= 8 then [Peek(bits, 0, 8)]
    else [Peek(bits, 0, 8)] + Pack(bits[8..])
  }

  lemma {:induction false} PackUnpack(bits: seq<Bit>, tail: seq<Byte>)
    ensures Holds(Unpack(Pack(bits) + tail), 0, bits)
  {
    hide Holds, Peek, Field;
    if |bits| <= 8 {
      PackShort(bits, tail);
    } else {
      var more := bits[8..];
      PackUnpack(more, tail);
      PackLong(bits, tail);
      FieldWhole(bits[..8], bits);
      HoldsAfter(bits[..8], Unpack(Pack(more) + tail), more);
      assert bits == bits[..8] + more;
    }
  }

  lemma PackShort(bits: seq<Bit>, tail: seq<Byte>)
    requires |bits| <= 8
    ensures Holds(Unpack(Pack(bits) + tail), 0, bits)
  {
    hide Peek, Field;
    if bits != [] {
      var b := Peek(bits, 0, 8);
      UnpackCons(b, tail);
      FieldOfPeek(bits, 0, 8);
    }
  }

  lemma PackLong(bits: seq<Bit>, tail: seq<Byte>)
    requires |bits| > 8
    ensures Unpack(Pack(bits) + tail) == Field(Peek(bits, 0, 8), 8) + Unpack(Pack(bits[8..]) + tail)
  {
    hide Peek, Field, Unpack;
    Pow2Values();
    var b, more := Peek(bits, 0, 8), Pack(bits[8..]);
    UnpackCons(b, more + tail);
    assert [b] + more + tail == [b] + (more + tail);
  }

  lemma UnpackCons(b: nat, rest: seq<Byte>)
    requires b < 256
    ensures Unpack([b] + rest) == Field(b, 8) + Unpack(rest)
  {
    hide Field;
    assert ([b] + rest)[1..] == rest;
  }

  lemma FieldWhole(w: seq<Bit>, bits: seq<Bit>)
    requires |w| == 8 && w <= bits
    ensures Field(Peek(bits, 0, 8), 8) == w
  {
    hide Peek, Field;
    FieldOfPeek(bits, 0, 8);
  }

  lemma HoldsAfter(a: seq<Bit>, b: seq<Bit>, w: seq<Bit>)
    requires Holds(b, 0, w)
    ensures Holds(a + b, 0, a + w)
  {
    assert (a + b)[0..|a + w|] == a + b[0..|w|];
  }

  lemma {:induction false} FieldOfPeek(bits: seq<Bit>, p: nat, n: nat)
    ensures forall i :: 0 <= i < n ==> Field(Peek(bits, p, n), n)[i] == At(bits, p + i)
    decreases n
  {
    if n > 0 {
      FieldOfPeek(bits, p + 1, n - 1);
      var v := Peek(bits, p, n);
      forall i | 0 < i < n
        ensures Field(v, n)[i] == At(bits, p + i)
      {
        assert v / 2 == Peek(bits, p + 1, n - 1);
        assert Field(v, n)[i] == Field(v / 2, n - 1)[i - 1];
        assert p + 1 + (i - 1) == p + i;
      }
    }
  }
}
