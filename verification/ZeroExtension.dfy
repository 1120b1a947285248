/** Appending zero bytes to the input does not change what it decodes to. */
module ZeroExtension {
  import opened Shifts
  import opened BitStream
  import opened Canonical
  import opened Deflate

  /** `longer` is `bits` followed by zeros. */
  ghost predicate Extends(bits: seq<Bit>, longer: seq<Bit>) {
    |bits| <= |longer| && forall p: nat :: At(longer, p) == At(bits, p)
  }

  lemma {:induction false} PeekExtends(bits: seq<Bit>, longer: seq<Bit>, p: nat, n: nat)
    requires Extends(bits, longer)
    ensures Peek(longer, p, n) == Peek(bits, p, n)
    decreases n
  {
    if n > 0 {
      PeekExtends(bits, longer, p + 1, n - 1);
    }
  }

  lemma {:induction false} CodeExtends(bits: seq<Bit>, longer: seq<Bit>, p: nat, n: nat)
    requires Extends(bits, longer)
    ensures Code(longer, p, n) == Code(bits, p, n)
    decreases n
  {
    if n > 0 {
      CodeExtends(bits, longer, p, n - 1);
    }
  }

  lemma {:induction false} WalkExtends(lens: seq<nat>, bits: seq<Bit>, longer: seq<Bit>, p: nat, n: nat)
    requires Extends(bits, longer)
    ensures Walk(lens, longer, p, n) == Walk(lens, bits, p, n)
    decreases MAX_BITS + 1 - n
  {
    CodeExtends(bits, longer, p, n);
    if n <= MAX_BITS {
      WalkExtends(lens, bits, longer, p, n + 1);
    }
  }

  lemma ReadSymbolExtends(lens: seq<nat>, bits: seq<Bit>, longer: seq<Bit>, p: nat)
    requires Extends(bits, longer)
    ensures ReadSymbol(lens, longer, p) == ReadSymbol(lens, bits, p)
  {
    WalkExtends(lens, bits, longer, p, 1);
  }

  lemma RunAtExtends(z: nat, dst: seq<nat>, bits: seq<Bit>, longer: seq<Bit>, q: nat)
    requires Extends(bits, longer) && z < 29
    ensures RunAt(z, dst, longer, q) == RunAt(z, dst, bits, q)
  {
    hide ReadSymbol, LengthBase, LengthExtra, DistBase, DistExtra, Peek;
    ReadSymbolExtends(dst, bits, longer, q + LengthExtra(z));
    PeekExtends(bits, longer, q, LengthExtra(z));
    var d := ReadSymbol(dst, bits, q + LengthExtra(z));
    if d.Got? && d.value < 30 {
      PeekExtends(bits, longer, d.next, DistExtra(d.value));
    }
  }

  lemma {:induction false} SymbolsExtends(lit: seq<nat>, dst: seq<nat>, bits: seq<Bit>, longer: seq<Bit>, p: nat,
                                          out: seq<Byte>, capacity: nat)
    requires Extends(bits, longer)
    ensures Symbols(lit, dst, longer, p, out, capacity) == Symbols(lit, dst, bits, p, out, capacity)
    decreases capacity - |out|
  {
    hide ReadSymbol, RunAt, Copy;
    ReadSymbolExtends(lit, bits, longer, p);
    var s := ReadSymbol(lit, bits, p);
    if s.Got? && s.value < 256 && |out| < capacity {
      SymbolsExtends(lit, dst, bits, longer, s.next, out + [s.value], capacity);
    } else if s.Got? && 257 <= s.value < 286 {
      RunAtExtends(s.value - 257, dst, bits, longer, s.next);
      var m := RunAt(s.value - 257, dst, bits, s.next);
      if m.Got? && m.value.dist <= |out| && |out| + m.value.len <= capacity {
        SymbolsExtends(lit, dst, bits, longer, m.next, Copy(out, m.value.dist, m.value.len), capacity);
      }
    }
  }

  lemma {:induction false} CodeLengthLensExtends(bits: seq<Bit>, longer: seq<Bit>, p: nat, n: nat)
    requires Extends(bits, longer) && n <= 19
    ensures CodeLengthLens(longer, p, n) == CodeLengthLens(bits, p, n)
    decreases n
  {
    hide Peek, LengthOrder;
    if n > 0 {
      CodeLengthLensExtends(bits, longer, p, n - 1);
      PeekExtends(bits, longer, p + 3 * (n - 1), 3);
    }
  }

  lemma ReadInstrExtends(cl: seq<nat>, bits: seq<Bit>, longer: seq<Bit>, p: nat, acc: seq<nat>)
    requires Extends(bits, longer)
    ensures ReadInstr(cl, longer, p, acc) == ReadInstr(cl, bits, p, acc)
  {
    hide ReadSymbol, Peek, Repeat;
    ReadSymbolExtends(cl, bits, longer, p);
    var s := ReadSymbol(cl, bits, p);
    if s.Got? {
      PeekExtends(bits, longer, s.next, 2);
      PeekExtends(bits, longer, s.next, 3);
      PeekExtends(bits, longer, s.next, 7);
    }
  }

  lemma {:induction false} ReadLengthsExtends(cl: seq<nat>, bits: seq<Bit>, longer: seq<Bit>, p: nat, acc: seq<nat>,
                                              total: nat)
    requires Extends(bits, longer)
    ensures ReadLengths(cl, longer, p, acc, total) == ReadLengths(cl, bits, p, acc, total)
    decreases total - |acc|
  {
    hide ReadInstr;
    ReadInstrExtends(cl, bits, longer, p, acc);
    var s := ReadInstr(cl, bits, p, acc);
    if |acc| < total && s.Got? {
      ReadLengthsExtends(cl, bits, longer, s.next, s.value, total);
    }
  }

  lemma ReadTablesExtends(bits: seq<Bit>, longer: seq<Bit>, p: nat)
    requires Extends(bits, longer)
    ensures ReadTables(longer, p) == ReadTables(bits, p)
  {
    hide Peek, CodeLengthLens, ReadLengths, Kraft;
    PeekExtends(bits, longer, p, 5);
    PeekExtends(bits, longer, p + 5, 5);
    PeekExtends(bits, longer, p + 10, 4);
    var hlit, hdist, hclen := Peek(bits, p, 5) + 257, Peek(bits, p + 5, 5) + 1, Peek(bits, p + 10, 4) + 4;
    Pow2Values();
    CodeLengthLensExtends(bits, longer, p + 14, hclen);
    ReadLengthsExtends(CodeLengthLens(bits, p + 14, hclen), bits, longer, p + 14 + 3 * hclen, [], hlit + hdist);
  }

  lemma {:induction false} BytesAtExtends(bits: seq<Bit>, longer: seq<Bit>, p: nat, n: nat)
    requires Extends(bits, longer)
    ensures BytesAt(longer, p, n) == BytesAt(bits, p, n)
    decreases n
  {
    hide Peek;
    if n > 0 {
      PeekExtends(bits, longer, p, 8);
      BytesAtExtends(bits, longer, p + 8, n - 1);
    }
  }

  lemma BlockExtends(kind: nat, bits: seq<Bit>, longer: seq<Bit>, p: nat, out: seq<Byte>, capacity: nat)
    requires Extends(bits, longer) && Block(kind, bits, p, out, capacity).Got?
    ensures Block(kind, longer, p, out, capacity) == Block(kind, bits, p, out, capacity)
  {
    hide Peek, Symbols, ReadTables, BytesAt, FixedLit, FixedDist;
    if kind == 0 {
      var q := Align(p);
      PeekExtends(bits, longer, q, 16);
      PeekExtends(bits, longer, q + 16, 16);
      BytesAtExtends(bits, longer, q + 32, Peek(bits, q, 16));
    } else if kind == 1 {
      SymbolsExtends(FixedLit(), FixedDist(), bits, longer, p, out, capacity);
    } else {
      ReadTablesExtends(bits, longer, p);
      var t := ReadTables(bits, p);
      SymbolsExtends(t.value.lit, t.value.dst, bits, longer, t.next, out, capacity);
    }
  }

  lemma {:induction false} BlocksExtends(bits: seq<Bit>, longer: seq<Bit>, p: nat, out: seq<Byte>, capacity: nat)
    requires Extends(bits, longer) && Blocks(bits, p, out, capacity).Got?
    ensures Blocks(longer, p, out, capacity) == Blocks(bits, p, out, capacity)
    decreases |bits| - p
  {
    hide Peek, Block;
    PeekExtends(bits, longer, p, 1);
    PeekExtends(bits, longer, p + 1, 2);
    BlockExtends(Peek(bits, p + 1, 2), bits, longer, p + 3, out, capacity);
    if Peek(bits, p, 1) != 1 {
      var r := Block(Peek(bits, p + 1, 2), bits, p + 3, out, capacity);
      BlocksExtends(bits, longer, r.next, r.value, capacity);
    }
  }

  function ZeroBytes(n: nat): seq<Byte> {
    seq(n, i => 0)
  }

  lemma {:induction false} ZeroField(n: nat)
    ensures forall i :: 0 <= i < n ==> Field(0, n)[i] == 0
  {
    if n > 0 {
      ZeroField(n - 1);
    }
  }

  lemma {:induction false} UnpackZeros(n: nat)
    ensures forall i :: 0 <= i < 8 * n ==> Unpack(ZeroBytes(n))[i] == 0
  {
    hide Field;
    if n > 0 {
      ZeroField(8);
      UnpackZeros(n - 1);
      assert ZeroBytes(n)[1..] == ZeroBytes(n - 1);
    }
  }

  lemma {:induction false} UnpackAppend(a: seq<Byte>, b: seq<Byte>)
    ensures Unpack(a + b) == Unpack(a) + Unpack(b)
  {
    hide Field;
    if a == [] {
      assert a + b == b;
    } else {
      assert (a + b)[1..] == a[1..] + b;
      UnpackAppend(a[1..], b);
    }
  }

  lemma ZerosExtend(data: seq<Byte>, n: nat)
    ensures Extends(Unpack(data), Unpack(data + ZeroBytes(n)))
  {
    hide Unpack;
    UnpackAppend(data, ZeroBytes(n));
    UnpackZeros(n);
  }
}
