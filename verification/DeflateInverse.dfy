/** Whatever the bit-by-bit reading accepts inside the input is a well-formed stream that denotes what was read. */
module DeflateInverse {
  import opened Shifts
  import opened BitStream
  import opened Canonical
  import opened Deflate
  import opened DeflateFormat

  lemma SymbolFound(lens: seq<nat>, bits: seq<Bit>, p: nat)
    requires Lengths(lens) && Kraft(lens)
    requires ReadSymbol(lens, bits, p).Got? && ReadSymbol(lens, bits, p).next <= |bits|
    ensures var i := ReadSymbol(lens, bits, p).value;
      Coded(lens, i) && ReadSymbol(lens, bits, p).next == p + lens[i] && Holds(bits, p, SymbolBits(lens, i))
  {
    ReadSymbolCorrect(lens, bits, p);
    CodeBitsCode(bits, p, lens[ReadSymbol(lens, bits, p).value]);
  }

  lemma HoldsJoin(bits: seq<Bit>, p: nat, v: seq<Bit>, w: seq<Bit>)
    requires Holds(bits, p, v) && Holds(bits, p + |v|, w)
    ensures Holds(bits, p, v + w)
  {
    HoldsSplit(bits, p, v, w);
  }

  lemma MatchFound(lit: seq<nat>, dst: seq<nat>, bits: seq<Bit>, p: nat) returns (t: Token)
    requires Usable(lit, dst) && ReadSymbol(lit, bits, p).Got?
    requires 257 <= ReadSymbol(lit, bits, p).value < 286
    requires var s := ReadSymbol(lit, bits, p);
      RunAt(s.value - 257, dst, bits, s.next).Got? && RunAt(s.value - 257, dst, bits, s.next).next <= |bits|
    ensures TokenOk(lit, dst, t) && t.Match? && Holds(bits, p, TokenBits(lit, dst, t))
    ensures var s := ReadSymbol(lit, bits, p);
      RunAt(s.value - 257, dst, bits, s.next)
      == Got(Run(LengthBase(t.z) + t.lx, DistBase(t.d) + t.dx), p + |TokenBits(lit, dst, t)|)
  {
    hide ReadSymbol, LengthBase, DistBase, LengthExtra, DistExtra, Kraft, Field, Peek, SymbolBits;
    var s := ReadSymbol(lit, bits, p);
    SymbolFound(lit, bits, p);
    var z := s.value - 257;
    var q := s.next + LengthExtra(z);
    FieldPeek(bits, s.next, LengthExtra(z));
    var d := ReadSymbol(dst, bits, q);
    SymbolFound(dst, bits, q);
    FieldPeek(bits, d.next, DistExtra(d.value));
    t := Match(z, Peek(bits, s.next, LengthExtra(z)), d.value, Peek(bits, d.next, DistExtra(d.value)));
    var c, e := SymbolBits(dst, t.d), Field(t.dx, DistExtra(t.d));
    HoldsJoin(bits, q, c, e);
    HoldsJoin(bits, s.next, Field(t.lx, LengthExtra(z)), c + e);
    HoldsJoin(bits, p, SymbolBits(lit, 257 + z), Field(t.lx, LengthExtra(z)) + (c + e));
  }

  /** One turn of the symbol loop, read as a token. */
  lemma TokenFound(lit: seq<nat>, dst: seq<nat>, bits: seq<Bit>, p: nat, out: seq<Byte>, capacity: nat)
    returns (t: Token)
    requires Usable(lit, dst)
    requires Symbols(lit, dst, bits, p, out, capacity).Got? && Symbols(lit, dst, bits, p, out, capacity).next <= |bits|
    requires ReadSymbol(lit, bits, p).value != END_OF_BLOCK
    ensures TokenOk(lit, dst, t) && InReach(t, out) && |Apply(t, out)| <= capacity
    ensures Holds(bits, p, TokenBits(lit, dst, t))
    ensures Symbols(lit, dst, bits, p, out, capacity)
         == Symbols(lit, dst, bits, p + |TokenBits(lit, dst, t)|, Apply(t, out), capacity)
  {
    hide ReadSymbol, RunAt, LengthBase, DistBase, Copy, Kraft, LengthExtra, DistExtra;
    var s := ReadSymbol(lit, bits, p);
    if s.value < 256 {
      t := Literal(s.value);
      SymbolFound(lit, bits, p);
    } else {
      t := MatchFound(lit, dst, bits, p);
    }
    TokenRead(lit, dst, bits, p, t, out, capacity);
  }

  lemma {:induction false} TokensFound(lit: seq<nat>, dst: seq<nat>, bits: seq<Bit>, p: nat, out: seq<Byte>,
                                       capacity: nat)
    returns (ts: seq<Token>)
    requires Usable(lit, dst)
    requires Symbols(lit, dst, bits, p, out, capacity).Got? && Symbols(lit, dst, bits, p, out, capacity).next <= |bits|
    ensures Coded(lit, END_OF_BLOCK) && TokensOk(lit, dst, ts, out)
    ensures Holds(bits, p, TokensBits(lit, dst, ts, out))
    ensures Symbols(lit, dst, bits, p, out, capacity)
         == Got(ApplyAll(lit, dst, ts, out), p + |TokensBits(lit, dst, ts, out)|)
    decreases capacity - |out|
  {
    hide ReadSymbol, RunAt, Copy, Apply, TokenBits, TokenOk, InReach, SymbolBits, Kraft, Lengths;
    var s := ReadSymbol(lit, bits, p);
    if s.value == END_OF_BLOCK {
      SymbolFound(lit, bits, p);
      ts := [];
      EndRead(lit, dst, bits, p, out, capacity);
    } else {
      var t := TokenFound(lit, dst, bits, p, out, capacity);
      var w := TokenBits(lit, dst, t);
      var rest := TokensFound(lit, dst, bits, p + |w|, Apply(t, out), capacity);
      ts := [t] + rest;
      assert ts[1..] == rest;
      HoldsJoin(bits, p, w, TokensBits(lit, dst, rest, Apply(t, out)));
    }
  }

  // ---------------------------------------------------------------------------------- dynamic headers

  lemma InstrFound(cl: seq<nat>, bits: seq<Bit>, p: nat, acc: seq<nat>) returns (i: Instr)
    requires Lengths(cl) && Kraft(cl)
    requires ReadInstr(cl, bits, p, acc).Got? && ReadInstr(cl, bits, p, acc).next <= |bits|
    ensures InstrOk(cl, i, acc) && Holds(bits, p, InstrBits(cl, i))
    ensures ReadInstr(cl, bits, p, acc) == Got(Perform(i, acc), p + |InstrBits(cl, i)|)
  {
    hide ReadSymbol, Kraft, Repeat, Field, Peek, SymbolBits;
    var s := ReadSymbol(cl, bits, p);
    Pow2Values();
    i := if s.value < 16 then Len(s.value)
         else if s.value == 16 then Again(Peek(bits, s.next, 2))
         else if s.value == 17 then Zeros(Peek(bits, s.next, 3))
         else ManyZeros(Peek(bits, s.next, 7));
    SymbolFound(cl, bits, p);
    assert Holds(bits, s.next, InstrExtra(i)) by {
      match i
      case Len(_) =>
      case Again(_) => FieldPeek(bits, s.next, 2);
      case Zeros(_) => FieldPeek(bits, s.next, 3);
      case ManyZeros(_) => FieldPeek(bits, s.next, 7);
    }
    HoldsJoin(bits, p, SymbolBits(cl, s.value), InstrExtra(i));
    InstrRead(cl, bits, p, i, acc);
  }

  lemma {:induction false} InstrsFound(cl: seq<nat>, bits: seq<Bit>, p: nat, acc: seq<nat>, total: nat)
    returns (ins: seq<Instr>)
    requires Lengths(cl) && Kraft(cl) && |acc| <= total
    requires ReadLengths(cl, bits, p, acc, total).Got? && ReadLengths(cl, bits, p, acc, total).next <= |bits|
    ensures InstrsOk(cl, ins, acc) && |PerformAll(cl, ins, acc)| == total
    ensures Holds(bits, p, InstrsBits(cl, ins, acc))
    ensures ReadLengths(cl, bits, p, acc, total) == Got(PerformAll(cl, ins, acc), p + |InstrsBits(cl, ins, acc)|)
    decreases total - |acc|
  {
    hide Kraft, InstrBits, InstrSymbol, Perform, ReadInstr;
    if |acc| == total {
      ins := [];
    } else {
      var i := InstrFound(cl, bits, p, acc);
      var w := InstrBits(cl, i);
      var rest := InstrsFound(cl, bits, p + |w|, Perform(i, acc), total);
      ins := [i] + rest;
      assert ins[1..] == rest;
      HoldsJoin(bits, p, w, InstrsBits(cl, rest, Perform(i, acc)));
    }
  }

  lemma {:induction false} FieldsFound(bits: seq<Bit>, p: nat, n: nat) returns (fields: seq<nat>)
    requires n <= 19 && p + 3 * n <= |bits|
    ensures |fields| == n && (forall i :: 0 <= i < n ==> fields[i] < 8)
    ensures Holds(bits, p, FieldsBits(fields)) && CodeLengthLens(bits, p, n) == PlaceFields(fields)
    decreases n
  {
    hide Field, Peek, LengthOrder;
    if n == 0 {
      fields := [];
    } else {
      Pow2Values();
      var first := FieldsFound(bits, p, n - 1);
      var f := Peek(bits, p + 3 * (n - 1), 3);
      fields := first + [f];
      assert fields[..n - 1] == first;
      FieldPeek(bits, p + 3 * (n - 1), 3);
      HoldsJoin(bits, p, FieldsBits(first), Field(f, 3));
    }
  }

  lemma HeaderFound(bits: seq<Bit>, p: nat) returns (h: Header)
    requires ReadTables(bits, p).Got? && ReadTables(bits, p).next <= |bits|
    ensures DynamicOk(h) && Holds(bits, p, HeaderBits(h))
    ensures ReadTables(bits, p)
         == Got(Tables(HeaderLens(h)[..257 + h.hlit], HeaderLens(h)[257 + h.hlit..]), p + |HeaderBits(h)|)
  {
    hide Kraft, ReadLengths, CodeLengthLens, PlaceFields, InstrsBits, FieldsBits, Field, Peek, PerformAll, InstrsOk;
    Pow2Values();
    var hlit, hdist, hclen := Peek(bits, p, 5), Peek(bits, p + 5, 5), Peek(bits, p + 10, 4);
    var fields := FieldsFound(bits, p + 14, hclen + 4);
    var cl := PlaceFields(fields);
    var ins := InstrsFound(cl, bits, p + 14 + 3 * (hclen + 4), [], 258 + hlit + hdist);
    h := Header(hlit, hdist, fields, ins);
    FieldPeek(bits, p, 5);
    FieldPeek(bits, p + 5, 5);
    FieldPeek(bits, p + 10, 4);
    var f, i := FieldsBits(fields), InstrsBits(cl, ins, []);
    HoldsJoin(bits, p + 14, f, i);
    HoldsJoin(bits, p + 10, Field(hclen, 4), f + i);
    HoldsJoin(bits, p + 5, Field(hdist, 5), Field(hclen, 4) + (f + i));
    HoldsJoin(bits, p, Field(hlit, 5), Field(hdist, 5) + (Field(hclen, 4) + (f + i)));
  }

  // ------------------------------------------------------------------------------------------- blocks

  lemma {:induction false} BytesFound(bits: seq<Bit>, p: nat, n: nat)
    requires p + 8 * n <= |bits|
    ensures Holds(bits, p, Unpack(BytesAt(bits, p, n)))
    decreases n
  {
    hide Field, Peek;
    if n > 0 {
      BytesFound(bits, p + 8, n - 1);
      FieldPeek(bits, p, 8);
      var rest := BytesAt(bits, p + 8, n - 1);
      assert BytesAt(bits, p, n)[1..] == rest;
      HoldsJoin(bits, p, Field(Peek(bits, p, 8), 8), Unpack(rest));
    }
  }

  lemma StoredFound(bits: seq<Bit>, p: nat, out: seq<Byte>, capacity: nat) returns (b: DeflateFormat.Block)
    requires Stored(bits, p, out, capacity).Got?
    ensures b.StoredBlock? && BlockOk(b, p, out) && Holds(bits, p, BodyBits(b, p, out))
    ensures Stored(bits, p, out, capacity) == Got(Output(b, p, out), p + |BodyBits(b, p, out)|)
  {
    hide Holds, Field, Peek, BytesAt, Unpack, Align;
    Pow2Values();
    var q := Align(p);
    var len := Peek(bits, q, 16);
    var pad, bytes := bits[p..q], BytesAt(bits, q + 32, len);
    b := StoredBlock(pad, bytes);
    FieldPeek(bits, q, 16);
    FieldPeek(bits, q + 16, 16);
    BytesFound(bits, q + 32, len);
    HoldsJoin(bits, q + 16, Field(0xFFFF - len, 16), Unpack(bytes));
    HoldsJoin(bits, q, Field(len, 16), Field(0xFFFF - len, 16) + Unpack(bytes));
    HoldsJoin(bits, p, pad, Field(len, 16) + (Field(0xFFFF - len, 16) + Unpack(bytes)));
  }

  lemma BodyFound(kind: nat, bits: seq<Bit>, p: nat, out: seq<Byte>, capacity: nat) returns (b: DeflateFormat.Block)
    requires Kraft(FixedLit()) && Kraft(FixedDist())
    requires Deflate.Block(kind, bits, p, out, capacity).Got?
    requires Deflate.Block(kind, bits, p, out, capacity).next <= |bits|
    ensures BlockOk(b, p, out) && Kind(b) == kind && Holds(bits, p, BodyBits(b, p, out))
    ensures Deflate.Block(kind, bits, p, out, capacity) == Got(Output(b, p, out), p + |BodyBits(b, p, out)|)
  {
    hide Stored, Symbols, ReadTables, DynamicOk, HeaderBits, HeaderLens, TokensBits, TokensOk, ApplyAll;
    hide Kraft, FixedLit, FixedDist;
    if kind == 0 {
      b := StoredFound(bits, p, out, capacity);
    } else if kind == 1 {
      var ts := TokensFound(FixedLit(), FixedDist(), bits, p, out, capacity);
      b := FixedBlock(ts);
    } else {
      b := DynamicFound(bits, p, out, capacity);
    }
  }

  lemma DynamicFound(bits: seq<Bit>, p: nat, out: seq<Byte>, capacity: nat) returns (b: DeflateFormat.Block)
    requires Deflate.Block(2, bits, p, out, capacity).Got? && Deflate.Block(2, bits, p, out, capacity).next <= |bits|
    ensures b.DynamicBlock? && BlockOk(b, p, out) && Holds(bits, p, BodyBits(b, p, out))
    ensures Deflate.Block(2, bits, p, out, capacity) == Got(Output(b, p, out), p + |BodyBits(b, p, out)|)
  {
    hide Symbols, ReadTables, HeaderBits, HeaderLens, TokensBits, TokensOk, ApplyAll, Kraft;
    var h := HeaderFound(bits, p);
    var lit, dst := HeaderLens(h)[..257 + h.hlit], HeaderLens(h)[257 + h.hlit..];
    var ts := TokensFound(lit, dst, bits, p + |HeaderBits(h)|, out, capacity);
    b := DynamicBlock(h, ts);
    HoldsJoin(bits, p, HeaderBits(h), TokensBits(lit, dst, ts, out));
  }

  lemma {:induction false} BlocksFound(bits: seq<Bit>, p: nat, out: seq<Byte>, capacity: nat)
    returns (bs: seq<DeflateFormat.Block>)
    requires Kraft(FixedLit()) && Kraft(FixedDist())
    requires Blocks(bits, p, out, capacity).Got? && Blocks(bits, p, out, capacity).next <= |bits|
    ensures BlocksOk(bs, p, out) && Holds(bits, p, BlocksBits(bs, p, out))
    ensures Blocks(bits, p, out, capacity) == Got(Denote(bs, p, out), p + |BlocksBits(bs, p, out)|)
    decreases |bits| - p
  {
    hide BlockOk, BodyBits, Output, Deflate.Block, Framed, Peek, Kraft, FixedLit, FixedDist;
    var b := BodyFound(Peek(bits, p + 1, 2), bits, p + 3, out, capacity);
    var body, out' := BodyBits(b, p + 3, out), Output(b, p + 3, out);
    var q := p + 3 + |body|;
    if Peek(bits, p, 1) == 1 {
      bs := [b];
      FramedFound(bits, p, body, []);
    } else {
      var more := BlocksFound(bits, q, out', capacity);
      bs := [b] + more;
      assert bs[1..] == more;
      FramedFound(bits, p, body, BlocksBits(more, q, out'));
    }
  }

  lemma FramedFound(bits: seq<Bit>, p: nat, body: seq<Bit>, rest: seq<Bit>)
    requires Holds(bits, p + 3, body) && Holds(bits, p + 3 + |body|, rest)
    ensures Peek(bits, p, 1) < 2
    ensures Holds(bits, p, Framed(Peek(bits, p, 1), Peek(bits, p + 1, 2), body, rest))
  {
    hide Field, Peek;
    Pow2Values();
    FieldPeek(bits, p, 1);
    FieldPeek(bits, p + 1, 2);
    HoldsJoin(bits, p + 3, body, rest);
    HoldsJoin(bits, p + 1, Field(Peek(bits, p + 1, 2), 2), body + rest);
    HoldsJoin(bits, p, Field(Peek(bits, p, 1), 1), Field(Peek(bits, p + 1, 2), 2) + (body + rest));
  }

  /** `data` from bit `start` on is a well-formed stream, written as `bs`, possibly with something after it. */
  ghost predicate Written(data: seq<Byte>, start: nat, bs: seq<DeflateFormat.Block>) {
    BlocksOk(bs, start, []) && Holds(Unpack(data), start, BlocksBits(bs, start, []))
  }

  /** The stream that bytes stand for is unique as far as its meaning and its end are concerned. */
  lemma MeaningUnique(data: seq<Byte>, start: nat, bs: seq<DeflateFormat.Block>, cs: seq<DeflateFormat.Block>)
    requires Kraft(FixedLit()) && Kraft(FixedDist())
    requires Written(data, start, bs) && Written(data, start, cs)
    ensures Denote(bs, start, []) == Denote(cs, start, [])
    ensures |BlocksBits(bs, start, [])| == |BlocksBits(cs, start, [])|
  {
    hide Denote, BlocksBits, BlocksOk, Blocks, Kraft;
    var n := |Denote(bs, start, [])| + |Denote(cs, start, [])|;
    BlocksRead(Unpack(data), start, bs, [], n);
    BlocksRead(Unpack(data), start, cs, [], n);
  }
}
