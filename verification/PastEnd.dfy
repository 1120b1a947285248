/** How far a stream can run past the end of the input, and two that do: one the decoder accepts, one it refuses. */
module PastEnd {
  import opened Shifts
  import opened BitStream
  import opened Canonical
  import opened Deflate
  import opened Lookahead

  // ---------------------------------------------------------------------------------------- the bound

  lemma {:induction false} CodePastEnd(bits: seq<Bit>, p: nat, n: nat)
    requires p >= |bits|
    ensures Code(bits, p, n) == 0
  {
    if n > 0 {
      CodePastEnd(bits, p, n - 1);
    }
  }

  lemma {:induction false} WalkPastEnd(lens: seq<nat>, bits: seq<Bit>, p: nat, q: nat, n: nat)
    requires p >= |bits| && q >= |bits|
    ensures Walk(lens, bits, p, n).Got? <==> Walk(lens, bits, q, n).Got?
    ensures Walk(lens, bits, p, n).Got? ==> Walk(lens, bits, p, n).value == Walk(lens, bits, q, n).value
    decreases MAX_BITS + 1 - n
  {
    hide Lookup, Code;
    CodePastEnd(bits, p, n);
    CodePastEnd(bits, q, n);
    if n <= MAX_BITS {
      WalkPastEnd(lens, bits, p, q, n + 1);
    }
  }

  /** Past the end the next symbol is always the same one. */
  lemma SameSymbol(lens: seq<nat>, bits: seq<Bit>, p: nat, q: nat)
    requires p >= |bits| && q >= |bits| && ReadSymbol(lens, bits, p).Got?
    ensures ReadSymbol(lens, bits, q).Got? && ReadSymbol(lens, bits, q).value == ReadSymbol(lens, bits, p).value
  {
    WalkPastEnd(lens, bits, p, q, 1);
  }

  lemma SymbolShort(lens: seq<nat>, bits: seq<Bit>, p: nat, most: nat)
    requires Lengths(lens) && Kraft(lens) && forall i :: 0 <= i < |lens| ==> lens[i] <= most
    requires ReadSymbol(lens, bits, p).Got?
    ensures ReadSymbol(lens, bits, p).next <= p + most
  {
    hide Kraft, ReadSymbol;
    ReadSymbolCorrect(lens, bits, p);
  }

  lemma RunShort(z: nat, dst: seq<nat>, bits: seq<Bit>, p: nat)
    requires z < 29 && Lengths(dst) && Kraft(dst) && RunAt(z, dst, bits, p).Got?
    ensures RunAt(z, dst, bits, p).next <= p + 33
  {
    hide Kraft, ReadSymbol, Peek;
    SymbolShort(dst, bits, p + LengthExtra(z), MAX_BITS);
  }

  /** A block that goes on past the end ends with the first symbol read there. */
  lemma {:induction false} EndsAtOnce(lit: seq<nat>, dst: seq<nat>, bits: seq<Bit>, p: nat, out: seq<Byte>,
                                      capacity: nat)
    requires p >= |bits| && Symbols(lit, dst, bits, p, out, capacity).Got?
    ensures ReadSymbol(lit, bits, p).Got? && ReadSymbol(lit, bits, p).value == END_OF_BLOCK
    ensures Symbols(lit, dst, bits, p, out, capacity).next == ReadSymbol(lit, bits, p).next
    decreases capacity - |out|
  {
    hide ReadSymbol, RunAt, Copy;
    var s := ReadSymbol(lit, bits, p);
    if s.value < 256 {
      EndsAtOnce(lit, dst, bits, s.next, out + [s.value], capacity);
      SameSymbol(lit, bits, p, s.next);
    } else if s.value != END_OF_BLOCK {
      var m := RunAt(s.value - 257, dst, bits, s.next);
      EndsAtOnce(lit, dst, bits, m.next, Copy(out, m.value.dist, m.value.len), capacity);
      SameSymbol(lit, bits, p, m.next);
    }
  }

  lemma {:induction false} SymbolsEnd(lit: seq<nat>, dst: seq<nat>, bits: seq<Bit>, p: nat, out: seq<Byte>,
                                      capacity: nat)
    requires Lengths(lit) && Kraft(lit) && Lengths(dst) && Kraft(dst)
    requires Symbols(lit, dst, bits, p, out, capacity).Got?
    ensures Symbols(lit, dst, bits, p, out, capacity).next <= if p < |bits| then |bits| + 62 else p + 15
    decreases capacity - |out|
  {
    hide ReadSymbol, RunAt, Copy, Kraft;
    var s := ReadSymbol(lit, bits, p);
    SymbolShort(lit, bits, p, MAX_BITS);
    if p >= |bits| {
      EndsAtOnce(lit, dst, bits, p, out, capacity);
    } else if s.value < 256 {
      SymbolsEnd(lit, dst, bits, s.next, out + [s.value], capacity);
    } else if s.value != END_OF_BLOCK {
      RunShort(s.value - 257, dst, bits, s.next);
      var m := RunAt(s.value - 257, dst, bits, s.next);
      SymbolsEnd(lit, dst, bits, m.next, Copy(out, m.value.dist, m.value.len), capacity);
    }
  }

  lemma {:induction false} FieldsShort(bits: seq<Bit>, p: nat, n: nat)
    requires n <= 19
    ensures forall i :: 0 <= i < 19 ==> CodeLengthLens(bits, p, n)[i] <= 7
    decreases n
  {
    hide LengthOrder, Peek;
    if n > 0 {
      FieldsShort(bits, p, n - 1);
      assert Pow2(3) == 8;
    }
  }

  lemma InstrShort(cl: seq<nat>, bits: seq<Bit>, p: nat, acc: seq<nat>)
    requires Lengths(cl) && Kraft(cl) && (forall i :: 0 <= i < |cl| ==> cl[i] <= 7) && ReadInstr(cl, bits, p, acc).Got?
    ensures ReadInstr(cl, bits, p, acc).next <= p + 14
  {
    hide Kraft, ReadSymbol, Peek, Repeat;
    SymbolShort(cl, bits, p, 7);
  }

  lemma {:induction false} LengthsEnd(cl: seq<nat>, bits: seq<Bit>, p: nat, acc: seq<nat>, total: nat)
    requires Lengths(cl) && Kraft(cl) && forall i :: 0 <= i < |cl| ==> cl[i] <= 7
    requires ReadLengths(cl, bits, p, acc, total).Got?
    ensures |acc| <= total && ReadLengths(cl, bits, p, acc, total).next <= p + 14 * (total - |acc|)
    decreases total - |acc|
  {
    hide Kraft, Lengths, ReadInstr;
    if |acc| < total {
      InstrShort(cl, bits, p, acc);
      var s := ReadInstr(cl, bits, p, acc);
      LengthsEnd(cl, bits, s.next, s.value, total);
    }
  }

  lemma TablesEnd(bits: seq<Bit>, p: nat)
    requires ReadTables(bits, p).Got?
    ensures ReadTables(bits, p).next <= p + 14 + 57 + 14 * 320
  {
    hide Kraft, CodeLengthLens, Peek, Pow2, ReadLengths, AtMost15;
    var n := Peek(bits, p + 10, 4) + 4;
    HeaderFields(bits, p);
    FieldsShort(bits, p + 14, n);
    LengthsEnd(CodeLengthLens(bits, p + 14, n), bits, p + 14 + 3 * n, [],
               Peek(bits, p, 5) + 257 + (Peek(bits, p + 5, 5) + 1));
  }

  /** The most bits that a stream can end past the input. */
  const MOST_PAST: nat := 4568

  lemma BlockEnd(kind: nat, bits: seq<Bit>, p: nat, out: seq<Byte>, capacity: nat)
    requires Kraft(FixedLit()) && Kraft(FixedDist()) && p <= |bits| + 2 && Block(kind, bits, p, out, capacity).Got?
    ensures Block(kind, bits, p, out, capacity).next <= |bits| + MOST_PAST
  {
    hide Stored, Symbols, ReadTables, Kraft, FixedLit, FixedDist;
    if kind == 1 {
      SymbolsEnd(FixedLit(), FixedDist(), bits, p, out, capacity);
    } else if kind == 2 {
      TablesEnd(bits, p);
      var t := ReadTables(bits, p);
      SymbolsEnd(t.value.lit, t.value.dst, bits, t.next, out, capacity);
    }
  }

  /** No stream that decodes ends more than 571 bytes past the input, whatever it contains. */
  lemma {:induction false} BlocksEnd(bits: seq<Bit>, p: nat, out: seq<Byte>, capacity: nat)
    requires Kraft(FixedLit()) && Kraft(FixedDist()) && Blocks(bits, p, out, capacity).Got?
    ensures Blocks(bits, p, out, capacity).next <= |bits| + MOST_PAST
    decreases |bits| - p
  {
    hide Block, Kraft, FixedLit, FixedDist, Peek;
    var r := Block(Peek(bits, p + 1, 2), bits, p + 3, out, capacity);
    BlockEnd(Peek(bits, p + 1, 2), bits, p + 3, out, capacity);
    if Peek(bits, p, 1) != 1 {
      BlocksEnd(bits, r.next, r.value, capacity);
    }
  }

  // ------------------------------------------------------------------------------ what is accepted at most

  /** How far the buffer reaches, with the padding that may still be put in. */
  function Room(g: Gauge): nat {
    if g.hit then g.fill else g.fill + 16
  }

  function Max(a: nat, b: nat): nat {
    if a < b then b else a
  }

  /** Past the end, making 16 bits ready adds no room. */
  lemma ReadyRoom(g: Gauge, end: nat)
    requires GaugeOk(g, end) && end % 8 == 0 && Ready(g, end).Have?
    ensures Room(Ready(g, end).gauge) <= Max(Room(g), end + 40)
  {
  }

  /** And neither does an instruction of a dynamic header: its extra bits are always at hand. */
  lemma InstrRoom(cl: seq<nat>, bits: seq<Bit>, g: Gauge, acc: seq<nat>)
    requires Lengths(cl) && Kraft(cl) && forall i :: 0 <= i < |cl| ==> cl[i] <= 7
    requires GaugeOk(g, |bits|) && |bits| % 8 == 0 && InstrAhead(cl, bits, g, acc).Have?
    ensures Room(InstrAhead(cl, bits, g, acc).gauge) <= Max(Room(g), |bits| + 40)
  {
    hide Kraft, Lengths, ReadSymbol, Peek, Repeat, Ready, Filled;
    ReadyOk(g, |bits|);
    ReadyRoom(g, |bits|);
    SymbolShort(cl, bits, g.pos, 7);
  }

  lemma {:induction false} LengthsRoom(cl: seq<nat>, bits: seq<Bit>, g: Gauge, acc: seq<nat>, total: nat)
    requires Lengths(cl) && Kraft(cl) && forall i :: 0 <= i < |cl| ==> cl[i] <= 7
    requires GaugeOk(g, |bits|) && |bits| % 8 == 0 && LengthsAhead(cl, bits, g, acc, total).Have?
    ensures Room(LengthsAhead(cl, bits, g, acc, total).gauge) <= Max(Room(g), |bits| + 40)
    decreases total - |acc|
  {
    hide Kraft, Lengths, InstrAhead, GaugeOk, Room;
    if |acc| < total {
      InstrAgrees(cl, bits, g, acc);
      InstrRoom(cl, bits, g, acc);
      var s := InstrAhead(cl, bits, g, acc);
      LengthsRoom(cl, bits, s.gauge, s.value, total);
    }
  }

  lemma GaugeRoom(g: Gauge, end: nat)
    requires GaugeOk(g, end)
    ensures Room(g) <= g.pos + 48
  {
  }

  lemma TablesRoom(bits: seq<Bit>, g: Gauge)
    requires GaugeOk(g, |bits|) && |bits| % 8 == 0 && TablesAhead(bits, g).Have?
    ensures Room(TablesAhead(bits, g).gauge) <= Max(g.pos + 119, |bits| + 40)
  {
    hide Kraft, CodeLengthLens, Peek, Pow2, LengthsAhead, FieldsAhead, Receive, GaugeOk, Room;
    var n := Peek(bits, g.pos + 10, 4) + 4;
    HeaderFields(bits, g.pos);
    FieldsShort(bits, g.pos + 14, n);
    ReceiveOk(g, 5, |bits|);
    ReceiveOk(Receive(g, 5), 5, |bits|);
    ReceiveOk(Receive(Receive(g, 5), 5), 4, |bits|);
    var start := Receive(Receive(Receive(g, 5), 5), 4);
    FieldsOk(start, n, |bits|);
    GaugeRoom(FieldsAhead(start, n), |bits|);
    LengthsRoom(CodeLengthLens(bits, g.pos + 14, n), bits, FieldsAhead(start, n), [],
                Peek(bits, g.pos, 5) + 257 + (Peek(bits, g.pos + 5, 5) + 1));
  }

  /** A block that goes on past the end is accepted only as far as the room goes. */
  lemma SymbolsRoom(lit: seq<nat>, dst: seq<nat>, bits: seq<Bit>, g: Gauge, out: seq<Byte>, capacity: nat)
    requires Lengths(lit) && Kraft(lit) && Lengths(dst) && Kraft(dst)
    requires GaugeOk(g, |bits|) && |bits| % 8 == 0 && SymbolsAhead(lit, dst, bits, g, out, capacity).Have?
    ensures var end := SymbolsAhead(lit, dst, bits, g, out, capacity).gauge.pos;
      end <= |bits| + 62 || end + 16 <= Max(Room(g), |bits| + 40)
  {
    hide Kraft, Lengths, ReadSymbol, Symbols, Ready;
    SymbolsAgree(lit, dst, bits, g, out, capacity);
    SymbolsEnd(lit, dst, bits, g.pos, out, capacity);
    if g.pos >= |bits| {
      EndsAtOnce(lit, dst, bits, g.pos, out, capacity);
      ReadyRoom(g, |bits|);
    }
  }

  /** The most bits that an accepted stream can end past the input. */
  const MOST_ACCEPTED: nat := 105

  lemma AcceptedBlock(kind: nat, bits: seq<Bit>, g: Gauge, out: seq<Byte>, capacity: nat)
    requires Kraft(FixedLit()) && Kraft(FixedDist()) && GaugeOk(g, |bits|) && |bits| % 8 == 0 && g.pos <= |bits| + 2
    requires BlockAhead(kind, bits, g, out, capacity).Have?
    ensures BlockAhead(kind, bits, g, out, capacity).gauge.pos <= |bits| + MOST_ACCEPTED
  {
    hide Stored, SymbolsAhead, TablesAhead, ReadTables, Kraft, FixedLit, FixedDist, GaugeOk, Room;
    GaugeRoom(g, |bits|);
    if kind == 1 {
      SymbolsRoom(FixedLit(), FixedDist(), bits, g, out, capacity);
    } else if kind == 2 {
      TablesAgree(bits, g);
      TablesRoom(bits, g);
      var t := TablesAhead(bits, g);
      SymbolsRoom(t.value.lit, t.value.dst, bits, t.gauge, out, capacity);
    }
  }

  /** No stream is accepted that ends more than 105 bits past the input. */
  lemma {:induction false} AcceptedEnds(bits: seq<Bit>, g: Gauge, out: seq<Byte>, capacity: nat)
    requires Kraft(FixedLit()) && Kraft(FixedDist()) && GaugeOk(g, |bits|) && |bits| % 8 == 0
    requires BlocksAhead(bits, g, out, capacity).Have?
    ensures BlocksAhead(bits, g, out, capacity).gauge.pos <= |bits| + MOST_ACCEPTED
    decreases |bits| - g.pos
  {
    hide BlockAhead, Block, Kraft, FixedLit, FixedDist, Peek, GaugeOk, Receive;
    ReceiveOk(g, 1, |bits|);
    ReceiveOk(Receive(g, 1), 2, |bits|);
    var h, kind := Receive(Receive(g, 1), 2), Peek(bits, g.pos + 1, 2);
    AcceptedBlock(kind, bits, h, out, capacity);
    BlockAgrees(kind, bits, h, out, capacity);
    var r := BlockAhead(kind, bits, h, out, capacity);
    if Peek(bits, g.pos, 1) != 1 {
      AcceptedEnds(bits, r.gauge, r.value, capacity);
    }
  }

  // --------------------------------------------------------------------------- two streams that run over

  /** The code counters of the fixed literal code while no code is that short. */
  lemma {:induction false} NoneSo(s: nat, n: nat)
    requires n <= 288 && (s < 7 || (s == 7 && n <= 256))
    ensures s > 0 ==> CountTo(FixedLit(), s, n) == 0
    decreases n
  {
    if n > 0 {
      NoneSo(s, n - 1);
    }
  }

  lemma {:induction false} Sevens(n: nat)
    requires 256 <= n <= 288
    ensures CountTo(FixedLit(), 7, n) == if n <= 280 then n - 256 else 24
    decreases n
  {
    if n == 256 {
      NoneSo(7, 256);
    } else {
      Sevens(n - 1);
    }
  }

  lemma {:induction false} FirstCodes(s: nat)
    requires 1 <= s <= 7
    ensures FirstCode(FixedLit(), s) == 0
    decreases s
  {
    if s > 1 {
      FirstCodes(s - 1);
      NoneSo(s - 1, 288);
    }
  }

  /** In the fixed code the end of a block is seven zeros and the byte 0 is 00110000. */
  lemma FixedCodes()
    ensures CodeOf(FixedLit(), END_OF_BLOCK) == 0 && FixedLit()[END_OF_BLOCK] == 7
    ensures CodeOf(FixedLit(), 0) == 48 && FixedLit()[0] == 8
  {
    hide CountTo;
    FirstCodes(7);
    NoneSo(7, 256);
    Sevens(288);
    assert FixedLit()[256] == 7 && FixedLit()[0] == 8;
    assert EndCode(FixedLit(), 7) == 24 && FirstCode(FixedLit(), 8) == 48;
    CountNone(8);
  }

  lemma CountNone(s: nat)
    ensures CountTo(FixedLit(), s, 0) == 0
  {
  }

  lemma {:induction false} CodeZeros(bits: seq<Bit>, p: nat, n: nat)
    requires forall i :: p <= i < p + n ==> At(bits, i) == 0
    ensures Code(bits, p, n) == 0
    decreases n
  {
    if n > 0 {
      CodeZeros(bits, p, n - 1);
    }
  }

  /** Seven zeros, some of which may be past the end, are the end of a block. */
  lemma EndComes(bits: seq<Bit>, p: nat)
    requires Kraft(FixedLit()) && forall i :: p <= i < p + 7 ==> At(bits, i) == 0
    ensures ReadSymbol(FixedLit(), bits, p) == Got(END_OF_BLOCK, p + 7)
  {
    hide Kraft, ReadSymbol, FixedLit, CodeOf, Code;
    FixedCodes();
    CodeZeros(bits, p, 7);
    assert Reads(FixedLit(), bits, p, END_OF_BLOCK);
    ReadSymbolCorrect(FixedLit(), bits, p);
  }

  lemma ZeroByteComes(bits: seq<Bit>, p: nat)
    requires Kraft(FixedLit()) && p + 8 <= |bits| && bits[p..p + 8] == [0, 0, 1, 1, 0, 0, 0, 0]
    ensures ReadSymbol(FixedLit(), bits, p) == Got(0, p + 8)
  {
    hide Kraft, ReadSymbol, FixedLit, CodeOf;
    FixedCodes();
    var w := bits[p..p + 8];
    assert bits[p] == w[0] && bits[p + 1] == w[1] && bits[p + 2] == w[2] && bits[p + 3] == w[3];
    assert bits[p + 4] == w[4] && bits[p + 5] == w[5] && bits[p + 6] == w[6] && bits[p + 7] == w[7];
    CodeZeros(bits, p, 2);
    assert Code(bits, p, 3) == 1 && Code(bits, p, 4) == 3 && Code(bits, p, 5) == 6 && Code(bits, p, 6) == 12;
    assert Code(bits, p, 7) == 24 && Code(bits, p, 8) == 48;
    assert Reads(FixedLit(), bits, p, 0);
    ReadSymbolCorrect(FixedLit(), bits, p);
  }

  /** The byte 0x03, without a header: a last block with the fixed code whose end takes two zeros more than there
      are. The decoder accepts it: no padding was needed to read that code. */
  lemma OverrunAccepted(capacity: nat)
    requires Kraft(FixedLit())
    ensures var bits := Unpack([3]);
      && BlocksAhead(bits, Gauge(0, 0, false), [], capacity) == Have([], Gauge(10, 32, false))
      && |bits| == 8
  {
    hide Kraft, ReadSymbol, FixedLit, FixedDist, SymbolsAhead, Unpack, Field, Peek;
    var bits := Unpack([3]);
    Field3();
    UnpackOne(3, []);
    UnpackNone();
    assert [3] + [] == [3] && Field(3, 8) + [] == Field(3, 8);
    assert bits == [1, 1, 0, 0, 0, 0, 0, 0];
    FirstTwo(bits);
    EndComes(bits, 3);
    EndReached(FixedLit(), FixedDist(), bits, Gauge(3, 32, false), [], capacity, 10);
  }

  lemma FirstTwo(bits: seq<Bit>)
    requires |bits| >= 3 && bits[0] == 1 && bits[1] == 1 && bits[2] == 0
    ensures Peek(bits, 0, 1) == 1 && Peek(bits, 1, 2) == 1
  {
    assert Peek(bits, 2, 1) == 0;
  }

  /** What the four bytes hold. */
  lemma RefusedBits()
    ensures var bits := Unpack([99, 96, 96, 0]);
      && |bits| == 32 && Peek(bits, 0, 1) == 1 && Peek(bits, 1, 2) == 1
      && bits[3..11] == bits[11..19] == bits[19..27] == [0, 0, 1, 1, 0, 0, 0, 0]
      && forall i :: 27 <= i < 34 ==> At(bits, i) == 0
  {
    hide Field, Unpack, Peek, At;
    Field99();
    Field96();
    Field0();
    UnpackFour(99, 96, 96, 0);
    FourBytes(Unpack([99, 96, 96, 0]), Field(99, 8), Field(96, 8), Field(96, 8), Field(0, 8));
  }

  lemma Field3()
    ensures Field(3, 8) == [1, 1, 0, 0, 0, 0, 0, 0]
  {
    hide Field;
    FieldNone();
    FieldCons(1, 1, 7);
    FieldCons(1, 0, 6);
    FieldCons(0, 0, 5);
    FieldCons(0, 0, 4);
    FieldCons(0, 0, 3);
    FieldCons(0, 0, 2);
    FieldCons(0, 0, 1);
    FieldCons(0, 0, 0);
  }

  lemma Field99()
    ensures Field(99, 8) == [1, 1, 0, 0, 0, 1, 1, 0]
  {
    hide Field;
    FieldNone();
    FieldCons(1, 49, 7);
    FieldCons(1, 24, 6);
    FieldCons(0, 12, 5);
    FieldCons(0, 6, 4);
    FieldCons(0, 3, 3);
    FieldCons(1, 1, 2);
    FieldCons(1, 0, 1);
    FieldCons(0, 0, 0);
  }

  lemma Field96()
    ensures Field(96, 8) == [0, 0, 0, 0, 0, 1, 1, 0]
  {
    hide Field;
    FieldNone();
    FieldCons(0, 48, 7);
    FieldCons(0, 24, 6);
    FieldCons(0, 12, 5);
    FieldCons(0, 6, 4);
    FieldCons(0, 3, 3);
    FieldCons(1, 1, 2);
    FieldCons(1, 0, 1);
    FieldCons(0, 0, 0);
  }

  lemma Field0()
    ensures Field(0, 8) == [0, 0, 0, 0, 0, 0, 0, 0]
  {
    hide Field;
    FieldNone();
    FieldCons(0, 0, 7);
    FieldCons(0, 0, 6);
    FieldCons(0, 0, 5);
    FieldCons(0, 0, 4);
    FieldCons(0, 0, 3);
    FieldCons(0, 0, 2);
    FieldCons(0, 0, 1);
    FieldCons(0, 0, 0);
  }

  lemma FieldCons(b: Bit, v: nat, n: nat)
    ensures Field(b + 2 * v, n + 1) == [b] + Field(v, n)
  {
    assert (b + 2 * v) % 2 == b && (b + 2 * v) / 2 == v;
  }

  lemma FieldNone()
    ensures Field(0, 0) == []
  {
  }

  lemma UnpackFour(a: Byte, b: Byte, c: Byte, d: Byte)
    ensures Unpack([a, b, c, d]) == Field(a, 8) + Field(b, 8) + Field(c, 8) + Field(d, 8)
  {
    hide Field, Unpack;
    assert [a] + [b, c, d] == [a, b, c, d] && [b] + [c, d] == [b, c, d] && [c] + [d] == [c, d] && [d] + [] == [d];
    UnpackOne(a, [b, c, d]);
    UnpackOne(b, [c, d]);
    UnpackOne(c, [d]);
    UnpackOne(d, []);
    UnpackNone();
    Regroup(Field(a, 8), Field(b, 8), Field(c, 8), Field(d, 8));
  }

  lemma UnpackOne(a: Byte, rest: seq<Byte>)
    ensures Unpack([a] + rest) == Field(a, 8) + Unpack(rest)
  {
    hide Field;
    assert ([a] + rest)[1..] == rest;
  }

  lemma UnpackNone()
    ensures Unpack([]) == []
  {
  }

  lemma Regroup(a: seq<Bit>, b: seq<Bit>, c: seq<Bit>, d: seq<Bit>)
    ensures a + (b + (c + (d + []))) == a + b + c + d
  {
  }

  lemma FourBytes(bits: seq<Bit>, a: seq<Bit>, b: seq<Bit>, c: seq<Bit>, d: seq<Bit>)
    requires |a| == |b| == |c| == |d| == 8 && bits == a + b + c + d
    requires a == [1, 1, 0, 0, 0, 1, 1, 0] && b == c == [0, 0, 0, 0, 0, 1, 1, 0] && d == [0, 0, 0, 0, 0, 0, 0, 0]
    ensures Peek(bits, 0, 1) == 1 && Peek(bits, 1, 2) == 1
    ensures bits[3..11] == bits[11..19] == bits[19..27] == [0, 0, 1, 1, 0, 0, 0, 0]
    ensures forall i :: 27 <= i < 34 ==> At(bits, i) == 0
  {
    assert bits[3..11] == a[3..] + b[..3] && bits[11..19] == b[3..] + c[..3] && bits[19..27] == c[3..] + d[..3];
    assert bits[0] == a[0] && bits[1] == a[1] && bits[2] == a[2];
    FirstTwo(bits);
  }

  /** A last block with the fixed code, three bytes 0, and an end that also takes two zeros more than there are. The
      decoder refuses it: the padding it needed for the code has been used. */
  lemma OverrunRefused(capacity: nat)
    requires Kraft(FixedLit()) && capacity >= 3
    ensures var bits := Unpack([99, 96, 96, 0]);
      && BlocksAhead(bits, Gauge(0, 0, false), [], capacity) == Stop
      && Blocks(bits, 0, [], capacity) == Got([0, 0, 0], 34)
      && |bits| == 32
  {
    hide Kraft, ReadSymbol, FixedLit, FixedDist, Unpack, Peek, RunAt, RunAhead, SymbolsAhead, Symbols;
    var bits := Unpack([99, 96, 96, 0]);
    RefusedBits();
    ZeroByteComes(bits, 3);
    ZeroByteComes(bits, 11);
    ZeroByteComes(bits, 19);
    EndComes(bits, 27);
    var lit, dst := FixedLit(), FixedDist();
    assert [] + [0] == [0] && [0] + [0] == [0, 0] && [0, 0] + [0] == [0, 0, 0];
    OneLiteral(lit, dst, bits, Gauge(3, 32, false), [], capacity, 0, 11);
    OneLiteral(lit, dst, bits, Gauge(11, 32, false), [0], capacity, 0, 19);
    OneLiteral(lit, dst, bits, Gauge(19, 32, false), [0, 0], capacity, 0, 27);
    EndReached(lit, dst, bits, Gauge(27, 48, true), [0, 0, 0], capacity, 34);
  }

  lemma OneLiteral(lit: seq<nat>, dst: seq<nat>, bits: seq<Bit>, g: Gauge, out: seq<Byte>, capacity: nat, v: Byte,
                   next: nat)
    requires ReadSymbol(lit, bits, g.pos) == Got(v, next) && |out| < capacity && Ready(g, |bits|).Have?
    ensures SymbolsAhead(lit, dst, bits, g, out, capacity)
         == SymbolsAhead(lit, dst, bits, Ready(g, |bits|).gauge.(pos := next), out + [v], capacity)
    ensures Symbols(lit, dst, bits, g.pos, out, capacity) == Symbols(lit, dst, bits, next, out + [v], capacity)
  {
    hide ReadSymbol, RunAt, RunAhead;
  }

  lemma EndReached(lit: seq<nat>, dst: seq<nat>, bits: seq<Bit>, g: Gauge, out: seq<Byte>, capacity: nat, next: nat)
    requires ReadSymbol(lit, bits, g.pos) == Got(END_OF_BLOCK, next) && Ready(g, |bits|).Have?
    ensures var h := Ready(g, |bits|).gauge.(pos := next);
      SymbolsAhead(lit, dst, bits, g, out, capacity) == if PaddingUsed(h) then Stop else Have(out, h)
    ensures Symbols(lit, dst, bits, g.pos, out, capacity) == Got(out, next)
  {
    hide ReadSymbol, RunAt, RunAhead;
  }
}
