/** Well-formed DEFLATE streams as data: what a compressor may write (RFC 1951), the bits it writes, and the
    bytes they denote. */
module DeflateFormat {
  import opened Shifts
  import opened BitStream
  import opened Canonical
  import opened Deflate

  /** A literal byte, or a match: length symbol `257 + z` and distance symbol `d` with their extra bits. */
  datatype Token = Literal(b: Byte) | Match(z: nat, lx: nat, d: nat, dx: nat)

  /** An instruction of the run-length code for code lengths. */
  datatype Instr = Len(n: nat) | Again(x: nat) | Zeros(x: nat) | ManyZeros(x: nat)

  /** A dynamic header: the two counts as stored, the three-bit fields, and the run-length instructions. */
  datatype Header = Header(hlit: nat, hdist: nat, fields: seq<nat>, instrs: seq<Instr>)

  /** The header of a zlib stream without a preset dictionary (section 2.2 of RFC 1950): the window size as stored,
      the compression level, and the five check bits. */
  datatype ZlibHeader = ZlibHeader(cinfo: nat, flevel: nat, fcheck: nat) {
    /** The first byte: compression method 8 in the low four bits, the window size above. */
    function Cmf(): nat {
      8 + 16 * cinfo
    }

    /** The second byte: the check bits, a zero bit for the dictionary, and the level on top. */
    function Flg(): nat {
      fcheck + 64 * flevel
    }

    /** The fields fit, and the check bits make both bytes a multiple of 31. */
    predicate Fits() {
      cinfo < 16 && flevel < 4 && fcheck < 32 && (256 * Cmf() + Flg()) % 31 == 0
    }
  }

  /** `data` starts with such a header, and something follows. */
  ghost predicate HasHeader(data: seq<Byte>) {
    |data| > 2 && exists h: ZlibHeader :: h.Fits() && data[0] == h.Cmf() && data[1] == h.Flg()
  }

  /** The header that two bytes are, if they are one. */
  lemma ZlibHeaderFound(cmf: Byte, flg: Byte) returns (h: ZlibHeader)
    requires (cmf * 256 + flg) % 31 == 0 && flg / 32 % 2 == 0 && cmf % 16 == 8
    ensures h.Fits() && cmf == h.Cmf() && flg == h.Flg()
  {
    h := ZlibHeader(cmf / 16, flg / 64, flg % 32);
    FlagFields(flg);
    assert cmf == 16 * (cmf / 16) + cmf % 16;
    assert cmf * 256 + flg == 256 * h.Cmf() + h.Flg();
  }

  lemma FlagFields(flg: Byte)
    requires flg / 32 % 2 == 0
    ensures flg == flg % 32 + 64 * (flg / 64)
  {
    var q := flg / 32;
    assert flg / 64 == q / 2;
    assert flg == 32 * q + flg % 32;
    assert q == 2 * (q / 2) + q % 2;
  }

  lemma ZlibHeaderBits(h: ZlibHeader)
    requires h.Fits()
    ensures h.Cmf() < 256 && h.Cmf() % 16 == 8
    ensures h.Flg() < 256 && h.Flg() / 32 % 2 == 0 && (h.Cmf() * 256 + h.Flg()) % 31 == 0
  {
    Fields(h.cinfo, 16, 8);
    Fields(2 * h.flevel, 32, h.fcheck);
    Fields(h.flevel, 2, 0);
  }

  /** A field above `m` values of another. */
  lemma Fields(high: nat, m: nat, low: nat)
    requires low < m && (m == 2 || m == 16 || m == 32)
    ensures (low + m * high) % m == low && (low + m * high) / m == high
  {
    if m == 2 {
      assert (low + 2 * high) / 2 == high;
    } else if m == 16 {
      assert (low + 16 * high) / 16 == high;
    } else {
      assert (low + 32 * high) / 32 == high;
    }
  }

  /** The bits of two bytes tell whether they are a header. */
  lemma HeaderByBits(cmf: Byte, flg: Byte)
    ensures (cmf * 256 + flg) % 31 == 0 && flg / 32 % 2 == 0 && cmf % 16 == 8
       <==> exists h: ZlibHeader :: h.Fits() && cmf == h.Cmf() && flg == h.Flg()
  {
    hide ZlibHeader.Fits, ZlibHeader.Cmf, ZlibHeader.Flg;
    if (cmf * 256 + flg) % 31 == 0 && flg / 32 % 2 == 0 && cmf % 16 == 8 {
      var h := ZlibHeaderFound(cmf, flg);
    }
    if h: ZlibHeader :| h.Fits() && cmf == h.Cmf() && flg == h.Flg() {
      ZlibHeaderBits(h);
    }
  }

  datatype Block =
    | StoredBlock(pad: seq<Bit>, bytes: seq<Byte>)
    | FixedBlock(tokens: seq<Token>)
    | DynamicBlock(header: Header, tokens: seq<Token>)

  // ------------------------------------------------------------------------------------------ symbols

  /** `i` is a symbol with a code. */
  predicate Coded(lens: seq<nat>, i: nat) {
    i < |lens| && lens[i] > 0
  }

  function SymbolBits(lens: seq<nat>, i: nat): (w: seq<Bit>)
    requires Coded(lens, i)
    ensures |w| == lens[i]
  {
    CodeBits(CodeOf(lens, i), lens[i])
  }

  lemma SymbolRead(lens: seq<nat>, bits: seq<Bit>, p: nat, i: nat)
    requires Lengths(lens) && Kraft(lens) && Coded(lens, i) && Holds(bits, p, SymbolBits(lens, i))
    ensures ReadSymbol(lens, bits, p) == Got(i, p + lens[i])
  {
    CodeFits(lens, i);
    CodeCodeBits(bits, p, CodeOf(lens, i), lens[i]);
    assert Reads(lens, bits, p, i);
    ReadSymbolCorrect(lens, bits, p);
  }

  lemma FieldRead(bits: seq<Bit>, p: nat, v: nat, n: nat)
    requires v < Pow2(n) && Holds(bits, p, Field(v, n))
    ensures Peek(bits, p, n) == v
  {
    PeekField(bits, p, v, n);
    LowIdentity(v, n);
  }

  /** A sequence of symbols, each by its code. */
  function Message(lens: seq<nat>, syms: seq<nat>): seq<Bit>
    requires forall i :: 0 <= i < |syms| ==> Coded(lens, syms[i])
  {
    if syms == [] then [] else SymbolBits(lens, syms[0]) + Message(lens, syms[1..])
  }

  /** `n` symbols read one after the other. */
  function ReadSymbols(lens: seq<nat>, bits: seq<Bit>, p: nat, n: nat): Step<seq<nat>>
    decreases n, bits
  {
    if n == 0 then Got([], p)
    else
      var s := ReadSymbol(lens, bits, p);
      if s.Fail? then Fail
      else
        var rest := ReadSymbols(lens, bits, s.next, n - 1);
        if rest.Fail? then Fail else Got([s.value] + rest.value, rest.next)
  }

  /** Any sequence of symbols, coded and packed into bytes, reads back as itself. */
  lemma MessageRoundTrip(lens: seq<nat>, syms: seq<nat>, tail: seq<Byte>)
    requires Lengths(lens) && Kraft(lens) && forall i :: 0 <= i < |syms| ==> Coded(lens, syms[i])
    ensures ReadSymbols(lens, Unpack(Pack(Message(lens, syms)) + tail), 0, |syms|) == Got(syms, |Message(lens, syms)|)
  {
    PackUnpack(Message(lens, syms), tail);
    MessageRead(lens, Unpack(Pack(Message(lens, syms)) + tail), 0, syms);
  }

  lemma {:induction false} MessageRead(lens: seq<nat>, bits: seq<Bit>, p: nat, syms: seq<nat>)
    requires Lengths(lens) && Kraft(lens) && forall i :: 0 <= i < |syms| ==> Coded(lens, syms[i])
    requires Holds(bits, p, Message(lens, syms))
    ensures ReadSymbols(lens, bits, p, |syms|) == Got(syms, p + |Message(lens, syms)|)
    decreases syms
  {
    hide Holds, ReadSymbol, SymbolBits, Kraft;
    if syms != [] {
      HoldsSplit(bits, p, SymbolBits(lens, syms[0]), Message(lens, syms[1..]));
      SymbolRead(lens, bits, p, syms[0]);
      MessageRead(lens, bits, p + lens[syms[0]], syms[1..]);
      assert syms == [syms[0]] + syms[1..];
    }
  }

  // ------------------------------------------------------------------------------------------- tokens

  predicate TokenOk(lit: seq<nat>, dst: seq<nat>, t: Token) {
    match t
    case Literal(b) => Coded(lit, b)
    case Match(z, lx, d, dx) =>
      && z < 29 && Coded(lit, 257 + z) && lx < Pow2(LengthExtra(z))
      && d < 30 && Coded(dst, d) && dx < Pow2(DistExtra(d))
  }

  function TokenBits(lit: seq<nat>, dst: seq<nat>, t: Token): seq<Bit>
    requires TokenOk(lit, dst, t)
  {
    match t
    case Literal(b) => SymbolBits(lit, b)
    case Match(z, lx, d, dx) =>
      SymbolBits(lit, 257 + z) + (Field(lx, LengthExtra(z)) + (SymbolBits(dst, d) + Field(dx, DistExtra(d))))
  }

  /** A match does not reach back before the first byte of output. */
  predicate InReach(t: Token, out: seq<Byte>) {
    t.Match? ==> t.z < 29 && t.d < 30 && DistBase(t.d) + t.dx <= |out|
  }

  function Apply(t: Token, out: seq<Byte>): (r: seq<Byte>)
    requires InReach(t, out)
    ensures |r| > |out|
  {
    match t
    case Literal(b) => out + [b]
    case Match(z, lx, d, dx) => Copy(out, DistBase(d) + dx, LengthBase(z) + lx)
  }

  predicate TokensOk(lit: seq<nat>, dst: seq<nat>, ts: seq<Token>, out: seq<Byte>) {
    ts == [] || (TokenOk(lit, dst, ts[0]) && InReach(ts[0], out) && TokensOk(lit, dst, ts[1..], Apply(ts[0], out)))
  }

  /** The tokens of a block, ended by the end-of-block symbol. */
  function TokensBits(lit: seq<nat>, dst: seq<nat>, ts: seq<Token>, out: seq<Byte>): seq<Bit>
    requires Coded(lit, END_OF_BLOCK) && TokensOk(lit, dst, ts, out)
    decreases ts
  {
    if ts == [] then SymbolBits(lit, END_OF_BLOCK)
    else TokenBits(lit, dst, ts[0]) + TokensBits(lit, dst, ts[1..], Apply(ts[0], out))
  }

  function ApplyAll(lit: seq<nat>, dst: seq<nat>, ts: seq<Token>, out: seq<Byte>): (r: seq<Byte>)
    requires TokensOk(lit, dst, ts, out)
    ensures |r| >= |out|
    decreases ts
  {
    if ts == [] then out else ApplyAll(lit, dst, ts[1..], Apply(ts[0], out))
  }

  predicate Usable(lit: seq<nat>, dst: seq<nat>) {
    Lengths(lit) && Kraft(lit) && Lengths(dst) && Kraft(dst)
  }

  /** The length and the distance of a match are read from their four pieces. */
  lemma RunRead(dst: seq<nat>, bits: seq<Bit>, q: nat, z: nat, lx: nat, d: nat, dx: nat)
    requires Lengths(dst) && Kraft(dst) && z < 29 && lx < Pow2(LengthExtra(z))
    requires d < 30 && Coded(dst, d) && dx < Pow2(DistExtra(d))
    requires Holds(bits, q, Field(lx, LengthExtra(z)))
    requires Holds(bits, q + LengthExtra(z), SymbolBits(dst, d))
    requires Holds(bits, q + LengthExtra(z) + dst[d], Field(dx, DistExtra(d)))
    ensures RunAt(z, dst, bits, q)
         == Got(Run(LengthBase(z) + lx, DistBase(d) + dx), q + LengthExtra(z) + dst[d] + DistExtra(d))
  {
    hide Holds, ReadSymbol, LengthBase, DistBase, LengthExtra, DistExtra, Field, SymbolBits, Peek, Lengths, Kraft, Pow2;
    FieldRead(bits, q, lx, LengthExtra(z));
    SymbolRead(dst, bits, q + LengthExtra(z), d);
    FieldRead(bits, q + LengthExtra(z) + dst[d], dx, DistExtra(d));
  }

  lemma MatchRead(lit: seq<nat>, dst: seq<nat>, bits: seq<Bit>, p: nat, z: nat, lx: nat, d: nat, dx: nat)
    requires Usable(lit, dst) && TokenOk(lit, dst, Match(z, lx, d, dx))
    requires Holds(bits, p, TokenBits(lit, dst, Match(z, lx, d, dx)))
    ensures ReadSymbol(lit, bits, p) == Got(257 + z, p + lit[257 + z])
    ensures RunAt(z, dst, bits, p + lit[257 + z])
         == Got(Run(LengthBase(z) + lx, DistBase(d) + dx), p + |TokenBits(lit, dst, Match(z, lx, d, dx))|)
  {
    hide Holds, ReadSymbol, RunAt, LengthBase, DistBase, LengthExtra, DistExtra, Field, SymbolBits;
    hide Lengths, Kraft, Pow2;
    var a, b := SymbolBits(lit, 257 + z), Field(lx, LengthExtra(z));
    var c, e := SymbolBits(dst, d), Field(dx, DistExtra(d));
    HoldsFour(bits, p, a, b, c, e);
    SymbolRead(lit, bits, p, 257 + z);
    RunRead(dst, bits, p + |a|, z, lx, d, dx);
  }

  lemma LiteralTaken(lit: seq<nat>, dst: seq<nat>, bits: seq<Bit>, p: nat, b: Byte, out: seq<Byte>, capacity: nat)
    requires ReadSymbol(lit, bits, p).Got? && ReadSymbol(lit, bits, p).value == b && |out| < capacity
    ensures Symbols(lit, dst, bits, p, out, capacity)
         == Symbols(lit, dst, bits, ReadSymbol(lit, bits, p).next, out + [b], capacity)
  {
    hide ReadSymbol, RunAt, Copy;
  }

  lemma MatchTaken(lit: seq<nat>, dst: seq<nat>, bits: seq<Bit>, p: nat, z: nat, out: seq<Byte>, capacity: nat)
    requires ReadSymbol(lit, bits, p).Got? && ReadSymbol(lit, bits, p).value == 257 + z && z < 29
    requires RunAt(z, dst, bits, ReadSymbol(lit, bits, p).next).Got?
    requires var m := RunAt(z, dst, bits, ReadSymbol(lit, bits, p).next).value;
      m.dist <= |out| && |out| + m.len <= capacity
    ensures var m := RunAt(z, dst, bits, ReadSymbol(lit, bits, p).next);
      Symbols(lit, dst, bits, p, out, capacity)
      == Symbols(lit, dst, bits, m.next, Copy(out, m.value.dist, m.value.len), capacity)
  {
    hide ReadSymbol, RunAt, Copy;
  }

  /** Reading one token takes the decoder one turn further. */
  lemma TokenRead(lit: seq<nat>, dst: seq<nat>, bits: seq<Bit>, p: nat, t: Token, out: seq<Byte>, capacity: nat)
    requires Usable(lit, dst) && TokenOk(lit, dst, t) && InReach(t, out) && |Apply(t, out)| <= capacity
    requires Holds(bits, p, TokenBits(lit, dst, t))
    ensures Symbols(lit, dst, bits, p, out, capacity)
         == Symbols(lit, dst, bits, p + |TokenBits(lit, dst, t)|, Apply(t, out), capacity)
  {
    hide Holds, ReadSymbol, RunAt, Symbols, LengthBase, DistBase, LengthExtra, DistExtra, Copy, SymbolBits;
    hide Lengths, Kraft, Field, Pow2;
    match t
    case Literal(b) =>
      SymbolRead(lit, bits, p, b);
      LiteralTaken(lit, dst, bits, p, b, out, capacity);
    case Match(z, lx, d, dx) =>
      MatchRead(lit, dst, bits, p, z, lx, d, dx);
      MatchTaken(lit, dst, bits, p, z, out, capacity);
  }

  lemma EndRead(lit: seq<nat>, dst: seq<nat>, bits: seq<Bit>, p: nat, out: seq<Byte>, capacity: nat)
    requires Usable(lit, dst) && Coded(lit, END_OF_BLOCK) && Holds(bits, p, SymbolBits(lit, END_OF_BLOCK))
    ensures Symbols(lit, dst, bits, p, out, capacity) == Got(out, p + lit[END_OF_BLOCK])
  {
    hide ReadSymbol, Kraft;
    SymbolRead(lit, bits, p, END_OF_BLOCK);
  }

  lemma {:induction false} ApplyAllGrows(lit: seq<nat>, dst: seq<nat>, ts: seq<Token>, out: seq<Byte>)
    requires TokensOk(lit, dst, ts, out) && ts != []
    ensures |Apply(ts[0], out)| <= |ApplyAll(lit, dst, ts, out)|
  {
  }

  /** Reading back the tokens of a block. */
  lemma {:induction false} TokensRead(lit: seq<nat>, dst: seq<nat>, bits: seq<Bit>, p: nat, ts: seq<Token>,
                                      out: seq<Byte>, capacity: nat)
    requires Usable(lit, dst) && Coded(lit, END_OF_BLOCK) && TokensOk(lit, dst, ts, out)
    requires |ApplyAll(lit, dst, ts, out)| <= capacity
    requires Holds(bits, p, TokensBits(lit, dst, ts, out))
    ensures Symbols(lit, dst, bits, p, out, capacity)
         == Got(ApplyAll(lit, dst, ts, out), p + |TokensBits(lit, dst, ts, out)|)
    decreases ts
  {
    hide Symbols, TokenBits, SymbolBits, Apply, TokenOk, Lengths, Kraft;
    if ts == [] {
      EndRead(lit, dst, bits, p, out, capacity);
    } else {
      var t, rest := ts[0], ts[1..];
      var w := TokenBits(lit, dst, t);
      HoldsSplit(bits, p, w, TokensBits(lit, dst, rest, Apply(t, out)));
      ApplyAllGrows(lit, dst, ts, out);
      TokenRead(lit, dst, bits, p, t, out, capacity);
      TokensRead(lit, dst, bits, p + |w|, rest, Apply(t, out), capacity);
    }
  }

  // ---------------------------------------------------------------------------------- dynamic headers

  /** The symbol of an instruction in the code length alphabet. */
  function InstrSymbol(i: Instr): nat {
    match i
    case Len(n) => n
    case Again(_) => 16
    case Zeros(_) => 17
    case ManyZeros(_) => 18
  }

  function InstrExtra(i: Instr): seq<Bit> {
    match i
    case Len(_) => []
    case Again(x) => Field(x, 2)
    case Zeros(x) => Field(x, 3)
    case ManyZeros(x) => Field(x, 7)
  }

  /** The number, or the extra bits, of an instruction fit. */
  predicate ExtraFits(i: Instr) {
    match i
    case Len(n) => n < 16
    case Again(x) => x < 4
    case Zeros(x) => x < 8
    case ManyZeros(x) => x < 128
  }

  predicate InstrOk(cl: seq<nat>, i: Instr, acc: seq<nat>) {
    Coded(cl, InstrSymbol(i)) && ExtraFits(i) && (i.Again? ==> acc != [])
  }

  /** The code lengths after an instruction. */
  function Perform(i: Instr, acc: seq<nat>): (r: seq<nat>)
    requires i.Again? ==> acc != []
    ensures |r| > |acc|
  {
    match i
    case Len(n) => acc + [n]
    case Again(x) => acc + Repeat(acc[|acc| - 1], 3 + x)
    case Zeros(x) => acc + Repeat(0, 3 + x)
    case ManyZeros(x) => acc + Repeat(0, 11 + x)
  }

  predicate InstrsOk(cl: seq<nat>, ins: seq<Instr>, acc: seq<nat>) {
    ins == [] || (InstrOk(cl, ins[0], acc) && InstrsOk(cl, ins[1..], Perform(ins[0], acc)))
  }

  function PerformAll(cl: seq<nat>, ins: seq<Instr>, acc: seq<nat>): (r: seq<nat>)
    requires InstrsOk(cl, ins, acc)
    ensures |r| >= |acc| && (ins != [] ==> |r| > |acc|)
    decreases ins
  {
    if ins == [] then acc else PerformAll(cl, ins[1..], Perform(ins[0], acc))
  }

  function InstrsBits(cl: seq<nat>, ins: seq<Instr>, acc: seq<nat>): seq<Bit>
    requires InstrsOk(cl, ins, acc)
    decreases ins
  {
    if ins == [] then []
    else InstrBits(cl, ins[0]) + InstrsBits(cl, ins[1..], Perform(ins[0], acc))
  }

  function InstrBits(cl: seq<nat>, i: Instr): seq<Bit>
    requires Coded(cl, InstrSymbol(i))
  {
    SymbolBits(cl, InstrSymbol(i)) + InstrExtra(i)
  }

  lemma InstrRead(cl: seq<nat>, bits: seq<Bit>, p: nat, i: Instr, acc: seq<nat>)
    requires Lengths(cl) && Kraft(cl) && InstrOk(cl, i, acc)
    requires Holds(bits, p, InstrBits(cl, i))
    ensures ReadInstr(cl, bits, p, acc) == Got(Perform(i, acc), p + |InstrBits(cl, i)|)
  {
    hide ReadSymbol, Kraft, Repeat, Field, Peek;
    var q := p + cl[InstrSymbol(i)];
    HoldsSplit(bits, p, SymbolBits(cl, InstrSymbol(i)), InstrExtra(i));
    SymbolRead(cl, bits, p, InstrSymbol(i));
    Pow2Values();
    match i
    case Len(_) =>
    case Again(x) => FieldRead(bits, q, x, 2);
    case Zeros(x) => FieldRead(bits, q, x, 3);
    case ManyZeros(x) => FieldRead(bits, q, x, 7);
  }

  lemma {:induction false} InstrsRead(cl: seq<nat>, bits: seq<Bit>, p: nat, ins: seq<Instr>, acc: seq<nat>, total: nat)
    requires Lengths(cl) && Kraft(cl) && InstrsOk(cl, ins, acc) && |PerformAll(cl, ins, acc)| == total
    requires Holds(bits, p, InstrsBits(cl, ins, acc))
    ensures ReadLengths(cl, bits, p, acc, total) == Got(PerformAll(cl, ins, acc), p + |InstrsBits(cl, ins, acc)|)
    decreases ins
  {
    hide Kraft, InstrBits, Perform, ReadInstr;
    if ins != [] {
      var w := InstrBits(cl, ins[0]);
      var acc' := Perform(ins[0], acc);
      HoldsSplit(bits, p, w, InstrsBits(cl, ins[1..], acc'));
      InstrRead(cl, bits, p, ins[0], acc);
      InstrsRead(cl, bits, p + |w|, ins[1..], acc', total);
    }
  }

  /** The three-bit fields one after the other. */
  function FieldsBits(fields: seq<nat>): (w: seq<Bit>)
    ensures |w| == 3 * |fields|
  {
    if fields == [] then [] else FieldsBits(fields[..|fields| - 1]) + Field(fields[|fields| - 1], 3)
  }

  /** The code lengths of the code length alphabet the fields stand for. */
  function PlaceFields(fields: seq<nat>): (lens: seq<nat>)
    requires |fields| <= 19
    ensures |lens| == 19
  {
    if fields == [] then seq(19, i => 0)
    else PlaceFields(fields[..|fields| - 1])[LengthOrder(|fields| - 1) := fields[|fields| - 1]]
  }

  lemma {:induction false} FieldsRead(bits: seq<Bit>, p: nat, fields: seq<nat>)
    requires |fields| <= 19 && (forall i :: 0 <= i < |fields| ==> fields[i] < 8) && Holds(bits, p, FieldsBits(fields))
    ensures CodeLengthLens(bits, p, |fields|) == PlaceFields(fields)
    decreases fields
  {
    hide Peek, Field, Pow2, Holds;
    if fields != [] {
      var n := |fields| - 1;
      HoldsSplit(bits, p, FieldsBits(fields[..n]), Field(fields[n], 3));
      FieldsRead(bits, p, fields[..n]);
      Pow2Values();
      FieldRead(bits, p + 3 * n, fields[n], 3);
    }
  }

  function HeaderLens(h: Header): seq<nat>
    requires HeaderFieldsOk(h)
  {
    PerformAll(PlaceFields(h.fields), h.instrs, [])
  }

  predicate HeaderFieldsOk(h: Header) {
    && h.hlit < 32 && h.hdist < 32 && 4 <= |h.fields| <= 19
    && (forall i :: 0 <= i < |h.fields| ==> h.fields[i] < 8)
    && Lengths(PlaceFields(h.fields)) && Kraft(PlaceFields(h.fields))
    && InstrsOk(PlaceFields(h.fields), h.instrs, [])
  }

  /** Both tables are complete enough: the list has the announced length and neither code is oversubscribed. */
  predicate DynamicOk(h: Header) {
    && HeaderFieldsOk(h)
    && |HeaderLens(h)| == 258 + h.hlit + h.hdist
    && Usable(HeaderLens(h)[..257 + h.hlit], HeaderLens(h)[257 + h.hlit..])
  }

  function HeaderBits(h: Header): seq<Bit>
    requires HeaderFieldsOk(h)
  {
    Field(h.hlit, 5) + (Field(h.hdist, 5) + (Field(|h.fields| - 4, 4)
      + (FieldsBits(h.fields) + InstrsBits(PlaceFields(h.fields), h.instrs, []))))
  }

  lemma HeaderRead(bits: seq<Bit>, p: nat, h: Header)
    requires DynamicOk(h) && Holds(bits, p, HeaderBits(h))
    ensures ReadTables(bits, p)
         == Got(Tables(HeaderLens(h)[..257 + h.hlit], HeaderLens(h)[257 + h.hlit..]), p + |HeaderBits(h)|)
  {
    hide Kraft, ReadLengths, CodeLengthLens, PlaceFields, InstrsBits, FieldsBits, Field, Peek, PerformAll;
    Pow2Values();
    var cl := PlaceFields(h.fields);
    var f, ins := FieldsBits(h.fields), InstrsBits(cl, h.instrs, []);
    var c := Field(|h.fields| - 4, 4);
    HoldsSplit(bits, p, Field(h.hlit, 5), Field(h.hdist, 5) + (c + (f + ins)));
    HoldsSplit(bits, p + 5, Field(h.hdist, 5), c + (f + ins));
    HoldsSplit(bits, p + 10, c, f + ins);
    HoldsSplit(bits, p + 14, f, ins);
    FieldRead(bits, p, h.hlit, 5);
    FieldRead(bits, p + 5, h.hdist, 5);
    FieldRead(bits, p + 10, |h.fields| - 4, 4);
    FieldsRead(bits, p + 14, h.fields);
    InstrsRead(cl, bits, p + 14 + |f|, h.instrs, [], 258 + h.hlit + h.hdist);
  }

  // ------------------------------------------------------------------------------------------- blocks

  function Kind(b: Block): nat {
    match b
    case StoredBlock(_, _) => 0
    case FixedBlock(_) => 1
    case DynamicBlock(_, _) => 2
  }

  /** The block can be written at bit position `p`, after its three header bits, when `out` is already out. */
  predicate BlockOk(b: Block, p: nat, out: seq<Byte>) {
    match b
    case StoredBlock(pad, bytes) => p + |pad| == Align(p) && |bytes| < 0x10000
    case FixedBlock(ts) => TokensOk(FixedLit(), FixedDist(), ts, out)
    case DynamicBlock(h, ts) =>
      && DynamicOk(h)
      && Coded(HeaderLens(h)[..257 + h.hlit], END_OF_BLOCK)
      && TokensOk(HeaderLens(h)[..257 + h.hlit], HeaderLens(h)[257 + h.hlit..], ts, out)
  }

  function BodyBits(b: Block, p: nat, out: seq<Byte>): seq<Bit>
    requires BlockOk(b, p, out)
  {
    match b
    case StoredBlock(pad, bytes) =>
      pad + (Field(|bytes|, 16) + (Field(0xFFFF - |bytes|, 16) + Unpack(bytes)))
    case FixedBlock(ts) =>
      assert FixedLit()[END_OF_BLOCK] == 7;
      TokensBits(FixedLit(), FixedDist(), ts, out)
    case DynamicBlock(h, ts) =>
      HeaderBits(h) + TokensBits(HeaderLens(h)[..257 + h.hlit], HeaderLens(h)[257 + h.hlit..], ts, out)
  }

  /** The output once the block is decoded. */
  function Output(b: Block, p: nat, out: seq<Byte>): (r: seq<Byte>)
    requires BlockOk(b, p, out)
    ensures |r| >= |out|
  {
    match b
    case StoredBlock(_, bytes) => out + bytes
    case FixedBlock(ts) => ApplyAll(FixedLit(), FixedDist(), ts, out)
    case DynamicBlock(h, ts) => ApplyAll(HeaderLens(h)[..257 + h.hlit], HeaderLens(h)[257 + h.hlit..], ts, out)
  }

  lemma {:induction false} BytesRead(bits: seq<Bit>, p: nat, bytes: seq<Byte>)
    requires Holds(bits, p, Unpack(bytes))
    ensures BytesAt(bits, p, |bytes|) == bytes
    decreases bytes
  {
    if bytes != [] {
      Pow2Values();
      HoldsSplit(bits, p, Field(bytes[0], 8), Unpack(bytes[1..]));
      FieldRead(bits, p, bytes[0], 8);
      BytesRead(bits, p + 8, bytes[1..]);
      assert bytes == [bytes[0]] + bytes[1..];
    }
  }

  /** Section 3.2.4 applied to a stored block whose parts lie where they belong. */
  lemma StoredParts(bits: seq<Bit>, p: nat, bytes: seq<Byte>, out: seq<Byte>, capacity: nat)
    requires |bytes| < 0x10000 && |out| + |bytes| <= capacity
    requires Holds(bits, Align(p), Field(|bytes|, 16))
    requires Holds(bits, Align(p) + 16, Field(0xFFFF - |bytes|, 16))
    requires Holds(bits, Align(p) + 32, Unpack(bytes)) && Align(p) + 32 + 8 * |bytes| <= |bits|
    ensures Stored(bits, p, out, capacity) == Got(out + bytes, Align(p) + 32 + 8 * |bytes|)
  {
    hide Holds, Field, Peek, BytesAt, Unpack, Align, Pow2;
    Pow2Values();
    FieldRead(bits, Align(p), |bytes|, 16);
    FieldRead(bits, Align(p) + 16, 0xFFFF - |bytes|, 16);
    BytesRead(bits, Align(p) + 32, bytes);
  }

  lemma StoredRead(bits: seq<Bit>, p: nat, pad: seq<Bit>, bytes: seq<Byte>, out: seq<Byte>, capacity: nat)
    requires BlockOk(StoredBlock(pad, bytes), p, out) && |out| + |bytes| <= capacity
    requires Holds(bits, p, BodyBits(StoredBlock(pad, bytes), p, out))
    ensures Stored(bits, p, out, capacity)
         == Got(out + bytes, p + |BodyBits(StoredBlock(pad, bytes), p, out)|)
  {
    hide Holds, Field, BytesAt, Unpack, Align, Stored;
    HoldsFour(bits, p, pad, Field(|bytes|, 16), Field(0xFFFF - |bytes|, 16), Unpack(bytes));
    HoldsInside(bits, Align(p) + 32, Unpack(bytes));
    StoredParts(bits, p, bytes, out, capacity);
  }

  lemma BodyRead(bits: seq<Bit>, p: nat, b: Block, out: seq<Byte>, capacity: nat)
    requires BlockOk(b, p, out) && |Output(b, p, out)| <= capacity
    requires Holds(bits, p, BodyBits(b, p, out))
    requires Kraft(FixedLit()) && Kraft(FixedDist())
    ensures Deflate.Block(Kind(b), bits, p, out, capacity) == Got(Output(b, p, out), p + |BodyBits(b, p, out)|)
  {
    hide Stored, Symbols, ReadTables, DynamicOk, HeaderBits, HeaderLens, TokensBits, TokensOk, ApplyAll, Kraft;
    match b
    case StoredBlock(pad, bytes) => StoredRead(bits, p, pad, bytes, out, capacity);
    case FixedBlock(ts) => TokensRead(FixedLit(), FixedDist(), bits, p, ts, out, capacity);
    case DynamicBlock(h, ts) => DynamicRead(bits, p, h, ts, out, capacity);
  }

  lemma DynamicRead(bits: seq<Bit>, p: nat, h: Header, ts: seq<Token>, out: seq<Byte>, capacity: nat)
    requires BlockOk(DynamicBlock(h, ts), p, out) && |Output(DynamicBlock(h, ts), p, out)| <= capacity
    requires Holds(bits, p, BodyBits(DynamicBlock(h, ts), p, out))
    ensures Deflate.Block(2, bits, p, out, capacity)
         == Got(Output(DynamicBlock(h, ts), p, out), p + |BodyBits(DynamicBlock(h, ts), p, out)|)
  {
    hide Symbols, ReadTables, HeaderBits, HeaderLens, TokensBits, TokensOk, ApplyAll, Kraft;
    var lit, dst := HeaderLens(h)[..257 + h.hlit], HeaderLens(h)[257 + h.hlit..];
    HoldsSplit(bits, p, HeaderBits(h), TokensBits(lit, dst, ts, out));
    HeaderRead(bits, p, h);
    TokensRead(lit, dst, bits, p + |HeaderBits(h)|, ts, out, capacity);
  }

  // ------------------------------------------------------------------------------------------ streams

  predicate BlocksOk(bs: seq<Block>, p: nat, out: seq<Byte>)
    decreases bs
  {
    && bs != []
    && BlockOk(bs[0], p + 3, out)
    && (|bs| > 1 ==> BlocksOk(bs[1..], p + 3 + |BodyBits(bs[0], p + 3, out)|, Output(bs[0], p + 3, out)))
  }

  /** A block: the final flag, the type, the body, and what comes after. */
  function Framed(final: nat, kind: nat, body: seq<Bit>, rest: seq<Bit>): (w: seq<Bit>)
    ensures |w| == 3 + |body| + |rest|
  {
    Field(final, 1) + (Field(kind, 2) + (body + rest))
  }

  lemma FramedRead(bits: seq<Bit>, p: nat, final: nat, kind: nat, body: seq<Bit>, rest: seq<Bit>)
    requires final < 2 && kind < 4 && Holds(bits, p, Framed(final, kind, body, rest))
    ensures Peek(bits, p, 1) == final && Peek(bits, p + 1, 2) == kind
    ensures Holds(bits, p + 3, body) && Holds(bits, p + 3 + |body|, rest)
  {
    hide Field, Peek;
    Pow2Values();
    HoldsSplit(bits, p, Field(final, 1), Field(kind, 2) + (body + rest));
    HoldsSplit(bits, p + 1, Field(kind, 2), body + rest);
    HoldsSplit(bits, p + 3, body, rest);
    FieldRead(bits, p, final, 1);
    FieldRead(bits, p + 1, kind, 2);
  }

  /** The bits of a stream of blocks from position `p` on; the last block is marked as final. */
  function BlocksBits(bs: seq<Block>, p: nat, out: seq<Byte>): seq<Bit>
    requires BlocksOk(bs, p, out)
    decreases bs
  {
    hide BlockOk, BodyBits, Output, Framed;
    var body := BodyBits(bs[0], p + 3, out);
    if |bs| == 1 then Framed(1, Kind(bs[0]), body, [])
    else Framed(0, Kind(bs[0]), body, BlocksBits(bs[1..], p + 3 + |body|, Output(bs[0], p + 3, out)))
  }

  /** The bytes a stream of blocks denotes. */
  function Denote(bs: seq<Block>, p: nat, out: seq<Byte>): (r: seq<Byte>)
    requires BlocksOk(bs, p, out)
    ensures |r| >= |Output(bs[0], p + 3, out)|
    decreases bs
  {
    hide BlockOk, BodyBits, Output;
    var out' := Output(bs[0], p + 3, out);
    if |bs| == 1 then out' else Denote(bs[1..], p + 3 + |BodyBits(bs[0], p + 3, out)|, out')
  }

  /** Whatever a compressor may write, the bit-by-bit reading gives back what it denotes. */
  lemma {:induction false} BlocksRead(bits: seq<Bit>, p: nat, bs: seq<Block>, out: seq<Byte>, capacity: nat)
    requires BlocksOk(bs, p, out) && |Denote(bs, p, out)| <= capacity
    requires Holds(bits, p, BlocksBits(bs, p, out))
    requires Kraft(FixedLit()) && Kraft(FixedDist())
    ensures Blocks(bits, p, out, capacity) == Got(Denote(bs, p, out), p + |BlocksBits(bs, p, out)|)
    decreases bs
  {
    hide BlockOk, BodyBits, Output, Deflate.Block, Framed, Peek, Kraft, FixedLit, FixedDist;
    var b, body := bs[0], BodyBits(bs[0], p + 3, out);
    var q, out' := p + 3 + |body|, Output(b, p + 3, out);
    if |bs| == 1 {
      FramedRead(bits, p, 1, Kind(b), body, []);
      BodyRead(bits, p + 3, b, out, capacity);
    } else {
      FramedRead(bits, p, 0, Kind(b), body, BlocksBits(bs[1..], q, out'));
      BodyRead(bits, p + 3, b, out, capacity);
      BlocksRead(bits, q, bs[1..], out', capacity);
    }
  }
}
