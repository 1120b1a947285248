/** Which streams the decoder accepts when they run past the end of the input. It is fed zeros there, and keeps
    bits in a buffer ahead of the position it has reached; how far ahead decides what it refuses. */
module Lookahead {
  import opened Shifts
  import opened BitStream
  import opened Canonical
  import opened Deflate

  /** The bit position reached, the end of the bits that have been put into the buffer, and whether padding has
      been put in to be able to read a last code. */
  datatype Gauge = Gauge(pos: nat, fill: nat, hit: bool)

  datatype Read<T> = Stop | Have(value: T, gauge: Gauge)

  /** A position and a buffer that go together, for an input of `end` bits. */
  predicate GaugeOk(g: Gauge, end: nat) {
    g.pos <= g.fill <= g.pos + 32 && g.fill % 8 == 0 && (g.hit ==> g.fill >= end + 16)
  }

  /** Whole bytes are put in until there are more than 24 bits. */
  function Filled(g: Gauge): Gauge {
    g.(fill := 8 * (g.pos / 8 + 4))
  }

  /** A field of `n` bits is read, from the zeros past the end if need be. */
  function Receive(g: Gauge, n: nat): Gauge {
    (if g.fill < g.pos + n then Filled(g) else g).(pos := g.pos + n)
  }

  /** A code is about to be read: 16 bits must be there. Past the end that is made so once, and then never again. */
  function Ready(g: Gauge, end: nat): Read<()> {
    if g.fill >= g.pos + 16 then Have((), g)
    else if g.fill < end then Have((), Filled(g))
    else if g.hit then Stop
    else Have((), Gauge(g.pos, g.fill + 16, true))
  }

  /** More bits of the padding have been used than a code can be ahead by. */
  predicate PaddingUsed(g: Gauge) {
    g.hit && g.fill < g.pos + 16
  }

  function SymbolAhead(lens: seq<nat>, bits: seq<Bit>, g: Gauge): (r: Read<nat>)
    ensures r.Have? ==> r.gauge.pos >= g.pos
  {
    var ready := Ready(g, |bits|);
    var s := ReadSymbol(lens, bits, g.pos);
    if ready.Stop? || s.Fail? then Stop else Have(s.value, ready.gauge.(pos := s.next))
  }

  function RunAhead(z: nat, dst: seq<nat>, bits: seq<Bit>, g: Gauge): (r: Read<Run>)
    requires z < 29
    ensures r.Have? ==> r.gauge.pos >= g.pos && 3 <= r.value.len && 1 <= r.value.dist
  {
    var d := SymbolAhead(dst, bits, Receive(g, LengthExtra(z)));
    if d.Stop? || d.value >= 30 then Stop
    else
      Have(Run(LengthBase(z) + Peek(bits, g.pos, LengthExtra(z)),
               DistBase(d.value) + Peek(bits, d.gauge.pos, DistExtra(d.value))),
           Receive(d.gauge, DistExtra(d.value)))
  }

  /** The symbols of one compressed block. The end of the block is refused once padding has been used up. */
  function SymbolsAhead(lit: seq<nat>, dst: seq<nat>, bits: seq<Bit>, g: Gauge, out: seq<Byte>,
                        capacity: nat): (r: Read<seq<Byte>>)
    ensures r.Have? ==> r.gauge.pos >= g.pos
    decreases capacity - |out|
  {
    var s := SymbolAhead(lit, bits, g);
    if s.Stop? then Stop
    else if s.value < 256 then
      if |out| + 1 > capacity then Stop
      else SymbolsAhead(lit, dst, bits, s.gauge, out + [s.value], capacity)
    else if s.value == END_OF_BLOCK then
      if PaddingUsed(s.gauge) then Stop else Have(out, s.gauge)
    else if s.value >= 286 then Stop
    else
      var m := RunAhead(s.value - 257, dst, bits, s.gauge);
      if m.Stop? || |out| < m.value.dist || |out| + m.value.len > capacity then Stop
      else SymbolsAhead(lit, dst, bits, m.gauge, Copy(out, m.value.dist, m.value.len), capacity)
  }

  /** After `n` three-bit fields. */
  function FieldsAhead(g: Gauge, n: nat): (r: Gauge)
    ensures r.pos == g.pos + 3 * n
  {
    if n == 0 then g else Receive(FieldsAhead(g, n - 1), 3)
  }

  function InstrAhead(cl: seq<nat>, bits: seq<Bit>, g: Gauge, acc: seq<nat>): (r: Read<seq<nat>>)
    ensures r.Have? ==> r.gauge.pos >= g.pos && |r.value| > |acc|
  {
    var s := SymbolAhead(cl, bits, g);
    if s.Stop? then Stop
    else if s.value < 16 then Have(acc + [s.value], s.gauge)
    else if s.value == 16 then
      if acc == [] then Stop
      else Have(acc + Repeat(acc[|acc| - 1], 3 + Peek(bits, s.gauge.pos, 2)), Receive(s.gauge, 2))
    else if s.value == 17 then Have(acc + Repeat(0, 3 + Peek(bits, s.gauge.pos, 3)), Receive(s.gauge, 3))
    else if s.value == 18 then Have(acc + Repeat(0, 11 + Peek(bits, s.gauge.pos, 7)), Receive(s.gauge, 7))
    else Stop
  }

  function LengthsAhead(cl: seq<nat>, bits: seq<Bit>, g: Gauge, acc: seq<nat>, total: nat): (r: Read<seq<nat>>)
    ensures r.Have? ==> r.gauge.pos >= g.pos && |r.value| == total
    decreases total - |acc|
  {
    if |acc| > total then Stop
    else if |acc| == total then Have(acc, g)
    else
      var s := InstrAhead(cl, bits, g, acc);
      if s.Stop? then Stop else LengthsAhead(cl, bits, s.gauge, s.value, total)
  }

  function ListingAhead(bits: seq<Bit>, g: Gauge): (r: Read<Listing>)
    ensures r.Have? ==> r.gauge.pos >= g.pos && r.value.hlit <= |r.value.lens|
  {
    hide Kraft, CodeLengthLens, Peek, LengthsAhead, FieldsAhead;
    var hlit := Peek(bits, g.pos, 5) + 257;
    var hdist := Peek(bits, g.pos + 5, 5) + 1;
    var hclen := Peek(bits, g.pos + 10, 4) + 4;
    HeaderFields(bits, g.pos);
    var cl := CodeLengthLens(bits, g.pos + 14, hclen);
    if !Kraft(cl) then Stop
    else
      var fields := FieldsAhead(Receive(Receive(Receive(g, 5), 5), 4), hclen);
      var ls := LengthsAhead(cl, bits, fields, [], hlit + hdist);
      if ls.Stop? then Stop else Have(Listing(ls.value, hlit), ls.gauge)
  }

  function TablesAhead(bits: seq<Bit>, g: Gauge): (r: Read<Tables>)
    ensures r.Have? ==> r.gauge.pos >= g.pos
  {
    var l := ListingAhead(bits, g);
    if l.Stop? then Stop
    else
      var lit, dst := l.value.lens[..l.value.hlit], l.value.lens[l.value.hlit..];
      if !Kraft(lit) || !Kraft(dst) then Stop else Have(Tables(lit, dst), l.gauge)
  }

  /** A stored block leaves the buffer empty. */
  function StoredAhead(bits: seq<Bit>, g: Gauge, out: seq<Byte>, capacity: nat): (r: Read<seq<Byte>>)
    ensures r.Have? ==> r.gauge.pos >= g.pos
  {
    var s := Stored(bits, g.pos, out, capacity);
    if s.Fail? then Stop else Have(s.value, Gauge(s.next, s.next, g.hit))
  }

  function BlockAhead(kind: nat, bits: seq<Bit>, g: Gauge, out: seq<Byte>, capacity: nat): (r: Read<seq<Byte>>)
    ensures r.Have? ==> r.gauge.pos >= g.pos
  {
    if kind == 0 then StoredAhead(bits, g, out, capacity)
    else if kind == 1 then SymbolsAhead(FixedLit(), FixedDist(), bits, g, out, capacity)
    else if kind == 2 then
      var t := TablesAhead(bits, g);
      if t.Stop? then Stop else SymbolsAhead(t.value.lit, t.value.dst, bits, t.gauge, out, capacity)
    else Stop
  }

  /** The blocks from where the gauge stands. */
  function BlocksAhead(bits: seq<Bit>, g: Gauge, out: seq<Byte>, capacity: nat): Read<seq<Byte>>
    decreases |bits| - g.pos
  {
    if g.pos >= |bits| then Stop
    else
      var r := BlockAhead(Peek(bits, g.pos + 1, 2), bits, Receive(Receive(g, 1), 2), out, capacity);
      if r.Stop? || Peek(bits, g.pos, 1) == 1 then r
      else BlocksAhead(bits, r.gauge, r.value, capacity)
  }

  // --------------------------------------------------------------------- against the format's own decoder

  /** A decoding that fails, or that only succeeds by reading past the end of the input. */
  predicate Overruns<T>(bits: seq<Bit>, s: Step<T>) {
    s.Got? ==> s.next > |bits|
  }

  /** What is had is what the format says; nothing is had only where the format has nothing either, or reads past
      the end of the input. */
  predicate Agrees<T(==)>(bits: seq<Bit>, r: Read<T>, s: Step<T>) {
    match r
    case Have(v, g) => s == Got(v, g.pos) && GaugeOk(g, |bits|)
    case Stop => Overruns(bits, s)
  }

  lemma FilledOk(g: Gauge, end: nat)
    requires GaugeOk(g, end)
    ensures g.fill <= g.pos + 24 ==> GaugeOk(Filled(g), end) && Filled(g).fill > g.pos + 24 && Filled(g).fill >= g.fill
  {
  }

  lemma ReceiveOk(g: Gauge, n: nat, end: nat)
    requires GaugeOk(g, end) && n <= 24
    ensures GaugeOk(Receive(g, n), end) && Receive(g, n).pos == g.pos + n
  {
    FilledOk(g, end);
  }

  lemma ReadyOk(g: Gauge, end: nat)
    requires GaugeOk(g, end) && end % 8 == 0
    ensures Ready(g, end).Stop? ==> g.pos > end
    ensures Ready(g, end).Have? ==>
      var h := Ready(g, end).gauge;
      GaugeOk(h, end) && h.pos == g.pos && h.fill >= g.pos + 16
  {
    FilledOk(g, end);
  }

  lemma SymbolAgrees(lens: seq<nat>, bits: seq<Bit>, g: Gauge)
    requires Lengths(lens) && Kraft(lens) && GaugeOk(g, |bits|) && |bits| % 8 == 0
    ensures Agrees(bits, SymbolAhead(lens, bits, g), ReadSymbol(lens, bits, g.pos))
    ensures ReadSymbol(lens, bits, g.pos).Got? ==> ReadSymbol(lens, bits, g.pos).next <= g.pos + MAX_BITS
  {
    hide Kraft, ReadSymbol, Ready;
    ReadyOk(g, |bits|);
    ReadSymbolCorrect(lens, bits, g.pos);
  }

  lemma RunAgrees(z: nat, dst: seq<nat>, bits: seq<Bit>, g: Gauge)
    requires z < 29 && Lengths(dst) && Kraft(dst) && GaugeOk(g, |bits|) && |bits| % 8 == 0
    ensures Agrees(bits, RunAhead(z, dst, bits, g), RunAt(z, dst, bits, g.pos))
  {
    hide Kraft, Lengths, ReadSymbol, SymbolAhead, LengthBase, DistBase, LengthExtra, DistExtra, Peek, Receive;
    var a := Receive(g, LengthExtra(z));
    ReceiveOk(g, LengthExtra(z), |bits|);
    SymbolAgrees(dst, bits, a);
    var d := SymbolAhead(dst, bits, a);
    if d.Have? && d.value < 30 {
      ReceiveOk(d.gauge, DistExtra(d.value), |bits|);
    }
  }

  lemma {:induction false} SymbolsAgree(lit: seq<nat>, dst: seq<nat>, bits: seq<Bit>, g: Gauge, out: seq<Byte>,
                                        capacity: nat)
    requires Lengths(lit) && Kraft(lit) && Lengths(dst) && Kraft(dst) && GaugeOk(g, |bits|) && |bits| % 8 == 0
    ensures Agrees(bits, SymbolsAhead(lit, dst, bits, g, out, capacity), Symbols(lit, dst, bits, g.pos, out, capacity))
    decreases capacity - |out|
  {
    hide Kraft, Lengths, ReadSymbol, SymbolAhead, RunAhead, RunAt, Copy;
    SymbolAgrees(lit, bits, g);
    var s := SymbolAhead(lit, bits, g);
    if s.Have? && s.value < 256 && |out| < capacity {
      SymbolsAgree(lit, dst, bits, s.gauge, out + [s.value], capacity);
    } else if s.Have? && 257 <= s.value < 286 {
      RunAgrees(s.value - 257, dst, bits, s.gauge);
      var m := RunAhead(s.value - 257, dst, bits, s.gauge);
      if m.Have? && m.value.dist <= |out| && |out| + m.value.len <= capacity {
        SymbolsAgree(lit, dst, bits, m.gauge, Copy(out, m.value.dist, m.value.len), capacity);
      }
    }
  }

  lemma {:induction false} FieldsOk(g: Gauge, n: nat, end: nat)
    requires GaugeOk(g, end)
    ensures GaugeOk(FieldsAhead(g, n), end)
  {
    hide GaugeOk, Receive;
    if n > 0 {
      FieldsOk(g, n - 1, end);
      ReceiveOk(FieldsAhead(g, n - 1), 3, end);
    }
  }

  lemma InstrAgrees(cl: seq<nat>, bits: seq<Bit>, g: Gauge, acc: seq<nat>)
    requires Lengths(cl) && Kraft(cl) && GaugeOk(g, |bits|) && |bits| % 8 == 0
    ensures Agrees(bits, InstrAhead(cl, bits, g, acc), ReadInstr(cl, bits, g.pos, acc))
  {
    hide Kraft, Lengths, ReadSymbol, SymbolAhead, Peek, Repeat, Receive, GaugeOk;
    SymbolAgrees(cl, bits, g);
    var s := SymbolAhead(cl, bits, g);
    if s.Have? {
      ReceiveOk(s.gauge, 2, |bits|);
      ReceiveOk(s.gauge, 3, |bits|);
      ReceiveOk(s.gauge, 7, |bits|);
    }
  }

  lemma {:induction false} LengthsAgree(cl: seq<nat>, bits: seq<Bit>, g: Gauge, acc: seq<nat>, total: nat)
    requires Lengths(cl) && Kraft(cl) && GaugeOk(g, |bits|) && |bits| % 8 == 0
    ensures Agrees(bits, LengthsAhead(cl, bits, g, acc, total), ReadLengths(cl, bits, g.pos, acc, total))
    decreases total - |acc|
  {
    hide Kraft, Lengths, InstrAhead, ReadInstr, GaugeOk;
    if |acc| < total {
      InstrAgrees(cl, bits, g, acc);
      var s := InstrAhead(cl, bits, g, acc);
      if s.Have? {
        LengthsAgree(cl, bits, s.gauge, s.value, total);
      }
    }
  }

  lemma ListingAgrees(bits: seq<Bit>, g: Gauge)
    requires GaugeOk(g, |bits|) && |bits| % 8 == 0
    ensures Agrees(bits, ListingAhead(bits, g), ReadListing(bits, g.pos))
  {
    hide Kraft, CodeLengthLens, Peek, Pow2, ReadLengths, LengthsAhead, FieldsAhead, Receive, GaugeOk;
    var n := Peek(bits, g.pos + 10, 4) + 4;
    HeaderFields(bits, g.pos);
    ReceiveOk(g, 5, |bits|);
    ReceiveOk(Receive(g, 5), 5, |bits|);
    ReceiveOk(Receive(Receive(g, 5), 5), 4, |bits|);
    var start := Receive(Receive(Receive(g, 5), 5), 4);
    FieldsOk(start, n, |bits|);
    var cl := CodeLengthLens(bits, g.pos + 14, n);
    if Kraft(cl) {
      LengthsAgree(cl, bits, FieldsAhead(start, n), [], Peek(bits, g.pos, 5) + 257 + (Peek(bits, g.pos + 5, 5) + 1));
    }
  }

  lemma TablesAgree(bits: seq<Bit>, g: Gauge)
    requires GaugeOk(g, |bits|) && |bits| % 8 == 0
    ensures Agrees(bits, TablesAhead(bits, g), ReadTables(bits, g.pos))
  {
    hide ListingAhead, ReadListing, Kraft, GaugeOk;
    ListingAgrees(bits, g);
  }

  lemma StoredAgrees(bits: seq<Bit>, g: Gauge, out: seq<Byte>, capacity: nat)
    requires GaugeOk(g, |bits|) && |bits| % 8 == 0
    ensures Agrees(bits, StoredAhead(bits, g, out, capacity), Stored(bits, g.pos, out, capacity))
  {
  }

  lemma BlockAgrees(kind: nat, bits: seq<Bit>, g: Gauge, out: seq<Byte>, capacity: nat)
    requires GaugeOk(g, |bits|) && |bits| % 8 == 0 && Kraft(FixedLit()) && Kraft(FixedDist())
    ensures Agrees(bits, BlockAhead(kind, bits, g, out, capacity), Block(kind, bits, g.pos, out, capacity))
  {
    hide StoredAhead, Stored, SymbolsAhead, Symbols, TablesAhead, ReadTables, Kraft, GaugeOk, FixedLit, FixedDist;
    if kind == 0 {
      StoredAgrees(bits, g, out, capacity);
    } else if kind == 1 {
      SymbolsAgree(FixedLit(), FixedDist(), bits, g, out, capacity);
    } else if kind == 2 {
      TablesAgree(bits, g);
      var t := TablesAhead(bits, g);
      if t.Have? {
        SymbolsAgree(t.value.lit, t.value.dst, bits, t.gauge, out, capacity);
      }
    }
  }

  /** The decoder with its buffer and the decoder of the format: what the first accepts the second accepts, with
      the same output; and what the second accepts inside the input the first accepts. */
  lemma {:induction false} BlocksAgree(bits: seq<Bit>, g: Gauge, out: seq<Byte>, capacity: nat)
    requires GaugeOk(g, |bits|) && |bits| % 8 == 0 && Kraft(FixedLit()) && Kraft(FixedDist())
    ensures Agrees(bits, BlocksAhead(bits, g, out, capacity), Blocks(bits, g.pos, out, capacity))
    decreases |bits| - g.pos
  {
    hide BlockAhead, Block, Kraft, GaugeOk, FixedLit, FixedDist, Receive, Peek;
    if g.pos < |bits| {
      ReceiveOk(g, 1, |bits|);
      ReceiveOk(Receive(g, 1), 2, |bits|);
      var kind, h := Peek(bits, g.pos + 1, 2), Receive(Receive(g, 1), 2);
      BlockAgrees(kind, bits, h, out, capacity);
      var r := BlockAhead(kind, bits, h, out, capacity);
      if r.Have? && Peek(bits, g.pos, 1) != 1 {
        BlocksAgree(bits, r.gauge, r.value, capacity);
      }
    }
  }
}
