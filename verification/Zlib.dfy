/** The decoder's entry points, against the format: sections 2.2 of RFC 1950 and 3.2 of RFC 1951. */
module Zlib {
  import opened Shifts
  import opened BitStream
  import opened Canonical
  import opened Deflate
  import opened DeflateFormat
  import opened DeflateInverse
  import opened ZeroExtension
  import opened HuffmanTable
  import opened Inflate
  import opened Lookahead
  import opened PastEnd
  import opened Wrappers

  /** `data` starts with a valid header, if one is expected, followed by the stream `bs` and perhaps more. */
  ghost predicate Holding(data: seq<Byte>, parse_header: bool, bs: seq<DeflateFormat.Block>) {
    (parse_header ==> HasHeader(data)) && Written(data, Start(parse_header), bs)
  }

  /** The bytes `bs` denotes after an optional header. */
  ghost function Meaning(parse_header: bool, bs: seq<DeflateFormat.Block>): seq<Byte>
    requires BlocksOk(bs, Start(parse_header), [])
  {
    Denote(bs, Start(parse_header), [])
  }

  /** A stream inside the input is read as what it denotes, without reading past the end. */
  lemma StreamRead(data: seq<Byte>, parse_header: bool, bs: seq<DeflateFormat.Block>, capacity: nat)
    requires Holding(data, parse_header, bs) && |Meaning(parse_header, bs)| <= capacity
    ensures var r := Blocks(Unpack(data), Start(parse_header), [], capacity);
      r.Got? && r.value == Meaning(parse_header, bs) && r.next <= |Unpack(data)|
  {
    hide BlocksOk, Denote, BlocksBits, Blocks, Kraft, Unpack;
    FixedAccepted();
    BlocksRead(Unpack(data), Start(parse_header), bs, [], capacity);
  }

  /** The zero bytes that make up for `past` bits past the end. */
  function BytesFor(past: nat): nat {
    (past + 7) / 8
  }

  /** What reads as a stream, with zeros past the end of the input, is one once zero bytes are appended: as many as
      it takes to reach its end, which is at most 571, and none if it ends inside the input. */
  lemma StreamFound(data: seq<Byte>, parse_header: bool, capacity: nat) returns (n: nat, bs: seq<DeflateFormat.Block>)
    requires parse_header ==> HasHeader(data)
    requires Blocks(Unpack(data), Start(parse_header), [], capacity).Got?
    ensures Holding(data + ZeroBytes(n), parse_header, bs)
    ensures Blocks(Unpack(data), Start(parse_header), [], capacity).value == Meaning(parse_header, bs)
    ensures var next := Blocks(Unpack(data), Start(parse_header), [], capacity).next;
      n <= 571 && n == if next <= |Unpack(data)| then 0 else BytesFor(next - |Unpack(data)|)
  {
    hide BlocksOk, Denote, BlocksBits, Blocks, Kraft, Unpack;
    FixedAccepted();
    var r := Blocks(Unpack(data), Start(parse_header), [], capacity);
    BlocksEnd(Unpack(data), Start(parse_header), [], capacity);
    n := if r.next <= |Unpack(data)| then 0 else BytesFor(r.next - |Unpack(data)|);
    var longer := data + ZeroBytes(n);
    assert forall i: nat :: i < |data| ==> ByteAt(longer, i) == ByteAt(data, i);
    ZerosExtend(data, n);
    BlocksExtends(Unpack(data), Unpack(longer), Start(parse_header), [], capacity);
    bs := BlocksFound(Unpack(longer), Start(parse_header), [], capacity);
  }

  /** What the decoder makes of `data`: nothing if the header is wrong, else what the blocks are read as with the
      bits it has at hand. */
  ghost function Outcome(data: seq<Byte>, parse_header: bool, capacity: nat): Option<seq<Byte>> {
    if parse_header && !HasHeader(data) then None
    else
      var r := BlocksAhead(Unpack(data), AtStart(parse_header), [], capacity);
      if r.Stop? then None else Some(r.value)
  }

  /** Every well-formed stream in the input is accepted, if what it denotes fits, for exactly that. */
  lemma OutcomeRead(data: seq<Byte>, parse_header: bool, bs: seq<DeflateFormat.Block>, capacity: nat)
    requires Holding(data, parse_header, bs) && |Meaning(parse_header, bs)| <= capacity
    ensures Outcome(data, parse_header, capacity) == Some(Meaning(parse_header, bs))
  {
    hide BlocksOk, Denote, BlocksBits, Blocks, BlocksAhead, Kraft, Unpack, HasHeader;
    FixedAccepted();
    StreamRead(data, parse_header, bs, capacity);
    BlocksAgree(Unpack(data), AtStart(parse_header), [], capacity);
  }

  /** Whatever is accepted is what a well-formed stream denotes: the input, with up to 14 zero bytes after it. */
  lemma OutcomeFound(data: seq<Byte>, parse_header: bool, capacity: nat) returns (n: nat, bs: seq<DeflateFormat.Block>)
    requires Outcome(data, parse_header, capacity).Some?
    ensures n <= 14 && Holding(data + ZeroBytes(n), parse_header, bs)
    ensures Outcome(data, parse_header, capacity) == Some(Meaning(parse_header, bs))
  {
    hide BlocksOk, Denote, BlocksBits, Blocks, BlocksAhead, Kraft, Unpack, HasHeader;
    FixedAccepted();
    BlocksAgree(Unpack(data), AtStart(parse_header), [], capacity);
    AcceptedEnds(Unpack(data), AtStart(parse_header), [], capacity);
    n, bs := StreamFound(data, parse_header, capacity);
  }

  /** A stream that ends further past the input than that is refused, whatever it denotes. */
  lemma FarOverrunRefused(data: seq<Byte>, parse_header: bool, capacity: nat)
    requires var r := Blocks(Unpack(data), Start(parse_header), [], capacity);
      r.Got? ==> r.next > |Unpack(data)| + MOST_ACCEPTED
    ensures Outcome(data, parse_header, capacity) == None
  {
    hide Blocks, BlocksAhead, Kraft, Unpack, HasHeader;
    FixedAccepted();
    BlocksAgree(Unpack(data), AtStart(parse_header), [], capacity);
    if Outcome(data, parse_header, capacity).Some? {
      AcceptedEnds(Unpack(data), AtStart(parse_header), [], capacity);
    }
  }

  /** Two inputs that each end two bits before their stream does: the first is accepted, the second is not. */
  lemma OverrunDecides(capacity: nat)
    requires capacity >= 3
    ensures Outcome([3], false, capacity) == Some([])
    ensures Outcome([99, 96, 96, 0], false, capacity) == None
  {
    hide BlocksAhead, Kraft, Unpack;
    FixedAccepted();
    OverrunAccepted(capacity);
    OverrunRefused(capacity);
  }

  /** `stbi_zlib_decode_malloc_guesssize_headerflag`, whose buffer starts at `initial_size` bytes and grows. */
  method DecodeMallocGuesssize(buffer: seq<Byte>, initial_size: nat, parse_header: bool) returns (r: Option<seq<Byte>>)
    requires 0 < initial_size <= UINT_MAX
    ensures r == Outcome(buffer, parse_header, Capacity(initial_size, true))
    ensures forall bs :: Holding(buffer, parse_header, bs) ==>
      |Meaning(parse_header, bs)| <= Capacity(initial_size, true) ==>
        r == Some(Meaning(parse_header, bs))
    ensures r.Some? ==> exists n: nat, bs ::
      n <= 14 && Holding(buffer + ZeroBytes(n), parse_header, bs) && Meaning(parse_header, bs) == r.value
  {
    var p := new Byte[initial_size];
    r := DoZlib(buffer, p, true, parse_header);
  }

  /** `stbi_zlib_decode_buffer`: a fixed output buffer. */
  method DecodeBuffer(obuffer: array<Byte>, ibuffer: seq<Byte>) returns (r: Option<seq<Byte>>)
    requires obuffer.Length <= UINT_MAX
    modifies obuffer
    ensures r == Outcome(ibuffer, true, obuffer.Length)
    ensures forall bs :: Holding(ibuffer, true, bs) && |Meaning(true, bs)| <= obuffer.Length ==>
      r == Some(Meaning(true, bs))
    ensures r.Some? ==> exists n: nat, bs ::
      n <= 14 && Holding(ibuffer + ZeroBytes(n), true, bs) && Meaning(true, bs) == r.value
  {
    r := DoZlib(ibuffer, obuffer, false, true);
  }

  /** `stbi__do_zlib` */
  method DoZlib(data: seq<Byte>, obuf: array<Byte>, expandable: bool, parse_header: bool) returns (r: Option<seq<Byte>>)
    requires obuf.Length <= UINT_MAX && (expandable ==> obuf.Length > 0)
    modifies obuf
    ensures r == Outcome(data, parse_header, Capacity(obuf.Length, expandable))
    ensures forall bs :: Holding(data, parse_header, bs) ==>
      |Meaning(parse_header, bs)| <= Capacity(obuf.Length, expandable) ==>
        r == Some(Meaning(parse_header, bs))
    ensures r.Some? ==> exists n: nat, bs ::
      n <= 14 && Holding(data + ZeroBytes(n), parse_header, bs) && Meaning(parse_header, bs) == r.value
  {
    hide BlocksOk, Denote, BlocksBits, Blocks, BlocksAhead, Unpack, HasHeader, Capacity, AtStart;
    var a := new ZBuf(data, obuf, expandable);
    ghost var cap := a.capacity;
    var ok := a.ParseZlib(parse_header);
    r := if ok then Some(a.out[..a.zout]) else None;
    forall bs | Holding(data, parse_header, bs) && |Meaning(parse_header, bs)| <= cap
      ensures r == Some(Meaning(parse_header, bs))
    {
      OutcomeRead(data, parse_header, bs, cap);
    }
    if ok {
      ghost var n, bs := OutcomeFound(data, parse_header, cap);
    }
  }

  // ------------------------------------------------------------------------------ a run of symbols

  lemma {:induction false} ReadSymbolsGrow(lens: seq<nat>, bits: seq<Bit>, p: nat, n: nat)
    ensures ReadSymbols(lens, bits, p, n).Got? ==> ReadSymbols(lens, bits, p, n).next >= p
    decreases n
  {
    hide ReadSymbol;
    if n > 0 && ReadSymbol(lens, bits, p).Got? {
      ReadSymbolsGrow(lens, bits, ReadSymbol(lens, bits, p).next, n - 1);
    }
  }

  /** `stbi__zhuffman_decode` called `n` times, across all refills of the bit buffer: the symbols that bit-by-bit
      canonical decoding reads, whenever those lie inside the input. */
  method DecodeSymbols(a: ZBuf, z: ZHuffman, n: nat, ghost lens: seq<nat>) returns (ok: bool, syms: seq<nat>)
    requires a.BufferOk() && z.Table(lens)
    modifies a
    ensures a.BufferOk()
    ensures ok ==> ReadSymbols(lens, a.Bits(), old(a.pos), n) == Got(syms, a.pos)
    ensures !ok ==> Overruns(a.Bits(), ReadSymbols(lens, a.Bits(), old(a.pos), n))
  {
    hide ReadSymbol, SymbolAhead, Unpack, Peek;
    syms := [];
    var i := 0;
    ghost var all := ReadSymbols(lens, a.Bits(), a.pos, n);
    assert all.Got? ==> [] + all.value == all.value;
    while i < n
      invariant 0 <= i <= n && a.BufferOk() && z.Table(lens)
      invariant var rest := ReadSymbols(lens, a.Bits(), a.pos, n - i);
        all == if rest.Fail? then Fail else Got(syms + rest.value, rest.next)
    {
      ghost var q := a.pos;
      a.GaugeFits();
      SymbolAgrees(lens, a.Bits(), a.Now());
      var sym := a.Decode(z, lens);
      if sym < 0 {
        if ReadSymbol(lens, a.Bits(), q).Got? {
          ReadSymbolsGrow(lens, a.Bits(), ReadSymbol(lens, a.Bits(), q).next, n - i - 1);
        }
        return false, [];
      }
      ghost var rest := ReadSymbols(lens, a.Bits(), a.pos, n - i - 1);
      assert rest.Got? ==> syms + ([sym as nat] + rest.value) == syms + [sym as nat] + rest.value;
      syms := syms + [sym];
      i := i + 1;
    }
    assert syms + [] == syms;
    ok := true;
  }

  /** Any sequence of symbols comes back from the bytes its codes are packed into. */
  method DecodeMessage(a: ZBuf, z: ZHuffman, ghost lens: seq<nat>, ghost sent: seq<nat>, n: nat, ghost tail: seq<Byte>)
    returns (ok: bool, syms: seq<nat>)
    requires a.BufferOk() && a.pos == 0 && z.Table(lens)
    requires n == |sent| && forall i :: 0 <= i < n ==> Coded(lens, sent[i])
    requires a.data == Pack(Message(lens, sent)) + tail
    modifies a
    ensures ok && syms == sent
  {
    hide ReadSymbols, Pack, Unpack, Message;
    MessageRoundTrip(lens, sent, tail);
    PackedFits(Message(lens, sent), tail);
    ok, syms := DecodeSymbols(a, z, n, lens);
  }

  lemma PackedFits(w: seq<Bit>, tail: seq<Byte>)
    ensures |w| <= |Unpack(Pack(w) + tail)|
  {
    PackUnpack(w, tail);
  }
}
