/** Tensors in and out of the bytes of a weight file. */
module WeightCodec {
  import opened BitStream
  import opened Collecting
  import opened OnnxGraph
  import opened WeightFile
  import opened WeightNames
  import opened Wrappers

  // ------------------------------------------------------------------------------------ element types

  /** `_safetensors_dtype`: the name of an element type, or the empty name. */
  function SafetensorsDtype(d: Dtype): string {
    match d
    case Bool => "BOOL"
    case Uint8 => "U8"
    case Int8 => "I8"
    case Uint16 => "U16"
    case Int16 => "I16"
    case Uint32 => "U32"
    case Int32 => "I32"
    case Uint64 => "U64"
    case Int64 => "I64"
    case Float16 => "F16"
    case Bfloat16 => "BF16"
    case Float => "F32"
    case Double => "F64"
    case OtherType(_) => ""
  }

  /** The element type a reader takes a name for. */
  function FromSafetensors(name: string): Dtype {
    if name == "BOOL" then Bool
    else if name == "U8" then Uint8
    else if name == "I8" then Int8
    else if name == "U16" then Uint16
    else if name == "I16" then Int16
    else if name == "U32" then Uint32
    else if name == "I32" then Int32
    else if name == "U64" then Uint64
    else if name == "I64" then Int64
    else if name == "F16" then Float16
    else if name == "BF16" then Bfloat16
    else if name == "F32" then Float
    else if name == "F64" then Double
    else OtherType(0)
  }

  /** No two element types that have a name share it. */
  lemma DtypeRoundTrip(d: Dtype)
    requires SafetensorsDtype(d) != ""
    ensures FromSafetensors(SafetensorsDtype(d)) == d
  {
    match d {
      case OtherType(_) =>
      case _ =>
    }
  }

  /** The bits of an element, and the letters for how they are read: signed, unsigned, floating, or with the short
      exponent of a bfloat. */
  function ElementBits(d: Dtype): nat {
    match d
    case Bool => 1
    case Uint8 => 8
    case Int8 => 8
    case Uint16 => 16
    case Int16 => 16
    case Float16 => 16
    case Bfloat16 => 16
    case Uint32 => 32
    case Int32 => 32
    case Float => 32
    case Uint64 => 64
    case Int64 => 64
    case Double => 64
    case OtherType(_) => 0
  }

  function ElementLetters(d: Dtype): string {
    if d in {Int8, Int16, Int32, Int64} then "I"
    else if d in {Uint8, Uint16, Uint32, Uint64} then "U"
    else if d in {Float16, Float, Double} then "F"
    else if d == Bfloat16 then "BF"
    else ""
  }

  /** The name of an element type, but for `BOOL`, is these letters and the number of bits. */
  lemma DtypeName(d: Dtype)
    requires d != Bool && !d.OtherType?
    ensures SafetensorsDtype(d) == ElementLetters(d) + Decimal(ElementBits(d))
    ensures SafetensorsDtype(Bool) == "BOOL"
  {
    assert Decimal(8) == "8";
    assert Decimal(16) == "16";
    assert Decimal(32) == "32";
    assert Decimal(64) == "64";
  }

  // ------------------------------------------------------------------------------------------ libraries

  /** What the exporter and the runtime take from libraries: writing a header as JSON text, reading it, and a whole
      weight file written from tensors in memory, which can fail. */
  datatype Codec = Codec(
    encode: seq<Entry> -> seq<Byte>,
    decode: seq<Byte> -> seq<Entry>,
    save: Scope -> Option<seq<Byte>>)
  {
    /** Text reads as what it was written for, also with spaces after it; and a file the library writes loads as
        the tensors it was written for. */
    ghost predicate Sound() {
      && (forall h: seq<Entry> :: decode(Padded(encode(h))) == h)
      && forall m: Scope :: save(m).Some? ==> Load(save(m).value) == m
    }

    /** The tensors of a weight file. */
    function Load(bytes: seq<Byte>): Scope {
      LoadEntries(bytes, decode(HeaderText(bytes)))
    }
  }

  function LoadEntries(bytes: seq<Byte>, header: seq<Entry>): Scope {
    if header == [] then map[]
    else
      var k := |header| - 1;
      var e := header[k];
      LoadEntries(bytes, header[..k])[e.name := Tensor(FromSafetensors(e.dtype), e.shape, ReadRange(bytes, e))]
  }

  // ------------------------------------------------------------------------------------------- streaming

  /** The data of an initializer is where its reference says. */
  ghost predicate Backed(inits: Scope, refs: map<string, DataRef>, data: Files) {
    forall n :: n in refs && n in inits && Complete(data, refs[n]) ==> Referenced(data, refs[n]) == inits[n].data
  }

  /** `_can_stream_external_weight_file`: every tensor has a reference and a type with a name. */
  predicate CanStream(names: seq<string>, inits: Scope, refs: map<string, DataRef>)
    requires forall n :: n in names ==> n in inits
  {
    forall n :: n in names ==> n in refs && SafetensorsDtype(inits[n].dtype) != ""
  }

  function SourcesOf(names: seq<string>, inits: Scope, refs: map<string, DataRef>): (s: seq<Source>)
    requires forall n :: n in names ==> n in inits
    requires CanStream(names, inits, refs)
    ensures |s| == |names| && AllKnown(s)
  {
    seq(|names|, i requires 0 <= i < |names| =>
      Source(names[i], SafetensorsDtype(inits[names[i]].dtype), inits[names[i]].dims, Some(refs[names[i]])))
  }

  /** The tensors of `names`. */
  function Chosen(names: seq<string>, inits: Scope): Scope
    requires forall n :: n in names ==> n in inits
  {
    map n | n in names :: inits[n]
  }

  /** Streaming succeeds. */
  ghost predicate Streams(c: Codec, sources: seq<Source>, data: Files)
    requires AllKnown(sources)
  {
    && |Padded(c.encode(HeaderTo(sources, |sources|)))| < Power256(8)
    && forall k :: 0 <= k < |sources| ==> Complete(data, sources[k].data.value)
  }

  /** The bytes that streaming writes. */
  function Streamed(c: Codec, sources: seq<Source>, data: Files): seq<Byte>
    requires AllKnown(sources)
  {
    var header := Padded(c.encode(HeaderTo(sources, |sources|)));
    LittleEndian(|header|, 8) + header + DataTo(data, sources, |sources|)
  }

  /** Loading what was streamed gives the tensors back. */
  lemma StreamLoads(c: Codec, names: seq<string>, inits: Scope, refs: map<string, DataRef>, data: Files)
    requires c.Sound() && Distinct(names) && Backed(inits, refs, data)
    requires forall n :: n in names ==> n in inits
    requires CanStream(names, inits, refs) && Streams(c, SourcesOf(names, inits, refs), data)
    ensures c.Load(Streamed(c, SourcesOf(names, inits, refs), data)) == Chosen(names, inits)
  {
    var sources := SourcesOf(names, inits, refs);
    var header := HeaderTo(sources, |sources|);
    var bytes := Streamed(c, sources, data);
    HeaderBack(c.encode(header), DataTo(data, sources, |sources|));
    assert c.decode(HeaderText(bytes)) == header;
    SourcesDistinct(names, inits, refs);
    HeaderLists(sources, |sources|);
    EntriesLoad(c, names, inits, refs, data, |names|);
    assert header[..|names|] == header && names[..|names|] == names;
  }

  lemma SourcesDistinct(names: seq<string>, inits: Scope, refs: map<string, DataRef>)
    requires Distinct(names) && forall n :: n in names ==> n in inits
    requires CanStream(names, inits, refs)
    ensures DistinctNames(SourcesOf(names, inits, refs))
  {
  }

  /** The first `k` tensors. */
  lemma {:induction false} EntriesLoad(c: Codec, names: seq<string>, inits: Scope, refs: map<string, DataRef>,
                                       data: Files, k: nat)
    requires Distinct(names) && Backed(inits, refs, data) && k <= |names|
    requires forall n :: n in names ==> n in inits
    requires CanStream(names, inits, refs) && Streams(c, SourcesOf(names, inits, refs), data)
    ensures var sources := SourcesOf(names, inits, refs);
      && |HeaderTo(sources, |sources|)| == |names|
      && LoadEntries(Streamed(c, sources, data), HeaderTo(sources, |sources|)[..k]) == Chosen(names[..k], inits)
  {
    hide Streamed, HeaderTo, ReadRange, FromSafetensors, SafetensorsDtype, DataTo, Total, Padded, Referenced, Complete;
    hide Distinct, Backed, CanStream, Streams;
    var sources := SourcesOf(names, inits, refs);
    SourcesDistinct(names, inits, refs);
    HeaderLists(sources, |sources|);
    if k > 0 {
      EntriesLoad(c, names, inits, refs, data, k - 1);
      EntryLoads(c, names, inits, refs, data, k - 1);
      LoadNext(Streamed(c, sources, data), HeaderTo(sources, |sources|), k);
      ChosenNext(names, inits, k);
    }
  }

  lemma LoadNext(bytes: seq<Byte>, header: seq<Entry>, k: nat)
    requires 0 < k <= |header|
    ensures var e := header[k - 1];
      LoadEntries(bytes, header[..k])
      == LoadEntries(bytes, header[..k - 1])[e.name := Tensor(FromSafetensors(e.dtype), e.shape, ReadRange(bytes, e))]
  {
    hide ReadRange, FromSafetensors;
    assert header[..k][..k - 1] == header[..k - 1];
  }

  lemma ChosenNext(names: seq<string>, inits: Scope, k: nat)
    requires 0 < k <= |names| && forall n :: n in names ==> n in inits
    ensures Chosen(names[..k], inits) == Chosen(names[..k - 1], inits)[names[k - 1] := inits[names[k - 1]]]
  {
    assert names[..k] == names[..k - 1] + [names[k - 1]];
  }

  /** One tensor: its type, its shape and its bytes. */
  lemma EntryLoads(c: Codec, names: seq<string>, inits: Scope, refs: map<string, DataRef>, data: Files, k: nat)
    requires Distinct(names) && Backed(inits, refs, data) && k < |names|
    requires forall n :: n in names ==> n in inits
    requires CanStream(names, inits, refs) && Streams(c, SourcesOf(names, inits, refs), data)
    ensures var sources := SourcesOf(names, inits, refs);
      && |HeaderTo(sources, |sources|)| == |names|
      && var e := HeaderTo(sources, |sources|)[k];
      && e.name == names[k]
      && Tensor(FromSafetensors(e.dtype), e.shape, ReadRange(Streamed(c, sources, data), e)) == inits[names[k]]
  {
    hide ReadRange, FromSafetensors, SafetensorsDtype, Total, HeaderTo, Padded, DataTo;
    var sources := SourcesOf(names, inits, refs);
    SourcesDistinct(names, inits, refs);
    HeaderLists(sources, |sources|);
    ReadBack(data, sources, c.encode(HeaderTo(sources, |sources|)), k);
    DtypeRoundTrip(inits[names[k]].dtype);
  }
}
