/** The safetensors file that externalised weights are streamed to. */
module WeightFile {
  import opened BitStream
  import opened Wrappers

  /** Where the data of an initializer lies. */
  datatype DataRef = DataRef(path: string, offset: nat, length: nat)

  datatype Source = Source(name: string, dtype: string, dims: seq<nat>, data: Option<DataRef>)

  /** What the header says of one tensor. */
  datatype Entry = Entry(name: string, dtype: string, shape: seq<nat>, begin: nat, end: nat)

  datatype Outcome =
    | Written
    | MissingData(name: string)
    | MissingFile(path: string)
    | UnexpectedEof(path: string)
    | HeaderTooLong

  type Files = map<string, seq<Byte>>

  const SPACE: Byte := 32
  const CHUNK := 64 * 1024 * 1024

  /** A file being written. */
  class OutFile {
    var bytes: seq<Byte>

    constructor ()
      ensures bytes == []
    {
      bytes := [];
    }

    method Write(chunk: seq<Byte>)
      modifies this
      ensures bytes == old(bytes) + chunk
    {
      bytes := bytes + chunk;
    }
  }

  // ------------------------------------------------------------------------------------------ layout

  /** A dictionary assignment: a key that is there keeps its place. */
  function Put(header: seq<Entry>, e: Entry): seq<Entry> {
    if header == [] then [e]
    else if header[0].name == e.name then [e] + header[1..]
    else [header[0]] + Put(header[1..], e)
  }

  /** The bytes that the first `k` tensors take. */
  function Total(sources: seq<Source>, k: nat): nat
    requires k <= |sources| && AllKnown(sources)
  {
    if k == 0 then 0 else Total(sources, k - 1) + sources[k - 1].data.value.length
  }

  predicate AllKnown(sources: seq<Source>) {
    forall k :: 0 <= k < |sources| ==> sources[k].data.Some?
  }

  predicate DistinctNames(sources: seq<Source>) {
    forall i, j :: 0 <= i < j < |sources| ==> sources[i].name != sources[j].name
  }

  function EntryOf(sources: seq<Source>, k: nat): Entry
    requires k < |sources| && AllKnown(sources)
  {
    var s := sources[k];
    Entry(s.name, s.dtype, s.dims, Total(sources, k), Total(sources, k) + s.data.value.length)
  }

  /** The header after `k` tensors. */
  function HeaderTo(sources: seq<Source>, k: nat): seq<Entry>
    requires k <= |sources| && AllKnown(sources)
  {
    if k == 0 then [] else Put(HeaderTo(sources, k - 1), EntryOf(sources, k - 1))
  }

  /** The bytes a reference points at. */
  function Referenced(files: Files, r: DataRef): seq<Byte> {
    if r.path in files && r.offset + r.length <= |files[r.path]| then files[r.path][r.offset..r.offset + r.length]
    else []
  }

  predicate Complete(files: Files, r: DataRef) {
    r.path in files && (r.length == 0 || r.offset + r.length <= |files[r.path]|)
  }

  /** The data of the first `k` tensors, one after the other. */
  function DataTo(files: Files, sources: seq<Source>, k: nat): seq<Byte>
    requires k <= |sources| && AllKnown(sources)
  {
    if k == 0 then [] else DataTo(files, sources, k - 1) + Referenced(files, sources[k - 1].data.value)
  }

  function Padding(n: nat): nat {
    (8 - n % 8) % 8
  }

  function Spaces(n: nat): (s: seq<Byte>)
    ensures |s| == n && forall i :: 0 <= i < n ==> s[i] == SPACE
  {
    seq<Byte>(n, i => SPACE)
  }

  function Padded(header: seq<Byte>): (s: seq<Byte>)
    ensures |s| % 8 == 0 && |s| < |header| + 8 && header <= s
    ensures forall i :: |header| <= i < |s| ==> s[i] as int == ' ' as int
  {
    header + Spaces(Padding(|header|))
  }

  /** `n` bytes of `v`, the low-order byte first. */
  function LittleEndian(v: nat, n: nat): (s: seq<Byte>)
    ensures |s| == n
    decreases n
  {
    if n == 0 then [] else [(v % 256) as Byte] + LittleEndian(v / 256, n - 1)
  }

  /** The number that bytes with the low-order byte first write. */
  function Value(s: seq<Byte>): nat {
    if s == [] then 0 else s[0] as nat + 256 * Value(s[1..])
  }

  function Power256(n: nat): nat
    decreases n
  {
    if n == 0 then 1 else 256 * Power256(n - 1)
  }

  lemma {:induction false} ValueLittleEndian(v: nat, n: nat)
    requires v < Power256(n)
    ensures Value(LittleEndian(v, n)) == v
    decreases n
  {
    if n > 0 {
      ValueLittleEndian(v / 256, n - 1);
      assert LittleEndian(v, n)[1..] == LittleEndian(v / 256, n - 1);
    }
  }

  // ---------------------------------------------------------------------------------------- copying

  /** A read of at most `n` bytes at `pos`: none at all only at the end of the file. */
  method Read(file: seq<Byte>, pos: nat, n: nat) returns (chunk: seq<Byte>)
    ensures |chunk| <= n && (chunk == [] <==> n == 0 || pos >= |file|)
    ensures pos <= |file| ==> pos + |chunk| <= |file| && chunk == file[pos..pos + |chunk|]
  {
    if pos >= |file| {
      return [];
    }
    chunk := if n <= |file| - pos then file[pos..pos + n] else file[pos..];
  }

  /** The chunk loop: all the bytes of one reference, or a failure when the file ends before they do. */
  method CopyRange(out: OutFile, file: seq<Byte>, r: DataRef) returns (ok: bool)
    modifies out
    ensures ok <==> r.length == 0 || r.offset + r.length <= |file|
    ensures ok ==> out.bytes == old(out.bytes) + if r.length == 0 then [] else file[r.offset..r.offset + r.length]
  {
    var remaining, pos := r.length, r.offset;
    while remaining > 0
      invariant 0 <= remaining <= r.length && pos == r.offset + (r.length - remaining)
      invariant r.length > remaining ==> pos <= |file|
      invariant pos <= |file| ==> out.bytes == old(out.bytes) + file[r.offset..pos]
      invariant pos > |file| ==> remaining == r.length
      invariant remaining == r.length ==> out.bytes == old(out.bytes)
    {
      var chunk := Read(file, pos, if CHUNK < remaining then CHUNK else remaining);
      if chunk == [] {
        return false;
      }
      assert file[r.offset..pos] + chunk == file[r.offset..pos + |chunk|];
      out.Write(chunk);
      pos := pos + |chunk|;
      remaining := remaining - |chunk|;
    }
    ok := true;
  }

  /** `_write_external_weight_file_from_external_data`; `encode` writes a header as JSON text. */
  method WriteWeightFile(sources: seq<Source>, files: Files, encode: seq<Entry> -> seq<Byte>)
    returns (result: Outcome, out: OutFile)
    ensures fresh(out)
    ensures result == Written <==>
      && AllKnown(sources) && |Padded(encode(HeaderTo(sources, |sources|)))| < Power256(8)
      && forall k :: 0 <= k < |sources| ==> Complete(files, sources[k].data.value)
    ensures result == Written ==>
      var header := Padded(encode(HeaderTo(sources, |sources|)));
      out.bytes == LittleEndian(|header|, 8) + header + DataTo(files, sources, |sources|)
  {
    hide Power256, HeaderTo, Total, DataTo, LittleEndian, Complete, Put;
    out := new OutFile();
    var header: seq<Entry> := [];
    LayoutNone(sources[..0]);
    var dataOffset := 0;
    var k := 0;
    while k < |sources|
      invariant 0 <= k <= |sources|
      invariant AllKnown(sources[..k]) && out.bytes == []
      invariant header == HeaderTo(sources[..k], k) && dataOffset == Total(sources[..k], k)
    {
      var s := sources[k];
      if s.data.None? {
        return MissingData(s.name), out;
      }
      header := Put(header, Entry(s.name, s.dtype, s.dims, dataOffset, dataOffset + s.data.value.length));
      LayoutNext(sources, k);
      dataOffset := dataOffset + s.data.value.length;
      k := k + 1;
    }
    assert sources[..|sources|] == sources;
    var text := Padded(encode(header));
    if |text| >= Power256(8) {
      return HeaderTooLong, out;
    }
    out.Write(LittleEndian(|text|, 8));
    out.Write(text);
    assert out.bytes == LittleEndian(|text|, 8) + text;
    result := WriteData(sources, files, out);
  }

  lemma {:induction false} LayoutPrefix(sources: seq<Source>, k: nat, n: nat)
    requires k <= n <= |sources| && AllKnown(sources[..n])
    ensures AllKnown(sources[..k]) && Total(sources[..k], k) == Total(sources[..n], k)
    ensures HeaderTo(sources[..k], k) == HeaderTo(sources[..n], k)
    decreases k
  {
    if k > 0 {
      LayoutPrefix(sources, k - 1, n);
      LayoutPrefix(sources, k - 1, k);
    }
  }

  lemma LayoutNone(sources: seq<Source>)
    requires AllKnown(sources)
    ensures HeaderTo(sources, 0) == [] && Total(sources, 0) == 0
  {
  }

  lemma LayoutNext(sources: seq<Source>, k: nat)
    requires k < |sources| && AllKnown(sources[..k]) && sources[k].data.Some?
    ensures AllKnown(sources[..k + 1])
    ensures Total(sources[..k + 1], k + 1) == Total(sources[..k], k) + sources[k].data.value.length
    ensures HeaderTo(sources[..k + 1], k + 1)
         == Put(HeaderTo(sources[..k], k), Entry(sources[k].name, sources[k].dtype, sources[k].dims,
                Total(sources[..k], k), Total(sources[..k], k) + sources[k].data.value.length))
  {
    LayoutPrefix(sources, k, k + 1);
  }

  lemma RangeIs(files: Files, r: DataRef)
    requires r.path in files
    ensures Complete(files, r) <==> r.length == 0 || r.offset + r.length <= |files[r.path]|
    ensures Complete(files, r) ==>
      Referenced(files, r) == if r.length == 0 then [] else files[r.path][r.offset..r.offset + r.length]
  {
  }

  lemma FileNeeded(files: Files, r: DataRef)
    requires r.path !in files
    ensures !Complete(files, r)
  {
  }

  method WriteData(sources: seq<Source>, files: Files, out: OutFile) returns (result: Outcome)
    requires AllKnown(sources)
    modifies out
    ensures result == Written || result.UnexpectedEof? || result.MissingFile?
    ensures result == Written <==> forall k :: 0 <= k < |sources| ==> Complete(files, sources[k].data.value)
    ensures result == Written ==> out.bytes == old(out.bytes) + DataTo(files, sources, |sources|)
  {
    hide Complete, Referenced;
    var k := 0;
    while k < |sources|
      invariant 0 <= k <= |sources|
      invariant forall j :: 0 <= j < k ==> Complete(files, sources[j].data.value)
      invariant out.bytes == old(out.bytes) + DataTo(files, sources, k)
    {
      var r := sources[k].data.value;
      if r.path !in files {
        FileNeeded(files, r);
        return MissingFile(r.path);
      }
      var ok := CopyRange(out, files[r.path], r);
      RangeIs(files, r);
      if !ok {
        return UnexpectedEof(r.path);
      }
      k := k + 1;
    }
    result := Written;
  }

  // ------------------------------------------------------------------------------------------ reading

  /** With distinct names the header lists the tensors in order. */
  lemma {:induction false} HeaderLists(sources: seq<Source>, k: nat)
    requires k <= |sources| && AllKnown(sources) && DistinctNames(sources)
    ensures |HeaderTo(sources, k)| == k
    ensures forall i :: 0 <= i < k ==> HeaderTo(sources, k)[i] == EntryOf(sources, i)
  {
    if k > 0 {
      HeaderLists(sources, k - 1);
      PutNew(HeaderTo(sources, k - 1), EntryOf(sources, k - 1));
    }
  }

  lemma {:induction false} PutNew(header: seq<Entry>, e: Entry)
    requires forall i :: 0 <= i < |header| ==> header[i].name != e.name
    ensures Put(header, e) == header + [e]
  {
    if header != [] {
      PutNew(header[1..], e);
    }
  }

  /** The ranges of the header tile the data section: the first begins at 0, each next one where the last ended,
      and the last ends with the data. */
  lemma RangesTile(files: Files, sources: seq<Source>)
    requires AllKnown(sources) && DistinctNames(sources)
    requires forall k :: 0 <= k < |sources| ==> Complete(files, sources[k].data.value)
    ensures var header := HeaderTo(sources, |sources|); var data := DataTo(files, sources, |sources|);
      && |header| == |sources|
      && (header == [] ==> data == [])
      && (header != [] ==> header[0].begin == 0 && header[|header| - 1].end == |data|)
      && (forall i :: 0 <= i < |header| ==> header[i].begin <= header[i].end <= |data|)
      && (forall i :: 0 <= i < |header| - 1 ==> header[i].end == header[i + 1].begin)
  {
    hide HeaderTo, DataTo, Complete;
    var n := |sources|;
    if n == 0 {
      LayoutNone(sources);
    }
    HeaderLists(sources, n);
    DataLength(files, sources, n);
    forall i | 0 <= i < n
      ensures EntryOf(sources, i).end <= Total(sources, n)
    {
      TotalGrows(sources, i + 1, n);
    }
  }

  lemma {:induction false} TotalGrows(sources: seq<Source>, i: nat, n: nat)
    requires i <= n <= |sources| && AllKnown(sources)
    ensures Total(sources, i) <= Total(sources, n)
    decreases n
  {
    if i < n {
      TotalGrows(sources, i, n - 1);
    }
  }

  lemma ReferencedLength(files: Files, r: DataRef)
    requires Complete(files, r)
    ensures |Referenced(files, r)| == r.length
  {
  }

  lemma {:induction false} DataLength(files: Files, sources: seq<Source>, k: nat)
    requires k <= |sources| && AllKnown(sources)
    requires forall k :: 0 <= k < |sources| ==> Complete(files, sources[k].data.value)
    ensures |DataTo(files, sources, k)| == Total(sources, k)
  {
    hide Complete, Referenced;
    if k > 0 {
      DataLength(files, sources, k - 1);
      ReferencedLength(files, sources[k - 1].data.value);
    }
  }

  lemma {:induction false} DataGrows(files: Files, sources: seq<Source>, i: nat, n: nat)
    requires i <= n <= |sources| && AllKnown(sources)
    ensures DataTo(files, sources, i) <= DataTo(files, sources, n)
    decreases n
  {
    hide Referenced;
    if i < n {
      DataGrows(files, sources, i, n - 1);
    }
  }

  /** Reading a tensor: its range of the data section, which starts after the length and the header. */
  function ReadRange(bytes: seq<Byte>, e: Entry): seq<Byte> {
    if |bytes| < 8 then []
    else
      var start := 8 + Value(bytes[..8]);
      if e.begin <= e.end && start + e.end <= |bytes| then bytes[start + e.begin..start + e.end] else []
  }

  /** The header text is found by its length, the data section starts at a multiple of 8, and reading back the
      range of any tensor gives the bytes its reference points at. */
  lemma ReadBack(files: Files, sources: seq<Source>, text: seq<Byte>, k: nat)
    requires AllKnown(sources) && DistinctNames(sources) && k < |sources|
    requires forall k :: 0 <= k < |sources| ==> Complete(files, sources[k].data.value)
    requires |Padded(text)| < Power256(8)
    ensures var bytes := LittleEndian(|Padded(text)|, 8) + Padded(text) + DataTo(files, sources, |sources|);
      && Value(bytes[..8]) == |Padded(text)| && (8 + Value(bytes[..8])) % 8 == 0
      && text <= bytes[8..]
      && (HeaderLists(sources, |sources|);
          ReadRange(bytes, HeaderTo(sources, |sources|)[k]) == Referenced(files, sources[k].data.value))
  {
    hide Power256, LittleEndian, Value, Padded, HeaderTo, DataTo;
    var length, header, data := LittleEndian(|Padded(text)|, 8), Padded(text), DataTo(files, sources, |sources|);
    ValueLittleEndian(|header|, 8);
    HeaderLists(sources, |sources|);
    DataSlice(files, sources, k);
    Sections(length, header, data, Total(sources, k), Total(sources, k + 1));
  }

  /** The text of the header, with its padding. */
  function HeaderText(bytes: seq<Byte>): seq<Byte> {
    if |bytes| < 8 || 8 + Value(bytes[..8]) > |bytes| then [] else bytes[8..8 + Value(bytes[..8])]
  }

  lemma HeaderBack(text: seq<Byte>, data: seq<Byte>)
    requires |Padded(text)| < Power256(8)
    ensures HeaderText(LittleEndian(|Padded(text)|, 8) + Padded(text) + data) == Padded(text)
  {
    hide Power256, LittleEndian, Value, Padded;
    var length, header := LittleEndian(|Padded(text)|, 8), Padded(text);
    ValueLittleEndian(|header|, 8);
    Sections(length, header, data, 0, 0);
    var bytes := length + header + data;
    assert bytes[8..] == header + data;
    assert bytes[8..8 + |header|] == bytes[8..][..|header|];
  }

  /** Slices of a length, a header and data put together. */
  lemma Sections(length: seq<Byte>, header: seq<Byte>, data: seq<Byte>, b: nat, e: nat)
    requires |length| == 8 && b <= e <= |data|
    ensures var bytes := length + header + data;
      && bytes[..8] == length && header <= bytes[8..]
      && bytes[8 + |header| + b..8 + |header| + e] == data[b..e]
  {
    var bytes := length + header + data;
    assert bytes[8..] == header + data;
    assert bytes[8 + |header|..] == data;
  }

  lemma DataSlice(files: Files, sources: seq<Source>, k: nat)
    requires AllKnown(sources) && k < |sources|
    requires forall k :: 0 <= k < |sources| ==> Complete(files, sources[k].data.value)
    ensures Total(sources, k) <= Total(sources, k + 1) <= |DataTo(files, sources, |sources|)|
    ensures DataTo(files, sources, |sources|)[Total(sources, k)..Total(sources, k + 1)]
         == Referenced(files, sources[k].data.value)
  {
    hide Referenced;
    DataGrows(files, sources, k + 1, |sources|);
    DataLength(files, sources, k);
    DataLength(files, sources, k + 1);
  }
}
