/** GIF's variable-width LZW code (Appendix F of the GIF89a specification) over dictionaries of strings. */
module Lzw {
  import opened Shifts
  import opened BitStream

  const TABLE_SIZE: nat := 8192

  /** The decoder between two codes: the strings of all codes so far, the code before, or -1 after a clear code,
      the width of the next code, and whether a clear code has been seen. Codes `clear` and `clear + 1` have no
      string. */
  datatype State = State(dict: seq<seq<Byte>>, prev: int, width: nat, started: bool)

  datatype Outcome = Next(state: State, emitted: seq<Byte>) | End | Error

  /** The symbols drawn, and whether the data was accepted. */
  datatype Result = Result(syms: seq<Byte>, ok: bool)

  /** The strings before any code: one symbol each, a byte. */
  function Roots(clear: nat): (dict: seq<seq<Byte>>)
    ensures |dict| == clear + 2
  {
    seq(clear + 2, i requires 0 <= i < clear + 2 => if i < clear then [i % 256] else [])
  }

  function Fresh(clear: nat, cs: nat, started: bool): State {
    State(Roots(clear), -1, cs + 1, started)
  }

  /** `i` is a code with a string. */
  predicate HasString(clear: nat, n: nat, i: int) {
    0 <= i < n && i != clear && i != clear + 1
  }

  ghost predicate Ok(clear: nat, s: State) {
    && clear + 2 <= |s.dict| <= TABLE_SIZE
    && s.dict[..clear + 2] == Roots(clear)
    && (forall i :: 0 <= i < |s.dict| && HasString(clear, |s.dict|, i) ==> s.dict[i] != [])
    && (s.prev == -1 || HasString(clear, |s.dict|, s.prev))
    && 1 <= s.width <= 13
  }

  /** The new string: the string before plus the first symbol of the string now, which may be the new string
      itself, whose first symbol is that of the string before. */
  ghost function Extend(clear: nat, s: State, code: nat): (dict: seq<seq<Byte>>)
    requires Ok(clear, s) && s.prev >= 0 && code <= |s.dict| && code != clear && code != clear + 1
    ensures |dict| == |s.dict| + 1 && dict[..|s.dict|] == s.dict
    ensures dict[|s.dict|] != [] && dict[code] != []
    ensures dict[|s.dict|] == s.dict[s.prev] + [dict[code][0]]
  {
    var before := s.dict[s.prev];
    s.dict + [before + [if code < |s.dict| then s.dict[code][0] else before[0]]]
  }

  /** Codes grow by a bit when the dictionary fills the codes of the current width, up to twelve bits. */
  function Widen(width: nat, n: nat): nat {
    if Low(n, width) == 0 && n <= 0x0FFF then width + 1 else width
  }

  ghost function OnCode(clear: nat, cs: nat, s: State, code: nat): Outcome
    requires Ok(clear, s)
  {
    if code == clear then Next(Fresh(clear, cs, true), [])
    else if code == clear + 1 then End
    else if code > |s.dict| || !s.started then Error
    else if s.prev >= 0 then
      if |s.dict| == TABLE_SIZE then Error
      else
        var dict := Extend(clear, s, code);
        Next(State(dict, code, Widen(s.width, |dict|), true), dict[code])
    else if code == |s.dict| then Error
    else Next(State(s.dict, code, Widen(s.width, |s.dict|), true), s.dict[code])
  }

  lemma WidthBound(width: nat, n: nat)
    requires n > 0 && width <= 13
    ensures Widen(width, n) <= 13
  {
    if width == 13 && n <= 0x0FFF {
      Pow2Values();
      LowIdentity(n, 13);
    }
  }

  /** Every state that codes lead to is one the decoder can be in. */
  lemma OnCodeOk(clear: nat, cs: nat, s: State, code: nat)
    requires Ok(clear, s) && cs <= 12 && clear + 2 <= TABLE_SIZE && clear > 0
    ensures OnCode(clear, cs, s, code).Next? ==> Ok(clear, OnCode(clear, cs, s, code).state)
  {
    hide Low;
    match OnCode(clear, cs, s, code)
    case Next(s', _) =>
      WidthBound(s.width, |s'.dict|);
      if code != clear && s.prev >= 0 {
        assert s'.dict[..clear + 2] == s'.dict[..|s.dict|][..clear + 2];
        forall i | HasString(clear, |s'.dict|, i)
          ensures s'.dict[i] != []
        {
          assert i < |s.dict| ==> s'.dict[i] == s'.dict[..|s.dict|][i];
        }
      }
    case _ =>
  }

  /** Reading codes while whole ones are left. */
  ghost function Decode(clear: nat, cs: nat, bits: seq<Bit>, pos: nat, s: State): (r: Result)
    requires Ok(clear, s) && cs <= 12 && clear + 2 <= TABLE_SIZE && clear > 0
    decreases |bits| - pos
  {
    if pos + s.width > |bits| then Result([], true)
    else
      var code := Peek(bits, pos, s.width);
      OnCodeOk(clear, cs, s, code);
      match OnCode(clear, cs, s, code)
      case Error => Result([], false)
      case End => Result([], true)
      case Next(s', w) =>
        var rest := Decode(clear, cs, bits, pos + s.width, s');
        Result(w + rest.syms, rest.ok)
  }

  /** The dictionary only ever grows between clear codes, each string by one symbol over an older one. */
  lemma DictPrefixes(clear: nat, cs: nat, s: State, code: nat)
    requires Ok(clear, s) && OnCode(clear, cs, s, code).Next? && code != clear
    ensures var d := OnCode(clear, cs, s, code).state.dict;
      && s.dict <= d && |d| <= |s.dict| + 1
      && (|d| > |s.dict| ==> d[|s.dict|] == s.dict[s.prev] + [d[code][0]])
      && OnCode(clear, cs, s, code).emitted == d[code]
  {
  }

  /** A code equal to the next free entry stands for the string before plus its own first symbol. */
  lemma NextEntryCode(clear: nat, cs: nat, s: State)
    requires Ok(clear, s) && s.started && s.prev >= 0 && |s.dict| < TABLE_SIZE
    ensures OnCode(clear, cs, s, |s.dict|).Next?
    ensures OnCode(clear, cs, s, |s.dict|).emitted == s.dict[s.prev] + [s.dict[s.prev][0]]
  {
  }

  // -------------------------------------------------------------------------------------- sub-blocks

  /** `n` file bytes from `p` on; past the end of the file they are zero. */
  function FileBytes(data: seq<Byte>, p: nat, n: nat): (r: seq<Byte>)
    ensures |r| == n && forall i :: 0 <= i < n ==> r[i] == ByteAt(data, p + i)
  {
    seq<Byte>(n, i requires 0 <= i < n => ByteAt(data, p + i))
  }

  /** The contents of the sub-blocks from `p` on, up to the empty one. */
  function Payload(data: seq<Byte>, p: nat): seq<Byte>
    decreases |data| - p
  {
    var n := ByteAt(data, p);
    if n == 0 then [] else FileBytes(data, p + 1, n) + Payload(data, p + 1 + n)
  }

  /** What is left when `len` bytes of the current sub-block are. */
  function Rest(data: seq<Byte>, p: nat, len: nat): seq<Byte> {
    FileBytes(data, p, len) + Payload(data, p + len)
  }
}
