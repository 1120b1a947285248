/** GIF's LZW code as a format (Appendix F of the GIF89a specification): which codes may be written, with how many
    bits each, and what they stand for, without a dictionary. The decoder of `Lzw` reads exactly that. */
module GifFormat {
  import opened Shifts
  import opened BitStream
  import opened Lzw
  import opened Wrappers

  // ------------------------------------------------------------------------------------------- format

  /** How many codes there have been since the last clear code; -1 before the first. */
  function Since(clear: nat, codes: seq<nat>): (n: int)
    ensures -1 <= n < |codes| || codes == []
  {
    if codes == [] then -1
    else if codes[|codes| - 1] == clear then 0
    else
      var n := Since(clear, codes[..|codes| - 1]);
      if n < 0 then -1 else n + 1
  }

  /** How many codes have a meaning: each code after the first since the clear code gives one more. */
  function Size(clear: nat, codes: seq<nat>): nat {
    var n := Since(clear, codes);
    clear + 2 + if n <= 1 then 0 else n - 1
  }

  /** `code` may follow `codes`: a clear code always; a symbol or the number of a string that is known, or is being
      formed, once there was a clear code and while there is room for strings. */
  predicate Legal(clear: nat, codes: seq<nat>, code: nat) {
    var n := Since(clear, codes);
    code == clear
    || (n >= 0 && (code < clear || clear + 2 <= code < clear + 2 + n) && (n > 0 ==> clear + 1 + n < 8192))
  }

  predicate AllLegal(clear: nat, codes: seq<nat>) {
    codes == [] || (AllLegal(clear, codes[..|codes| - 1]) && Legal(clear, codes[..|codes| - 1], codes[|codes| - 1]))
  }

  lemma {:induction false} LegalPrefix(clear: nat, codes: seq<nat>, k: nat)
    requires AllLegal(clear, codes) && k <= |codes|
    ensures AllLegal(clear, codes[..k])
    ensures k < |codes| ==> Legal(clear, codes[..k], codes[k])
    decreases |codes|
  {
    if k < |codes| {
      var most := codes[..|codes| - 1];
      if k < |most| {
        LegalPrefix(clear, most, k);
      }
      assert most[..k] == codes[..k];
    } else {
      assert codes[..k] == codes;
    }
  }

  /** The codes since the last clear code are not clear codes. */
  lemma {:induction false} SincePlain(clear: nat, codes: seq<nat>, j: nat)
    requires |codes| - Since(clear, codes) <= j < |codes|
    ensures codes[j] != clear && Since(clear, codes[..j]) == Since(clear, codes) - (|codes| - j)
    decreases |codes|
  {
    var most := codes[..|codes| - 1];
    if j < |most| {
      SincePlain(clear, most, j);
      assert most[..j] == codes[..j];
    } else {
      assert most == codes[..j];
    }
  }

  /** What code `k` stands for: a symbol, or, for the string that codes `j` and `j + 1` formed, what code `j` stands
      for and the first symbol of what code `j + 1` does. That may be code `k` itself, which then starts as code `j`
      does. */
  function Text(clear: nat, codes: seq<nat>, k: nat): (w: seq<Byte>)
    requires AllLegal(clear, codes) && k < |codes| && codes[k] != clear
    ensures w != []
    decreases k
  {
    LegalPrefix(clear, codes, k);
    if codes[k] < clear then [codes[k] % 256]
    else
      var j := k - Since(clear, codes[..k]) + (codes[k] - (clear + 2));
      SincePlain(clear, codes[..k], j);
      var w := Text(clear, codes, j);
      if j + 1 == k then w + [w[0]]
      else
        SincePlain(clear, codes[..k], j + 1);
        w + [Text(clear, codes, j + 1)[0]]
  }

  /** What all codes stand for, one after the other. */
  function Texts(clear: nat, codes: seq<nat>): seq<Byte>
    requires AllLegal(clear, codes)
  {
    if codes == [] then []
    else
      var k := |codes| - 1;
      Texts(clear, codes[..k]) + if codes[k] == clear then [] else Text(clear, codes, k)
  }

  lemma SinceBelow(clear: nat, codes: seq<nat>, k: nat)
    requires AllLegal(clear, codes) && k < |codes| && codes[k] > clear
    ensures clear + 2 <= codes[k] < clear + 2 + Since(clear, codes[..k]) <= clear + 2 + k
  {
    LegalPrefix(clear, codes, k);
  }

  /** The codes that formed the string numbered `codes[k]` come one after the other, the first before `k`. */
  lemma Formed(clear: nat, codes: seq<nat>, k: nat) returns (j: nat)
    requires AllLegal(clear, codes) && k < |codes| && codes[k] > clear
    ensures j < k && codes[j] != clear && (j + 1 < k ==> codes[j + 1] != clear)
    ensures j == k - Since(clear, codes[..k]) + (codes[k] - (clear + 2))
    ensures var w := Text(clear, codes, j);
      Text(clear, codes, k) == w + [if j + 1 == k then w[0] else Text(clear, codes, j + 1)[0]]
  {
    hide Since, Legal, AllLegal;
    SinceBelow(clear, codes, k);
    LegalPrefix(clear, codes, k);
    j := k - Since(clear, codes[..k]) + (codes[k] - (clear + 2));
    SincePlain(clear, codes[..k], j);
    if j + 1 < k {
      SincePlain(clear, codes[..k], j + 1);
    }
  }

  /** Text does not depend on later codes. */
  lemma {:induction false} TextPrefix(clear: nat, codes: seq<nat>, m: nat, k: nat)
    requires AllLegal(clear, codes) && k < m <= |codes| && codes[k] != clear
    ensures AllLegal(clear, codes[..m]) && Text(clear, codes[..m], k) == Text(clear, codes, k)
    decreases k
  {
    hide Since, Legal, AllLegal;
    LegalPrefix(clear, codes, m);
    if codes[k] > clear {
      hide Text;
      assert codes[..m][..k] == codes[..k];
      var j := Formed(clear, codes, k);
      var j' := Formed(clear, codes[..m], k);
      TextPrefix(clear, codes, m, j);
      if j + 1 < k {
        TextPrefix(clear, codes, m, j + 1);
      }
    }
  }

  // -------------------------------------------------------------------------------------------- widths

  /** How many bits the number `n` has. */
  function NumBits(n: nat): nat {
    if n == 0 then 0 else 1 + NumBits(n / 2)
  }

  lemma {:induction false} NumBitsBound(n: nat, b: nat)
    ensures NumBits(n) == b <==> n < Pow2(b) && (b > 0 ==> n >= Pow2(b - 1))
  {
    if n > 0 && b > 0 {
      NumBitsBound(n / 2, b - 1);
    }
  }

  /** A code has as many bits as the number of codes with a meaning, up to twelve. */
  function CodeWidth(n: nat): nat {
    if n < 4096 then NumBits(n) else 12
  }

  lemma {:induction false} LowPow2(w: nat)
    ensures Low(Pow2(w), w) == 0
    decreases w
  {
    if w > 0 {
      LowPow2(w - 1);
    }
  }

  /** The decoder's test widens codes exactly when their number outgrows the width. */
  lemma WidenIs(m: nat, n: nat)
    requires 0 < m && (n == m || n == m + 1)
    ensures Widen(CodeWidth(m), n) == CodeWidth(n)
  {
    hide NumBits, Low, Pow2;
    var w := CodeWidth(m);
    NumBitsBound(m, w);
    NumBitsBound(n, w);
    NumBitsBound(n, w + 1);
    Pow2Values();
    NumBitsSmall(m);
    if n < Pow2(w) {
      LowIdentity(n, w);
    } else if m < 4096 {
      LowPow2(w);
      PowerNext(w);
    }
  }

  lemma PowerNext(w: nat)
    ensures Pow2(w + 1) == 2 * Pow2(w)
  {
  }

  lemma NumBitsSmall(n: nat)
    ensures n < 4096 ==> NumBits(n) <= 12
    ensures n > 0 ==> NumBits(n) > 0
  {
    hide NumBits, Pow2;
    NumBitsBound(n, NumBits(n));
    Pow2Values();
    if NumBits(n) > 12 {
      Pow2Mono(12, NumBits(n) - 1);
    }
    if NumBits(n) == 0 {
      assert n < Pow2(0);
    }
  }

  /** The first codes have one bit more than a symbol. */
  lemma FreshWidth(cs: nat)
    requires 2 <= cs <= 11
    ensures CodeWidth(Pow2(cs) + 2) == cs + 1
  {
    hide NumBits, Pow2;
    Pow2Values();
    Pow2Mono(2, cs);
    Pow2Mono(cs, 11);
    PowerNext(cs);
    NumBitsBound(Pow2(cs) + 2, cs + 1);
  }

  // --------------------------------------------------------------------------------- against the decoder

  /** The string numbered `e` since the last clear code is the one that two codes in a row formed. */
  ghost predicate Known(clear: nat, codes: seq<nat>, dict: seq<seq<Byte>>, e: nat)
    requires AllLegal(clear, codes)
  {
    var j := |codes| - Since(clear, codes) + e;
    && 0 <= j && j + 1 < |codes| && codes[j] != clear && codes[j + 1] != clear && clear + 2 + e < |dict|
    && dict[clear + 2 + e] == Text(clear, codes, j) + [Text(clear, codes, j + 1)[0]]
  }

  /** The decoder is in state `s` after `codes`. */
  ghost predicate Stands(clear: nat, codes: seq<nat>, s: State)
    requires AllLegal(clear, codes)
  {
    var n := Since(clear, codes);
    && Ok(clear, s) && |s.dict| == Size(clear, codes) && s.width == CodeWidth(|s.dict|) && s.started == (n >= 0)
    && (n <= 0 ==> s.prev == -1)
    && (n > 0 ==>
         && s.prev == codes[|codes| - 1] >= 0 && s.prev != clear
         && s.dict[s.prev] == Text(clear, codes, |codes| - 1))
    && forall e: nat :: e + 1 < n ==> Known(clear, codes, s.dict, e)
  }

  lemma FreshStands(cs: nat, started: bool, codes: seq<nat>)
    requires 2 <= cs <= 11 && AllLegal(Pow2(cs), codes)
    requires if started then codes != [] && codes[|codes| - 1] == Pow2(cs) else codes == []
    ensures Stands(Pow2(cs), codes, Fresh(Pow2(cs), cs, started))
  {
    hide AllLegal, Pow2, CodeWidth;
    FreshWidth(cs);
    Pow2Values();
    Pow2Mono(cs, 11);
    var s := Fresh(Pow2(cs), cs, started);
    assert s.dict[..Pow2(cs) + 2] == Roots(Pow2(cs));
    assert s.dict[..Pow2(cs) + 2] == s.dict;
  }

  /** What the dictionary has for a legal code, once its string is formed, is what the code stands for. */
  lemma CodeMeans(clear: nat, codes: seq<nat>, s: State, code: nat)
    requires AllLegal(clear, codes) && Stands(clear, codes, s) && Legal(clear, codes, code) && code != clear
    ensures AllLegal(clear, codes + [code]) && code <= |s.dict|
    ensures code < |s.dict| ==> s.dict[code] == Text(clear, codes + [code], |codes|)
    ensures code == |s.dict| ==>
      && s.prev >= 0 && s.dict[s.prev] != []
      && Text(clear, codes + [code], |codes|) == s.dict[s.prev] + [s.dict[s.prev][0]]
  {
    hide Since, Roots, Text, AllLegal, CodeWidth;
    LegalNext(clear, codes, code);
    var longer := codes + [code];
    assert longer[..|codes|] == codes;
    if code < clear {
      RootIs(clear, s, code);
      TextRoot(clear, longer, |codes|);
    } else {
      var j := Formed(clear, longer, |codes|);
      var e := code - (clear + 2);
      TextPrefix(clear, longer, |codes|, j);
      if j + 1 < |codes| {
        TextPrefix(clear, longer, |codes|, j + 1);
        assert Known(clear, codes, s.dict, e);
      }
    }
  }

  lemma LegalNext(clear: nat, codes: seq<nat>, code: nat)
    requires AllLegal(clear, codes) && Legal(clear, codes, code)
    ensures AllLegal(clear, codes + [code])
  {
    assert (codes + [code])[..|codes|] == codes;
  }

  lemma TextRoot(clear: nat, codes: seq<nat>, k: nat)
    requires AllLegal(clear, codes) && k < |codes| && codes[k] < clear
    ensures Text(clear, codes, k) == [codes[k] % 256]
  {
  }

  lemma RootIs(clear: nat, s: State, code: nat)
    requires Ok(clear, s) && code < clear
    ensures s.dict[code] == [code % 256]
  {
    assert s.dict[code] == s.dict[..clear + 2][code];
  }

  lemma SinceNext(clear: nat, codes: seq<nat>, code: nat)
    ensures Since(clear, codes + [code]) ==
      if code == clear then 0 else if Since(clear, codes) < 0 then -1 else Since(clear, codes) + 1
  {
    assert (codes + [code])[..|codes|] == codes;
  }

  lemma SizeNext(clear: nat, codes: seq<nat>, code: nat)
    ensures Since(clear, codes) >= 0 && code != clear ==>
      Size(clear, codes + [code]) == Size(clear, codes) + if Since(clear, codes) > 0 then 1 else 0
    ensures Size(clear, codes) > 0
  {
    hide Since;
    SinceNext(clear, codes, code);
  }

  /** A string that is known stays known. */
  lemma KnownStays(clear: nat, codes: seq<nat>, code: nat, dict: seq<seq<Byte>>, dict': seq<seq<Byte>>, e: nat)
    requires AllLegal(clear, codes + [code]) && code != clear && Since(clear, codes) >= 0
    requires AllLegal(clear, codes) && dict <= dict' && Known(clear, codes, dict, e)
    ensures Known(clear, codes + [code], dict', e)
  {
    hide Since, Text, AllLegal, Legal;
    SinceNext(clear, codes, code);
    var longer := codes + [code];
    assert longer[..|codes|] == codes;
    var j := |codes| - Since(clear, codes) + e;
    TextPrefix(clear, longer, |codes|, j);
    TextPrefix(clear, longer, |codes|, j + 1);
  }

  /** A symbol or a string after others: what the decoder does. */
  lemma OnPlain(cs: nat, codes: seq<nat>, s: State, code: nat)
    requires 2 <= cs <= 11 && AllLegal(Pow2(cs), codes) && Stands(Pow2(cs), codes, s)
    requires Legal(Pow2(cs), codes, code) && code != Pow2(cs)
    ensures AllLegal(Pow2(cs), codes + [code]) && code != Pow2(cs) + 1 && code <= |s.dict|
    ensures var dict := if s.prev >= 0 then Extend(Pow2(cs), s, code) else s.dict;
      && code < |dict| && dict[code] == Text(Pow2(cs), codes + [code], |codes|)
      && OnCode(Pow2(cs), cs, s, code) == Next(State(dict, code, Widen(s.width, |dict|), true), dict[code])
  {
    hide Since, Text, AllLegal, Roots, CodeWidth, Pow2, Widen, Known;
    CodeMeans(Pow2(cs), codes, s, code);
  }

  /** What the decoder draws, and one string more, is right for one code more. */
  lemma NextStands(cs: nat, codes: seq<nat>, s: State, code: nat, t: State)
    requires 2 <= cs <= 11 && AllLegal(Pow2(cs), codes) && Stands(Pow2(cs), codes, s) && Ok(Pow2(cs), t)
    requires Legal(Pow2(cs), codes, code) && code != Pow2(cs) && code != Pow2(cs) + 1 && code <= |s.dict|
    requires t.dict == if s.prev >= 0 then Extend(Pow2(cs), s, code) else s.dict
    requires t.prev == code && t.width == Widen(s.width, |t.dict|) && t.started
    requires AllLegal(Pow2(cs), codes + [code])
    requires code < |t.dict| && t.dict[code] == Text(Pow2(cs), codes + [code], |codes|)
    ensures Stands(Pow2(cs), codes + [code], t)
  {
    hide Since, Size, Text, AllLegal, Legal, Roots, CodeWidth, Pow2, Widen, Ok, Extend, Known;
    var clear := Pow2(cs);
    SinceStarts(clear, codes, code);
    SinceNext(clear, codes, code);
    SizeNext(clear, codes, code);
    WidenIs(|s.dict|, |t.dict|);
    MoreKnown(clear, codes, s, code, t.dict);
  }

  /** The decoder draws what the code stands for, and knows one more string. */
  lemma PlainStands(cs: nat, codes: seq<nat>, s: State, code: nat)
    requires 2 <= cs <= 11 && AllLegal(Pow2(cs), codes) && Stands(Pow2(cs), codes, s)
    requires Legal(Pow2(cs), codes, code) && code != Pow2(cs)
    ensures AllLegal(Pow2(cs), codes + [code]) && OnCode(Pow2(cs), cs, s, code).Next?
    ensures Stands(Pow2(cs), codes + [code], OnCode(Pow2(cs), cs, s, code).state)
    ensures OnCode(Pow2(cs), cs, s, code).emitted == Text(Pow2(cs), codes + [code], |codes|)
  {
    hide Since, Size, Text, AllLegal, Legal, Roots, CodeWidth, Pow2, Widen, OnCode, Ok, Extend, Known, Stands;
    OnPlain(cs, codes, s, code);
    ClearFits(cs);
    StandsOk(Pow2(cs), codes, s);
    OnCodeOk(Pow2(cs), cs, s, code);
    NextStands(cs, codes, s, code, OnCode(Pow2(cs), cs, s, code).state);
  }

  lemma StandsOk(clear: nat, codes: seq<nat>, s: State)
    requires AllLegal(clear, codes) && Stands(clear, codes, s)
    ensures Ok(clear, s)
  {
  }

  lemma ClearFits(cs: nat)
    requires cs <= 11
    ensures 0 < Pow2(cs) && Pow2(cs) + 2 <= TABLE_SIZE
  {
    Pow2Values();
    Pow2Mono(cs, 11);
  }

  lemma SinceStarts(clear: nat, codes: seq<nat>, code: nat)
    requires Legal(clear, codes, code) && code != clear
    ensures Since(clear, codes) >= 0
  {
  }

  lemma MoreKnown(clear: nat, codes: seq<nat>, s: State, code: nat, dict: seq<seq<Byte>>)
    requires AllLegal(clear, codes) && Stands(clear, codes, s)
    requires Legal(clear, codes, code) && code != clear && AllLegal(clear, codes + [code]) && code <= |s.dict|
    requires Since(clear, codes) > 0 ==> code != clear + 1 && dict == Extend(clear, s, code)
    requires code < |dict| && dict[code] == Text(clear, codes + [code], |codes|)
    ensures forall e: nat :: e < Since(clear, codes) ==> Known(clear, codes + [code], dict, e)
  {
    hide Since, Text, AllLegal, Legal, Roots, Ok, Known, CodeWidth;
    forall e: nat | e < Since(clear, codes)
      ensures Known(clear, codes + [code], dict, e)
    {
      if e + 1 < Since(clear, codes) {
        KnownStays(clear, codes, code, s.dict, dict, e);
      } else {
        LastKnown(clear, codes, s, code, dict);
      }
    }
  }

  lemma LastKnown(clear: nat, codes: seq<nat>, s: State, code: nat, dict: seq<seq<Byte>>)
    requires AllLegal(clear, codes) && Stands(clear, codes, s) && Since(clear, codes) > 0
    requires Legal(clear, codes, code) && code != clear && AllLegal(clear, codes + [code])
    requires dict == Extend(clear, s, code) && dict[code] == Text(clear, codes + [code], |codes|)
    ensures Known(clear, codes + [code], dict, Since(clear, codes) - 1)
  {
    hide Since, Text, AllLegal, Legal, Roots;
    SinceNext(clear, codes, code);
    var longer := codes + [code];
    assert longer[..|codes|] == codes;
    TextPrefix(clear, longer, |codes|, |codes| - 1);
  }

  /** One code: the decoder stops at the end code, fails exactly at a code that is not legal, and else draws what the
      code stands for. */
  lemma StepStands(cs: nat, codes: seq<nat>, s: State, code: nat)
    requires 2 <= cs <= 11 && AllLegal(Pow2(cs), codes) && Stands(Pow2(cs), codes, s)
    ensures AllLegal(Pow2(cs), codes + [code]) <==> Legal(Pow2(cs), codes, code)
    ensures match OnCode(Pow2(cs), cs, s, code)
      case End => code == Pow2(cs) + 1
      case Error => code != Pow2(cs) + 1 && !Legal(Pow2(cs), codes, code)
      case Next(t, w) =>
        && Legal(Pow2(cs), codes, code) && AllLegal(Pow2(cs), codes + [code]) && Stands(Pow2(cs), codes + [code], t)
        && w == if code == Pow2(cs) then [] else Text(Pow2(cs), codes + [code], |codes|)
  {
    hide Since, Text, Roots, CodeWidth, Pow2, Widen;
    assert (codes + [code])[..|codes|] == codes;
    if code == Pow2(cs) {
      FreshStands(cs, true, codes + [code]);
    } else if Legal(Pow2(cs), codes, code) {
      PlainStands(cs, codes, s, code);
    }
  }

  /** The state that codes lead to, if the decoder takes them all. */
  ghost function Led(cs: nat, codes: seq<nat>): (s: Option<State>)
    requires cs <= 11
    ensures s.Some? ==> Ok(Pow2(cs), s.value)
  {
    ClearFits(cs);
    if codes == [] then
      RootsPrefix(Pow2(cs));
      Some(Fresh(Pow2(cs), cs, false))
    else
      var k := |codes| - 1;
      var s := Led(cs, codes[..k]);
      if s.None? then None
      else
        OnCodeOk(Pow2(cs), cs, s.value, codes[k]);
        match OnCode(Pow2(cs), cs, s.value, codes[k])
        case Next(t, _) => Some(t)
        case _ => None
  }

  lemma RootsPrefix(clear: nat)
    ensures Roots(clear)[..clear + 2] == Roots(clear)
  {
  }

  lemma {:induction false} LedStands(cs: nat, codes: seq<nat>)
    requires 2 <= cs <= 11 && Led(cs, codes).Some?
    ensures AllLegal(Pow2(cs), codes) && Stands(Pow2(cs), codes, Led(cs, codes).value)
  {
    hide Stands, Legal, Ok, OnCode, Pow2;
    if codes == [] {
      FreshStands(cs, false, []);
    } else {
      var k := |codes| - 1;
      LedStands(cs, codes[..k]);
      assert codes == codes[..k] + [codes[k]];
      StepStands(cs, codes[..k], Led(cs, codes[..k]).value, codes[k]);
    }
  }

  /** In every state that codes lead to, the width of the next code is the number of bits of the number of strings,
      up to twelve. */
  lemma WidthIsBits(cs: nat, codes: seq<nat>)
    requires 2 <= cs <= 11 && Led(cs, codes).Some?
    ensures var s := Led(cs, codes).value;
      s.width > 0 && ((Pow2(s.width - 1) <= |s.dict| < Pow2(s.width) && s.width <= 12)
                      || (s.width == 12 && |s.dict| >= 4096))
  {
    hide Led, NumBits, Pow2, Ok, Known;
    LedStands(cs, codes);
    var s := Led(cs, codes).value;
    NumBitsSmall(|s.dict|);
    NumBitsBound(|s.dict|, s.width);
  }

  // ------------------------------------------------------------------------------------------ the stream

  /** How many bits the code after `codes` has. */
  function WidthAfter(clear: nat, codes: seq<nat>): nat {
    CodeWidth(Size(clear, codes))
  }

  /** Every code fits its bits. */
  predicate AllFit(clear: nat, codes: seq<nat>) {
    codes == []
    || (AllFit(clear, codes[..|codes| - 1])
        && codes[|codes| - 1] < Pow2(WidthAfter(clear, codes[..|codes| - 1])))
  }

  /** The codes, each with the bits it has in its place. */
  function Coded(clear: nat, codes: seq<nat>): seq<Bit> {
    if codes == [] then []
    else
      var k := |codes| - 1;
      Coded(clear, codes[..k]) + Field(codes[k], WidthAfter(clear, codes[..k]))
  }

  lemma CodedNext(clear: nat, codes: seq<nat>, code: nat)
    requires AllLegal(clear, codes + [code]) && AllLegal(clear, codes)
    ensures Coded(clear, codes + [code]) == Coded(clear, codes) + Field(code, WidthAfter(clear, codes))
    ensures AllFit(clear, codes + [code]) <==> AllFit(clear, codes) && code < Pow2(WidthAfter(clear, codes))
    ensures Texts(clear, codes + [code])
         == Texts(clear, codes) + if code == clear then [] else Text(clear, codes + [code], |codes|)
  {
    assert (codes + [code])[..|codes|] == codes;
  }

  lemma {:induction false} CodedPrefix(clear: nat, codes: seq<nat>, k: nat)
    requires AllLegal(clear, codes) && AllFit(clear, codes) && k <= |codes|
    ensures AllFit(clear, codes[..k]) && Coded(clear, codes[..k]) <= Coded(clear, codes)
    decreases |codes|
  {
    hide WidthAfter, AllLegal;
    if k < |codes| {
      var most := codes[..|codes| - 1];
      LegalPrefix(clear, codes, |codes| - 1);
      CodedPrefix(clear, most, k);
      assert most[..k] == codes[..k];
    } else {
      assert codes[..k] == codes;
    }
  }

  /** Reading the code that was written next. */
  lemma CodeRead(clear: nat, codes: seq<nat>, k: nat, bits: seq<Bit>)
    requires AllLegal(clear, codes) && AllFit(clear, codes) && k < |codes| && Holds(bits, 0, Coded(clear, codes))
    ensures var p, w := |Coded(clear, codes[..k])|, WidthAfter(clear, codes[..k]);
      p + w <= |bits| && Peek(bits, p, w) == codes[k] && |Coded(clear, codes[..k + 1])| == p + w
  {
    hide WidthAfter, AllLegal, Pow2, Field, Peek;
    CodedPrefix(clear, codes, k + 1);
    var some := codes[..k + 1];
    assert some[..k] == codes[..k];
    var a, w := Coded(clear, codes[..k]), WidthAfter(clear, codes[..k]);
    var rest := Coded(clear, codes)[|Coded(clear, some)|..];
    assert Coded(clear, codes) == a + Field(codes[k], w) + rest == a + (Field(codes[k], w) + rest);
    HoldsSplit(bits, 0, a, Field(codes[k], w) + rest);
    HoldsSplit(bits, |a|, Field(codes[k], w), rest);
    PeekField(bits, |a|, codes[k], w);
    LowIdentity(codes[k], w);
  }

  /** After `codes` the stream is over: the end code comes, or too few bits for any code are left. */
  predicate Over(clear: nat, codes: seq<nat>, bits: seq<Bit>) {
    var p, w := |Coded(clear, codes)|, WidthAfter(clear, codes);
    p + w > |bits| || Peek(bits, p, w) == clear + 1
  }

  lemma WidthOfState(clear: nat, codes: seq<nat>, s: State)
    requires AllLegal(clear, codes) && Stands(clear, codes, s)
    ensures s.width == WidthAfter(clear, codes) > 0 && Ok(clear, s)
  {
    hide NumBits;
    NumBitsSmall(|s.dict|);
  }

  /** Reading on from the middle of a stream. */
  lemma {:induction false} ReadsOn(cs: nat, codes: seq<nat>, k: nat, bits: seq<Bit>, s: State)
    requires 2 <= cs <= 11 && AllLegal(Pow2(cs), codes) && AllFit(Pow2(cs), codes) && k <= |codes|
    requires Holds(bits, 0, Coded(Pow2(cs), codes)) && Over(Pow2(cs), codes, bits)
    requires AllLegal(Pow2(cs), codes[..k]) && Stands(Pow2(cs), codes[..k], s) && Pow2(cs) + 2 <= TABLE_SIZE
    ensures var r := Decode(Pow2(cs), cs, bits, |Coded(Pow2(cs), codes[..k])|, s);
      r.ok && Texts(Pow2(cs), codes) == Texts(Pow2(cs), codes[..k]) + r.syms
    decreases |codes| - k
  {
    hide AllLegal, AllFit, Stands, WidthAfter, Coded, Legal, Texts, Text, OnCode, Pow2, Ok, Holds;
    var clear := Pow2(cs);
    WidthOfState(clear, codes[..k], s);
    StepStands(cs, codes[..k], s, Peek(bits, |Coded(clear, codes[..k])|, s.width));
    if k == |codes| {
      assert codes[..k] == codes;
      EndIllegal(clear, codes);
    } else {
      CodeRead(clear, codes, k, bits);
      assert codes[..k + 1] == codes[..k] + [codes[k]];
      LegalPrefix(clear, codes, k);
      CodedNext(clear, codes[..k], codes[k]);
      NotEnd(clear, codes[..k], codes[k]);
      ReadsOn(cs, codes, k + 1, bits, OnCode(clear, cs, s, codes[k]).state);
    }
  }

  lemma EndIllegal(clear: nat, codes: seq<nat>)
    ensures !Legal(clear, codes, clear + 1)
  {
  }

  lemma NotEnd(clear: nat, codes: seq<nat>, code: nat)
    requires Legal(clear, codes, code)
    ensures code != clear + 1
  {
  }

  /** Codes that are legal, each written with its number of bits, and ended by the end code or the end of the data,
      decode to what they stand for. */
  lemma StreamRead(cs: nat, codes: seq<nat>, bits: seq<Bit>)
    requires 2 <= cs <= 11 && AllLegal(Pow2(cs), codes) && AllFit(Pow2(cs), codes)
    requires Holds(bits, 0, Coded(Pow2(cs), codes)) && Over(Pow2(cs), codes, bits)
    ensures Pow2(cs) + 2 <= TABLE_SIZE && Ok(Pow2(cs), Fresh(Pow2(cs), cs, false))
    ensures Decode(Pow2(cs), cs, bits, 0, Fresh(Pow2(cs), cs, false)) == Result(Texts(Pow2(cs), codes), true)
  {
    hide AllFit, WidthAfter, Pow2, Holds, Over;
    ClearFits(cs);
    FreshStands(cs, false, []);
    assert codes[..0] == [];
    ReadsOn(cs, codes, 0, bits, Fresh(Pow2(cs), cs, false));
  }

  /** Whatever the bits are, they are legal codes up to some place, which the decoder draws; it succeeds exactly if
      they are over there, and fails exactly if a code follows there that is not legal. */
  lemma {:induction false} StreamFrom(cs: nat, before: seq<nat>, bits: seq<Bit>, s: State) returns (codes: seq<nat>)
    requires 2 <= cs <= 11 && Pow2(cs) + 2 <= TABLE_SIZE && AllLegal(Pow2(cs), before) && AllFit(Pow2(cs), before)
    requires Holds(bits, 0, Coded(Pow2(cs), before)) && Stands(Pow2(cs), before, s)
    ensures AllLegal(Pow2(cs), codes) && AllFit(Pow2(cs), codes) && Holds(bits, 0, Coded(Pow2(cs), codes))
    ensures var r := Decode(Pow2(cs), cs, bits, |Coded(Pow2(cs), before)|, s);
      && Texts(Pow2(cs), codes) == Texts(Pow2(cs), before) + r.syms
      && (r.ok <==> Over(Pow2(cs), codes, bits))
      && (!r.ok ==>
           !Legal(Pow2(cs), codes, Peek(bits, |Coded(Pow2(cs), codes)|, WidthAfter(Pow2(cs), codes))))
    decreases |bits| - |Coded(Pow2(cs), before)|
  {
    hide AllLegal, AllFit, Stands, WidthAfter, Coded, Legal, Texts, Text, OnCode, Pow2, Ok, Holds, Peek;
    var clear, p := Pow2(cs), |Coded(Pow2(cs), before)|;
    codes := before;
    WidthOfState(clear, before, s);
    if p + s.width <= |bits| {
      var code := Peek(bits, p, s.width);
      StepStands(cs, before, s, code);
      if OnCode(clear, cs, s, code).Next? {
        CodedNext(clear, before, code);
        FieldPeek(bits, p, s.width);
        HoldsSplit(bits, 0, Coded(clear, before), Field(code, s.width));
        codes := StreamFrom(cs, before + [code], bits, OnCode(clear, cs, s, code).state);
      }
    }
  }

  /** The same for a whole stream. */
  lemma StreamFound(cs: nat, bits: seq<Bit>) returns (codes: seq<nat>)
    requires 2 <= cs <= 11
    ensures Pow2(cs) + 2 <= TABLE_SIZE && Ok(Pow2(cs), Fresh(Pow2(cs), cs, false))
    ensures AllLegal(Pow2(cs), codes) && AllFit(Pow2(cs), codes) && Holds(bits, 0, Coded(Pow2(cs), codes))
    ensures var r := Decode(Pow2(cs), cs, bits, 0, Fresh(Pow2(cs), cs, false));
      && r.syms == Texts(Pow2(cs), codes)
      && (r.ok <==> Over(Pow2(cs), codes, bits))
      && (!r.ok ==> !Legal(Pow2(cs), codes, Peek(bits, |Coded(Pow2(cs), codes)|, WidthAfter(Pow2(cs), codes))))
  {
    hide WidthAfter, Pow2, Over, Peek, Legal;
    ClearFits(cs);
    FreshStands(cs, false, []);
    codes := StreamFrom(cs, [], bits, Fresh(Pow2(cs), cs, false));
  }
}