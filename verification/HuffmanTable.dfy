/** The decoder's Huffman table: `stbi__zhuffman` and `stbi__zbuild_huffman`. */
module HuffmanTable {
  import opened Shifts
  import opened Canonical
  import opened SwapNetworks

  const FAST_BITS: nat := 9
  const FAST_SIZE: nat := 512
  const SYMBOLS: nat := 288

  /** The code of symbol `j`, at most nine bits long, starts the nine stream bits `p`. */
  predicate FastHit(lens: seq<nat>, p: nat, j: nat)
    requires j < |lens|
  {
    0 < lens[j] <= FAST_BITS && Low(p, lens[j]) == Reverse(CodeOf(lens, j), lens[j])
  }

  /** `e` is the right entry for `p` once the first `n` symbols are in: length and symbol packed, or 0. */
  predicate FastEntry(lens: seq<nat>, n: nat, p: nat, e: nat)
    requires n <= |lens|
  {
    && (forall j: nat :: j < n && FastHit(lens, p, j) ==> e == lens[j] * 512 + j)
    && (e != 0 ==> e % 512 < n && FastHit(lens, p, e % 512) && e / 512 == lens[e % 512])
  }

  /** No two symbols want the same fast entry. */
  lemma FastHitUnique(lens: seq<nat>, p: nat, i: nat, j: nat)
    requires Lengths(lens) && Kraft(lens) && i < |lens| && j < |lens|
    requires FastHit(lens, p, i) && FastHit(lens, p, j)
    ensures i == j
  {
    if i != j {
      var a, b := if lens[i] <= lens[j] then i else j, if lens[i] <= lens[j] then j else i;
      CodeFits(lens, a);
      CodeFits(lens, b);
      PrefixFree(lens, a, b);
      var s, t := lens[a], lens[b];
      var ca, cb := CodeOf(lens, a), CodeOf(lens, b);
      calc {
        Shr(cb, t - s);
        { ReverseInvolutive(cb, t); }
        Shr(Reverse(Low(p, t), t), t - s);
        { ReverseLow(p, t); ReverseNarrow(p, s, t); }
        Reverse(p, s);
        { ReverseLow(p, s); }
        Reverse(Low(p, s), s);
        { ReverseInvolutive(ca, s); }
        ca;
      }
    }
  }

  /** Adding symbol `i` to the entries it hits, and leaving the rest alone, keeps the fast table right. */
  lemma FastInsert(lens: seq<nat>, i: nat, p: nat, e: nat, e': nat)
    requires Lengths(lens) && Kraft(lens) && i < |lens| && FastEntry(lens, i, p, e)
    requires e' == if FastHit(lens, p, i) then lens[i] * 512 + i else e
    ensures FastEntry(lens, i + 1, p, e')
  {
    hide Kraft, FastHit;
    if FastHit(lens, p, i) {
      Unpacked(lens[i], i);
      forall j: nat | j < i + 1 && FastHit(lens, p, j)
        ensures e' == lens[j] * 512 + j
      {
        FastHitUnique(lens, p, i, j);
      }
    }
  }

  lemma Unpacked(length: nat, i: nat)
    requires i < 512
    ensures (length * 512 + i) % 512 == i && (length * 512 + i) / 512 == length
  {
  }

  class ZHuffman {
    const fast: array<nat>
    const firstcode: array<nat>
    const maxcode: array<nat>
    const firstsymbol: array<nat>
    const size: array<nat>
    const value: array<nat>

    constructor ()
      ensures Shape() && fresh(Storage())
    {
      fast := new nat[FAST_SIZE];
      firstcode := new nat[16];
      maxcode := new nat[17];
      firstsymbol := new nat[16];
      size := new nat[SYMBOLS];
      value := new nat[SYMBOLS];
    }

    predicate Shape()
    {
      && fast.Length == FAST_SIZE && maxcode.Length == 17
      && firstcode.Length == 16 && firstsymbol.Length == 16 && firstcode != firstsymbol
      && size.Length == SYMBOLS && value.Length == SYMBOLS && size != value
      && {firstcode, firstsymbol, maxcode} !! {fast, size, value}
    }

    ghost function Storage(): set<object> {
      {fast, firstcode, maxcode, firstsymbol, size, value}
    }

    /** The code ranges of the lengths below `n` are in place. */
    ghost predicate Ranges(lens: seq<nat>, n: nat)
      requires Shape() && n <= 16
      reads firstcode, maxcode, firstsymbol
    {
      forall s :: 1 <= s < n ==> Range(lens, s)
    }

    ghost predicate Range(lens: seq<nat>, s: nat)
      requires Shape() && 1 <= s < 16
      reads firstcode, maxcode, firstsymbol
    {
      && firstcode[s] == FirstCode(lens, s)
      && firstsymbol[s] == FirstSymbol(lens, s)
      && maxcode[s] == Ceiling(lens, s)
    }

    /** The first `n` symbols are in the sorted symbol list. */
    ghost predicate Sorted(lens: seq<nat>, n: nat)
      requires Shape() && Lengths(lens) && n <= |lens|
      reads size, value
    {
      forall j :: 0 <= j < n && lens[j] > 0 ==>
        Place(lens, j) < SYMBOLS && size[Place(lens, j)] == lens[j] && value[Place(lens, j)] == j
    }

    ghost predicate FastTable(lens: seq<nat>, n: nat)
      requires Shape() && n <= |lens|
      reads fast
    {
      forall p :: 0 <= p < FAST_SIZE ==> FastEntry(lens, n, p, fast[p])
    }

    /** The table for the code lengths `lens`. */
    ghost predicate Table(lens: seq<nat>)
      reads fast, firstcode, maxcode, firstsymbol, size, value
    {
      && Shape() && Lengths(lens) && Kraft(lens)
      && Ranges(lens, 16) && maxcode[16] == 0x10000
      && Sorted(lens, |lens|)
      && FastTable(lens, |lens|)
    }

    /** `stbi__zbuild_huffman`: accepts exactly the length lists that satisfy the Kraft inequality. */
    method Build(sizelist: seq<nat>) returns (ok: bool)
      requires Shape() && Lengths(sizelist)
      modifies fast, firstcode, maxcode, firstsymbol, size, value
      ensures ok <==> Kraft(sizelist)
      ensures ok ==> Table(sizelist)
    {
      var nextCode := new nat[16];
      forall p | 0 <= p < FAST_SIZE {
        fast[p] := 0;
      }
      ok := AssignRanges(sizelist, nextCode);
      if !ok {
        return;
      }
      label LaidOut:
      maxcode[16] := 0x10000;
      forall s | 1 <= s < 16
        ensures Range(sizelist, s)
      {
        assert old@LaidOut(Range(sizelist, s));
      }
      InsertSymbols(sizelist, nextCode);
    }

    /** The first half: count the lengths, reject impossible ones, and lay out the code ranges. */
    method AssignRanges(sizelist: seq<nat>, nextCode: array<nat>) returns (ok: bool)
      requires Shape() && Lengths(sizelist)
      requires nextCode.Length == 16 && nextCode !in {firstcode, firstsymbol, maxcode}
      modifies nextCode, firstcode, maxcode, firstsymbol
      ensures ok <==> Kraft(sizelist)
      ensures ok ==> Ranges(sizelist, 16)
      ensures ok ==> forall s :: 1 <= s < 16 ==> nextCode[s] == FirstCode(sizelist, s)
    {
      var sizes := CountSizes(sizelist);
      ok := CheckSizes(sizelist, sizes);
      if ok {
        ok := LayOut(sizelist, sizes, nextCode);
      }
    }

    method CheckSizes(sizelist: seq<nat>, sizes: array<nat>) returns (ok: bool)
      requires sizes.Length == 17 && forall s :: 1 <= s < 16 ==> sizes[s] == Count(sizelist, s)
      ensures ok <==> forall s :: 1 <= s < 16 ==> Count(sizelist, s) <= Pow2(s)
      ensures !ok ==> !Kraft(sizelist)
    {
      hide Count, Pow2, Kraft;
      var i := 1;
      while i < 16
        invariant 1 <= i <= 16 && forall s :: 1 <= s < i ==> Count(sizelist, s) <= Pow2(s)
      {
        ShlOne(i);
        if sizes[i] > Shl(1, i) {
          TooMany(sizelist, i);
          return false;
        }
        i := i + 1;
      }
      ok := true;
    }

    method LayOut(sizelist: seq<nat>, sizes: array<nat>, nextCode: array<nat>) returns (ok: bool)
      requires Shape() && Lengths(sizelist)
      requires sizes.Length == 17 && forall s :: 1 <= s < 16 ==> sizes[s] == Count(sizelist, s)
      requires nextCode.Length == 16 && nextCode !in {firstcode, firstsymbol, maxcode}
      requires sizes !in {firstcode, firstsymbol, maxcode, nextCode}
      modifies nextCode, firstcode, maxcode, firstsymbol
      ensures ok <==> Kraft(sizelist)
      ensures ok ==> Ranges(sizelist, 16)
      ensures ok ==> forall s :: 1 <= s < 16 ==> nextCode[s] == FirstCode(sizelist, s)
    {
      var code, k, i := 0, 0, 1;
      ghost var counts := sizes[..];
      while i < 16
        invariant 1 <= i <= 16
        invariant sizes[..] == counts
        invariant code == FirstCode(sizelist, i) && k == FirstSymbol(sizelist, i)
        invariant i > 1 ==> EndCode(sizelist, i - 1) <= Pow2(i - 1)
        invariant Ranges(sizelist, i)
        invariant forall s :: 1 <= s < i ==> nextCode[s] == FirstCode(sizelist, s)
      {
        var next, fits := LayOutOne(sizelist, i, sizes[i], code, k);
        if !fits {
          return false;
        }
        nextCode[i] := code;
        code, k := next, k + sizes[i];
        i := i + 1;
      }
      EndIsKraft(sizelist, 15);
      ok := true;
    }

    /** One length: `code` and `k` are its first code and the place of its first symbol. */
    method LayOutOne(sizelist: seq<nat>, i: nat, count: nat, code: nat, k: nat) returns (next: nat, fits: bool)
      requires Shape() && Lengths(sizelist) && 1 <= i < 16 && count == Count(sizelist, i)
      requires code == FirstCode(sizelist, i) && k == FirstSymbol(sizelist, i)
      requires i > 1 ==> EndCode(sizelist, i - 1) <= Pow2(i - 1)
      requires Ranges(sizelist, i)
      modifies firstcode, maxcode, firstsymbol
      ensures fits ==> Ranges(sizelist, i + 1) && next == FirstCode(sizelist, i + 1)
      ensures fits ==> EndCode(sizelist, i) <= Pow2(i)
      ensures !fits ==> !Kraft(sizelist)
    {
      hide Kraft, Count, FirstCode, EndCode, FirstSymbol, Ceiling, Pow2;
      CodeIs16Bit(sizelist, i);
      RangeStep(sizelist, i);
      firstcode[i] := code % 0x10000;
      firstsymbol[i] := k;
      next := code + count;
      ShlOne(i);
      if count != 0 {
        if next - 1 >= Shl(1, i) {
          TooMany(sizelist, i);
          return next, false;
        }
      }
      maxcode[i] := Shl(next, 16 - i);
      forall s | 1 <= s < i
        ensures Range(sizelist, s)
      {
        assert old(Range(sizelist, s));
      }
      ShlByOne(next);
      next := Shl(next, 1);
      fits := true;
    }

    /** How many symbols have each length; `sizes[0]` is cleared. */
    method CountSizes(sizelist: seq<nat>) returns (sizes: array<nat>)
      requires Lengths(sizelist)
      ensures fresh(sizes) && sizes.Length == 17
      ensures forall s :: 1 <= s < 16 ==> sizes[s] == Count(sizelist, s)
    {
      sizes := new nat[17](_ => 0);
      var i := 0;
      while i < |sizelist|
        invariant 0 <= i <= |sizelist|
        invariant forall s :: 0 <= s < 17 ==> sizes[s] == CountTo(sizelist, s, i)
      {
        sizes[sizelist[i]] := sizes[sizelist[i]] + 1;
        i := i + 1;
      }
      sizes[0] := 0;
    }

    /** The second half: enter every symbol under its code. */
    method InsertSymbols(sizelist: seq<nat>, nextCode: array<nat>)
      requires Shape() && Lengths(sizelist) && Kraft(sizelist) && Ranges(sizelist, 16)
      requires nextCode.Length == 16 && nextCode !in {firstcode, firstsymbol, fast, maxcode, size, value}
      requires forall s :: 1 <= s < 16 ==> nextCode[s] == FirstCode(sizelist, s)
      requires forall p :: 0 <= p < FAST_SIZE ==> fast[p] == 0
      modifies nextCode, fast, size, value
      ensures Ranges(sizelist, 16)
      ensures Sorted(sizelist, |sizelist|) && FastTable(sizelist, |sizelist|)
    {
      hide Kraft, FirstCode, Place, Range, FastHit;
      var i := 0;
      while i < |sizelist|
        invariant 0 <= i <= |sizelist|
        invariant Ranges(sizelist, 16)
        invariant forall s :: 1 <= s < 16 ==> nextCode[s] == FirstCode(sizelist, s) + CountTo(sizelist, s, i)
        invariant Sorted(sizelist, i) && FastTable(sizelist, i)
      {
        var s := sizelist[i];
        if s != 0 {
          InsertSymbol(sizelist, i, nextCode[s]);
          nextCode[s] := nextCode[s] + 1;
        } else {
          SkipFast(sizelist, i);
        }
        i := i + 1;
      }
    }

    method InsertSymbol(sizelist: seq<nat>, i: nat, code: nat)
      requires Shape() && Lengths(sizelist) && Kraft(sizelist) && Ranges(sizelist, 16)
      requires i < |sizelist| && sizelist[i] > 0 && code == CodeOf(sizelist, i)
      requires Sorted(sizelist, i) && FastTable(sizelist, i)
      modifies fast, size, value
      ensures Sorted(sizelist, i + 1) && FastTable(sizelist, i + 1)
    {
      var s := sizelist[i];
      PlaceBound(sizelist, i);
      assert Range(sizelist, s);
      var c := code - firstcode[s] + firstsymbol[s];
      var fastv := (s * 512 + i) % 0x10000;
      assert c == Place(sizelist, i);
      forall j | 0 <= j < i && sizelist[j] > 0
        ensures Place(sizelist, j) != c
      {
        PlaceInjective(sizelist, i, j);
      }
      size[c] := s;
      value[c] := i;
      assert Sorted(sizelist, i + 1);
      if s <= FAST_BITS {
        InsertFast(sizelist, i, code, fastv);
      } else {
        SkipFast(sizelist, i);
      }
    }

    /** A symbol without a short code leaves the fast table right as it is. */
    lemma SkipFast(lens: seq<nat>, i: nat)
      requires Shape() && i < |lens| && (lens[i] == 0 || lens[i] > FAST_BITS)
      requires FastTable(lens, i)
      ensures FastTable(lens, i + 1)
    {
      forall p | 0 <= p < FAST_SIZE
        ensures FastEntry(lens, i + 1, p, fast[p])
      {
        assert FastEntry(lens, i, p, fast[p]) && !FastHit(lens, p, i);
      }
    }

    /** Writes the entry at every nine-bit value that starts with the reversed code. */
    method InsertFast(sizelist: seq<nat>, i: nat, code: nat, fastv: nat)
      requires Shape() && Lengths(sizelist) && Kraft(sizelist)
      requires i < |sizelist| && 0 < sizelist[i] <= FAST_BITS && code == CodeOf(sizelist, i)
      requires fastv == sizelist[i] * 512 + i
      requires FastTable(sizelist, i)
      modifies fast
      ensures FastTable(sizelist, i + 1)
    {
      hide Kraft, FastEntry, CodeOf, Low, BitReverse;
      var s := sizelist[i];
      BitReverseCorrect(code, s);
      var j := BitReverse(code, s);
      ghost var rev := j;
      LowIdentity(rev, s);
      ShlOne(s);
      ghost var was := fast[..];
      forall p: nat | p < rev
        ensures Low(p, s) != rev
      {
        LowIdentity(p, s);
      }
      while j < FAST_SIZE
        invariant Low(j, s) == rev
        invariant forall p :: 0 <= p < FAST_SIZE ==>
          fast[p] == if p < j && Low(p, s) == rev then fastv else was[p]
        decreases FAST_SIZE - j
      {
        fast[j] := fastv;
        LowStep(j, s);
        forall p: nat | j < p < j + Shl(1, s)
          ensures Low(p, s) != rev
        {
          if Low(p, s) == rev {
            LowGap(j, p, s);
          }
        }
        j := j + Shl(1, s);
      }
      forall p | 0 <= p < FAST_SIZE
        ensures FastEntry(sizelist, i + 1, p, fast[p])
      {
        FastInsert(sizelist, i, p, was[p], fast[p]);
      }
    }
  }

  /** The recurrence of step 2 in section 3.2.2 of RFC 1951. */
  lemma RangeStep(lens: seq<nat>, i: nat)
    requires 1 <= i < 16
    ensures EndCode(lens, i) == FirstCode(lens, i) + Count(lens, i)
    ensures FirstCode(lens, i + 1) == 2 * EndCode(lens, i)
    ensures Ceiling(lens, i) == Shl(EndCode(lens, i), 16 - i)
  {
  }

  lemma ShlByOne(v: nat)
    ensures Shl(v, 1) == 2 * v
  {
    assert Shl(v, 0) == v;
  }

  /** More codes of one length than there are bit patterns left breaks the Kraft inequality. */
  lemma TooMany(lens: seq<nat>, i: nat)
    requires 1 <= i <= MAX_BITS && EndCode(lens, i) > Pow2(i)
    ensures !Kraft(lens)
  {
    OverflowPersists(lens, i, MAX_BITS);
    EndIsKraft(lens, MAX_BITS);
  }

  /** As long as the codes fit so far, the first code of the next length fits the 16-bit field. */
  lemma CodeIs16Bit(lens: seq<nat>, i: nat)
    requires 1 <= i <= MAX_BITS && (i > 1 ==> EndCode(lens, i - 1) <= Pow2(i - 1))
    ensures FirstCode(lens, i) <= Pow2(i) && FirstCode(lens, i) < 0x10000
  {
    Pow2Values();
    Pow2Mono(i, 15);
  }
}
