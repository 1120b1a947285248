/** Canonical Huffman codes: section 3.2.2 of RFC 1951. */
module Canonical {
  import opened Shifts
  import opened BitStream

  const MAX_BITS: nat := 15

  /** Code lengths, one per symbol; 0 marks a symbol without a code. At most 288 symbols, lengths at most 15. */
  predicate Lengths(lens: seq<nat>) {
    |lens| <= 288 && forall i :: 0 <= i < |lens| ==> lens[i] <= MAX_BITS
  }

  /** How many of the first `n` symbols have length `s`. */
  function CountTo(lens: seq<nat>, s: nat, n: nat): (r: nat)
    requires n <= |lens|
    ensures r <= n
  {
    if n == 0 then 0 else CountTo(lens, s, n - 1) + (if lens[n - 1] == s then 1 else 0)
  }

  function Count(lens: seq<nat>, s: nat): nat {
    CountTo(lens, s, |lens|)
  }

  /** The smallest code of length `s` (steps 1 and 2 of the RFC's algorithm). */
  function FirstCode(lens: seq<nat>, s: nat): nat
    decreases s, 0, lens
  {
    if s <= 1 then 0 else 2 * EndCode(lens, s - 1)
  }

  /** One past the largest code of length `s`. */
  function EndCode(lens: seq<nat>, s: nat): nat
    decreases s, 1, lens
  {
    FirstCode(lens, s) + Count(lens, s)
  }

  /** The code of symbol `i` (step 3 of the RFC's algorithm). */
  function CodeOf(lens: seq<nat>, i: nat): nat
    requires i < |lens|
  {
    FirstCode(lens, lens[i]) + CountTo(lens, lens[i], i)
  }

  // ------------------------------------------------------------------------------------------ Kraft

  /** The Kraft sum of the codes of length at most `s` among the first `n` symbols, in units of `2^-s`. */
  function KraftTo(lens: seq<nat>, s: nat, n: nat): nat
    requires n <= |lens|
  {
    if n == 0 then 0
    else KraftTo(lens, s, n - 1) + (if 1 <= lens[n - 1] <= s then Pow2(s - lens[n - 1]) else 0)
  }

  /** The lengths can be the lengths of a prefix code: the sum of `2^-length` is at most 1. */
  predicate Kraft(lens: seq<nat>) {
    KraftTo(lens, MAX_BITS, |lens|) <= Pow2(MAX_BITS)
  }

  lemma {:induction false} KraftStep(lens: seq<nat>, s: nat, n: nat)
    requires n <= |lens|
    ensures KraftTo(lens, s + 1, n) == 2 * KraftTo(lens, s, n) + CountTo(lens, s + 1, n)
  {
    if n > 0 {
      KraftStep(lens, s, n - 1);
      assert Pow2(0) == 1;
    }
  }

  lemma {:induction false} KraftZero(lens: seq<nat>, n: nat)
    requires n <= |lens|
    ensures KraftTo(lens, 0, n) == 0
  {
    if n > 0 {
      KraftZero(lens, n - 1);
    }
  }

  /** The codes of length `s` end exactly where the Kraft sum of the codes up to that length says. */
  lemma {:induction false} EndIsKraft(lens: seq<nat>, s: nat)
    requires s >= 1
    ensures EndCode(lens, s) == KraftTo(lens, s, |lens|)
  {
    KraftStep(lens, s - 1, |lens|);
    if s == 1 {
      KraftZero(lens, |lens|);
    } else {
      EndIsKraft(lens, s - 1);
    }
  }

  /** A length at which the codes overflow makes every longer one overflow. */
  lemma {:induction false} OverflowPersists(lens: seq<nat>, s: nat, t: nat)
    requires 1 <= s <= t
    requires EndCode(lens, s) > Pow2(s)
    ensures EndCode(lens, t) > Pow2(t)
    decreases t
  {
    if s < t {
      OverflowPersists(lens, s, t - 1);
    }
  }

  /** Under the Kraft inequality the codes of every length fit. */
  lemma EndBound(lens: seq<nat>, s: nat)
    requires Kraft(lens) && 1 <= s <= MAX_BITS
    ensures EndCode(lens, s) <= Pow2(s)
  {
    EndIsKraft(lens, MAX_BITS);
    if EndCode(lens, s) > Pow2(s) {
      OverflowPersists(lens, s, MAX_BITS);
    }
  }

  // ------------------------------------------------------------------------------------ prefix codes

  lemma {:induction false} CountMono(lens: seq<nat>, s: nat, m: nat, n: nat)
    requires m <= n <= |lens|
    ensures CountTo(lens, s, m) <= CountTo(lens, s, n)
    decreases n
  {
    if m < n {
      CountMono(lens, s, m, n - 1);
    }
  }

  /** Earlier symbols of one length come first, strictly. */
  lemma CountStrict(lens: seq<nat>, i: nat, j: nat)
    requires i < j <= |lens|
    ensures CountTo(lens, lens[i], i) < CountTo(lens, lens[i], j)
  {
    CountMono(lens, lens[i], i + 1, j);
  }

  lemma CodeFits(lens: seq<nat>, i: nat)
    requires Lengths(lens) && Kraft(lens) && i < |lens| && lens[i] > 0
    ensures FirstCode(lens, lens[i]) <= CodeOf(lens, i) < EndCode(lens, lens[i]) <= Pow2(lens[i])
  {
    CountStrict(lens, i, |lens|);
    EndBound(lens, lens[i]);
  }

  /** The codes of the shorter length, extended, end before the codes of the longer length begin. */
  lemma {:induction false} LengthsOrdered(lens: seq<nat>, s: nat, t: nat)
    requires 1 <= s < t
    ensures Shl(EndCode(lens, s), t - s) <= FirstCode(lens, t)
    decreases t
  {
    if s == t - 1 {
      assert Shl(EndCode(lens, s), 1) == 2 * Shl(EndCode(lens, s), 0);
    } else {
      LengthsOrdered(lens, s, t - 1);
    }
  }

  /** `i`'s code is the start of the code stream at `p`. */
  predicate Reads(lens: seq<nat>, bits: seq<Bit>, p: nat, i: nat) {
    i < |lens| && lens[i] > 0 && Code(bits, p, lens[i]) == CodeOf(lens, i)
  }

  /** Left-aligned to `t` bits, the code of `i` starts at or after every shorter code ends. */
  lemma ShorterBefore(lens: seq<nat>, i: nat, j: nat)
    requires Lengths(lens) && Kraft(lens) && i < |lens| && j < |lens| && 0 < lens[i] < lens[j]
    ensures Shl(CodeOf(lens, i) + 1, lens[j] - lens[i]) <= CodeOf(lens, j)
  {
    CodeFits(lens, i);
    CodeFits(lens, j);
    ShlMono(CodeOf(lens, i) + 1, EndCode(lens, lens[i]), lens[j] - lens[i]);
    LengthsOrdered(lens, lens[i], lens[j]);
  }

  /** The codes are prefix-free: the code of `i` is not a prefix of the code of another symbol. */
  lemma PrefixFree(lens: seq<nat>, i: nat, j: nat)
    requires Lengths(lens) && Kraft(lens) && i < |lens| && j < |lens| && i != j && 0 < lens[i] <= lens[j]
    ensures Shr(CodeOf(lens, j), lens[j] - lens[i]) != CodeOf(lens, i)
  {
    var s, t := lens[i], lens[j];
    if s == t {
      if i < j {
        CountStrict(lens, i, j);
      } else {
        CountStrict(lens, j, i);
      }
      assert Shr(CodeOf(lens, j), 0) == CodeOf(lens, j);
    } else {
      ShorterBefore(lens, i, j);
      ShrLess(CodeOf(lens, j), CodeOf(lens, i) + 1, t - s);
    }
  }

  /** At most one symbol can be read at a position. */
  lemma ReadsUnique(lens: seq<nat>, bits: seq<Bit>, p: nat, i: nat, j: nat)
    requires Lengths(lens) && Kraft(lens) && Reads(lens, bits, p, i) && Reads(lens, bits, p, j)
    ensures i == j
  {
    if i != j {
      if lens[i] <= lens[j] {
        PrefixFree(lens, i, j);
        CodePrefix(bits, p, lens[j], lens[i]);
      } else {
        PrefixFree(lens, j, i);
        CodePrefix(bits, p, lens[i], lens[j]);
      }
    }
  }

  // ------------------------------------------------------------------------- left-aligned intervals

  /** `i`'s code is the start of the 16-bit window `w`. */
  predicate Starts(lens: seq<nat>, w: nat, i: nat)
    requires Lengths(lens)
  {
    i < |lens| && lens[i] > 0 && Shr(w, 16 - lens[i]) == CodeOf(lens, i)
  }

  lemma StartsReads(lens: seq<nat>, bits: seq<Bit>, p: nat, i: nat)
    requires Lengths(lens)
    ensures Starts(lens, Code(bits, p, 16), i) <==> Reads(lens, bits, p, i)
  {
    if i < |lens| {
      CodePrefix(bits, p, 16, lens[i]);
    }
  }

  /** The left-aligned end of the codes of length at most `s`. */
  function Ceiling(lens: seq<nat>, s: nat): nat
    requires s <= 16
  {
    Shl(EndCode(lens, s), 16 - s)
  }

  lemma {:induction false} CeilingMono(lens: seq<nat>, s: nat, t: nat)
    requires 1 <= s <= t <= 16
    ensures Ceiling(lens, s) <= Ceiling(lens, t)
    decreases t
  {
    if s < t {
      CeilingMono(lens, s, t - 1);
      CeilingStep(lens, t);
      ShlMono(FirstCode(lens, t), EndCode(lens, t), 16 - t);
    }
  }

  lemma CeilingStep(lens: seq<nat>, t: nat)
    requires 1 < t <= 16
    ensures Ceiling(lens, t - 1) == Shl(FirstCode(lens, t), 16 - t)
  {
    ShlDouble(EndCode(lens, t - 1), 16 - t);
  }

  lemma StartsBelow(lens: seq<nat>, w: nat, i: nat, s: nat)
    requires Lengths(lens) && Kraft(lens) && Starts(lens, w, i) && lens[i] <= s <= MAX_BITS
    ensures w < Ceiling(lens, s)
  {
    CodeFits(lens, i);
    ShrLess(w, EndCode(lens, lens[i]), 16 - lens[i]);
    CeilingMono(lens, lens[i], s);
  }

  /** A window below the ceiling of length `s` starts with a code of length at most `s`; of length exactly
      `s` when it is not below the ceiling of the length before. */
  lemma {:induction false} BelowStarts(lens: seq<nat>, w: nat, s: nat) returns (i: nat)
    requires Lengths(lens) && 1 <= s <= MAX_BITS && w < Ceiling(lens, s)
    ensures Starts(lens, w, i) && lens[i] <= s
    ensures s == 1 || w >= Ceiling(lens, s - 1) ==> lens[i] == s
  {
    if s > 1 && w < Ceiling(lens, s - 1) {
      i := BelowStarts(lens, w, s - 1);
    } else {
      var c := Shr(w, 16 - s);
      ShrLess(w, EndCode(lens, s), 16 - s);
      if s > 1 {
        CeilingStep(lens, s);
        ShrLess(w, FirstCode(lens, s), 16 - s);
      }
      i := SymbolAtRank(lens, s, c - FirstCode(lens, s), |lens|);
    }
  }

  /** The codes of length at most `s`, extended to 16 bits, fill exactly the windows below the ceiling. */
  lemma IntervalFilled(lens: seq<nat>, s: nat, w: nat)
    requires Lengths(lens) && Kraft(lens) && 1 <= s <= MAX_BITS
    ensures (exists i: nat :: Starts(lens, w, i) && lens[i] <= s) <==> w < Ceiling(lens, s)
  {
    if w < Ceiling(lens, s) {
      var i := BelowStarts(lens, w, s);
    }
    forall i: nat | Starts(lens, w, i) && lens[i] <= s
      ensures w < Ceiling(lens, s)
    {
      StartsBelow(lens, w, i, s);
    }
  }

  // ------------------------------------------------------------------- bit-by-bit canonical decoding

  datatype Step<T> = Fail | Got(value: T, next: nat)

  /** The first symbol at or after `i` whose code is `c`, of length `n`. */
  function Lookup(lens: seq<nat>, n: nat, c: nat, i: nat): (r: Step<nat>)
    requires i <= |lens|
    decreases |lens| - i
    ensures r.Got? ==> r.value < |lens| && lens[r.value] == n && CodeOf(lens, r.value) == c
    ensures r.Fail? ==> forall j: nat :: i <= j < |lens| && lens[j] == n ==> CodeOf(lens, j) != c
  {
    if i == |lens| then Fail
    else if lens[i] == n && CodeOf(lens, i) == c then Got(i, 0)
    else Lookup(lens, n, c, i + 1)
  }

  /** Reads one more bit at a time until the bits read are somebody's code. */
  function Walk(lens: seq<nat>, bits: seq<Bit>, p: nat, n: nat): (r: Step<nat>)
    ensures r.Got? ==> r.next >= p
    decreases MAX_BITS + 1 - n, bits
  {
    if n > MAX_BITS then Fail else
      var hit := Lookup(lens, n, Code(bits, p, n), 0);
      if hit.Got? then Got(hit.value, p + n) else Walk(lens, bits, p, n + 1)
  }

  function ReadSymbol(lens: seq<nat>, bits: seq<Bit>, p: nat): (r: Step<nat>)
    ensures r.Got? ==> r.next >= p
  {
    Walk(lens, bits, p, 1)
  }

  lemma {:induction false} WalkReads(lens: seq<nat>, bits: seq<Bit>, p: nat, n: nat)
    requires Lengths(lens) && Kraft(lens) && 1 <= n
    requires forall j: nat :: Reads(lens, bits, p, j) ==> lens[j] >= n
    ensures var r := Walk(lens, bits, p, n);
      match r
      case Got(i, q) => Reads(lens, bits, p, i) && q == p + lens[i]
      case Fail => forall j: nat :: !Reads(lens, bits, p, j)
    decreases MAX_BITS + 1 - n, bits
  {
    if n <= MAX_BITS {
      var hit := Lookup(lens, n, Code(bits, p, n), 0);
      if hit.Fail? {
        forall j: nat | Reads(lens, bits, p, j)
          ensures lens[j] >= n + 1
        {
        }
        WalkReads(lens, bits, p, n + 1);
      }
    } else {
      assert forall j: nat :: j < |lens| ==> lens[j] <= MAX_BITS;
    }
  }

  /** Bit-by-bit decoding finds a symbol exactly when some symbol's code comes next, and it is that symbol. */
  lemma ReadSymbolCorrect(lens: seq<nat>, bits: seq<Bit>, p: nat)
    requires Lengths(lens) && Kraft(lens)
    ensures ReadSymbol(lens, bits, p).Got? ==>
        var i := ReadSymbol(lens, bits, p).value;
        Reads(lens, bits, p, i) && ReadSymbol(lens, bits, p).next == p + lens[i]
    ensures forall i: nat :: Reads(lens, bits, p, i) ==> ReadSymbol(lens, bits, p) == Got(i, p + lens[i])
  {
    WalkReads(lens, bits, p, 1);
    forall i: nat | Reads(lens, bits, p, i)
      ensures ReadSymbol(lens, bits, p) == Got(i, p + lens[i])
    {
      ReadsUnique(lens, bits, p, i, ReadSymbol(lens, bits, p).value);
    }
  }

  // ------------------------------------------------------------------------- the sorted symbol table

  /** How many symbols have a non-zero length below `s`. */
  function FirstSymbol(lens: seq<nat>, s: nat): nat {
    if s <= 1 then 0 else FirstSymbol(lens, s - 1) + Count(lens, s - 1)
  }

  /** The place of symbol `i` in the list of symbols sorted by code. */
  function Place(lens: seq<nat>, i: nat): nat
    requires i < |lens|
  {
    FirstSymbol(lens, lens[i]) + CountTo(lens, lens[i], i)
  }

  lemma {:induction false} FirstSymbolOrdered(lens: seq<nat>, s: nat, t: nat)
    requires 1 <= s < t
    ensures FirstSymbol(lens, s) + Count(lens, s) <= FirstSymbol(lens, t)
    decreases t
  {
    if s < t - 1 {
      FirstSymbolOrdered(lens, s, t - 1);
    }
  }

  lemma PlaceInjective(lens: seq<nat>, i: nat, j: nat)
    requires i < |lens| && j < |lens| && i != j && lens[i] > 0 && lens[j] > 0
    ensures Place(lens, i) != Place(lens, j)
  {
    var a, b := if lens[i] < lens[j] || (lens[i] == lens[j] && i < j) then i else j,
                if lens[i] < lens[j] || (lens[i] == lens[j] && i < j) then j else i;
    CountStrict(lens, a, |lens|);
    if lens[a] < lens[b] {
      FirstSymbolOrdered(lens, lens[a], lens[b]);
    } else {
      CountStrict(lens, a, b);
    }
  }

  /** How many of the first `n` symbols have a non-zero length below `s`. */
  function ShorterTo(lens: seq<nat>, s: nat, n: nat): (r: nat)
    requires n <= |lens|
    ensures r <= n
  {
    if n == 0 then 0 else ShorterTo(lens, s, n - 1) + (if 1 <= lens[n - 1] < s then 1 else 0)
  }

  lemma {:induction false} ShorterStep(lens: seq<nat>, s: nat, n: nat)
    requires n <= |lens| && s >= 1
    ensures ShorterTo(lens, s + 1, n) == ShorterTo(lens, s, n) + CountTo(lens, s, n)
  {
    if n > 0 {
      ShorterStep(lens, s, n - 1);
    }
  }

  lemma {:induction false} ShorterOne(lens: seq<nat>, n: nat)
    requires n <= |lens|
    ensures ShorterTo(lens, 1, n) == 0
  {
    if n > 0 {
      ShorterOne(lens, n - 1);
    }
  }

  lemma {:induction false} FirstSymbolShorter(lens: seq<nat>, s: nat)
    requires s >= 1
    ensures FirstSymbol(lens, s) == ShorterTo(lens, s, |lens|)
  {
    if s == 1 {
      ShorterOne(lens, |lens|);
    } else {
      FirstSymbolShorter(lens, s - 1);
      ShorterStep(lens, s - 1, |lens|);
    }
  }

  /** The sorted list has no more entries than there are symbols, so every place is an index of it. */
  lemma PlaceBound(lens: seq<nat>, i: nat)
    requires i < |lens| && lens[i] > 0
    ensures Place(lens, i) < |lens|
  {
    CountStrict(lens, i, |lens|);
    FirstSymbolShorter(lens, lens[i] + 1);
  }

  /** Every count below the number of symbols of length `s` is the rank of one of them. */
  lemma {:induction false} SymbolAtRank(lens: seq<nat>, s: nat, r: nat, n: nat) returns (i: nat)
    requires n <= |lens| && r < CountTo(lens, s, n)
    ensures i < n && lens[i] == s && CountTo(lens, s, i) == r
  {
    if lens[n - 1] == s && CountTo(lens, s, n - 1) == r {
      i := n - 1;
    } else {
      i := SymbolAtRank(lens, s, r, n - 1);
    }
  }
}
