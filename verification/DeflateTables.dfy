/** The constants of sections 3.2.5 to 3.2.7 of RFC 1951, by what they are for. */
module DeflateTables {
  import opened Shifts
  import opened Canonical
  import opened Deflate
  import opened DeflateFormat

  // --------------------------------------------------------------------------------------------- lengths

  /** After the first eight length codes, the extra bits grow by one every four codes; 258 has none. */
  lemma LengthExtraSteps(z: nat)
    requires z < 29
    ensures z < 8 || z == 28 ==> LengthExtra(z) == 0
    ensures 8 <= z < 28 ==> LengthExtra(z) == LengthExtra(z - 4) + 1
  {
  }

  /** The code with no extra bits for the length 258 repeats the largest length of the code before it. */
  lemma LongestLength()
    ensures LengthBase(28) == LengthBase(27) + Pow2(LengthExtra(27)) - 1 == 258
  {
    LengthValues();
    Pow2Values();
  }

  lemma LengthValues()
    ensures LengthBase(8) == 11 && LengthBase(16) == 35 && LengthBase(24) == 131 && LengthBase(27) == 227
    ensures LengthBase(28) == 258
  {
    Pow2Values();
    assert LengthBase(4) == 7;
    assert LengthBase(8) == 11;
    assert LengthBase(12) == 19;
    assert LengthBase(16) == 35;
    assert LengthBase(20) == 67;
    assert LengthBase(24) == 131;
  }

  /** Each length from 3 to 258 belongs to exactly one code below 285 with exactly one value of its extra bits. */
  lemma LengthsCovered(len: nat) returns (z: nat, lx: nat)
    requires 3 <= len <= 258
    ensures z < 28 && lx < Pow2(LengthExtra(z)) && LengthBase(z) + lx == len
    ensures forall y: nat :: y < 28 && LengthBase(y) <= len < LengthBase(y) + Pow2(LengthExtra(y)) ==> y == z
  {
    hide LengthBase, LengthExtra, Pow2;
    LongestLength();
    z := LengthBelow(len, 28);
    lx := len - LengthBase(z);
    forall y: nat | y < 28 && LengthBase(y) <= len < LengthBase(y) + Pow2(LengthExtra(y))
      ensures y == z
    {
      if y < z {
        LengthMono(y + 1, z);
        LengthNext(y);
      } else if z < y {
        LengthMono(z + 1, y);
        LengthNext(z);
      }
    }
  }

  lemma LengthNext(z: nat)
    requires z < 28
    ensures z < 27 ==> LengthBase(z + 1) == LengthBase(z) + Pow2(LengthExtra(z))
    ensures LengthBase(0) == 3
  {
  }

  lemma {:induction false} LengthMono(y: nat, z: nat)
    requires y <= z < 28
    ensures LengthBase(y) <= LengthBase(z)
    decreases z
  {
    hide LengthBase, LengthExtra, Pow2;
    if y < z {
      LengthMono(y, z - 1);
      LengthNext(z - 1);
    }
  }

  lemma {:induction false} LengthBelow(len: nat, n: nat) returns (z: nat)
    requires 0 < n <= 28 && 3 <= len
    requires n == 28 ==> len < LengthBase(27) + Pow2(LengthExtra(27))
    requires n < 28 ==> len < LengthBase(n)
    ensures z < 28 && LengthBase(z) <= len < LengthBase(z) + Pow2(LengthExtra(z))
  {
    hide LengthBase, LengthExtra, Pow2;
    z := n - 1;
    LengthNext(0);
    LengthNext(z);
    if len < LengthBase(z) {
      z := LengthBelow(len, z);
    }
  }

  // ------------------------------------------------------------------------------------------- distances

  /** After the first four distance codes, the extra bits grow by one every two codes. */
  lemma DistExtraSteps(d: nat)
    requires d < 30
    ensures d < 4 ==> DistExtra(d) == 0
    ensures d >= 4 ==> DistExtra(d) == DistExtra(d - 2) + 1
  {
  }

  lemma DistanceEnd()
    ensures DistBase(29) + Pow2(DistExtra(29)) == 32769
  {
    Pow2Values();
    assert DistBase(4) == 5;
    assert DistBase(8) == 17;
    assert DistBase(12) == 65;
    assert DistBase(16) == 257;
    assert DistBase(20) == 1025;
    assert DistBase(24) == 4097;
    assert DistBase(28) == 16385;
  }

  lemma DistNext(d: nat)
    requires d < 29
    ensures DistBase(d + 1) == DistBase(d) + Pow2(DistExtra(d)) && DistBase(0) == 1
  {
  }

  lemma {:induction false} DistMono(c: nat, d: nat)
    requires c <= d < 30
    ensures DistBase(c) <= DistBase(d)
    decreases d
  {
    hide DistBase, DistExtra, Pow2;
    if c < d {
      DistMono(c, d - 1);
      DistNext(d - 1);
    }
  }

  lemma {:induction false} DistBelow(dist: nat, n: nat) returns (d: nat)
    requires 0 < n <= 30 && 1 <= dist
    requires n == 30 ==> dist < DistBase(29) + Pow2(DistExtra(29))
    requires n < 30 ==> dist < DistBase(n)
    ensures d < 30 && DistBase(d) <= dist < DistBase(d) + Pow2(DistExtra(d))
  {
    hide DistBase, DistExtra, Pow2;
    d := n - 1;
    DistNext(0);
    if d < 29 {
      DistNext(d);
    }
    if dist < DistBase(d) {
      d := DistBelow(dist, d);
    }
  }

  /** Each distance from 1 to 32768 belongs to exactly one code with exactly one value of its extra bits. */
  lemma DistancesCovered(dist: nat) returns (d: nat, dx: nat)
    requires 1 <= dist <= 32768
    ensures d < 30 && dx < Pow2(DistExtra(d)) && DistBase(d) + dx == dist
    ensures forall c: nat :: c < 30 && DistBase(c) <= dist < DistBase(c) + Pow2(DistExtra(c)) ==> c == d
  {
    hide DistBase, DistExtra, Pow2;
    DistanceEnd();
    d := DistBelow(dist, 30);
    dx := dist - DistBase(d);
    forall c: nat | c < 30 && DistBase(c) <= dist < DistBase(c) + Pow2(DistExtra(c))
      ensures c == d
    {
      if c < d {
        DistMono(c + 1, d);
        DistNext(c);
      } else if d < c {
        DistMono(d + 1, c);
        DistNext(d);
      }
    }
  }

  // --------------------------------------------------------------------------------------- fixed codes

  /** How many of the first `n` symbols have each length. */
  lemma {:induction false} FixedCounts(n: nat)
    requires n <= 288
    ensures CountTo(FixedLit(), 7, n) == if n <= 256 then 0 else if n <= 280 then n - 256 else 24
    ensures CountTo(FixedLit(), 8, n) == if n <= 144 then n else if n <= 280 then 144 else n - 136
    ensures CountTo(FixedLit(), 9, n) == if n <= 144 then 0 else if n <= 256 then n - 144 else 112
    ensures forall s :: 0 <= s < 7 ==> CountTo(FixedLit(), s, n) == 0
  {
    if n > 0 {
      FixedCounts(n - 1);
    }
  }

  lemma FixedFirst()
    ensures FirstCode(FixedLit(), 7) == 0 && FirstCode(FixedLit(), 8) == 48 && FirstCode(FixedLit(), 9) == 400
  {
    hide CountTo, FixedLit;
    FixedCounts(288);
    var lens := FixedLit();
    assert FirstCode(lens, 2) == 0;
    assert FirstCode(lens, 3) == 0;
    assert FirstCode(lens, 4) == 0;
    assert FirstCode(lens, 5) == 0;
    assert FirstCode(lens, 6) == 0;
    assert FirstCode(lens, 7) == 0;
  }

  /** The fixed literal and length codes, as the table of section 3.2.6 lists them. */
  lemma FixedLitCodes(i: nat)
    requires i < 288
    ensures i < 144 ==> FixedLit()[i] == 8 && CodeOf(FixedLit(), i) == 48 + i
    ensures 144 <= i < 256 ==> FixedLit()[i] == 9 && CodeOf(FixedLit(), i) == 400 + (i - 144)
    ensures 256 <= i < 280 ==> FixedLit()[i] == 7 && CodeOf(FixedLit(), i) == i - 256
    ensures 280 <= i ==> FixedLit()[i] == 8 && CodeOf(FixedLit(), i) == 192 + (i - 280)
  {
    hide FirstCode, CountTo;
    FixedCounts(i);
    FixedFirst();
  }

  lemma {:induction false} FixedDistCounts(n: nat)
    requires n <= 32
    ensures CountTo(FixedDist(), 5, n) == n && forall s :: 0 <= s < 5 ==> CountTo(FixedDist(), s, n) == 0
  {
    if n > 0 {
      FixedDistCounts(n - 1);
    }
  }

  /** Fixed distance codes are the numbers themselves, in five bits. */
  lemma FixedDistCodes(d: nat)
    requires d < 32
    ensures FixedDist()[d] == 5 && CodeOf(FixedDist(), d) == d
  {
    hide CountTo;
    FixedDistCounts(d);
    FixedDistCounts(32);
    var lens := FixedDist();
    assert FirstCode(lens, 2) == 0;
    assert FirstCode(lens, 3) == 0;
    assert FirstCode(lens, 4) == 0;
  }

  // ------------------------------------------------------------------------------------- dynamic headers

  /** The lengths of the code length code come with the repeats first, then 0, then outward from 8. */
  lemma ZigzagOrder(k: nat)
    requires k < 8
    ensures LengthOrder(0) == 16 && LengthOrder(1) == 17 && LengthOrder(2) == 18 && LengthOrder(3) == 0
    ensures LengthOrder(4 + 2 * k) == 8 + k && (k > 0 ==> LengthOrder(3 + 2 * k) == 8 - k)
  {
  }

  /** Runs of 3 to 138 zeros are written by exactly one repeat instruction. */
  lemma ZeroRuns(n: nat, acc: seq<nat>) returns (i: Instr)
    requires 3 <= n <= 138
    ensures ExtraFits(i) && (i.Zeros? || i.ManyZeros?) && Perform(i, acc) == acc + Repeat(0, n)
    ensures forall j: Instr :: ExtraFits(j) && (j.Zeros? || j.ManyZeros?) && |Perform(j, acc)| == |acc| + n ==> j == i
  {
    i := if n <= 10 then Zeros(n - 3) else ManyZeros(n - 11);
    RepeatLength(0, n);
    forall j: Instr | ExtraFits(j) && (j.Zeros? || j.ManyZeros?)
      ensures |Perform(j, acc)| == |acc| + if j.Zeros? then 3 + j.x else 11 + j.x
    {
      RepeatLength(0, if j.Zeros? then 3 + j.x else 11 + j.x);
    }
  }

  /** The length before is repeated 3 to 6 times, by exactly one instruction. */
  lemma SameRuns(n: nat, acc: seq<nat>) returns (i: Instr)
    requires 3 <= n <= 6 && acc != []
    ensures ExtraFits(i) && i.Again? && Perform(i, acc) == acc + Repeat(acc[|acc| - 1], n)
    ensures forall j: Instr :: ExtraFits(j) && j.Again? && |Perform(j, acc)| == |acc| + n ==> j == i
  {
    i := Again(n - 3);
    forall j: Instr | ExtraFits(j) && j.Again?
      ensures |Perform(j, acc)| == |acc| + 3 + j.x
    {
      RepeatLength(acc[|acc| - 1], 3 + j.x);
    }
  }

  lemma {:induction false} RepeatLength(v: nat, n: nat)
    ensures |Repeat(v, n)| == n && forall k :: 0 <= k < n ==> Repeat(v, n)[k] == v
  {
    if n > 0 {
      RepeatLength(v, n - 1);
    }
  }
}
