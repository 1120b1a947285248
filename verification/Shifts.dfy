/** C's shifts and low-bit masks on unsigned words, one bit at a time. */
module Shifts {

  type Bit = b: nat | b < 2

  /** `v << n` */
  function Shl(v: nat, n: nat): nat
  {
    if n == 0 then v else 2 * Shl(v, n - 1)
  }

  /** `v >> n` */
  function Shr(v: nat, n: nat): nat
    decreases n, v
  {
    if n == 0 then v else Shr(v / 2, n - 1)
  }

  /** `v & ((1 << n) - 1)` */
  function Low(v: nat, n: nat): nat
    decreases n, v
  {
    if n == 0 then 0 else v % 2 + 2 * Low(v / 2, n - 1)
  }

  /** `1 << n` */
  function Pow2(n: nat): (r: nat)
    ensures r > 0
  {
    if n == 0 then 1 else 2 * Pow2(n - 1)
  }

  /** Taking a number apart into its low bit and the rest. */
  lemma Halves(b: Bit, h: nat)
    ensures (b + 2 * h) % 2 == b && (b + 2 * h) / 2 == h
  {
  }

  lemma {:induction false} ShlOne(n: nat)
    ensures Shl(1, n) == Pow2(n)
  {
    if n > 0 {
      ShlOne(n - 1);
    }
  }

  lemma {:induction false} ShlMono(a: nat, b: nat, n: nat)
    ensures a <= b <==> Shl(a, n) <= Shl(b, n)
  {
    if n > 0 {
      ShlMono(a, b, n - 1);
    }
  }

  lemma {:induction false} ShlDouble(v: nat, n: nat)
    ensures Shl(2 * v, n) == 2 * Shl(v, n)
  {
    if n > 0 {
      ShlDouble(v, n - 1);
    }
  }

  lemma {:induction false} Pow2Mono(a: nat, b: nat)
    requires a <= b
    ensures Pow2(a) <= Pow2(b)
    decreases b
  {
    if a < b {
      Pow2Mono(a, b - 1);
    }
  }

  /** The left-aligned comparison: `x >> n < m` exactly when `x < m << n`. */
  lemma {:induction false} ShrLess(x: nat, m: nat, n: nat)
    ensures Shr(x, n) < m <==> x < Shl(m, n)
    decreases n
  {
    if n > 0 {
      ShrLess(x / 2, m, n - 1);
    }
  }

  lemma {:induction false} LowBound(v: nat, n: nat)
    ensures Low(v, n) < Pow2(n)
    decreases n
  {
    if n > 0 {
      LowBound(v / 2, n - 1);
    }
  }

  lemma {:induction false} LowIdentity(v: nat, n: nat)
    requires v < Pow2(n)
    ensures Low(v, n) == v
    decreases n
  {
    if n > 0 {
      LowIdentity(v / 2, n - 1);
    }
  }

  /** Adding `1 << n` leaves the low `n` bits alone. */
  lemma {:induction false} LowStep(v: nat, n: nat)
    ensures Low(v + Pow2(n), n) == Low(v, n)
    decreases n
  {
    if n > 0 {
      LowStep(v / 2, n - 1);
      assert (v + Pow2(n)) / 2 == v / 2 + Pow2(n - 1);
    }
  }

  /** Two numbers with the same low `n` bits are at least `1 << n` apart. */
  lemma {:induction false} LowGap(a: nat, b: nat, n: nat)
    requires Low(a, n) == Low(b, n) && a < b
    ensures a + Pow2(n) <= b
    decreases n
  {
    if n > 0 {
      Halves(a % 2, Low(a / 2, n - 1));
      Halves(b % 2, Low(b / 2, n - 1));
      assert a % 2 == b % 2;
      LowGap(a / 2, b / 2, n - 1);
    }
  }

  lemma Pow2Values()
    ensures Pow2(0) == 1 && Pow2(1) == 2 && Pow2(2) == 4 && Pow2(3) == 8 && Pow2(4) == 16
    ensures Pow2(5) == 32 && Pow2(6) == 64 && Pow2(7) == 128 && Pow2(8) == 256 && Pow2(9) == 512
    ensures Pow2(10) == 1024 && Pow2(11) == 2048 && Pow2(12) == 4096 && Pow2(13) == 8192 && Pow2(14) == 16384
    ensures Pow2(15) == 32768 && Pow2(16) == 65536
  {
    assert Pow2(4) == 16;
    assert Pow2(8) == 256;
    assert Pow2(12) == 4096;
    assert Pow2(16) == 65536;
  }

  /** The `n`-bit reversal of `v`. */
  function Reverse(v: nat, n: nat): (r: nat)
    ensures r < Pow2(n)
    decreases n, v
  {
    if n == 0 then 0
    else if v % 2 == 1 then Pow2(n - 1) + Reverse(v / 2, n - 1)
    else Reverse(v / 2, n - 1)
  }

  /** The low bit of the reversal is the high bit of the value. */
  lemma {:induction false} ReverseSnoc(v: nat, n: nat)
    requires n > 0
    ensures Reverse(v, n) == Shr(v, n - 1) % 2 + 2 * Reverse(v, n - 1)
    decreases n
  {
    if n > 1 {
      ReverseSnoc(v / 2, n - 1);
    } else {
      assert Reverse(v / 2, 0) == 0 && Pow2(0) == 1;
    }
  }

  /** Reversing `m` bits and dropping `m - n` of them reverses the low `n` bits. */
  lemma {:induction false} ReverseNarrow(v: nat, n: nat, m: nat)
    requires n <= m
    ensures Shr(Reverse(v, m), m - n) == Reverse(v, n)
    decreases m
  {
    if n < m {
      ReverseSnoc(v, m);
      ReverseNarrow(v, n, m - 1);
      assert Reverse(v, m) / 2 == Reverse(v, m - 1);
    }
  }

  /** Reversal looks at the low `n` bits only. */
  lemma {:induction false} ReverseLow(v: nat, n: nat)
    ensures Reverse(Low(v, n), n) == Reverse(v, n)
    decreases n
  {
    if n > 0 {
      ReverseLow(v / 2, n - 1);
      assert Low(v, n) % 2 == v % 2 && Low(v, n) / 2 == Low(v / 2, n - 1);
    }
  }

  lemma {:induction false} SplitTop(v: nat, n: nat)
    requires v < Pow2(n + 1)
    ensures v == (if Shr(v, n) % 2 == 1 then Pow2(n) else 0) + Low(v, n)
    decreases n
  {
    if n > 0 {
      SplitTop(v / 2, n - 1);
    }
  }

  lemma {:induction false} ReverseInvolutive(v: nat, n: nat)
    requires v < Pow2(n)
    ensures Reverse(Reverse(v, n), n) == v
    decreases n
  {
    if n > 0 {
      var h, lo := Shr(v, n - 1) % 2, Low(v, n - 1);
      SplitTop(v, n - 1);
      LowBound(v, n - 1);
      ReverseSnoc(v, n);
      ReverseLow(v, n - 1);
      ReverseInvolutive(lo, n - 1);
      Halves(h, Reverse(lo, n - 1));
    }
  }
}
