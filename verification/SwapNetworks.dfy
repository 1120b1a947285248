/** The 16-bit swap network `stbi__bitreverse16` and the n-bit reversal built on it. */
module SwapNetworks {
  import opened Shifts
  import opened BitStream

  /** A 16-bit word, bit 0 first. */
  type Word = w: seq<Bit> | |w| == 16 witness seq(16, _ => 0)

  function WordOf(v: nat): Word {
    seq(16, i requires 0 <= i < 16 => Shr(v, i) % 2)
  }

  /** The constant mask with high byte `h` and low byte `l`. */
  function Mask(h: Byte, l: Byte): Word {
    [l % 2, l / 2 % 2, l / 4 % 2, l / 8 % 2, l / 16 % 2, l / 32 % 2, l / 64 % 2, l / 128,
     h % 2, h / 2 % 2, h / 4 % 2, h / 8 % 2, h / 16 % 2, h / 32 % 2, h / 64 % 2, h / 128]
  }

  function And(a: Word, b: Word): Word {
    seq(16, i requires 0 <= i < 16 => if a[i] == 1 then b[i] else 0)
  }

  function Or(a: Word, b: Word): Word {
    seq(16, i requires 0 <= i < 16 => if a[i] == 1 then 1 else b[i])
  }

  function Right(a: Word, k: nat): Word {
    seq(16, i requires 0 <= i < 16 => if i + k < 16 then a[i + k] else 0)
  }

  /** The bits pushed above bit 15 are dropped; every use masks them off first. */
  function Left(a: Word, k: nat): Word {
    seq(16, i requires 0 <= i < 16 => if i >= k then a[i - k] else 0)
  }

  /** Swaps neighbouring groups of `k` bits: the groups `hi` selects move down, those `lo` selects move up. */
  function Exchange(w: Word, hi: Word, lo: Word, k: nat): Word {
    Or(Right(And(w, hi), k), Left(And(w, lo), k))
  }

  function SwapNetwork(n: Word): Word {
    var n1 := Exchange(n, Mask(0xAA, 0xAA), Mask(0x55, 0x55), 1);
    var n2 := Exchange(n1, Mask(0xCC, 0xCC), Mask(0x33, 0x33), 2);
    var n3 := Exchange(n2, Mask(0xF0, 0xF0), Mask(0x0F, 0x0F), 4);
    Exchange(n3, Mask(0xFF, 0x00), Mask(0x00, 0xFF), 8)
  }

  /** The number a list of bits, least significant first, stands for. */
  function Value(w: seq<Bit>): (r: nat)
  {
    if w == [] then 0 else w[0] + 2 * Value(w[1..])
  }

  function BitReverse16(n: nat): nat {
    Value(SwapNetwork(WordOf(n)))
  }

  function BitReverse(v: nat, bits: nat): nat
    requires bits <= 16
  {
    Shr(BitReverse16(v), 16 - bits)
  }

  /** Which half of its group of `2 * k` bits bit `i` is in. */
  function Half(i: nat, k: nat): nat
    requires k > 0
  {
    i / k % 2
  }

  /** The place bit `i` is exchanged with when groups of `k` bits swap. */
  function Partner(i: nat, k: nat): int
    requires k > 0
  {
    if Half(i, k) == 1 then i - k else i + k
  }

  /** `hi` selects the upper and `lo` the lower half of every group of `2 * k` bits. */
  predicate HalfMasks(hi: Word, lo: Word, k: nat)
    requires k > 0
  {
    forall i :: 0 <= i < 16 ==> hi[i] == Half(i, k) && lo[i] == 1 - Half(i, k)
  }

  lemma {:induction false} FieldAt(v: nat, n: nat, i: nat)
    requires i < n
    ensures Field(v, n)[i] == Shr(v, i) % 2
    decreases n
  {
    if i > 0 {
      FieldAt(v / 2, n - 1, i - 1);
    }
  }

  lemma Masks1()
    ensures HalfMasks(Mask(0xAA, 0xAA), Mask(0x55, 0x55), 1)
  {
    Halves1(Mask(0xAA, 0xAA), Mask(0x55, 0x55));
  }

  lemma Halves1(hi: Word, lo: Word)
    requires hi == [0, 1, 0, 1, 0, 1, 0, 1, 0, 1, 0, 1, 0, 1, 0, 1]
    requires lo == [1, 0, 1, 0, 1, 0, 1, 0, 1, 0, 1, 0, 1, 0, 1, 0]
    ensures HalfMasks(hi, lo, 1)
  {
  }

  lemma Masks2()
    ensures HalfMasks(Mask(0xCC, 0xCC), Mask(0x33, 0x33), 2)
  {
    Halves2(Mask(0xCC, 0xCC), Mask(0x33, 0x33));
  }

  lemma Halves2(hi: Word, lo: Word)
    requires hi == [0, 0, 1, 1, 0, 0, 1, 1, 0, 0, 1, 1, 0, 0, 1, 1]
    requires lo == [1, 1, 0, 0, 1, 1, 0, 0, 1, 1, 0, 0, 1, 1, 0, 0]
    ensures HalfMasks(hi, lo, 2)
  {
  }

  lemma Masks4()
    ensures HalfMasks(Mask(0xF0, 0xF0), Mask(0x0F, 0x0F), 4)
  {
    Halves4(Mask(0xF0, 0xF0), Mask(0x0F, 0x0F));
  }

  lemma Halves4(hi: Word, lo: Word)
    requires hi == [0, 0, 0, 0, 1, 1, 1, 1, 0, 0, 0, 0, 1, 1, 1, 1]
    requires lo == [1, 1, 1, 1, 0, 0, 0, 0, 1, 1, 1, 1, 0, 0, 0, 0]
    ensures HalfMasks(hi, lo, 4)
  {
  }

  lemma Masks8()
    ensures HalfMasks(Mask(0xFF, 0x00), Mask(0x00, 0xFF), 8)
  {
    Halves8(Mask(0xFF, 0x00), Mask(0x00, 0xFF));
  }

  lemma Halves8(hi: Word, lo: Word)
    requires hi == [0, 0, 0, 0, 0, 0, 0, 0, 1, 1, 1, 1, 1, 1, 1, 1]
    requires lo == [1, 1, 1, 1, 1, 1, 1, 1, 0, 0, 0, 0, 0, 0, 0, 0]
    ensures HalfMasks(hi, lo, 8)
  {
  }

  predicate GroupSize(k: nat) {
    k == 1 || k == 2 || k == 4 || k == 8
  }

  lemma PartnerInRange(i: nat, k: nat)
    requires GroupSize(k) && i < 16
    ensures Half(i, k) == 0 || Half(i, k) == 1
    ensures 0 <= Partner(i, k) < 16
    ensures i >= k ==> Half(i - k, k) == 1 - Half(i, k)
    ensures Half(i + k, k) == 1 - Half(i, k)
  {
    hide Half;
    if k == 1 {
      Halves1At(i);
    } else if k == 2 {
      Halves2At(i);
    } else if k == 4 {
      Halves4At(i);
    } else {
      Halves8At(i);
    }
  }

  lemma Halves1At(i: nat)
    requires i < 16
    ensures 0 <= Half(i, 1) <= 1 && Half(i + 1, 1) == 1 - Half(i, 1)
    ensures i >= 1 ==> Half(i - 1, 1) == 1 - Half(i, 1)
    ensures (Half(i, 1) == 0 ==> i + 1 < 16) && (Half(i, 1) == 1 ==> i >= 1)
  {
    assert (i + 1) / 1 == i / 1 + 1;
  }

  lemma Halves2At(i: nat)
    requires i < 16
    ensures 0 <= Half(i, 2) <= 1 && Half(i + 2, 2) == 1 - Half(i, 2)
    ensures i >= 2 ==> Half(i - 2, 2) == 1 - Half(i, 2)
    ensures (Half(i, 2) == 0 ==> i + 2 < 16) && (Half(i, 2) == 1 ==> i >= 2)
  {
    assert (i + 2) / 2 == i / 2 + 1;
  }

  lemma Halves4At(i: nat)
    requires i < 16
    ensures 0 <= Half(i, 4) <= 1 && Half(i + 4, 4) == 1 - Half(i, 4)
    ensures i >= 4 ==> Half(i - 4, 4) == 1 - Half(i, 4)
    ensures (Half(i, 4) == 0 ==> i + 4 < 16) && (Half(i, 4) == 1 ==> i >= 4)
  {
    assert (i + 4) / 4 == i / 4 + 1;
  }

  lemma Halves8At(i: nat)
    requires i < 16
    ensures 0 <= Half(i, 8) <= 1 && Half(i + 8, 8) == 1 - Half(i, 8)
    ensures i >= 8 ==> Half(i - 8, 8) == 1 - Half(i, 8)
    ensures (Half(i, 8) == 0 ==> i + 8 < 16) && (Half(i, 8) == 1 ==> i >= 8)
  {
    assert (i + 8) / 8 == i / 8 + 1;
  }

  /** With half masks, `Exchange` takes every bit from its partner. */
  lemma ExchangeAt(w: Word, hi: Word, lo: Word, k: nat, i: nat)
    requires GroupSize(k) && i < 16 && HalfMasks(hi, lo, k)
    ensures 0 <= Partner(i, k) < 16 && Exchange(w, hi, lo, k)[i] == w[Partner(i, k)]
  {
    hide Half;
    PartnerInRange(i, k);
    var up, down := Right(And(w, hi), k), Left(And(w, lo), k);
    if Half(i, k) == 1 {
      assert up[i] == 0 && down[i] == w[i - k];
    } else {
      assert up[i] == w[i + k] && down[i] == 0;
    }
  }

  /** Four exchanges send `i` to `15 - i`. */
  lemma PartnersReverse(i: nat, a: nat, b: nat, c: nat)
    requires i < 16
    requires a == Partner(i, 8) && b == Partner(a, 4) && c == Partner(b, 2)
    ensures Partner(c, 1) == 15 - i
  {
  }

  /** The network moves bit `15 - i` to bit `i`. */
  lemma NetworkAt(n: Word, i: nat)
    requires i < 16
    ensures SwapNetwork(n)[i] == n[15 - i]
  {
    Masks1();
    Masks2();
    Masks4();
    Masks8();
    NetworkAtWith(n, i, Mask(0xAA, 0xAA), Mask(0x55, 0x55), Mask(0xCC, 0xCC), Mask(0x33, 0x33),
                  Mask(0xF0, 0xF0), Mask(0x0F, 0x0F), Mask(0xFF, 0x00), Mask(0x00, 0xFF));
  }

  lemma NetworkAtWith(n: Word, i: nat, h1: Word, l1: Word, h2: Word, l2: Word, h4: Word, l4: Word, h8: Word, l8: Word)
    requires i < 16
    requires HalfMasks(h1, l1, 1) && HalfMasks(h2, l2, 2) && HalfMasks(h4, l4, 4) && HalfMasks(h8, l8, 8)
    ensures Exchange(Exchange(Exchange(Exchange(n, h1, l1, 1), h2, l2, 2), h4, l4, 4), h8, l8, 8)[i] == n[15 - i]
  {
    hide HalfMasks, Exchange, Half, Partner;
    var n1 := Exchange(n, h1, l1, 1);
    var n2 := Exchange(n1, h2, l2, 2);
    var n3 := Exchange(n2, h4, l4, 4);
    ExchangeAt(n3, h8, l8, 8, i);
    var a := Partner(i, 8);
    ExchangeAt(n2, h4, l4, 4, a);
    var b := Partner(a, 4);
    ExchangeAt(n1, h2, l2, 2, b);
    var c := Partner(b, 2);
    ExchangeAt(n, h1, l1, 1, c);
    PartnersReverse(i, a, b, c);
  }

  lemma {:induction false} ValueSnoc(w: seq<Bit>, b: Bit)
    ensures Value(w + [b]) == Value(w) + (if b == 1 then Pow2(|w|) else 0)
  {
    if w == [] {
      assert Value([]) == 0 && Value([b]) == b;
    } else {
      assert (w + [b])[1..] == w[1..] + [b];
      ValueSnoc(w[1..], b);
    }
  }

  lemma {:induction false} ReversedValue(v: nat, n: nat, r: seq<Bit>)
    requires |r| == n && forall i :: 0 <= i < n ==> r[i] == Field(v, n)[n - 1 - i]
    ensures Value(r) == Reverse(v, n)
    decreases n
  {
    if n > 0 {
      var q := r[..n - 1];
      assert Field(v, n) == [v % 2] + Field(v / 2, n - 1);
      assert r == q + [v % 2];
      ReversedValue(v / 2, n - 1, q);
      ValueSnoc(q, v % 2);
    }
  }

  /** `stbi__bit_reverse` reverses the low `bits` bits of its argument. */
  lemma BitReverseCorrect(v: nat, bits: nat)
    requires bits <= 16
    ensures BitReverse(v, bits) == Reverse(v, bits)
  {
    var r := SwapNetwork(WordOf(v));
    forall i | 0 <= i < 16
      ensures r[i] == Field(v, 16)[15 - i]
    {
      NetworkAt(WordOf(v), i);
      FieldAt(v, 16, 15 - i);
    }
    ReversedValue(v, 16, r);
    ReverseNarrow(v, bits, 16);
  }
}
