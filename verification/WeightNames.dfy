/** Tests on initializer names. */
module WeightNames {
  function Lower(c: char): char {
    if 'A' <= c <= 'Z' then (c as int + 32) as char else if c == '/' then '.' else c
  }

  /** The name in lower case with dots for slashes. */
  function Normalized(name: string): (r: string)
    ensures |r| == |name|
  {
    seq(|name|, i requires 0 <= i < |name| => Lower(name[i]))
  }

  predicate StartsAt(s: string, i: nat, sub: string) {
    i + |sub| <= |s| && s[i..i + |sub|] == sub
  }

  predicate Contains(s: string, sub: string) {
    exists i :: 0 <= i <= |s| && StartsAt(s, i, sub)
  }

  predicate NamesLmHead(name: string) {
    Contains(Normalized(name), "lm_head")
  }

  /** How many decimal digits start at `i`. */
  function DigitRun(s: string, i: nat): nat
    decreases |s| - i
  {
    if i < |s| && '0' <= s[i] <= '9' then 1 + DigitRun(s, i + 1) else 0
  }

  /** The number that the `n` digits from `i` on write. */
  function DigitsValue(s: string, i: nat, n: nat): nat
    requires i + n <= |s| && n <= DigitRun(s, i)
    decreases n
  {
    if n == 0 then 0
    else
      DigitAt(s, i, n - 1);
      DigitsValue(s, i, n - 1) * 10 + (s[i + n - 1] as int - '0' as int)
  }

  lemma {:induction false} DigitAt(s: string, i: nat, k: nat)
    requires k < DigitRun(s, i)
    ensures i + k < |s| && '0' <= s[i + k] <= '9'
    decreases k
  {
    if k > 0 {
      DigitAt(s, i + 1, k - 1);
    }
  }

  lemma {:induction false} RunFits(s: string, i: nat)
    requires i <= |s|
    ensures i + DigitRun(s, i) <= |s|
    decreases |s| - i
  {
    if i < |s| {
      RunFits(s, i + 1);
    }
  }

  const MIXER_PREFIX := "backbone.layers."

  /** A Nemotron-H projection name starts at `i`. */
  predicate MixerAt(s: string, i: nat) {
    var d := i + |MIXER_PREFIX|;
    && StartsAt(s, i, MIXER_PREFIX)
    && DigitRun(s, d) > 0
    && (StartsAt(s, d + DigitRun(s, d), ".mixer.up_proj.") || StartsAt(s, d + DigitRun(s, d), ".mixer.down_proj."))
  }

  /** The first place from `i` on where one does, or the length. */
  function FirstMixer(s: string, i: nat): (r: nat)
    requires i <= |s|
    ensures i <= r <= |s| && (r < |s| ==> MixerAt(s, r)) && forall k :: i <= k < r ==> !MixerAt(s, k)
    decreases |s| - i
  {
    if i == |s| then i else if MixerAt(s, i) then i else FirstMixer(s, i + 1)
  }

  /** `_is_dense_ffn_int4_weight_name`. */
  predicate IsDenseFfn(name: string, layerTypes: seq<string>) {
    var s := Normalized(name);
    if Contains(s, ".mlp.")
      && (Contains(s, ".gate_proj.") || Contains(s, ".up_proj.") || Contains(s, ".down_proj."))
    then
      true
    else
      var i := FirstMixer(s, 0);
      if i == |s| then false
      else
        var d := i + |MIXER_PREFIX|;
        RunFits(s, d);
        var layer := DigitsValue(s, d, DigitRun(s, d));
        layer < |layerTypes| && layerTypes[layer] == "mlp"
  }

  // ------------------------------------------------------------------------------------ what the tests mean

  /** A name is that of an LM head exactly if `lm_head` is in it somewhere, each letter in either case. */
  lemma LmHeadNamed(name: string)
    ensures NamesLmHead(name) <==> exists i: nat :: SpellsLmHead(name, i)
  {
    var s := Normalized(name);
    if NamesLmHead(name) {
      var i :| 0 <= i <= |s| && StartsAt(s, i, "lm_head");
      Spelled(name, i);
    }
    if i: nat :| SpellsLmHead(name, i) {
      Spelled(name, i);
      assert StartsAt(s, i, "lm_head");
    }
  }

  predicate SpellsLmHead(s: string, i: nat) {
    && i + 7 <= |s|
    && (s[i] == 'l' || s[i] == 'L') && (s[i + 1] == 'm' || s[i + 1] == 'M') && s[i + 2] == '_'
    && (s[i + 3] == 'h' || s[i + 3] == 'H') && (s[i + 4] == 'e' || s[i + 4] == 'E')
    && (s[i + 5] == 'a' || s[i + 5] == 'A') && (s[i + 6] == 'd' || s[i + 6] == 'D')
  }

  lemma Spelled(name: string, i: nat)
    ensures StartsAt(Normalized(name), i, "lm_head") <==> SpellsLmHead(name, i)
  {
    if i + 7 <= |name| {
      var s := Normalized(name);
      SevenEqual(s[i..i + 7], "lm_head");
      LowerIs(name[i]);
      LowerIs(name[i + 1]);
      LowerIs(name[i + 2]);
      LowerIs(name[i + 3]);
      LowerIs(name[i + 4]);
      LowerIs(name[i + 5]);
      LowerIs(name[i + 6]);
    }
  }

  lemma SevenEqual(w: string, t: string)
    requires |w| == |t| == 7
    ensures w == t <==>
      (w[0] == t[0] && w[1] == t[1] && w[2] == t[2] && w[3] == t[3] && w[4] == t[4] && w[5] == t[5] && w[6] == t[6])
  {
  }

  lemma LowerIs(c: char)
    ensures Lower(c) == '_' <==> c == '_'
    ensures (Lower(c) == 'l' <==> c == 'l' || c == 'L') && (Lower(c) == 'm' <==> c == 'm' || c == 'M')
    ensures (Lower(c) == 'h' <==> c == 'h' || c == 'H') && (Lower(c) == 'e' <==> c == 'e' || c == 'E')
    ensures (Lower(c) == 'a' <==> c == 'a' || c == 'A') && (Lower(c) == 'd' <==> c == 'd' || c == 'D')
  {
  }

  // ------------------------------------------------------------------------------------- dense FFN names

  /** Lower case, and no slashes. */
  predicate Plain(s: string) {
    forall i :: 0 <= i < |s| ==> Lower(s[i]) == s[i]
  }

  lemma NormalizedPlain(a: string, b: string, c: string)
    requires Plain(b)
    ensures Normalized(a + b + c) == Normalized(a) + b + Normalized(c)
  {
  }

  lemma ContainsMiddle(a: string, b: string, c: string)
    ensures Contains(a + b + c, b)
  {
    assert (a + b + c)[|a|..|a| + |b|] == b;
    assert StartsAt(a + b + c, |a|, b);
  }

  /** A projection under `mlp`, with dots or with slashes, is a dense FFN weight. */
  lemma GatedFfn(p: string, q: string, proj: string, r: string, layerTypes: seq<string>)
    requires proj in [".gate_proj.", ".up_proj.", ".down_proj."]
    ensures IsDenseFfn(p + ".mlp." + q + proj + r, layerTypes)
  {
    var name := p + ".mlp." + q + proj + r;
    assert Plain(".mlp.") && Plain(proj);
    assert name == p + ".mlp." + (q + proj + r);
    assert name == (p + ".mlp." + q) + proj + r;
    NormalizedPlain(p, ".mlp.", q + proj + r);
    NormalizedPlain(p + ".mlp." + q, proj, r);
    ContainsMiddle(Normalized(p), ".mlp.", Normalized(q + proj + r));
    ContainsMiddle(Normalized(p + ".mlp." + q), proj, Normalized(r));
  }

  lemma SlashedFfn(p: string, q: string, r: string, layerTypes: seq<string>)
    ensures IsDenseFfn(p + "/mlp/" + q + "/up_proj/" + r, layerTypes)
  {
    var name := p + "/mlp/" + q + "/up_proj/" + r;
    assert name == p + "/mlp/" + (q + "/up_proj/" + r) == (p + "/mlp/" + q) + "/up_proj/" + r;
    SlashesDotted(p, "/mlp/", ".mlp.", q + "/up_proj/" + r);
    SlashesDotted(p + "/mlp/" + q, "/up_proj/", ".up_proj.", r);
    ContainsMiddle(Normalized(p), ".mlp.", Normalized(q + "/up_proj/" + r));
    ContainsMiddle(Normalized(p + "/mlp/" + q), ".up_proj.", Normalized(r));
  }

  lemma SlashesDotted(a: string, b: string, d: string, c: string)
    requires |b| == |d| && forall i :: 0 <= i < |b| ==> d[i] == if b[i] == '/' then '.' else b[i]
    requires Plain(d)
    ensures Normalized(a + b + c) == Normalized(a) + d + Normalized(c)
  {
  }

  /** A number in decimal. */
  function Decimal(n: nat): (s: string)
    ensures s != []
  {
    if n < 10 then [('0' as int + n) as char] else Decimal(n / 10) + [('0' as int + n % 10) as char]
  }

  predicate AllDigits(s: string) {
    forall i :: 0 <= i < |s| ==> '0' <= s[i] <= '9'
  }

  lemma {:induction false} DecimalDigits(n: nat)
    ensures AllDigits(Decimal(n))
  {
    if n >= 10 {
      DecimalDigits(n / 10);
    }
  }

  lemma {:induction false} RunOfDigits(s: string, i: nat, n: nat)
    requires i + n < |s| && AllDigits(s[i..i + n]) && !('0' <= s[i + n] <= '9')
    ensures DigitRun(s, i) == n
    decreases n
  {
    if n > 0 {
      assert s[i] == s[i..i + n][0];
      assert s[i + 1..i + 1 + (n - 1)] == s[i..i + n][1..];
      RunOfDigits(s, i + 1, n - 1);
    }
  }

  lemma {:induction false} DecimalValue(s: string, i: nat, v: nat)
    requires i + |Decimal(v)| <= |s| && s[i..i + |Decimal(v)|] == Decimal(v) && |Decimal(v)| <= DigitRun(s, i)
    ensures DigitsValue(s, i, |Decimal(v)|) == v
    decreases v
  {
    var d, n := Decimal(v), |Decimal(v)|;
    DigitAt(s, i, n - 1);
    assert s[i + n - 1] == d[n - 1];
    if v >= 10 {
      assert s[i..i + n - 1] == d[..n - 1] == Decimal(v / 10);
      DecimalValue(s, i, v / 10);
    } else {
      assert DigitsValue(s, i, 0) == 0;
    }
  }

  /** The pieces of a Nemotron-H name. */
  lemma MixerPieces(d: string, proj: string, t: string)
    requires proj == ".mixer.up_proj." || proj == ".mixer.down_proj."
    ensures var s := "backbone.layers." + d + proj + t;
      && StartsAt(s, 0, "backbone.layers.") && 16 + |d| < |s| && s[16..16 + |d|] == d
      && s[16 + |d|] == '.' && StartsAt(s, 16 + |d|, proj)
  {
    var head := "backbone.layers.";
    var s := head + d + proj + t;
    assert |head| == 16;
    assert s == head + (d + proj + t) == head + d + (proj + t);
    assert s[..16] == head && s[16..16 + |d|] == d && s[16 + |d|..] == proj + t;
    assert s[16 + |d|..16 + |d| + |proj|] == proj;
    assert s[16 + |d|] == proj[0];
  }

  lemma MixerNormalized(d: string, proj: string, r: string)
    requires proj == ".mixer.up_proj." || proj == ".mixer.down_proj."
    requires AllDigits(d)
    ensures Normalized("backbone.layers." + d + proj + r) == "backbone.layers." + d + proj + Normalized(r)
  {
    var head := "backbone.layers.";
    assert Plain(head) && Plain(proj) && Plain(d);
    assert Plain(head + d + proj);
    assert head + d + proj + r == [] + (head + d + proj) + r;
    NormalizedPlain([], head + d + proj, r);
  }

  /** The layer number in a Nemotron-H name, one without `.mlp.`, decides by the layer's type. */
  lemma MixerFfn(n: nat, proj: string, r: string, layerTypes: seq<string>)
    requires proj == ".mixer.up_proj." || proj == ".mixer.down_proj."
    requires !Contains(Normalized("backbone.layers." + Decimal(n) + proj + r), ".mlp.")
    ensures IsDenseFfn("backbone.layers." + Decimal(n) + proj + r, layerTypes)
       <==> n < |layerTypes| && layerTypes[n] == "mlp"
  {
    hide Contains, Normalized, Decimal, StartsAt;
    var d := Decimal(n);
    DecimalDigits(n);
    MixerNormalized(d, proj, r);
    MixerPieces(d, proj, Normalized(r));
    var s := "backbone.layers." + d + proj + Normalized(r);
    RunOfDigits(s, 16, |d|);
    DecimalValue(s, 16, n);
    assert MixerAt(s, 0);
    assert FirstMixer(s, 0) == 0;
  }
}
