/** Trajectory tokens (`trajectoryToTokenIds`): differences between points, quantised per axis, in exact reals. */
module Trajectory {
  datatype Axis = X | Y | Z

  datatype Point = Point(x: real, y: real, z: real)
  {
    function On(a: Axis): real {
      match a case X => x case Y => y case Z => z
    }

    function Minus(p: Point): Point {
      Point(x - p.x, y - p.y, z - p.z)
    }
  }

  function Min(a: Axis): real {
    if a.Z? then -10.0 else -4.0
  }

  function Max(a: Axis): real {
    if a.Z? then 10.0 else 4.0
  }

  function Range(a: Axis): (r: real)
    ensures r > 0.0
  {
    Max(a) - Min(a)
  }

  /** `std::round`: to the nearest integer, halves away from zero. */
  function Round(r: real): int {
    if r >= 0.0 then (r + 0.5).Floor else -((-r + 0.5).Floor)
  }

  function Clamp(v: int, n: int): int {
    if v < 0 then 0 else if v >= n - 1 then n - 1 else v
  }

  /** The place of `d` on the scale where the bins of axis `a` are the integers from 0 to n - 1. */
  function Scaled(a: Axis, d: real, n: int): real {
    (d - Min(a)) / Range(a) * ((n - 1) as real)
  }

  function Token(a: Axis, d: real, n: int, start: int): int {
    Clamp(Round(Scaled(a, d, n)), n) + start
  }

  function Tokens(p: Point, n: int, start: int): seq<int> {
    [Token(X, p.x, n, start), Token(Y, p.y, n, start), Token(Z, p.z, n, start)]
  }

  /** The difference that point `i` is encoded as; the first point is encoded as it is. */
  function Delta(history: seq<Point>, i: nat): Point
    requires i < |history|
  {
    if i == 0 then history[0] else history[i].Minus(history[i - 1])
  }

  function Encoded(history: seq<Point>, k: nat, n: int, start: int): (ids: seq<int>)
    requires k <= |history|
    ensures |ids| == 3 * k
  {
    if k == 0 then [] else Encoded(history, k - 1, n, start) + Tokens(Delta(history, k - 1), n, start)
  }

  /** `trajectoryToTokenIds`. */
  method TrajectoryToTokenIds(history: seq<Point>, n: int, start: int) returns (ids: seq<int>)
    ensures ids == Encoded(history, |history|, n, start)
    ensures n >= 1 ==> forall k :: 0 <= k < |ids| ==> start <= ids[k] < start + n
  {
    ids := [];
    var point0, point := Point(0.0, 0.0, 0.0), Point(0.0, 0.0, 0.0);
    var i := 0;
    while i < |history|
      invariant 0 <= i <= |history|
      invariant i > 0 ==> point0 == history[i - 1]
      invariant ids == Encoded(history, i, n, start)
      invariant n >= 1 ==> forall k :: 0 <= k < |ids| ==> start <= ids[k] < start + n
    {
      hide Round, Scaled;
      var item := history[i];
      if i == 0 {
        point0 := item;
        point := item;
      } else {
        point := item.Minus(point0);
        point0 := item;
      }
      ids := ids + Tokens(point, n, start);
      i := i + 1;
    }
  }

  /** Point `i` gives tokens `3 * i` to `3 * i + 2`, for x, y and z in this order. */
  lemma {:induction false} TokensInOrder(history: seq<Point>, k: nat, n: int, start: int, i: nat)
    requires i < k <= |history|
    ensures var ids, d := Encoded(history, k, n, start), if i == 0 then Point(0.0, 0.0, 0.0) else history[i - 1];
      && ids[3 * i] == Token(X, history[i].x - d.x, n, start)
      && ids[3 * i + 1] == Token(Y, history[i].y - d.y, n, start)
      && ids[3 * i + 2] == Token(Z, history[i].z - d.z, n, start)
    decreases k
  {
    hide Token;
    if i < k - 1 {
      TokensInOrder(history, k - 1, n, start, i);
    }
  }

  // ----------------------------------------------------------------------------------------- meaning

  /** The width of a bin. */
  function Step(a: Axis, n: int): (s: real)
    requires n >= 2
    ensures s > 0.0
  {
    Range(a) / ((n - 1) as real)
  }

  /** The value token `t` stands for. */
  function Centre(a: Axis, t: int, n: int, start: int): real
    requires n >= 2
  {
    Min(a) + (t - start) as real * Step(a, n)
  }

  function AbsR(r: real): real {
    if r < 0.0 then -r else r
  }

  /** On the scale of the bins no bin is nearer than the clamped rounded one. */
  lemma ClampNearest(u: real, n: int, k: int)
    requires n >= 1 && 0 <= k < n
    ensures AbsR(Clamp(Round(u), n) as real - u) <= AbsR(k as real - u)
  {
    RoundWithin(u);
    if k < Round(u) {
      assert k as real <= (Round(u) - 1) as real;
    } else if k > Round(u) {
      assert k as real >= (Round(u) + 1) as real;
    }
  }

  lemma RoundWithin(u: real)
    ensures u - 0.5 <= Round(u) as real <= u + 0.5
  {
  }

  /** A product of reals, as a name for the solver. */
  function Times(x: real, y: real): real {
    x * y
  }

  /** The scale of the bins undone. */
  lemma Rescale(range: real, m: real, d: real, s: real, u: real)
    requires range > 0.0 && m > 0.0 && s == range / m && u == d / range * m
    ensures Times(s, u) == d
  {
    var v := d / range;
    assert v * range == d;
    assert s * m == range;
    assert s * (v * m) == v * (s * m);
  }

  lemma Factor(s: real, k: real, u: real)
    ensures k * s - Times(s, u) == Times(s, k) - Times(s, u) == Times(s, k - u)
  {
  }

  lemma StepScaled(a: Axis, d: real, n: int)
    requires n >= 2
    ensures Times(Step(a, n), Scaled(a, d, n)) == d - Min(a)
  {
    hide Times, Range, Min;
    Rescale(Range(a), (n - 1) as real, d - Min(a), Step(a, n), Scaled(a, d, n));
  }

  /** The error of a token is a bin width times the error on the scale of the bins. */
  lemma CentreError(a: Axis, d: real, n: int, k: int, start: int)
    requires n >= 2
    ensures AbsR(Centre(a, k + start, n, start) - d) == Times(Step(a, n), AbsR(k as real - Scaled(a, d, n)))
  {
    hide Times, Scaled, Step, Min, AbsR;
    var s, u := Step(a, n), Scaled(a, d, n);
    StepScaled(a, d, n);
    Factor(s, k as real, u);
    assert (k + start) - start == k;
    assert Centre(a, k + start, n, start) - d == Times(s, k as real - u);
    ScaleAbs(s, k as real - u);
  }

  lemma ScaleAbs(s: real, x: real)
    requires s > 0.0
    ensures AbsR(Times(s, x)) == Times(s, AbsR(x))
  {
    hide Times;
    Sign(s, x);
  }

  lemma Sign(s: real, x: real)
    requires s > 0.0
    ensures Times(s, -x) == -Times(s, x)
    ensures x > 0.0 ==> Times(s, x) > 0.0
    ensures x < 0.0 ==> Times(s, x) < 0.0
    ensures x == 0.0 ==> Times(s, x) == 0.0
  {
    Positive(s, x);
    Positive(s, -x);
  }

  lemma Positive(s: real, x: real)
    requires s > 0.0
    ensures x > 0.0 ==> s * x > 0.0
  {
  }

  lemma Ordered(s: real, x: real, y: real)
    requires s > 0.0
    ensures x <= y <==> Times(s, x) <= Times(s, y)
  {
    hide Times;
    Factor(s, y, x);
    Sign(s, y - x);
  }

  /** Every difference, inside its range or not, gets a token whose value no other token's value is nearer to. */
  lemma TokenNearest(a: Axis, d: real, n: int, start: int, t: int)
    requires n >= 2 && start <= t < start + n
    ensures AbsR(Centre(a, Token(a, d, n, start), n, start) - d) <= AbsR(Centre(a, t, n, start) - d)
  {
    hide Scaled, Round, Step, Centre, AbsR, Clamp, Times;
    var u := Scaled(a, d, n);
    ClampNearest(u, n, t - start);
    CentreError(a, d, n, Clamp(Round(u), n), start);
    CentreError(a, d, n, t - start, start);
    Ordered(Step(a, n), AbsR(Clamp(Round(u), n) as real - u), AbsR((t - start) as real - u));
  }

  lemma TimesZero(s: real)
    ensures Times(s, 0.0) == 0.0
  {
  }

  lemma RoundWhole(k: int)
    ensures Round(k as real) == k
  {
    RoundWithin(k as real);
  }

  /** The value of a token gets that token back. */
  lemma TokenOfCentre(a: Axis, n: int, start: int, t: int)
    requires n >= 2 && start <= t < start + n
    ensures Token(a, Centre(a, t, n, start), n, start) == t
  {
    hide Scaled, Step, Centre, Times;
    var k, u := (t - start) as real, Scaled(a, Centre(a, t, n, start), n);
    CentreError(a, Centre(a, t, n, start), n, t - start, start);
    Ordered(Step(a, n), AbsR(k - u), 0.0);
    TimesZero(Step(a, n));
    assert u == k;
    RoundWhole(t - start);
  }

  /** The first and the last token stand for -4 and 4 along x and y, and for -10 and 10 along z. */
  lemma EndTokens(a: Axis, n: int, start: int)
    requires n >= 2
    ensures var far := if a == Z then 10.0 else 4.0;
      && Centre(a, start, n, start) == -far && Token(a, -far, n, start) == start
      && Centre(a, start + n - 1, n, start) == far && Token(a, far, n, start) == start + n - 1
  {
    hide Token, Centre;
    AxisEnds(a, n, start);
  }

  lemma AxisEnds(a: Axis, n: int, start: int)
    requires n >= 2
    ensures Centre(a, start, n, start) == Min(a) && Centre(a, start + n - 1, n, start) == Max(a)
    ensures Token(a, Min(a), n, start) == start && Token(a, Max(a), n, start) == start + n - 1
  {
    hide Token;
    LastStep(a, n);
    assert (start - start) as real == 0.0 && (start + n - 1) - start == n - 1;
    TokenOfCentre(a, n, start, start);
    TokenOfCentre(a, n, start, start + n - 1);
  }

  lemma LastStep(a: Axis, n: int)
    requires n >= 2
    ensures (n - 1) as real * Step(a, n) == Max(a) - Min(a)
  {
  }

  /** Halfway between the values of two tokens the upper one is taken. */
  lemma TokenTie(a: Axis, d: real, n: int, start: int, k: int)
    requires n >= 2 && 0 <= k < n - 1
    requires d == (Centre(a, start + k, n, start) + Centre(a, start + (k + 1), n, start)) / 2.0
    ensures Token(a, d, n, start) == start + k + 1
  {
    hide Scaled, Step, Min, Times;
    HalfwayScaled(a, d, n, start, k);
    assert (k as real + 0.5 + 0.5).Floor == k + 1;
  }

  lemma HalfwayScaled(a: Axis, d: real, n: int, start: int, k: int)
    requires n >= 2 && 0 <= k < n - 1
    requires d == (Centre(a, start + k, n, start) + Centre(a, start + (k + 1), n, start)) / 2.0
    ensures Scaled(a, d, n) == k as real + 0.5
  {
    hide Scaled, Step, Min, Times;
    var s, u, h := Step(a, n), Scaled(a, d, n), k as real + 0.5;
    assert (start + k) - start == k && (start + (k + 1)) - start == k + 1;
    StepScaled(a, d, n);
    Between(s, k as real);
    assert (k + 1) as real == k as real + 1.0;
    Ordered(s, u, h);
    Ordered(s, h, u);
  }

  lemma Between(s: real, x: real)
    ensures (x * s + (x + 1.0) * s) / 2.0 == Times(s, x + 0.5)
  {
  }

  /** The error is at most half a bin exactly for the differences within half a bin of the range. */
  lemma HalfBin(a: Axis, d: real, n: int, start: int)
    requires n >= 2
    ensures AbsR(Centre(a, Token(a, d, n, start), n, start) - d) <= Step(a, n) / 2.0
       <==> Min(a) - Step(a, n) / 2.0 <= d <= Max(a) + Step(a, n) / 2.0
  {
    hide Step, Scaled, Centre, Round, Clamp, AbsR, Times;
    var u, s := Scaled(a, d, n), Step(a, n);
    var e := AbsR(Clamp(Round(u), n) as real - u);
    CentreError(a, d, n, Clamp(Round(u), n), start);
    HalfOnScale(u, n);
    ScaledEnds(a, d, n);
    Ordered(s, e, 0.5);
    Ordered(s, -0.5, u);
    Ordered(s, u, (n - 1) as real + 0.5);
  }

  lemma HalfOnScale(u: real, n: int)
    requires n >= 1
    ensures AbsR(Clamp(Round(u), n) as real - u) <= 0.5 <==> -0.5 <= u <= (n - 1) as real + 0.5
  {
    RoundWithin(u);
    if Round(u) < 0 {
      assert Round(u) as real <= -1.0;
    } else if Round(u) > n - 1 {
      assert Round(u) as real >= n as real;
    }
  }

  lemma ScaledEnds(a: Axis, d: real, n: int)
    requires n >= 2
    ensures Times(Step(a, n), Scaled(a, d, n)) == d - Min(a)
    ensures Times(Step(a, n), (n - 1) as real + 0.5) == Max(a) - Min(a) + Step(a, n) / 2.0
    ensures Times(Step(a, n), 0.5) == Step(a, n) / 2.0 && Times(Step(a, n), -0.5) == -(Step(a, n) / 2.0)
  {
    hide Scaled;
    StepScaled(a, d, n);
    HalfMore(Range(a), (n - 1) as real);
  }

  lemma HalfMore(range: real, m: real)
    requires m > 0.0
    ensures Times(range / m, m + 0.5) == range + range / m / 2.0
  {
    var s := range / m;
    assert s * m == range;
    assert s * (m + 0.5) == s * m + s * 0.5;
  }

  // -------------------------------------------------------------------------------- accumulated error

  /** The place of axis `a` among the three tokens of a point. */
  function Place(a: Axis): nat {
    if a.X? then 0 else if a.Y? then 1 else 2
  }

  /** The sum of the values of the first `k` tokens of axis `a`. */
  function SumOfCentres(ids: seq<int>, a: Axis, k: nat, n: int, start: int): real
    requires 3 * k <= |ids| && n >= 2
  {
    if k == 0 then
      0.0
    else
      SumOfCentres(ids, a, k - 1, n, start) + Centre(a, ids[3 * (k - 1) + Place(a)], n, start)
  }

  predicate DeltaInside(history: seq<Point>, a: Axis, i: nat, n: int)
    requires i < |history| && n >= 2
  {
    Min(a) - Step(a, n) / 2.0 <= Delta(history, i).On(a) <= Max(a) + Step(a, n) / 2.0
  }

  /** Decoding by adding up token values drifts by at most half a bin a point. */
  lemma {:induction false} AccumulatedError(history: seq<Point>, a: Axis, k: nat, n: int, start: int)
    requires n >= 2 && k < |history|
    requires forall i :: 0 <= i <= k ==> DeltaInside(history, a, i, n)
    ensures AbsR(SumOfCentres(Encoded(history, k + 1, n, start), a, k + 1, n, start) - history[k].On(a))
         <= (k + 1) as real * (Step(a, n) / 2.0)
  {
    hide Centre, Step, Token, Encoded, SumOfCentres, Delta, Point.On;
    var d := Delta(history, k).On(a);
    assert DeltaInside(history, a, k, n);
    HalfBin(a, d, n, start);
    SumStep(history, a, k, n, start);
    DeltaAdds(history, a, k);
    if k > 0 {
      AccumulatedError(history, a, k - 1, n, start);
    }
    Drift(SumOfCentres(Encoded(history, k, n, start), a, k, n, start), if k == 0 then 0.0 else history[k - 1].On(a),
          Centre(a, Token(a, d, n, start), n, start), d, k as real * (Step(a, n) / 2.0), Step(a, n) / 2.0);
    Distribute(k as real, Step(a, n) / 2.0);
    assert (k + 1) as real == k as real + 1.0;
  }

  /** The triangle inequality for one point more: `was` is off `y` by `e`, and `c` is off the difference by `h`. */
  lemma Drift(was: real, y: real, c: real, d: real, e: real, h: real)
    requires AbsR(was - y) <= e && AbsR(c - d) <= h
    ensures AbsR(was + c - (y + d)) <= e + h
  {
  }

  lemma DeltaAdds(history: seq<Point>, a: Axis, k: nat)
    requires k < |history|
    ensures Delta(history, k).On(a) == history[k].On(a) - if k == 0 then 0.0 else history[k - 1].On(a)
  {
  }

  /** One point more adds the value of its token. */
  lemma SumStep(history: seq<Point>, a: Axis, k: nat, n: int, start: int)
    requires n >= 2 && k < |history|
    ensures SumOfCentres(Encoded(history, k + 1, n, start), a, k + 1, n, start)
         == SumOfCentres(Encoded(history, k, n, start), a, k, n, start)
          + Centre(a, Token(a, Delta(history, k).On(a), n, start), n, start)
    ensures SumOfCentres(Encoded(history, 0, n, start), a, 0, n, start) == 0.0
  {
    hide Centre, Token, Delta;
    SumPrefix(Encoded(history, k, n, start), Encoded(history, k + 1, n, start), a, k, n, start);
  }

  lemma Distribute(k: real, h: real)
    ensures (k + 1.0) * h == k * h + h
  {
  }

  lemma {:induction false} SumPrefix(s: seq<int>, t: seq<int>, a: Axis, k: nat, n: int, start: int)
    requires s <= t && 3 * k <= |s| && n >= 2
    ensures SumOfCentres(s, a, k, n, start) == SumOfCentres(t, a, k, n, start)
  {
    hide Centre;
    if k > 0 {
      SumPrefix(s, t, a, k - 1, n, start);
    }
  }
}
