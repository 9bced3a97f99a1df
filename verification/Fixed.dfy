/**
 Fixed-point arithmetic on raw 32-bit values with 8 fractional bits, and the
 integer square root at its centre.
 */
module Fixed {
  type i32 = n: int | -0x8000_0000 <= n < 0x8000_0000

  // Truncation of a wide integer to 32 bits, as a two's-complement cast does.
  function Wrap32(n: int): i32 {
    (n + 0x8000_0000) % 0x1_0000_0000 - 0x8000_0000
  }

  lemma WrapFits(n: int)
    requires -0x8000_0000 <= n < 0x8000_0000
    ensures Wrap32(n) == n
  {}

  // Division rounding toward zero.
  function TruncDiv(a: int, b: int): int
    requires b != 0
  {
    var q := Magnitude(a) / Magnitude(b);
    if (a >= 0) == (b > 0) then q else -q
  }

  function Magnitude(n: int): nat {
    if n < 0 then -n else n
  }

  // An arithmetic shift right by eight, which rounds down.
  function Shift8(n: int): int {
    n / 256
  }

  function Mul(a: i32, b: i32): i32 {
    Wrap32(Shift8(a * b))
  }

  function Div(a: i32, b: i32): i32 {
    if b == 0 then 0 else Wrap32(TruncDiv(a * 256, b))
  }

  // The shift floors: it is truncation toward zero exactly when the product is
  // not negative or loses nothing.
  lemma MulFloors(a: i32, b: i32)
    requires -0x8000_0000 <= Shift8(a * b) < 0x8000_0000
    ensures Mul(a, b) * 256 <= a * b < Mul(a, b) * 256 + 256
    ensures Mul(a, b) == TruncDiv(a * b, 256) <==> 0 <= a * b || a * b % 256 == 0
  {}

  // Division truncates: what is left over is smaller than the divisor and has
  // the dividend's sign.
  lemma DivTruncates(a: i32, b: i32)
    requires b != 0 && -0x8000_0000 <= TruncDiv(a * 256, b) < 0x8000_0000
    ensures var rest := a * 256 - Div(a, b) * b;
            && (rest == 0 || (0 < rest <==> 0 < a))
            && Magnitude(rest) < Magnitude(b)
  {
    WrapFits(TruncDiv(a * 256, b));
    TruncLeavesLess(a * 256, b);
  }

  lemma TruncLeavesLess(n: int, b: int)
    requires b != 0
    ensures var rest := n - TruncDiv(n, b) * b;
            && (rest == 0 || (0 < rest <==> 0 < n))
            && Magnitude(rest) < Magnitude(b)
  {
    var q := Magnitude(n) / Magnitude(b);
    QuotientRest(Magnitude(n), Magnitude(b));
    SignedRest(n, b, q);
    assert TruncDiv(n, b) == if (n >= 0) == (b > 0) then q else -q;
  }

  lemma QuotientRest(p: nat, m: nat)
    requires 0 < m
    ensures 0 <= p / m && 0 <= p - p / m * m < m
  {}

  // The four sign cases.
  lemma SignedRest(n: int, b: int, q: int)
    requires b != 0 && 0 <= q && 0 <= Magnitude(n) - q * Magnitude(b) < Magnitude(b)
    ensures var rest := n - (if (n >= 0) == (b > 0) then q else -q) * b;
            (rest == 0 || (0 < rest <==> 0 < n)) && Magnitude(rest) < Magnitude(b)
  {}

  // ------------------------------------------------------------------ square root

  // What a raw value's root is taken of, so that the root is raw again.
  function Radicand(raw: i32): nat
    requires 0 < raw
  {
    raw * 256
  }

  ghost predicate IsFloorRoot(n: nat, r: nat) {
    r * r <= n < (r + 1) * (r + 1)
  }

  function FloorRoot(n: nat): (r: nat)
    ensures IsFloorRoot(n, r)
  {
    if n == 0 then 0
    else
      var r := FloorRoot(n - 1);
      if (r + 1) * (r + 1) <= n then r + 1 else r
  }

  lemma FloorRootIsUnique(n: nat, r: nat, s: nat)
    requires IsFloorRoot(n, r) && IsFloorRoot(n, s)
    ensures r == s
  {}

  lemma SquareMonotone(a: nat, b: nat)
    requires a <= b
    ensures a * a <= b * b
  {}

  function NewtonStep(n: nat, x: nat): (next: nat)
    requires 0 < x
    ensures 0 < n ==> 0 < next
  {
    assert x == 1 ==> n / x == n;
    (x + n / x) / 2
  }

  // At most `steps` Newton steps, stopping at the first that does not decrease.
  function Newton(n: nat, x: nat, steps: nat): nat
    requires 0 < n && 0 < x
  {
    if steps == 0 || NewtonStep(n, x) >= x then x else Newton(n, NewtonStep(n, x), steps - 1)
  }

  lemma SquareIsNotNegative(d: int)
    ensures 0 <= d * d
  {}

  // The arithmetic and geometric mean, for a product above a square.
  lemma SumAboveTwiceRoot(a: nat, b: nat, r: nat)
    requires r * r < a * b
    ensures 2 * r < a + b
  {}

  lemma QuotientBounds(n: nat, x: nat, k: nat)
    requires 0 < x
    ensures n < k * x ==> n / x < k
    ensures k * x <= n ==> k <= n / x
  {
    var q := n / x;
    assert n == q * x + n % x;
    if k <= q { assert k * x <= q * x; }
    if q + 1 <= k { assert (q + 1) * x <= k * x; }
  }

  // A step never drops below the floor root.
  lemma StepStaysAbove(n: nat, r: nat, x: nat)
    requires IsFloorRoot(n, r) && 0 < x
    ensures r <= NewtonStep(n, x)
  {
    var q := n / x;
    assert n < x * (q + 1) by { assert n == q * x + n % x; }
    SumAboveTwiceRoot(x, q + 1, r);
  }

  // Above the floor root a step decreases, to at most half the distance; at
  // the floor root it does not.
  lemma StepHalves(n: nat, r: nat, x: nat)
    requires IsFloorRoot(n, r) && 0 < r <= x
    ensures r < x ==> NewtonStep(n, x) < x && 2 * (NewtonStep(n, x) - r) <= x - r
    ensures x == r ==> x <= NewtonStep(n, x)
  {
    if r < x {
      assert n < (r + 1) * x by { assert (r + 1) * (r + 1) <= (r + 1) * x; }
      QuotientBounds(n, x, r + 1);
    } else {
      QuotientBounds(n, x, r);
    }
  }

  // Near the root the distance shrinks quadratically.
  lemma StepSquares(n: nat, r: nat, x: nat)
    requires IsFloorRoot(n, r) && 0 < r <= x
    ensures var (d, d') := (x - r, NewtonStep(n, x) - r);
            2 * (r * d') <= d * d + 2 * r
  {
    StepStaysAbove(n, r, x);
    QuotientIsSmall(n, r, x);
    TwiceTheStep(n, x);
    SquaringAlgebra(r, x - r, n / x, NewtonStep(n, x) - r);
  }

  lemma TwiceTheStep(n: nat, x: nat)
    requires 0 < x
    ensures 2 * NewtonStep(n, x) <= x + n / x
  {}

  lemma QuotientIsSmall(n: nat, r: nat, x: nat)
    requires IsFloorRoot(n, r) && 0 < r <= x
    ensures n / x * (r + (x - r)) <= r * r + 2 * r
  {
    assert r + (x - r) == x;
    QuotientTimes(n, x);
    RootGap(n, r);
  }

  lemma QuotientTimes(n: nat, x: nat)
    requires 0 < x
    ensures n / x * x <= n
  {}

  lemma RootGap(n: nat, r: nat)
    requires IsFloorRoot(n, r)
    ensures n <= r * r + 2 * r
  {}

  lemma MulMonotone(k: nat, a: int, b: int)
    requires a <= b
    ensures k * a <= k * b
  {}

  lemma Distribute(k: int, a: int, b: int)
    ensures k * (a + b) == k * a + k * b
  {}

  lemma SquaringAlgebra(r: nat, d: nat, q: nat, d': nat)
    requires q * (r + d) <= r * r + 2 * r && 2 * d' <= d + q - r
    ensures 2 * (r * d') <= d * d + 2 * r
  {
    MulMonotone(r + d, 2 * d', d + q - r);
    Distribute(r + d, d - r, q);
    Distribute(d - r, r, d);
    Distribute(2 * d', r, d);
    MulMonotone(d, 0, 2 * d');
    assert 2 * d' * r == 2 * (r * d');
    assert (d - r) * r + (d - r) * d == d * d - r * r;
  }

  function Pow2(k: nat): nat {
    if k == 0 then 1 else 2 * Pow2(k - 1)
  }

  lemma TwentyDoublings()
    ensures Pow2(20) == 0x10_0000
  {
    assert Pow2(5) == 32;
    assert Pow2(10) == 1024;
    assert Pow2(15) == 32768;
  }

  // How far above the root `r` the iterate can still be after `k` steps from
  // `n`: twenty halvings, four squarings, then halvings again.
  ghost predicate Within(n: nat, r: nat, d: nat, k: nat) {
    if k <= 20 then d * Pow2(k) <= n
    else if k == 21 then 2 * d <= r + 2
    else if k == 22 then 8 * d <= r + 13
    else if k == 23 then 128 * d <= r + 165
    else d * Pow2(k - 24) <= 33
  }

  // The radicands of positive 32-bit values, and the size of their roots.
  ghost predicate InRange(n: nat, r: nat) {
    256 <= n < 0x80_0000_0000 && IsFloorRoot(n, r)
  }

  lemma RootRange(n: nat, r: nat)
    requires InRange(n, r)
    ensures 16 <= r < 0xF_0000
  {}

  // After twenty halvings the distance is no more than the root itself.
  lemma TwentyHalvings(n: nat, r: nat, d: nat)
    requires InRange(n, r) && d * 0x10_0000 <= n
    ensures d <= r
  {
    RootRange(n, r);
    assert n <= r * (r + 2) by { assert (r + 1) * (r + 1) == r * (r + 2) + 1; }
    assert r * (r + 2) <= r * 0x10_0000;
  }

  lemma CancelRoot(r: nat, a: nat, b: nat, rest: nat, slack: nat)
    requires 0 < r && r * a <= r * b + rest && rest <= r * slack
    ensures a <= b + slack
  {}

  // A squaring step from a distance known to be a fraction of the root.
  lemma ScaledSquare(r: nat, d: nat, d': nat, m: nat, b: nat)
    requires m * d <= r + b && 2 * (r * d') <= d * d + 2 * r
    ensures r * (2 * (m * m) * d') <= r * (r + 2 * b + 2 * (m * m)) + b * b
  {
    SquareMonotone(m * d, r + b);
    MulMonotone(m * m, 2 * (r * d'), d * d + 2 * r);
    assert (m * d) * (m * d) == (m * m) * (d * d);
    assert (r + b) * (r + b) == r * r + 2 * (r * b) + b * b;
    Distribute(m * m, d * d, 2 * r);
    Distribute(r, r + 2 * b, 2 * (m * m));
    Distribute(r, r, 2 * b);
    assert r * (2 * (m * m) * d') == (m * m) * (2 * (r * d'));
    assert (m * m) * (2 * r) == r * (2 * (m * m));
    assert r * (2 * b) == 2 * (r * b);
  }

  // One squaring step at each of the four scales.
  lemma SquaringAtScale(r: nat, d: nat, d': nat, k: nat)
    requires 16 <= r && 20 <= k < 24 && 2 * (r * d') <= d * d + 2 * r
    requires k == 20 ==> d <= r
    requires k == 21 ==> 2 * d <= r + 2
    requires k == 22 ==> 8 * d <= r + 13
    requires k == 23 ==> 128 * d <= r + 165
    ensures k == 20 ==> 2 * d' <= r + 2
    ensures k == 21 ==> 8 * d' <= r + 13
    ensures k == 22 ==> 128 * d' <= r + 165
    ensures k == 23 ==> 32768 * d' <= r + 34800
  {
    match k
    case 20 => ScaledSquare(r, d, d', 1, 0); CancelRoot(r, 2 * d', r + 2, 0, 0);
    case 21 => ScaledSquare(r, d, d', 2, 2); CancelRoot(r, 8 * d', r + 12, 4, 1);
    case 22 => ScaledSquare(r, d, d', 8, 13); CancelRoot(r, 128 * d', r + 154, 169, 11);
    case _ => ScaledSquare(r, d, d', 128, 165); CancelRoot(r, 32768 * d', r + 33098, 27225, 1702);
  }

  // One more step, one more notch.
  lemma StepTightens(n: nat, r: nat, x: nat, k: nat)
    requires InRange(n, r) && r < x && Within(n, r, x - r, k)
    ensures r <= NewtonStep(n, x) && Within(n, r, NewtonStep(n, x) - r, k + 1)
  {
    RootRange(n, r);
    StepStaysAbove(n, r, x);
    StepHalves(n, r, x);
    StepSquares(n, r, x);
    var d := x - r;
    var d' := NewtonStep(n, x) - r;
    if k < 20 {
      HalvingKeeps(d, d', Pow2(k), n);
    } else if k < 24 {
      if k == 20 {
        TwentyDoublings();
        TwentyHalvings(n, r, d);
      }
      SquaringAtScale(r, d, d', k);
    } else {
      HalvingKeeps(d, d', Pow2(k - 24), 33);
    }
  }

  lemma HalvingKeeps(d: nat, d': nat, p: nat, bound: nat)
    requires 2 * d' <= d && d * p <= bound
    ensures d' * (2 * p) <= bound
  {}

  // Started anywhere within the bound for step k, Newton is at the floor root
  // by step 30 at the latest.
  lemma {:induction false} NewtonReachesFrom(n: nat, r: nat, x: nat, k: nat, steps: nat)
    requires InRange(n, r) && r <= x && Within(n, r, x - r, k) && 30 <= k + steps
    ensures 0 < x && Newton(n, x, steps) == r
    decreases steps
  {
    RootRange(n, r);
    StepHalves(n, r, x);
    if x != r {
      if steps == 0 {
        Pow2Grows(6, k - 24);
        NoDistanceLeft(x - r, Pow2(k - 24));
      } else {
        StepTightens(n, r, x, k);
        NewtonReachesFrom(n, r, NewtonStep(n, x), k + 1, steps - 1);
      }
    }
  }

  lemma NoDistanceLeft(d: nat, p: nat)
    requires d * p <= 33 && 64 <= p
    ensures d == 0
  {}

  lemma {:induction false} Pow2Grows(a: nat, b: nat)
    requires a <= b
    ensures Pow2(a) <= Pow2(b)
    decreases b
  {
    if a < b { Pow2Grows(a, b - 1); }
  }

  // For every positive 32-bit raw value, Newton's method from the radicand is
  // at the floor root within thirty of its thirty-two steps.
  lemma ThirtyStepsSuffice(raw: i32, steps: nat)
    requires 0 < raw && 30 <= steps
    ensures Newton(Radicand(raw), Radicand(raw), steps) == FloorRoot(Radicand(raw))
  {
    var n: nat := Radicand(raw);
    var r := FloorRoot(n);
    RootRange(n, r);
    MulMonotone(r, 1, r);
    NewtonReachesFrom(n, r, n, 0, steps);
  }

  function SaturatingMul(a: nat, b: nat): nat {
    if a * b < 0x8000_0000_0000_0000 then a * b else 0x7FFF_FFFF_FFFF_FFFF
  }

  // The two correction loops: whatever they start from they end on the floor
  // root, and started there they do no work.
  method Correct(n: nat, start: nat) returns (x: nat)
    requires n < 0x7FFF_FFFF_FFFF_FFFF
    ensures IsFloorRoot(n, x)
    ensures IsFloorRoot(n, start) ==> x == start
  {
    x := start;
    while x > 0 && SaturatingMul(x, x) > n
    {
      x := x - 1;
    }
    while SaturatingMul(x + 1, x + 1) <= n
      invariant x * x <= n
      decreases n - x
    {
      MulMonotone(x + 1, 1, x + 1);
      x := x + 1;
    }
    if IsFloorRoot(n, start) { FloorRootIsUnique(n, start, x); }
  }

  lemma NewtonIsEnough(raw: i32)
    requires 0 < raw
    ensures var x := Newton(Radicand(raw), Radicand(raw), 32);
            IsFloorRoot(Radicand(raw), x) && x < 0x8000_0000 && Wrap32(x) == x
  {
    ThirtyStepsSuffice(raw, 32);
    RootRange(Radicand(raw), FloorRoot(Radicand(raw)));
    WrapFits(FloorRoot(Radicand(raw)));
  }

  method NewtonLoop(n: nat) returns (x: nat)
    requires 0 < n
    ensures 0 < x && x == Newton(n, n, 32)
  {
    x := n;
    for i := 0 to 32
      invariant 0 < x && Newton(n, x, 32 - i) == Newton(n, n, 32)
    {
      var next := NewtonStep(n, x);
      if next >= x {
        break;
      }
      x := next;
    }
  }

  // The floor root: Newton alone gets there, and the correction finds nothing
  // to do.
  method Sqrt(raw: i32) returns (root: i32)
    ensures raw <= 0 ==> root == 0
    ensures raw > 0 ==> root >= 0 && IsFloorRoot(Radicand(raw), root) && root == Newton(Radicand(raw), Radicand(raw), 32)
  {
    if raw <= 0 {
      return 0;
    }
    var n := Radicand(raw);
    var x := NewtonLoop(n);
    NewtonIsEnough(raw);
    var y := Correct(n, x);
    root := Wrap32(y);
  }

  // ------------------------------------------------------------------ distance

  datatype P = P(x: i32, y: i32)

  function Sub(a: i32, b: i32): i32 {
    Wrap32(a - b)
  }

  function DistSq(a: P, b: P): i32 {
    var (dx, dy) := (Sub(a.x, b.x), Sub(a.y, b.y));
    Wrap32(Mul(dx, dx) + Mul(dy, dy))
  }

  ghost predicate IsRoot(raw: i32, root: int) {
    if raw <= 0 then root == 0 else root >= 0 && IsFloorRoot(Radicand(raw), root)
  }

  method Dist(a: P, b: P) returns (dist: i32)
    ensures IsRoot(DistSq(a, b), dist)
  {
    dist := Sqrt(DistSq(a, b));
  }

  function Square(n: int): nat {
    SquareIsNotNegative(n);
    n * n
  }

  // Neither the differences nor the sum of their floored squares wraps.
  predicate Fits(a: P, b: P) {
    && -0x8000_0000 <= a.x - b.x < 0x8000_0000
    && -0x8000_0000 <= a.y - b.y < 0x8000_0000
    && Shift8(Square(a.x - b.x)) + Shift8(Square(a.y - b.y)) < 0x8000_0000
  }

  // As they do between any two points less than 2048 units apart in each
  // direction.
  lemma NearPointsFit(a: P, b: P)
    requires Magnitude(a.x - b.x) < 0x8_0000 && Magnitude(a.y - b.y) < 0x8_0000
    ensures Fits(a, b)
  {
    NearSquare(a.x - b.x);
    NearSquare(a.y - b.y);
  }

  lemma NearSquare(d: int)
    requires Magnitude(d) < 0x8_0000
    ensures Shift8(Square(d)) < 0x4000_0000
  {
    var m := Magnitude(d);
    assert Square(d) == m * m;
    MulMonotone(m, m, 0x7_FFFF);
    MulMonotone(0x7_FFFF, m, 0x7_FFFF);
  }

  // Two floored squares and a floored root: while nothing wraps, the distance
  // between two points is never above the true one, and from one whole unit
  // up it is at most one raw step below.
  lemma DistIsOffByAtMostOne(a: P, b: P, exact: nat, dist: nat)
    requires Fits(a, b) && IsFloorRoot(Square(a.x - b.x) + Square(a.y - b.y), exact) && IsRoot(DistSq(a, b), dist)
    ensures dist <= exact
    ensures 256 <= exact ==> exact - 1 <= dist
  {
    WrapFits(a.x - b.x);
    WrapFits(a.y - b.y);
    assert Sub(a.x, b.x) == a.x - b.x && Sub(a.y, b.y) == a.y - b.y;
    FlooredSquares(a.x - b.x, a.y - b.y);
    FlooredSumRoots(Square(a.x - b.x) + Square(a.y - b.y), DistSq(a, b), exact, dist);
  }

  lemma FlooredSquares(dx: i32, dy: i32)
    requires Shift8(Square(dx)) + Shift8(Square(dy)) < 0x8000_0000
    ensures var sq := Wrap32(Mul(dx, dx) + Mul(dy, dy));
            0 <= sq && 256 * sq <= Square(dx) + Square(dy) <= 256 * sq + 510
  {
    MulIsFloored(dx);
    MulIsFloored(dy);
    WrapFits(Shift8(Square(dx)) + Shift8(Square(dy)));
  }

  lemma MulIsFloored(d: i32)
    requires Shift8(Square(d)) < 0x8000_0000
    ensures Mul(d, d) == Shift8(Square(d)) && 256 * Mul(d, d) <= Square(d) <= 256 * Mul(d, d) + 255
  {
    WrapFits(Shift8(Square(d)));
  }

  lemma FlooredSumRoots(n: nat, sq: i32, exact: nat, dist: nat)
    requires 0 <= sq && 256 * sq <= n <= 256 * sq + 510
    requires IsFloorRoot(n, exact) && IsRoot(sq, dist)
    ensures dist <= exact
    ensures 256 <= exact ==> exact - 1 <= dist
  {
    if exact + 1 <= dist { SquareMonotone(exact + 1, dist); }
    if 256 <= exact && dist + 1 <= exact - 1 {
      assert (exact - 1) * (exact - 1) == exact * exact - 2 * exact + 1;
      SquareMonotone(dist + 1, exact - 1);
    }
  }
}
