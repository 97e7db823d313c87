/**
  The 3SF-mini justifiability rule: a slot may be justified when its distance from
  the finalized slot is at most five, a square, or a pronic number.
 */
module Justifiability {
  import opened Containers

  function Square(k: nat): nat { k * k }

  function Pronic(k: nat): nat { k * (k + 1) }

  ghost predicate IsSquare(d: nat) { exists k: nat :: Square(k) == d }

  ghost predicate IsPronic(d: nat) { exists k: nat :: Pronic(k) == d }

  ghost predicate JustifiableDistance(d: nat) {
    d <= 5 || IsSquare(d) || IsPronic(d)
  }

  ghost predicate JustifiableAfter(slot: nat, finalized: nat) {
    slot >= finalized && JustifiableDistance(slot - finalized)
  }

  // ---------------------------------------------------------------- integer root

  function Pow2(e: nat): (p: nat)
    ensures p >= 1
  {
    if e == 0 then 1 else 2 * Pow2(e - 1)
  }

  lemma {:induction false} Pow2Adds(a: nat, b: nat)
    ensures Pow2(a + b) == Pow2(a) * Pow2(b)
    decreases b
  {
    if b > 0 {
      Pow2Adds(a, b - 1);
      assert Pow2(a) * Pow2(b) == 2 * (Pow2(a) * Pow2(b - 1));
    }
  }

  lemma {:induction false} Pow2Monotone(a: nat, b: nat)
    requires a <= b
    ensures Pow2(a) <= Pow2(b)
    decreases b - a
  {
    if a < b { Pow2Monotone(a, b - 1); }
  }

  /** The bit length of `n`: 64 minus its leading zeros. */
  function BitLength(n: nat): (b: nat)
    ensures n < Pow2(b)
    ensures n > 0 ==> b > 0 && Pow2(b - 1) <= n
  {
    if n == 0 then 0 else 1 + BitLength(n / 2)
  }

  lemma BitLengthOfU64(n: U64)
    ensures BitLength(n) <= 64
  {
    if BitLength(n) > 64 {
      Pow2Monotone(64, BitLength(n) - 1);
      Pow2Of64();
    }
  }

  lemma Pow2Of64()
    ensures Pow2(32) == 0x1_0000_0000 && Pow2(64) == 0x1_0000_0000_0000_0000
  {
    Pow2Of16();
    hide Pow2;
    Pow2Adds(16, 16);
    Pow2Adds(32, 32);
  }

  lemma Pow2Of16()
    ensures Pow2(16) == 65536
  {
    assert Pow2(2) == 4;
    hide Pow2;
    Pow2Adds(2, 2);
    Pow2Adds(4, 4);
    Pow2Adds(8, 8);
  }

  /** One Newton step from above the root never falls below the root. */
  lemma NewtonStepStaysAbove(n: nat, x: nat, q: nat, m: nat)
    requires x > 0 && q == n / x && m == (x + q) / 2
    ensures n < Square(m + 1)
    ensures q >= x ==> Square(x) <= n
  {
    if q >= x { MulMonotone(x, x, q); assert x * q == q * x <= n; }
    assert n == q * x + n % x;
    assert (q + 1) * x == q * x + x;
    assert x + q + 1 <= 2 * (m + 1);
    AmGm(q + 1, x, m + 1);
  }

  /** The product of two numbers is at most the square of half their sum. */
  lemma AmGm(a: nat, b: nat, c: nat)
    requires a + b <= 2 * c
    ensures a * b <= c * c
  {
    var d := c - a;
    if a <= c {
      assert b <= c + d;
      assert a * b <= a * (c + d) by { MulMonotone(a, b, c + d); }
      assert a * (c + d) == (c - d) * (c + d) == c * c - d * d;
      assert d * d >= 0;
    } else {
      var e := a - c;
      assert b <= c - e;
      assert a * b <= a * (c - e) by { MulMonotone(a, b, c - e); }
      assert a * (c - e) == (c + e) * (c - e) == c * c - e * e;
      assert e * e >= 0;
    }
  }

  lemma MulMonotone(a: nat, b: int, c: int)
    requires b <= c
    ensures a * b <= a * c
  {
  }

  function Newton(n: nat, x: nat): nat
    requires x > 0
  {
    (x + n / x) / 2
  }

  lemma NewtonStep(n: U64, x: nat)
    requires n >= 2 && x > 0 && n < Square(x + 1)
    ensures Newton(n, x) > 0 && n < Square(Newton(n, x) + 1)
    ensures Newton(n, x) >= x ==> Square(x) <= n && x < 0x1_0000_0000
  {
    NewtonStepStaysAbove(n, x, n / x, Newton(n, x));
    assert Square(0 + 1) == 1;
    hide Square;
    if Newton(n, x) >= x { RootBelow32Bits(n, x); }
  }

  /** Newton iteration seeded at a power of two above the root. Every intermediate
      value fits in 33 bits, so nothing in it overflows a `u64`. */
  method Isqrt(n: U64) returns (r: U64)
    ensures Square(r) <= n < Square(r + 1)
    ensures r < 0x1_0000_0000
  {
    if n < 2 {
      assert Square(n) == n && Square(n + 1) > n;
      return n;
    }
    hide Square, Pronic, Newton, Pow2, BitLength;
    var bits := BitLength(n);
    var x := Pow2((bits + 1) / 2);
    SeedIsAbove(n, bits, x);
    while true
      invariant 0 < x <= 0x1_0000_0000
      invariant n < Square(x + 1)
      decreases x
    {
      NewtonStep(n, x);
      var next := Newton(n, x);
      if next >= x { return x; }
      x := next;
    }
  }

  lemma SeedIsAbove(n: U64, bits: nat, x: nat)
    requires n >= 2 && bits == BitLength(n) && x == Pow2((bits + 1) / 2)
    ensures x <= 0x1_0000_0000 && n < Square(x + 1)
  {
    var half := (bits + 1) / 2;
    BitLengthOfU64(n);
    Pow2Of64();
    Pow2Monotone(half, 32);
    Pow2Monotone(bits, half + half);
    Pow2Adds(half, half);
    SquareMonotone(x, x + 1);
    assert Square(x) == x * x;
  }

  lemma RootBelow32Bits(n: U64, x: nat)
    requires Square(x) <= n
    ensures x < 0x1_0000_0000
  {
    assert Square(0x1_0000_0000) == 0x1_0000_0000_0000_0000;
    if x >= 0x1_0000_0000 { SquareMonotone(0x1_0000_0000, x); }
  }

  // ---------------------------------------------------------------- the rule

  lemma SquareMonotone(a: nat, b: nat)
    requires a <= b
    ensures Square(a) <= Square(b) && Pronic(a) <= Pronic(b)
  {
    MulMonotone(a, a, b);
    MulMonotone(b, a, b);
    MulMonotone(a, a + 1, b + 1);
    MulMonotone(b + 1, a, b);
  }

  /** Testing against the integer root alone decides squares and pronics. */
  lemma RootDecides(d: nat, s: nat)
    requires Square(s) <= d < Square(s + 1)
    ensures IsSquare(d) <==> d == Square(s)
    ensures IsPronic(d) <==> d == Pronic(s)
  {
    if IsSquare(d) {
      var k: nat :| Square(k) == d;
      assert Square(k + 1) == Square(k) + 2 * k + 1;
      if k < s { SquareMonotone(k + 1, s); }
      if k > s { SquareMonotone(s + 1, k); }
    }
    if IsPronic(d) {
      var k: nat :| Pronic(k) == d;
      assert Pronic(k) == Square(k) + k && Square(k + 1) == Pronic(k) + k + 1;
      if k < s { SquareMonotone(k + 1, s); }
      if k > s { SquareMonotone(s + 1, k); }
    }
  }

  lemma ProductsFit(s: nat)
    requires s < 0x1_0000_0000
    ensures Square(s) <= Pronic(s) <= U64_MAX
  {
    SquareMonotone(s, 0xFFFF_FFFF);
    assert Pronic(s) == Square(s) + s;
  }

  /** `Slot::is_justifiable_after`: decides the rule with one integer root. */
  method IsJustifiableAfter(slot: Slot, finalized: Slot) returns (b: bool)
    ensures b <==> JustifiableAfter(slot, finalized)
  {
    if slot < finalized { return false; }
    var delta := slot - finalized;
    if delta <= 5 { return true; }
    var s := Isqrt(delta);
    ProductsFit(s);
    var square: U64, pronic: U64 := Square(s), Pronic(s);
    RootDecides(delta, s);
    b := delta == square || delta == pronic;
  }

  /** Justifiable distances are never far apart: below every distance there is one
      within the integer root of it. */
  lemma JustifiableDistanceNearby(d: nat, s: nat) returns (j: nat)
    requires Square(s) <= d < Square(s + 1)
    ensures j <= d && d - j <= s && JustifiableDistance(j)
  {
    assert Square(s + 1) == Square(s) + 2 * s + 1 && Pronic(s) == Square(s) + s;
    j := if d >= Pronic(s) then Pronic(s) else Square(s);
  }
}
