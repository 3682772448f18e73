/** The number theory behind `permute_args`.

    Rotating a block of `a + b` slots by `b` positions decomposes into
    `gcd(a, b)` cycles.  This module says what a greatest common divisor is,
    independently of how it is computed, and proves that the cycles all have
    length `(a + b) / gcd(a, b)`, are pairwise disjoint and cover the block.
 */
module Cycles {

  // ----- divisibility -----

  ghost predicate Divides(d: int, n: int)
    requires d > 0
  {
    n % d == 0
  }

  /** `g` is the greatest common divisor of `a` and `b`: all others divide it. */
  ghost predicate IsGcd(g: int, a: int, b: int) {
    && g > 0
    && Divides(g, a) && Divides(g, b)
    && forall d: int :: d > 0 && Divides(d, a) && Divides(d, b) ==> Divides(d, g)
  }

  lemma MulAtLeast(d: int, k: int)
    requires d > 0
    ensures k >= 1 ==> d * k >= d
    ensures k <= -1 ==> d * k <= -d
  {
  }

  /** Quotient and remainder are unique. */
  lemma ModUnique(x: int, d: int, q: int, r: int)
    requires d > 0 && x == d * q + r && 0 <= r < d
    ensures x / d == q && x % d == r
  {
    var q', r' := x / d, x % d;
    assert d * (q - q') == r' - r by { MulSub(d, q, q'); }
    MulAtLeast(d, q - q');
  }

  lemma MulSub(d: int, u: int, v: int)
    ensures d * (u - v) == d * u - d * v
  {
  }

  lemma ModOfMultiple(d: int, q: int)
    requires d > 0
    ensures Divides(d, d * q) && (d * q) / d == q
  {
    ModUnique(d * q, d, q, 0);
  }

  lemma ExactQuotient(d: int, n: int)
    requires d > 0 && Divides(d, n)
    ensures n == d * (n / d)
  {
  }

  /** Adding a multiple of the modulus changes nothing. */
  lemma ModAddMultiple(x: int, d: int, q: int)
    requires d > 0
    ensures (x + d * q) % d == x % d
  {
    assert x == d * (x / d) + x % d;
    assert x + d * q == d * (x / d + q) + x % d;
    ModUnique(x + d * q, d, x / d + q, x % d);
  }

  /** A divisor of the modulus sees the same residue before and after reduction. */
  lemma ModOfMod(x: int, n: int, g: int)
    requires n > 0 && g > 0 && Divides(g, n)
    ensures (x % n) % g == x % g
  {
    var k := n / g;
    assert n == g * k;
    var q := x / n;
    assert x == n * q + x % n;
    assert n * q == g * (k * q);
    ModAddMultiple(x % n, g, k * q);
  }

  lemma DividesLinear(d: int, x: int, y: int, k: int)
    requires d > 0 && Divides(d, x) && Divides(d, y)
    ensures Divides(d, x + k * y)
  {
    var p, q := x / d, y / d;
    assert x == d * p && y == d * q;
    assert x + k * y == d * (p + k * q) by { assert k * (d * q) == d * (k * q); }
    ModOfMultiple(d, p + k * q);
  }

  lemma DividesAtMost(d: int, n: int)
    requires d > 0 && n > 0 && Divides(d, n)
    ensures d <= n
  {
    var k := n / d;
    assert n == d * k;
    assert k >= 1;
    assert d * k >= d;
  }

  /** The step of Euclid's algorithm keeps the common divisors. */
  lemma EuclidStep(a: int, b: int, d: int)
    requires b > 0 && d > 0
    ensures Divides(d, a) && Divides(d, b) <==> Divides(d, b) && Divides(d, a % b)
  {
    var q := a / b;
    assert a == b * q + a % b;
    if Divides(d, a) && Divides(d, b) {
      DividesLinear(d, a, b, -q);
      assert a + (-q) * b == a % b by { assert (-q) * b == -(b * q); }
    }
    if Divides(d, b) && Divides(d, a % b) {
      DividesLinear(d, a % b, b, q);
      assert a % b + q * b == a by { assert q * b == b * q; }
    }
  }

  /** Bezout: the greatest common divisor is an integer combination. */
  lemma Bezout(a: int, b: int, g: int) returns (x: int, y: int)
    requires a >= 0 && b > 0 && IsGcd(g, a, b)
    ensures x * a + y * b == g
    decreases b
  {
    if a % b == 0 {
      DividesAtMost(g, b);
      assert Divides(b, b) by { ModOfMultiple(b, 1); }
      DividesAtMost(b, g);
      x, y := 0, 1;
    } else {
      forall d: int | d > 0
        ensures Divides(d, a) && Divides(d, b) <==> Divides(d, b) && Divides(d, a % b)
      {
        EuclidStep(a, b, d);
      }
      var u, v := Bezout(b, a % b, g);
      var q := a / b;
      x, y := v, u - v * q;
      BackSubstitute(a, b, q, a % b, u, v, g);
    }
  }

  lemma BackSubstitute(a: int, b: int, q: int, r: int, u: int, v: int, g: int)
    requires a == b * q + r && u * b + v * r == g
    ensures v * a + (u - v * q) * b == g
  {
    calc {
      v * a + (u - v * q) * b;
      { assert (u - v * q) * b == u * b - v * (b * q); }
      v * a + u * b - v * (b * q);
      { assert v * a - v * (b * q) == v * (a - b * q); }
      u * b + v * r;
      g;
    }
  }

  // ----- the cycles of a rotation -----

  /** Where the slot at offset `p` goes when the first `a` slots and the last `b`
      slots of a block trade places. */
  function Target(a: int, b: int, p: int): int {
    if p >= a then p - a else p + b
  }

  /** The slot reached from `c` after `j` applications of `Target`. */
  ghost function Orbit(a: int, b: int, c: int, j: int): int
    requires a > 0 && b > 0
  {
    (c + j * b) % (a + b)
  }

  lemma OrbitStep(a: int, b: int, c: int, j: int)
    requires a > 0 && b > 0
    ensures 0 <= Orbit(a, b, c, j) < a + b
    ensures Orbit(a, b, c, j + 1) == Target(a, b, Orbit(a, b, c, j))
    ensures 0 <= c < a + b ==> Orbit(a, b, c, 0) == c
  {
    var n := a + b;
    var x := c + j * b;
    var p := x % n;
    assert x == n * (x / n) + p;
    assert c + (j + 1) * b == x + b;
    if p >= a {
      assert n * (x / n + 1) == n * (x / n) + n;
      ModUnique(x + b, n, x / n + 1, p - a);
    } else {
      ModUnique(x + b, n, x / n, p + b);
    }
    if 0 <= c < n {
      ModUnique(c, n, 0, c);
    }
  }

  /** Every slot on a cycle has the residue of the slot it starts from. */
  lemma OrbitResidue(a: int, b: int, g: int, c: int, j: int)
    requires a > 0 && b > 0 && g > 0 && Divides(g, a) && Divides(g, b)
    ensures Divides(g, a + b)
    ensures Orbit(a, b, c, j) % g == c % g
  {
    DividesLinear(g, a, b, 1);
    ModOfMod(c + j * b, a + b, g);
    var k := b / g;
    assert b == g * k;
    assert j * b == g * (j * k) by { assert j * (g * k) == g * (j * k); }
    ModAddMultiple(c, g, j * k);
  }

  lemma CancelFactor(g: int, u: int, v: int)
    requires g > 0 && g * u == g * v
    ensures u == v
  {
    MulSub(g, u, v);
    MulAtLeast(g, u - v);
  }

  /** If `d` steps of length `b` make whole turns of length `n`, and `g` is a combination of
      `b` and `n`, then `d` steps of length `g` make whole turns too. */
  lemma WholeTurns(d: int, b: int, n: int, m: int, w: int, x: int, g: int)
    requires d * b == n * m && g == w * b + x * n
    ensures d * g == n * (m * w + d * x)
  {
    calc {
      d * g;
      d * (w * b + x * n);
      w * (d * b) + n * (d * x);
      { SameProduct(w, d * b, n * m); }
      w * (n * m) + n * (d * x);
      n * (m * w + d * x);
    }
  }

  lemma SameProduct(w: int, u: int, v: int)
    requires u == v
    ensures w * u == w * v
  {
  }

  /** The combination of `b` and `a + b` that Bezout's gives. */
  lemma BezoutModulo(a: int, b: int, g: int) returns (w: int, x: int)
    requires a >= 0 && b > 0 && IsGcd(g, a, b)
    ensures g == w * b + x * (a + b)
  {
    var y;
    x, y := Bezout(a, b, g);
    w := y - x;
    assert (y - x) * b + x * (a + b) == x * a + y * b;
  }

  /** Two visits of a cycle to one slot are at least the cycle length apart. */
  lemma OrbitInjective(a: int, b: int, g: int, c: int, j: int, k: int)
    requires a > 0 && b > 0 && IsGcd(g, a, b)
    requires Orbit(a, b, c, j) == Orbit(a, b, c, k)
    requires 0 <= k - j < (a + b) / g
    ensures j == k
  {
    var n, d := a + b, k - j;
    OrbitResidue(a, b, g, c, 0);
    ExactQuotient(g, n);
    hide IsGcd, Divides;
    var m := TurnsBetween(b, n, c, j, k);
    var w, x := BezoutModulo(a, b, g);
    WholeTurns(d, b, n, m, w, x, g);
    MultipleBelow(g, d, n / g, n, m * w + d * x);
  }

  /** Less than `L` steps of length `g` make no whole turn of length `g * L` but the empty one. */
  lemma MultipleBelow(g: int, d: int, L: int, n: int, z: int)
    requires g > 0 && n == g * L && d * g == n * z && 0 <= d < L
    ensures d == 0
  {
    assert g * d == g * (L * z) by { assert (g * L) * z == g * (L * z); }
    CancelFactor(g, d, L * z);
    MulAtLeast(L, z);
  }

  lemma TurnsBetween(b: int, n: int, c: int, j: int, k: int) returns (m: int)
    requires n > 0 && (c + j * b) % n == (c + k * b) % n
    ensures (k - j) * b == n * m
  {
    var u, v := (c + k * b) / n, (c + j * b) / n;
    m := u - v;
    MulSub(n, u, v);
    MulSub(b, k, j);
  }

  /** Going once round: after `(a + b) / g` steps a cycle is back at its start. */
  lemma OrbitReturns(a: int, b: int, g: int, c: int)
    requires a > 0 && b > 0 && g > 0 && Divides(g, a) && Divides(g, b) && 0 <= c < a + b
    ensures (a + b) / g > 0 && Orbit(a, b, c, (a + b) / g) == c
  {
    OrbitResidue(a, b, g, c, 0);
    var n := a + b;
    var L, k := n / g, b / g;
    assert n == g * L && b == g * k;
    assert L * b == n * k by { assert L * (g * k) == (g * L) * k; }
    ModAddMultiple(c, n, k);
    ModUnique(c, n, 0, c);
    DividesAtMost(g, n);
    assert L > 0;
  }

  /** Every slot with the residue of `c` lies on the cycle through `c`. */
  lemma OrbitCovers(a: int, b: int, g: int, c: int, p: int) returns (j: int)
    requires a > 0 && b > 0 && IsGcd(g, a, b)
    requires 0 <= c < a + b && 0 <= p < a + b && c % g == p % g
    ensures 0 <= j < (a + b) / g && Orbit(a, b, c, j) == p
  {
    var n := a + b;
    OrbitReturns(a, b, g, c);
    OrbitResidue(a, b, g, c, 0);
    var L, k := n / g, p / g - c / g;
    ExactQuotient(g, n);
    assert p - c == g * k by { MulSub(g, p / g, c / g); }
    hide IsGcd;
    // g == w * b modulo n, so k * w steps lead from c to p, and whole rounds can be dropped
    var w, x := BezoutModulo(a, b, g);
    var s := k * w;
    j := s % L;
    var steps := RoundsAreTurns(s, L, g, b, n);
    var turns := StepsAcross(k, w, b, x, n, g);
    MulSub(n, turns, steps);
    ModAddMultiple(p, n, turns - steps);
    ModUnique(p, n, 0, p);
  }

  lemma StepsAcross(k: int, w: int, b: int, x: int, n: int, g: int) returns (turns: int)
    requires g == w * b + x * n
    ensures (k * w) * b == g * k + n * turns
  {
    turns := -(k * x);
    calc {
      g * k;
      (w * b + x * n) * k;
      (k * w) * b + n * (k * x);
    }
    assert n * turns == -(n * (k * x));
  }

  lemma RoundsAreTurns(s: int, L: int, g: int, b: int, n: int) returns (turns: int)
    requires g > 0 && Divides(g, b) && L > 0 && n == g * L
    ensures (s % L) * b == s * b - n * turns
  {
    var kb, t := b / g, s / L;
    assert b == g * kb;
    turns := t * kb;
    assert s % L == s - L * t;
    hide *;
    calc {
      (L * t) * b;
      { SameProduct(L * t, b, g * kb); }
      (L * t) * (g * kb);
      (g * L) * (t * kb);
    }
    assert (s - L * t) * b == s * b - (L * t) * b;
  }

  /** The `j`-th slot of the `i`-th cycle, the one `permute_args` starts at offset `a + i`. */
  ghost function CycleSlot(a: int, b: int, i: int, j: int): int
    requires a > 0 && b > 0
  {
    Orbit(a, b, a + i, j)
  }

  /** `q` lies on the `i`-th cycle of length `len`. */
  ghost predicate OnCycle(a: int, b: int, len: int, i: int, q: int)
    requires a > 0 && b > 0
  {
    exists j :: 0 <= j < len && CycleSlot(a, b, i, j) == q
  }

  /** The `i`-th cycle is back at its start after `len` steps and not before. */
  ghost predicate Closes(a: int, b: int, len: int, i: int)
    requires a > 0 && b > 0
  {
    && CycleSlot(a, b, i, len) == a + i
    && forall j :: 0 < j < len ==> CycleSlot(a, b, i, j) != a + i
  }

  lemma CycleCloses(a: int, b: int, g: int, i: int)
    requires a > 0 && b > 0 && IsGcd(g, a, b) && 0 <= i < b
    ensures Closes(a, b, (a + b) / g, i)
  {
    OrbitReturns(a, b, g, a + i);
    OrbitStep(a, b, a + i, 0);
    forall j | 0 < j < (a + b) / g ensures CycleSlot(a, b, i, j) != a + i {
      if CycleSlot(a, b, i, j) == a + i {
        OrbitInjective(a, b, g, a + i, 0, j);
      }
    }
  }

  /** Which cycle a slot is on can be read off its residue. */
  lemma OnCycleIff(a: int, b: int, g: int, i: int, q: int)
    requires a > 0 && b > 0 && IsGcd(g, a, b) && 0 <= i < g && 0 <= q < a + b
    ensures OnCycle(a, b, (a + b) / g, i, q) <==> q % g == i
  {
    DividesAtMost(g, b);
    StartResidue(a, g, i);
    if OnCycle(a, b, (a + b) / g, i, q) {
      var j :| 0 <= j < (a + b) / g && CycleSlot(a, b, i, j) == q;
      OrbitResidue(a, b, g, a + i, j);
    }
    if q % g == i {
      var j := OrbitCovers(a, b, g, a + i, q);
      assert CycleSlot(a, b, i, j) == q;
    }
  }

  /** Each of the `g` cycles closes after exactly `(a + b) / g` steps, and every slot is on
      exactly one of them: they are pairwise disjoint and cover the block. */
  lemma CyclesPartition(a: int, b: int, g: int, len: int)
    requires a > 0 && b > 0 && IsGcd(g, a, b) && len == (a + b) / g
    ensures forall i :: 0 <= i < g ==> Closes(a, b, len, i)
    ensures forall q :: 0 <= q < a + b ==> OnCycle(a, b, len, q % g, q)
    ensures forall q, i :: 0 <= q < a + b && 0 <= i < g && OnCycle(a, b, len, i, q) ==> i == q % g
  {
    DividesAtMost(g, b);
    forall i | 0 <= i < g ensures Closes(a, b, len, i) {
      CycleCloses(a, b, g, i);
    }
    forall q, i | 0 <= q < a + b && 0 <= i < g
      ensures OnCycle(a, b, len, i, q) <==> q % g == i
    {
      OnCycleIff(a, b, g, i, q);
    }
    forall q | 0 <= q < a + b ensures OnCycle(a, b, len, q % g, q) {
      OnCycleIff(a, b, g, q % g, q);
    }
  }

  lemma StartResidue(a: int, g: int, i: int)
    requires g > 0 && Divides(g, a) && 0 <= i < g
    ensures (a + i) % g == i
  {
    var k := a / g;
    assert a == g * k;
    ModUnique(a + i, g, k, i);
  }
}
