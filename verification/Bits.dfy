/** Bit operations on unsigned integers of any width, digit by digit, and the
    arithmetic they amount to where the operands do not overlap. */
module Bits {
  function Pow2(k: nat): (p: nat)
    ensures p > 0
  {
    if k == 0 then 1 else 2 * Pow2(k - 1)
  }

  lemma Pow2Step(k: nat)
    ensures Pow2(0) == 1 && Pow2(k + 1) == 2 * Pow2(k)
  {}

  lemma Pow2Values()
    ensures Pow2(2) == 4 && Pow2(8) == 0x100 && Pow2(16) == 0x1_0000 && Pow2(17) == 0x2_0000
    ensures Pow2(24) == 0x100_0000 && Pow2(32) == 0x1_0000_0000
  {
    Pow2Add(8, 8);
    Pow2Add(8, 16);
    Pow2Add(16, 16);
    assert Pow2(17) == 2 * Pow2(16);
  }

  function And(x: nat, y: nat): nat {
    if x == 0 || y == 0 then 0
    else 2 * And(x / 2, y / 2) + (if x % 2 == 1 && y % 2 == 1 then 1 else 0)
  }

  function Or(x: nat, y: nat): nat {
    if x == 0 then y
    else if y == 0 then x
    else 2 * Or(x / 2, y / 2) + (if x % 2 == 1 || y % 2 == 1 then 1 else 0)
  }

  function Shl(x: nat, k: nat): nat {
    if k == 0 then x else 2 * Shl(x, k - 1)
  }

  function Shr(x: nat, k: nat): nat {
    if k == 0 then x else Shr(x / 2, k - 1)
  }

  /** `!x` on a register of `width` bits. */
  function Not(x: nat, width: nat): nat
    requires x < Pow2(width)
  {
    Pow2(width) - 1 - x
  }

  lemma AndStep(x: nat, y: nat)
    ensures And(x, y) == 2 * And(x / 2, y / 2) + if x % 2 == 1 && y % 2 == 1 then 1 else 0
  {}

  lemma AndOdd(x: nat, m: nat)
    ensures And(x, 2 * m + 1) == 2 * And(x / 2, m) + x % 2
  {
    AndStep(x, 2 * m + 1);
    hide And;
    assert (2 * m + 1) / 2 == m;
  }

  lemma AndZero(x: nat)
    ensures And(x, 0) == 0 && And(0, x) == 0
  {}

  function Rest(x: nat, p: nat): nat
    requires p > 0
  {
    x % p
  }

  lemma RestDouble(x: nat, p: nat)
    requires p > 0
    ensures Rest(x, 2 * p) == 2 * Rest(x / 2, p) + x % 2
  {
    ModDouble(x, p);
  }

  lemma RestOne(x: nat)
    ensures Rest(x, 1) == 0
  {}

  lemma RestSmall(x: nat, p: nat)
    requires x < p
    ensures Rest(x, p) == x
  {
    DivModUnique(x, p, 0, x);
  }

  lemma {:induction false} AndRest(x: nat, k: nat)
    ensures And(x, Pow2(k) - 1) == Rest(x, Pow2(k))
  {
    hide And, Rest;
    if k == 0 {
      AndZero(x);
      RestOne(x);
    } else {
      AndRest(x / 2, k - 1);
      var p := Pow2(k - 1);
      assert Pow2(k) == 2 * p;
      hide Pow2;
      AndOdd(x, p - 1);
      RestDouble(x, p);
    }
  }

  lemma AndMask(x: nat, k: nat)
    ensures And(x, Pow2(k) - 1) == x % Pow2(k)
  {
    AndRest(x, k);
    hide And, Pow2;
  }

  lemma ModDouble(x: nat, p: nat)
    requires p > 0
    ensures x % (2 * p) == 2 * (x / 2 % p) + x % 2
  {
    var h := x / 2;
    var q, r := h / p, h % p;
    assert h == q * p + r;
    assert x == q * (2 * p) + (2 * r + x % 2) by {
      assert q * (2 * p) == 2 * (q * p);
    }
    DivModUnique(x, 2 * p, q, 2 * r + x % 2);
  }

  /** The quotient and the remainder are the only ones. */
  lemma DivModUnique(x: nat, d: nat, q: nat, r: nat)
    requires r < d && x == q * d + r
    ensures x / d == q && x % d == r
  {
    var q', r' := x / d, x % d;
    assert x == q' * d + r';
    if q < q' {
      MulStep(q, q', d);
    } else if q' < q {
      MulStep(q', q, d);
    }
  }

  lemma DivDiv(n: nat, d: nat, p: nat)
    requires d > 0 && p > 0
    ensures n / d / p == n / (d * p)
  {
    var q := n / d;
    var a, b := q / p, q % p;
    assert n == q * d + n % d;
    assert q == a * p + b;
    TopDigit(n, a, b, n % d, d, p);
  }

  lemma TopDigit(n: nat, a: nat, b: nat, c: nat, d: nat, p: nat)
    requires b < p && c < d && n == (a * p + b) * d + c
    ensures d * p > 0 && n / (d * p) == a
  {
    Digits(a, b, c, d, p);
    DivModUnique(n, d * p, a, b * d + c);
  }

  lemma Digits(a: nat, b: nat, c: nat, d: nat, p: nat)
    requires b < p && c < d
    ensures (a * p + b) * d + c == a * (d * p) + (b * d + c)
    ensures b * d + c < d * p
  {
    assert (a * p + b) * d == (a * p) * d + b * d;
    assert (a * p) * d == a * (d * p);
    MulStep(b, p, d);
  }

  lemma Multiples(k: int, d: nat)
    ensures k > 0 ==> k * d >= d
    ensures k < 0 ==> k * d <= 0 - d
  {}

  /** A whole number of periods more or less. */
  lemma ModShift(x: int, d: nat, e: int)
    requires d > 0
    ensures (x + e * d) % d == x % d
  {
    var q, r := x / d, x % d;
    var a, b := (x + e * d) / d, (x + e * d) % d;
    assert x == q * d + r && x + e * d == a * d + b;
    var k := a - q - e;
    assert k * d == a * d - q * d - e * d;
    Multiples(k, d);
  }

  lemma MulMono(a: nat, q: nat, r: nat)
    requires q <= r
    ensures a * q <= a * r
  {}

  lemma MulStep(a: nat, b: nat, d: nat)
    requires a < b
    ensures a * d + d <= b * d
  {
    if b == a + 1 {
      assert b * d == a * d + d;
    } else {
      MulStep(a, b - 1, d);
      assert b * d == (b - 1) * d + d;
    }
  }

  lemma AndDouble(x: nat, y: nat)
    ensures And(x, 2 * y) == 2 * And(x / 2, y)
  {
    AndStep(x, 2 * y);
    hide And;
    assert 2 * y / 2 == y;
  }

  lemma {:induction false} AndHigh(x: nat, k: nat, width: nat)
    requires k <= width && x < Pow2(width)
    ensures Pow2(k) <= Pow2(width)
    ensures And(x, Pow2(width) - Pow2(k)) + Rest(x, Pow2(k)) == x
  {
    hide And, Rest;
    if k == 0 {
      AndRest(x, width);
      assert Pow2(0) == 1;
      hide Pow2;
      RestOne(x);
      RestSmall(x, Pow2(width));
    } else {
      var p, q := Pow2(k - 1), Pow2(width - 1);
      AndHigh(x / 2, k - 1, width - 1);
      assert Pow2(k) == 2 * p && Pow2(width) == 2 * q;
      hide Pow2;
      AndDouble(x, q - p);
      RestDouble(x, p);
    }
  }

  /** Masking off the `k` low bits of a `width`-bit number rounds it down to a
      multiple of `2^k`. */
  lemma AndHighMask(x: nat, k: nat, width: nat)
    requires k <= width && x < Pow2(width)
    ensures Pow2(k) <= Pow2(width)
    ensures And(x, Pow2(width) - Pow2(k)) == x - x % Pow2(k)
  {
    AndHigh(x, k, width);
    hide And, Pow2;
  }

  lemma AndParts(x: nat, a: nat, y: nat, b: nat)
    requires a < 2 && b < 2
    ensures And(2 * x + a, 2 * y + b) == 2 * And(x, y) + a * b
  {
    AndStep(2 * x + a, 2 * y + b);
    hide And;
    assert (2 * x + a) / 2 == x && (2 * y + b) / 2 == y;
  }

  /** Masking off `m` where the number and `m` have the same `k` low bits leaves the bits
      above them that `m` does not have. */
  lemma {:induction false} AndNot(c: nat, d: nat, low: nat, k: nat, width: nat)
    requires k <= width && low < Pow2(k) && d < Pow2(width - k) && Shl(d, k) + low < Pow2(width)
    ensures And(Shl(c, k) + low, Not(Shl(d, k) + low, width)) == Shl(And(c, Not(d, width - k)), k)
  {
    hide And, Pow2, Shl;
    Pow2Step(0);
    if k == 0 {
      ShlStep(c, 0);
      ShlStep(d, 0);
      ShlStep(And(c, Not(d, width)), 0);
    } else {
      var x, m, q := Shl(c, k - 1) + low / 2, Shl(d, k - 1) + low / 2, Pow2(width - 1);
      Pow2Step(k - 1);
      Pow2Step(width - 1);
      ShlStep(c, k - 1);
      ShlStep(d, k - 1);
      ShlStep(And(c, Not(d, width - k)), k - 1);
      AndNot(c, d, low / 2, k - 1, width - 1);
      AndParts(x, low % 2, q - 1 - m, 1 - low % 2);
      assert Not(2 * m + low % 2, width) == 2 * (q - 1 - m) + (1 - low % 2);
    }
  }

  lemma ShlStep(x: nat, k: nat)
    ensures Shl(x, 0) == x && Shl(x, k + 1) == 2 * Shl(x, k)
  {}

  lemma {:induction false} ShlZero(k: nat)
    ensures Shl(0, k) == 0
  {
    if k != 0 {
      ShlZero(k - 1);
    }
  }

  lemma {:induction false} Pow2Less(i: nat, j: nat)
    requires Pow2(i) < Pow2(j)
    ensures i < j
  {
    if j != 0 && i != 0 {
      Pow2Less(i - 1, j - 1);
    }
  }

  /** Every number lies between two powers of two. */
  lemma {:induction false} FloorLog(a: nat) returns (k: nat)
    requires a > 0
    ensures Pow2(k) <= a < 2 * Pow2(k)
  {
    if a == 1 {
      k := 0;
    } else {
      k := FloorLog(a / 2);
      k := k + 1;
    }
  }

  /** A field shifted past the bits of another is joined to it without overlap. */
  lemma {:induction false} OrDisjoint(x: nat, y: nat, k: nat)
    requires x < Pow2(k)
    ensures Or(Shl(y, k), x) == Shl(y, k) + x
    ensures Or(x, Shl(y, k)) == x + Shl(y, k)
  {
    if k != 0 {
      OrDisjoint(x / 2, y, k - 1);
    }
  }

  lemma Shift2(x: nat)
    ensures Shl(x, 2) == 4 * x && Shr(x, 2) == x / 4
  {
    assert Shl(x, 2) == 2 * Shl(x, 1) && Shl(x, 1) == 2 * Shl(x, 0);
    assert Shr(x, 2) == Shr(x / 2, 1) && Shr(x / 2, 1) == Shr(x / 2 / 2, 0);
  }

  lemma {:induction false} ShlMul(x: nat, k: nat)
    ensures Shl(x, k) == x * Pow2(k)
  {
    if k != 0 {
      ShlMul(x, k - 1);
      assert x * (2 * Pow2(k - 1)) == 2 * (x * Pow2(k - 1));
    }
  }

  /** Shifting back undoes the shift and drops what was joined in below. */
  lemma {:induction false} ShrShl(x: nat, y: nat, k: nat)
    requires x < Pow2(k)
    ensures Shr(Shl(y, k) + x, k) == y
  {
    if k != 0 {
      ShrShl(x / 2, y, k - 1);
      assert (Shl(y, k) + x) / 2 == Shl(y, k - 1) + x / 2;
    }
  }

  lemma {:induction false} ShrDiv(n: nat, k: nat)
    ensures Shr(n, k) == n / Pow2(k)
  {
    if k != 0 {
      ShrDiv(n / 2, k - 1);
      DivDiv(n, 2, Pow2(k - 1));
    }
  }

  lemma {:induction false} Pow2Add(a: nat, b: nat)
    ensures Pow2(a + b) == Pow2(a) * Pow2(b)
  {
    if a != 0 {
      Pow2Add(a - 1, b);
      assert Pow2(a + b) == 2 * (Pow2(a - 1) * Pow2(b));
      assert 2 * (Pow2(a - 1) * Pow2(b)) == (2 * Pow2(a - 1)) * Pow2(b);
    }
  }
}
