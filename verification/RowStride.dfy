/** The length of a row of pixels in memory, rounded up to an alignment. */
module RowStride {
  import opened Bits

  datatype ImageFormat = Raw | ABGR | ARGB

  function BytesPerPixel(fmt: ImageFormat): nat {
    if fmt.Raw? then 3 else 4
  }

  /** `(w * bytes_per_pixel + align - 1) & !(align - 1)` on a machine whose words have a
      number of bits. */
  function BytesPerRow(w: nat, fmt: ImageFormat, align: nat, bits: nat): nat
    requires 0 < align <= Pow2(bits) && w * BytesPerPixel(fmt) + align - 1 < Pow2(bits)
  {
    And(w * BytesPerPixel(fmt) + align - 1, Not(align - 1, bits))
  }

  predicate Multiple(m: nat, a: nat) {
    a > 0 && m % a == 0
  }

  /** The least multiple of `a` from `need` on. */
  predicate LeastMultipleFrom(r: nat, need: nat, a: nat) {
    Multiple(r, a) && need <= r < need + a
  }

  lemma IsLeast(r: nat, need: nat, a: nat, m: nat)
    requires LeastMultipleFrom(r, need, a) && Multiple(m, a) && need <= m
    ensures r <= m
  {
    var q, n := r / a, m / a;
    DivParts(r, a);
    DivParts(m, a);
    assert a * q < a * n + a == a * (n + 1);
    MulCancel(a, q, n + 1);
    MulMono(a, q, n);
  }

  lemma MaskRounds(need: nat, k: nat, bits: nat)
    requires k <= bits && need + Pow2(k) - 1 < Pow2(bits)
    ensures Pow2(k) <= Pow2(bits)
    ensures LeastMultipleFrom(And(need + Pow2(k) - 1, Not(Pow2(k) - 1, bits)), need, Pow2(k))
  {
    hide And, LeastMultipleFrom, Down;
    AndDown(need + Pow2(k) - 1, k, bits);
    Rounded(need, Pow2(k));
    hide Pow2;
  }

  function Down(x: nat, a: nat): nat
    requires a > 0
  {
    x - x % a
  }

  lemma AndDown(x: nat, k: nat, bits: nat)
    requires k <= bits && x < Pow2(bits)
    ensures Pow2(k) <= Pow2(bits) && And(x, Pow2(bits) - Pow2(k)) == Down(x, Pow2(k))
  {
    AndHighMask(x, k, bits);
  }

  lemma Rounded(need: nat, a: nat)
    requires a > 0
    ensures LeastMultipleFrom(Down(need + a - 1, a), need, a)
  {
    var x := need + a - 1;
    DivParts(x, a);
    DivModUnique(a * (x / a), a, x / a, 0);
  }

  /** For an alignment that is a power of two: a multiple of it, long enough for the
      pixels, and no longer than any such multiple. */
  lemma LeastMultiple(w: nat, fmt: ImageFormat, k: nat, bits: nat)
    requires k <= bits && w * BytesPerPixel(fmt) + Pow2(k) - 1 < Pow2(bits)
    ensures Pow2(k) <= Pow2(bits)
    ensures var r, need := BytesPerRow(w, fmt, Pow2(k), bits), w * (if fmt == Raw then 3 else 4);
            && Multiple(r, Pow2(k)) && need <= r < need + Pow2(k)
            && forall m: nat :: Multiple(m, Pow2(k)) && need <= m ==> r <= m
  {
    var need, a := w * BytesPerPixel(fmt), Pow2(k);
    hide And, Pow2, Multiple;
    MaskRounds(need, k, bits);
    var r := BytesPerRow(w, fmt, a, bits);
    forall m: nat | Multiple(m, a) && need <= m
      ensures r <= m
    {
      IsLeast(r, need, a, m);
    }
  }

  lemma DivParts(x: nat, a: nat)
    requires a > 0
    ensures x == a * (x / a) + x % a && 0 <= x % a < a
  {}

  lemma MulCancel(a: nat, q: nat, r: nat)
    requires a * q < a * r
    ensures q < r
  {}

  /** In a buffer of one row length for each row every pixel has its place, before the
      end of the buffer and before the next row. */
  lemma PixelInside(w: nat, h: nat, fmt: ImageFormat, k: nat, bits: nat, x: nat, y: nat)
    requires k <= bits && w * BytesPerPixel(fmt) + Pow2(k) - 1 < Pow2(bits)
    requires x < w && y < h
    ensures Pow2(k) <= Pow2(bits)
    ensures var r, b := BytesPerRow(w, fmt, Pow2(k), bits), if fmt == Raw then 3 else 4;
            && y * r + x * b + b <= (y + 1) * r
            && (y + 1) * r <= h * r
  {
    LeastMultiple(w, fmt, k, bits);
    Places(w, h, BytesPerRow(w, fmt, Pow2(k), bits), BytesPerPixel(fmt), x, y);
  }

  lemma Places(w: nat, h: nat, r: nat, b: nat, x: nat, y: nat)
    requires w * b <= r && x < w && y < h
    ensures y * r + x * b + b <= (y + 1) * r && (y + 1) * r <= h * r
  {
    MulMono(b, x + 1, w);
    MulMono(r, y + 1, h);
    assert b * (x + 1) == x * b + b && b * w == w * b;
    assert r * (y + 1) == (y + 1) * r == y * r + r && r * h == h * r;
  }

  // ----------------------------------------------------------------------
  // Which alignments the mask is right for
  // ----------------------------------------------------------------------

  ghost predicate AlwaysMultiple(fmt: ImageFormat, align: nat, bits: nat)
    requires 0 < align <= Pow2(bits)
  {
    forall w: nat :: Fits(w, fmt, align, bits) ==> Multiple(BytesPerRow(w, fmt, align, bits), align)
  }

  predicate Fits(w: nat, fmt: ImageFormat, align: nat, bits: nat) {
    w * BytesPerPixel(fmt) + align - 1 < Pow2(bits)
  }

  ghost predicate PowerOfTwo(a: nat) {
    exists k :: a == Pow2(k)
  }

  lemma NotMultiple(r: nat, a: nat, n: nat)
    requires a * n < r < a * n + a
    ensures !Multiple(r, a)
  {
    DivModUnique(r, a, n, r - a * n);
  }

  lemma {:induction false} Pow2NotFive(k: nat)
    ensures Pow2(k) % 5 != 0
  {
    hide Pow2;
    Pow2Step(0);
    if k != 0 {
      Pow2NotFive(k - 1);
      Pow2Step(k - 1);
    }
  }

  lemma TwelveIsNotFive(p: nat, a: nat)
    requires p % 5 != 0
    ensures 12 * p != 5 * a
  {}

  /** Between two powers of two there is no divisor of the next but one. */
  lemma TwelveTimes(p: nat, a: nat)
    requires 2 * p < a < 4 * p && p % 5 != 0 && a != 3 * p
    ensures !Multiple(12 * p, a)
  {
    hide Multiple;
    TwelveIsNotFive(p, a);
    if 12 * p < 4 * a {
      NotMultiple(12 * p, a, 3);
    } else if 12 * p < 5 * a {
      NotMultiple(12 * p, a, 4);
    } else {
      NotMultiple(12 * p, a, 5);
    }
  }

  /** A row whose length is a multiple of a power of two above the alignment stays as it is. */
  lemma StaysAsItIs(c: nat, align: nat, k: nat, bits: nat)
    requires k <= bits && 0 < align <= Pow2(k) <= Pow2(bits) && c < Pow2(bits - k)
    ensures And(Shl(c, k) + align - 1, Not(align - 1, bits)) == Shl(c, k)
  {
    hide And, Pow2, Multiple, Rest, Shl;
    ShlZero(k);
    AndNot(c, 0, align - 1, k, bits);
    AndRest(c, bits - k);
    RestSmall(c, Pow2(bits - k));
  }

  lemma FiveStays(p: nat)
    requires p > 0
    ensures And(5, 8 * p - 3) == 5
  {
    hide And;
    var y := 8 * p - 3;
    assert y == 2 * (4 * p - 2) + 1 && 4 * p - 2 == 2 * (2 * p - 1);
    AndOdd(5, 4 * p - 2);
    AndDouble(2, 2 * p - 1);
    AndOdd(1, p - 1);
    AndZero(p - 1);
  }

  /** The widths for which an alignment between two powers of two goes wrong. */
  lemma WrongWidth(fmt: ImageFormat, align: nat, k: nat, bits: nat) returns (w: nat)
    requires 0 < k && Pow2(k) < align < 2 * Pow2(k) && k + 3 <= bits
    ensures align <= Pow2(bits)
    ensures Fits(w, fmt, align, bits) && !Multiple(BytesPerRow(w, fmt, align, bits), align)
  {
    hide And, Pow2, Multiple, Shl;
    var p := Pow2(k - 1);
    Powers(k, bits);
    if fmt != Raw {
      w := p;
      ShlMul(1, k + 1);
      StaysAsItIs(1, align, k + 1, bits);
      NotMultiple(4 * p, align, 1);
    } else if align != 3 * p {
      w := 4 * p;
      ShlMul(3, k + 1);
      StaysAsItIs(3, align, k + 1, bits);
      Pow2NotFive(k - 1);
      TwelveTimes(p, align);
    } else {
      w := p;
      ThreeQuarters(k, bits);
      NotMultiple(5 * p, align, 1);
    }
  }

  lemma Powers(k: nat, bits: nat)
    requires 0 < k && k + 3 <= bits
    ensures var p, rest := Pow2(k - 1), Pow2(bits - (k + 3));
            && Pow2(k) == 2 * p && Pow2(k + 1) == 4 * p
            && Pow2(bits - (k + 1)) == 4 * rest && Pow2(bits - (k - 1)) == 16 * rest
            && Pow2(bits) >= 16 * p
  {
    hide Pow2;
    var n := bits - (k + 3);
    Pow2Step(k - 1);
    Pow2Step(k);
    Pow2Step(n);
    Pow2Step(n + 1);
    Pow2Step(n + 2);
    Pow2Step(n + 3);
    Pow2Add(k - 1, n + 4);
    MulMono(Pow2(k - 1), 16, 16 * Pow2(n));
  }

  lemma ThreeQuarters(k: nat, bits: nat)
    requires 0 < k && k + 3 <= bits && 3 * Pow2(k - 1) <= Pow2(bits)
    ensures var p := Pow2(k - 1);
            And(6 * p - 1, Not(3 * p - 1, bits)) == 5 * p
  {
    hide And, Pow2, Shl;
    var p, rest := Pow2(k - 1), Pow2(bits - (k + 3));
    Powers(k, bits);
    ShlMul(5, k - 1);
    ShlMul(2, k - 1);
    AndNot(5, 2, p - 1, k - 1, bits);
    FiveStays(2 * rest);
  }

  /** With room for some rows, the mask gives multiples of the alignment for every width
      exactly if the alignment is a power of two. */
  lemma AlwaysMultipleIff(fmt: ImageFormat, align: nat, bits: nat)
    requires 0 < align && 8 * align <= Pow2(bits)
    ensures AlwaysMultiple(fmt, align, bits) <==> PowerOfTwo(align)
  {
    hide And, Pow2, Multiple;
    var k := FloorLog(align);
    Pow2Step(0);
    Pow2Step(k);
    Pow2Step(k + 1);
    Pow2Step(k + 2);
    if align == Pow2(k) {
      Pow2Less(k, bits);
      forall w: nat | Fits(w, fmt, align, bits)
        ensures Multiple(BytesPerRow(w, fmt, align, bits), align)
      {
        LeastMultiple(w, fmt, k, bits);
      }
    } else {
      Pow2Less(k + 3, bits);
      var w := WrongWidth(fmt, align, k, bits);
      assert !AlwaysMultiple(fmt, align, bits);
      Between(align, k);
    }
  }

  lemma Between(a: nat, k: nat)
    requires Pow2(k) < a < 2 * Pow2(k)
    ensures !PowerOfTwo(a)
  {
    hide Pow2;
    if PowerOfTwo(a) {
      var j :| a == Pow2(j);
      Pow2Less(k, j);
      Pow2Step(k);
      Pow2Less(j, k + 1);
      assert false;
    }
  }
}
