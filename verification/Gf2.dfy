/**
  Polynomials over the two-element field and their division. A polynomial is the list of its coefficients,
  lowest degree first; trailing false coefficients do not matter.
*/
module Gf2 {

  type Poly = seq<bool>

  predicate Coef(p: Poly, i: int) {
    0 <= i < |p| && p[i]
  }

  function Max(a: nat, b: nat): nat {
    if a < b then b else a
  }

  function Add(p: Poly, q: Poly): Poly {
    seq(Max(|p|, |q|), i => Coef(p, i) != Coef(q, i))
  }

  /** Schoolbook product: q = q0 + x * q'. */
  function Mul(q: Poly, g: Poly): Poly {
    if q == [] then [] else Add(if q[0] then g else [], [false] + Mul(q[1..], g))
  }

  function Zeros(n: nat): Poly {
    seq(n, i => false)
  }

  /** x^n * p. */
  function Shifted(n: nat, p: Poly): Poly {
    Zeros(n) + p
  }

  function Tail(q: Poly): Poly {
    if q == [] then [] else q[1..]
  }

  /** One coefficient of a product. */
  lemma MulCoef(q: Poly, g: Poly, i: int)
    ensures Coef(Mul(q, g), i) == ((Coef(q, 0) && Coef(g, i)) != Coef(Mul(Tail(q), g), i - 1))
  {
    if q != [] {
      var rest := Mul(q[1..], g);
      assert Coef([false] + rest, i) == Coef(rest, i - 1);
    }
  }

  /** m == q * g + r. */
  ghost predicate Divided(m: Poly, q: Poly, g: Poly, r: Poly) {
    forall i :: Coef(m, i) == (Coef(Mul(q, g), i) != Coef(r, i))
  }

  /** r is a remainder of m modulo the monic polynomial g of degree |r|. */
  ghost predicate IsRemainder(m: Poly, g: Poly, r: Poly) {
    |g| == |r| + 1 && g[|r|] && exists q :: Divided(m, q, g, r)
  }

  /** Products that agree from the degree of g on agree everywhere. */
  lemma {:induction false} MulDetermined(q1: Poly, q2: Poly, g: Poly, n: nat)
    requires |g| == n + 1 && g[n]
    requires forall i :: i >= n ==> Coef(Mul(q1, g), i) == Coef(Mul(q2, g), i)
    ensures forall i :: Coef(Mul(q1, g), i) == Coef(Mul(q2, g), i)
    decreases |q1| + |q2|
  {
    if q1 == [] && q2 == [] { return; }
    forall i | i >= n ensures Coef(Mul(Tail(q1), g), i) == Coef(Mul(Tail(q2), g), i) {
      MulCoef(q1, g, i + 1);
      MulCoef(q2, g, i + 1);
      assert Coef(Mul(q1, g), i + 1) == Coef(Mul(q2, g), i + 1);
    }
    MulDetermined(Tail(q1), Tail(q2), g, n);
    MulCoef(q1, g, n);
    MulCoef(q2, g, n);
    assert Coef(q1, 0) == Coef(q2, 0);
    forall i ensures Coef(Mul(q1, g), i) == Coef(Mul(q2, g), i) {
      MulCoef(q1, g, i);
      MulCoef(q2, g, i);
      assert Coef(Mul(Tail(q1), g), i - 1) == Coef(Mul(Tail(q2), g), i - 1);
    }
  }

  /** The remainder is unique. */
  lemma RemainderUnique(m: Poly, g: Poly, r1: Poly, r2: Poly)
    requires IsRemainder(m, g, r1) && IsRemainder(m, g, r2)
    ensures r1 == r2
  {
    var n := |r1|;
    var q1 :| Divided(m, q1, g, r1);
    var q2 :| Divided(m, q2, g, r2);
    forall i | i >= n ensures Coef(Mul(q1, g), i) == Coef(Mul(q2, g), i) {
      assert Coef(m, i) == (Coef(Mul(q1, g), i) != Coef(r1, i));
      assert Coef(m, i) == (Coef(Mul(q2, g), i) != Coef(r2, i));
    }
    MulDetermined(q1, q2, g, n);
    forall i | 0 <= i < n ensures r1[i] == r2[i] {
      assert Coef(m, i) == (Coef(Mul(q1, g), i) != Coef(r1, i));
      assert Coef(m, i) == (Coef(Mul(q2, g), i) != Coef(r2, i));
      assert Coef(Mul(q1, g), i) == Coef(Mul(q2, g), i);
    }
  }

  // ---------------------------------------------------------------- shift registers

  /** Shift the register up by one, entering bit at the bottom, and reduce by g when top is set. */
  function ShiftIn(r: Poly, bit: bool, top: bool, g: Poly): Poly
    requires 0 < |r| <= |g|
  {
    seq(|r|, i requires 0 <= i < |r| => (if i == 0 then bit else r[i - 1]) != (top && g[i]))
  }

  lemma ZeroRemainder(g: Poly, n: nat)
    requires |g| == n + 1 && g[n]
    ensures IsRemainder([], g, Zeros(n)) && IsRemainder(Shifted(n, []), g, Zeros(n))
  {
    assert Divided([], [], g, Zeros(n));
    assert Divided(Shifted(n, []), [], g, Zeros(n));
  }

  /** One step of long division: the next bit of the dividend enters at the bottom of the register. */
  lemma DivideStep(m: Poly, g: Poly, r: Poly, b: bool)
    requires |r| > 0 && IsRemainder(m, g, r)
    ensures IsRemainder([b] + m, g, ShiftIn(r, b, r[|r| - 1], g))
  {
    var q :| Divided(m, q, g, r);
    var t := r[|r| - 1];
    var r' := ShiftIn(r, b, t, g);
    assert Divided([b] + m, [t] + q, g, r') by {
      forall i ensures Coef([b] + m, i) == (Coef(Mul([t] + q, g), i) != Coef(r', i)) {
        MulCoef([t] + q, g, i);
        assert ([t] + q)[1..] == q;
        assert Coef(m, i - 1) == (Coef(Mul(q, g), i - 1) != Coef(r, i - 1));
      }
    }
  }

  lemma ShiftedCoef(n: nat, b: bool, m: Poly, i: int)
    ensures Coef(Shifted(n, [b] + m), i) == if i == n then b else Coef(Shifted(n, m), i - 1)
    ensures i == n ==> !Coef(Shifted(n, m), i - 1)
  {
  }

  lemma ShiftInCoef(r: Poly, t: bool, g: Poly, i: int)
    requires 0 < |r| <= |g|
    ensures Coef(ShiftIn(r, false, t, g), i) == (i < |r| && Coef(r, i - 1) != (t && Coef(g, i)))
  {
  }

  /** One step of division of the dividend times x^|r|: the next bit meets the top of the register. */
  lemma AugmentedStep(m: Poly, g: Poly, r: Poly, b: bool)
    requires |r| > 0 && IsRemainder(Shifted(|r|, m), g, r)
    ensures IsRemainder(Shifted(|r|, [b] + m), g, ShiftIn(r, false, r[|r| - 1] != b, g))
  {
    var q :| Divided(Shifted(|r|, m), q, g, r);
    AugmentedDivided(m, q, g, r, b);
  }

  lemma AugmentedDivided(m: Poly, q: Poly, g: Poly, r: Poly, b: bool)
    requires |r| > 0 && |g| == |r| + 1 && g[|r|] && Divided(Shifted(|r|, m), q, g, r)
    ensures Divided(Shifted(|r|, [b] + m), [r[|r| - 1] != b] + q, g, ShiftIn(r, false, r[|r| - 1] != b, g))
  {
    hide Shifted, ShiftIn, Mul;
    var n := |r|;
    var t := r[n - 1] != b;
    forall i ensures Coef(Shifted(n, [b] + m), i) == (Coef(Mul([t] + q, g), i) != Coef(ShiftIn(r, false, t, g), i)) {
      MulCoef([t] + q, g, i);
      assert ([t] + q)[1..] == q;
      assert Coef(Shifted(n, m), i - 1) == (Coef(Mul(q, g), i - 1) != Coef(r, i - 1));
      ShiftedCoef(n, b, m, i);
      ShiftInCoef(r, t, g, i);
    }
  }

  /** Feeding a register bit by bit, each entering at the bottom. */
  function DivideBits(r: Poly, bits: seq<bool>, g: Poly): (out: Poly)
    requires 0 < |r| < |g|
    ensures |out| == |r|
    decreases |bits|
  {
    if bits == [] then r else DivideBits(ShiftIn(r, bits[0], r[|r| - 1], g), bits[1..], g)
  }

  lemma {:induction false} DivideConcat(r: Poly, a: seq<bool>, b: seq<bool>, g: Poly)
    requires 0 < |r| < |g|
    ensures DivideBits(r, a + b, g) == DivideBits(DivideBits(r, a, g), b, g)
    decreases |a|
  {
    if a == [] {
      assert a + b == b;
    } else {
      hide ShiftIn;
      assert (a + b)[1..] == a[1..] + b;
      ShiftInLength(r, a[0], r[|r| - 1], g);
      DivideConcat(ShiftIn(r, a[0], r[|r| - 1], g), a[1..], b, g);
    }
  }

  lemma ShiftInLength(r: Poly, bit: bool, top: bool, g: Poly)
    requires 0 < |r| <= |g|
    ensures |ShiftIn(r, bit, top, g)| == |r|
  {
  }
}
