/**
  The fractional divisor search of exos/support/lpc17/uart.c. The bus clock pclk is divided by q * b, where b
  is sixteen times the baud rate; the rest r = pclk - q * b is spread by a multiplier m, at most 15 in the
  hardware register. While m is too large the search lowers q.
*/
module Uart {

  import opened Words

  // ---------------------------------------------------------------- one turn of the search

  function Multiplier(b: int, q: int, r: int): int
    requires r > 0
  {
    (b * q + (r - 1)) / r
  }

  function Lowering(b: int, q: int, r: int): int
    requires b > 0
  {
    (b * q + 15 * r) / (16 * b)
  }

  /** m is the least multiplier whose rate is not below the target. */
  predicate Least(b: int, q: int, r: int, m: int) {
    r * (m - 1) < b * q <= r * m
  }

  lemma MultiplierIsLeast(b: int, q: int, r: int)
    requires r > 0
    ensures Least(b, q, r, Multiplier(b, q, r))
  {
    var x := b * q + (r - 1);
    var m := x / r;
    assert r * m <= x < r * m + r;
    assert r * (m - 1) == r * m - r;
  }

  lemma LeastBelow(b: int, q: int, r: int, m: int, k: int)
    requires r > 0 && Least(b, q, r, m)
    ensures m <= k <==> b * q <= r * k
  {
    if m <= k {
      assert r * m <= r * k;
    } else {
      assert r * k <= r * (m - 1);
    }
  }

  lemma MultiplierBelow(b: int, q: int, r: int, k: int)
    requires r > 0
    ensures Multiplier(b, q, r) <= k <==> b * q <= r * k
  {
    MultiplierIsLeast(b, q, r);
    LeastBelow(b, q, r, Multiplier(b, q, r), k);
  }

  lemma LoweringBounds(b: int, q: int, r: int)
    requires b > 0 && q >= 0 && r >= 0
    ensures var d := Lowering(b, q, r);
            && 16 * (b * d) <= b * q + 15 * r
            && (d >= 1 <==> b * q + 15 * r >= 16 * b)
            && (d >= 1 ==> b * d >= b)
            && d >= 0
  {
    assert b * q >= 0;
    QuotientBounds(b * q + 15 * r, 16 * b);
    var d := Lowering(b, q, r);
    assert (16 * b) * d == 16 * (b * d);
    if d >= 1 {
      assert b * d >= b * 1;
    }
  }

  lemma QuotientBounds(x: int, c: int)
    requires x >= 0 && c > 0
    ensures var d := x / c; d >= 0 && c * d <= x && (d >= 1 <==> x >= c)
  {
    var d := x / c;
    assert x == c * d + x % c;
    if d >= 1 {
      assert c * d >= c * 1;
    } else {
      assert c * d <= 0;
    }
  }

  /** The state of the search: a quotient with its rest. */
  ghost predicate Good(pclk: int, b: int, q: int) {
    b > 0 && q >= 0 && pclk - q * b > 0
  }

  /** A turn that does not end the search and does lower q leaves a state from which every turn lowers q,
      and whose multiplier is at least 5. */
  lemma Turn(pclk: int, b: int, q: int)
    requires Good(pclk, b, q)
    requires var r := pclk - q * b; b * q > 15 * r && b * q + 15 * r >= 16 * b
    ensures var r := pclk - q * b;
            var d := Lowering(b, q, r);
            var q' := q - d;
            var r' := pclk - q' * b;
            && 0 < q' < q && r' > 0
            && b * q' + 15 * r' >= 16 * b
            && b * q' > 4 * r'
  {
    var r := pclk - q * b;
    LoweringBounds(b, q, r);
    var d := Lowering(b, q, r);
    var q' := q - d;
    assert b * q' == b * q - b * d;
    assert q' * b == b * q';
    PositiveFactor(b, q');
  }

  lemma PositiveFactor(b: int, q: int)
    requires b > 0 && b * q > 0
    ensures q > 0
  {
  }

  // ---------------------------------------------------------------- when the search ends

  /** The search from q ends within n further turns. */
  ghost predicate HaltsIn(pclk: int, b: int, q: int, n: nat)
    requires b > 0
    decreases n
  {
    var r := pclk - q * b;
    r > 0 && (Multiplier(b, q, r) <= 15 || (n > 0 && HaltsIn(pclk, b, q - Lowering(b, q, r), n - 1)))
  }

  /** The first turn either ends the search or lowers q. */
  predicate Starts(pclk: int, b: int, q: int) {
    var r := pclk - q * b;
    b * q <= 15 * r || b * q + 15 * r >= 16 * b
  }

  lemma {:induction false} Halts(pclk: int, b: int, q: int)
    requires Good(pclk, b, q) && Starts(pclk, b, q)
    ensures HaltsIn(pclk, b, q, q)
    decreases q
  {
    var r := pclk - q * b;
    MultiplierBelow(b, q, r, 15);
    if b * q > 15 * r {
      Turn(pclk, b, q);
      var q' := q - Lowering(b, q, r);
      Halts(pclk, b, q');
      HaltsLater(pclk, b, q', q', q - 1);
    }
  }

  lemma {:induction false} HaltsLater(pclk: int, b: int, q: int, n: nat, k: nat)
    requires b > 0 && HaltsIn(pclk, b, q, n) && n <= k
    ensures HaltsIn(pclk, b, q, k)
    decreases n
  {
    hide Multiplier, Lowering;
    var r := pclk - q * b;
    if Multiplier(b, q, r) > 15 {
      HaltsLater(pclk, b, q - Lowering(b, q, r), n - 1, k - 1);
    }
  }

  lemma {:induction false} Stuck(pclk: int, b: int, q: int, n: nat)
    requires Good(pclk, b, q) && !Starts(pclk, b, q)
    ensures !HaltsIn(pclk, b, q, n)
    decreases n
  {
    var r := pclk - q * b;
    MultiplierBelow(b, q, r, 15);
    LoweringBounds(b, q, r);
    hide Multiplier, Lowering;
    if n > 0 {
      Stuck(pclk, b, q, n - 1);
    }
  }

  ghost predicate Ends(pclk: int, b: int, q: int)
    requires b > 0
  {
    exists n: nat :: HaltsIn(pclk, b, q, n)
  }

  /** The search ends exactly when its first turn ends it or lowers q. */
  lemma HaltsIff(pclk: int, b: int, q: int)
    requires Good(pclk, b, q)
    ensures Ends(pclk, b, q) <==> Starts(pclk, b, q)
  {
    if Starts(pclk, b, q) {
      Halts(pclk, b, q);
      var n: nat := q;
      assert HaltsIn(pclk, b, q, n);
      assert Ends(pclk, b, q);
    } else {
      forall n: nat ensures !HaltsIn(pclk, b, q, n) {
        Stuck(pclk, b, q, n);
      }
    }
  }

  /** A quotient of 16 or more always starts. */
  lemma LargeStarts(pclk: int, b: int)
    requires b > 0 && pclk / b >= 16
    ensures var q := pclk / b;
            var r := pclk - q * b;
            0 <= r < b && b * q > 15 * r && Starts(pclk, b, q) && 16 * b <= b * q <= pclk
  {
    var q := pclk / b;
    assert pclk == b * q + pclk % b;
    assert q * b == b * q;
    assert b * q >= b * 16;
  }

  /** One clock and rate at which the search never ends. */
  lemma NeverEnds(n: nat)
    ensures 16_016 / 16_000 == 1 && !HaltsIn(16_016, 16_000, 1, n)
  {
    Stuck(16_016, 16_000, 1, n);
  }

  // ---------------------------------------------------------------- the routine

  function Mul32(a: int, c: int): int {
    (a * c) % WORD
  }

  function Add32(a: int, c: int): int {
    (a + c) % WORD
  }

  function Sub32(a: int, c: int): int {
    (a - c) % WORD
  }

  lemma NoWrap(x: int)
    requires 0 <= x < WORD
    ensures x % WORD == x
  {
  }

  lemma Sum32(a: int, c: int, e: int)
    requires 0 <= a * c && 0 <= e && a * c + e < WORD
    ensures Add32(Mul32(a, c), e) == a * c + e
  {
    NoWrap(a * c);
    NoWrap(a * c + e);
  }

  lemma Rest32(pclk: int, q: int, b: int)
    requires 0 <= q * b <= pclk < WORD
    ensures Sub32(pclk, Mul32(q, b)) == pclk - q * b
  {
    NoWrap(q * b);
    NoWrap(pclk - q * b);
  }

  /** The multiplier of a turn does not wrap. */
  lemma MultiplierFits(pclk: int, b: int, q: int, r: int)
    requires Good(pclk, b, q) && pclk < 0x8000_0000 && r == pclk - q * b
    ensures Add32(Mul32(b, q), r - 1) / r == Multiplier(b, q, r)
  {
    assert q * b == b * q && b * q >= 0;
    Sum32(b, q, r - 1);
  }

  /** A turn that goes on and lowers q has a divisor of at most 32 bits. */
  lemma DivisorFits(pclk: int, b: int, q: int)
    requires Good(pclk, b, q) && pclk < 0x8000_0000 && Starts(pclk, b, q) && b * q > 15 * (pclk - q * b)
    ensures 16 * b < WORD
  {
    assert q * b == b * q;
  }

  /** Nor does the new quotient of a turn that goes on. */
  lemma LoweringFits(pclk: int, b: int, q: int, r: int)
    requires Good(pclk, b, q) && pclk < 0x8000_0000 && 16 * b < WORD && r == pclk - q * b && b * q > 15 * r
    ensures Mul32(16, b) != 0
    ensures Add32(Mul32(b, q), Mul32(15, r)) / Mul32(16, b) == Lowering(b, q, r)
  {
    assert q * b == b * q && b * q >= 0;
    NoWrap(15 * r);
    NoWrap(16 * b);
    Sum32(b, q, 15 * r);
  }

  /** One turn on 32-bit words. */
  method LowerQuotient(pclk: int, b: int, q: int, r: int) returns (q': int, r': int)
    requires Mul32(16, b) != 0
    ensures q' == Sub32(q, Add32(Mul32(b, q), Mul32(15, r)) / Mul32(16, b)) && r' == Sub32(pclk, Mul32(q', b))
    ensures Lowers(pclk, b, q, r) ==>
              && 0 < q' < q && r' == pclk - q' * b && r' > 0
              && Starts(pclk, b, q') && b * q' > 4 * r'
  {
    hide Lowering, Lowers, Mul32, Add32, Sub32, Starts;
    q' := Sub32(q, Add32(Mul32(b, q), Mul32(15, r)) / Mul32(16, b));
    r' := Sub32(pclk, Mul32(q', b));
    if Lowers(pclk, b, q, r) {
      LowersIs(pclk, b, q, r);
    }
  }

  /** A turn that goes on and lowers q, without wrap. */
  ghost predicate Lowers(pclk: int, b: int, q: int, r: int) {
    && Good(pclk, b, q) && pclk < 0x8000_0000 && r == pclk - q * b
    && b * q > 15 * r && Starts(pclk, b, q)
  }

  lemma LowersIs(pclk: int, b: int, q: int, r: int)
    requires Lowers(pclk, b, q, r)
    ensures Mul32(16, b) != 0
    ensures var q' := Sub32(q, Add32(Mul32(b, q), Mul32(15, r)) / Mul32(16, b));
            var r' := Sub32(pclk, Mul32(q', b));
            && 0 < q' < q && r' == pclk - q' * b && r' > 0
            && Starts(pclk, b, q') && b * q' > 4 * r'
  {
    DivisorFits(pclk, b, q);
    LoweringFits(pclk, b, q, r);
    Turn(pclk, b, q);
    hide Lowering, Mul32, Add32, Sub32;
    NextFits(pclk, b, q, q - Lowering(b, q, r));
  }

  lemma NextFits(pclk: int, b: int, q: int, next: int)
    requires Good(pclk, b, q) && pclk < WORD && 0 < next < q && pclk - next * b > 0
    ensures Sub32(q, q - next) == next
    ensures Sub32(pclk, Mul32(next, b)) == pclk - next * b
  {
    QuotientFits(pclk, b, q);
    PositiveProduct(next, b);
    Rest32(pclk, next, b);
  }

  lemma QuotientFits(pclk: int, b: int, q: int)
    requires b > 0 && q >= 0 && q * b < pclk < WORD
    ensures q < WORD
  {
    assert q * b >= q * 1;
  }

  lemma PositiveProduct(q: int, b: int)
    requires q > 0 && b > 0
    ensures q * b > 0
  {
  }

  // ---------------------------------------------------------------- the search on 32-bit words

  /** As HaltsIn, with every operation modulo 2^32; a division by zero does not end the search. */
  ghost predicate HaltsIn32(pclk: int, b: int, q: int, n: nat)
    decreases n
  {
    var r := Sub32(pclk, Mul32(q, b));
    && r > 0
    && (|| Add32(Mul32(b, q), r - 1) / r <= 15
        || (&& n > 0 && Mul32(16, b) > 0
            && HaltsIn32(pclk, b, Sub32(q, Add32(Mul32(b, q), Mul32(15, r)) / Mul32(16, b)), n - 1)))
  }

  /** While 16 * b fits into 32 bits, the words behave like numbers. */
  lemma {:induction false} Halts32(pclk: int, b: int, q: int, n: nat)
    requires Good(pclk, b, q) && pclk < 0x8000_0000 && 16 * b < WORD
    ensures HaltsIn32(pclk, b, q, n) <==> HaltsIn(pclk, b, q, n)
    decreases n
  {
    var r := pclk - q * b;
    RestIs(pclk, b, q);
    MultiplierFits(pclk, b, q, r);
    MultiplierBelow(b, q, r, 15);
    if b * q > 15 * r && n > 0 {
      LoweringFits(pclk, b, q, r);
      var q' := q - Lowering(b, q, r);
      NextQuotient(pclk, b, q);
      hide Multiplier, Lowering, Sub32, Mul32, Add32;
      Halts32(pclk, b, q', n - 1);
    }
  }

  lemma RestIs(pclk: int, b: int, q: int)
    requires Good(pclk, b, q) && pclk < 0x8000_0000
    ensures Sub32(pclk, Mul32(q, b)) == pclk - q * b
  {
    assert q * b >= 0;
    Rest32(pclk, q, b);
  }

  lemma NextQuotient(pclk: int, b: int, q: int)
    requires Good(pclk, b, q) && pclk < 0x8000_0000 && b * q > 15 * (pclk - q * b)
    ensures var q' := q - Lowering(b, q, pclk - q * b);
            Good(pclk, b, q') && Sub32(q, Lowering(b, q, pclk - q * b)) == q'
  {
    var r := pclk - q * b;
    LoweringBounds(b, q, r);
    QuotientFits(pclk, b, q);
    if b * q + 15 * r >= 16 * b {
      Turn(pclk, b, q);
    }
    NoWrap(q - Lowering(b, q, r));
  }

  /** On words too the search ends exactly when its first turn ends it or lowers q. */
  lemma Halts32Iff(pclk: int, b: int, q: int)
    requires Good(pclk, b, q) && pclk < 0x8000_0000 && 16 * b < WORD
    ensures (exists n: nat :: HaltsIn32(pclk, b, q, n)) <==> Starts(pclk, b, q)
  {
    HaltsIff(pclk, b, q);
    hide Starts;
    if n: nat :| HaltsIn32(pclk, b, q, n) {
      Halts32(pclk, b, q, n);
      assert HaltsIn(pclk, b, q, n);
    }
    if n: nat :| HaltsIn(pclk, b, q, n) {
      Halts32(pclk, b, q, n);
      assert HaltsIn32(pclk, b, q, n);
    }
  }

  // ---------------------------------------------------------------- any rate

  /** On words the products cancel: whatever has wrapped, a turn divides pclk - 1 by the rest, and a turn that
      goes on adds fourteen times the rest to pclk. */
  lemma TurnByRest(pclk: int, b: int, q: int)
    requires 0 < pclk < 0x8000_0000
    ensures var r := Sub32(pclk, Mul32(q, b));
            && Add32(Mul32(b, q), r - 1) == pclk - 1
            && (16 * r < pclk ==> Add32(Mul32(b, q), Mul32(15, r)) == pclk + 14 * r)
  {
    assert b * q == q * b;
    var x, r := Mul32(b, q), Sub32(pclk, Mul32(q, b));
    assert r == (if x <= pclk then pclk - x else pclk - x + WORD);
    SumWraps(x, r - 1, pclk - 1);
    if 16 * r < pclk {
      NoWrap(15 * r);
      SumWraps(x, 15 * r, pclk + 14 * r);
    }
  }

  lemma SumWraps(a: int, c: int, sum: int)
    requires 0 <= sum < WORD && (a + c == sum || a + c == sum + WORD)
    ensures Add32(a, c) == sum
  {
  }

  /** A turn ends the search exactly when the rest is at least a sixteenth of the clock. */
  lemma EndsByRest(pclk: int, r: int)
    requires pclk > 0 && r > 0
    ensures (pclk - 1) / r <= 15 <==> pclk <= 16 * r
  {
    var m := (pclk - 1) / r;
    assert pclk - 1 == r * m + (pclk - 1) % r;
    if m <= 15 {
      assert r * m <= r * 15;
    } else {
      assert r * 16 <= r * m;
    }
  }

  function NextRest(pclk: int, b: int, r: int): int
    requires Mul32(16, b) != 0
  {
    (r + b * ((pclk + 14 * r) / Mul32(16, b))) % WORD
  }

  /** The rests alone: they reach a sixteenth of the clock within n turns, without a division by zero. */
  ghost predicate Reaches(pclk: int, b: int, r: int, n: nat)
    decreases n
  {
    r > 0 && (pclk <= 16 * r || (n > 0 && Mul32(16, b) != 0 && Reaches(pclk, b, NextRest(pclk, b, r), n - 1)))
  }

  lemma NextRestIs(pclk: int, b: int, q: int, l: int)
    ensures Sub32(pclk, Mul32(Sub32(q, l), b)) == (Sub32(pclk, Mul32(q, b)) + b * l) % WORD
  {
    ModuloMul(q - l, b);
    Distributes(b, q, l);
    RestShift(pclk, q * b, b * l, ((q - l) % WORD) * b);
  }

  lemma Distributes(b: int, q: int, l: int)
    ensures (q - l) * b == q * b - b * l
  {
  }

  lemma RestShift(pclk: int, x: int, y: int, z: int)
    requires z % WORD == (x - y) % WORD
    ensures (pclk - z % WORD) % WORD == ((pclk - x % WORD) % WORD + y) % WORD
  {
    ModuloSub(pclk, x - y);
    ModuloSub(pclk, x);
    ModuloAdd(pclk - x, y);
  }

  lemma Multiple(x: int)
    ensures x % WORD == x - WORD * (x / WORD)
  {
  }

  lemma ModuloSame(x: int, y: int, k: int)
    requires x == y + WORD * k
    ensures x % WORD == y % WORD
  {
    Multiple(x);
    Multiple(y);
  }

  lemma ModuloMul(x: int, b: int)
    ensures ((x % WORD) * b) % WORD == (x * b) % WORD
  {
    Multiple(x);
    assert (x % WORD) * b == x * b + WORD * (-(x / WORD) * b);
    ModuloSame((x % WORD) * b, x * b, -(x / WORD) * b);
  }

  lemma ModuloSub(p: int, x: int)
    ensures (p - x % WORD) % WORD == (p - x) % WORD
  {
    Multiple(x);
    ModuloSame(p - x % WORD, p - x, x / WORD);
  }

  lemma ModuloAdd(x: int, y: int)
    ensures (x % WORD + y) % WORD == (x + y) % WORD
  {
    Multiple(x);
    ModuloSame(x % WORD + y, x + y, -(x / WORD));
  }

  /** For every rate, and however often the words wrap, the search ends exactly when the rests get there. */
  lemma {:induction false} HaltsByRest(pclk: int, b: int, q: int, n: nat)
    requires 0 < pclk < 0x8000_0000
    ensures HaltsIn32(pclk, b, q, n) <==> Reaches(pclk, b, Sub32(pclk, Mul32(q, b)), n)
    decreases n
  {
    var r := Sub32(pclk, Mul32(q, b));
    TurnByRest(pclk, b, q);
    hide Sub32, Add32, Mul32;
    if r > 0 {
      EndsByRest(pclk, r);
      if pclk > 16 * r && n > 0 && Mul32(16, b) > 0 {
        var l := (pclk + 14 * r) / Mul32(16, b);
        NextRestIs(pclk, b, q, l);
        HaltsByRest(pclk, b, Sub32(q, l), n - 1);
      }
    }
  }

  /** Beyond the range of Halts32Iff the first turn has a wrapped divisor. Unless it takes more than q off q, the
      search ends exactly when the first turn ends it or lowers q. */
  lemma WrappedDivisor(pclk: int, b: int, q: int)
    requires Good(pclk, b, q) && pclk < 0x8000_0000 && b < WORD <= 16 * b && Mul32(16, b) != 0
    requires (pclk + 14 * (pclk - q * b)) / Mul32(16, b) <= q
    ensures (exists n: nat :: HaltsIn32(pclk, b, q, n)) <==>
            b * q <= 15 * (pclk - q * b) || pclk + 14 * (pclk - q * b) >= Mul32(16, b)
  {
    var r, d := pclk - q * b, Mul32(16, b);
    var l := (pclk + 14 * r) / d;
    assert q * b == b * q;
    assert b * q <= 15 * r <==> pclk <= 16 * r;
    RestIs(pclk, b, q);
    QuotientBounds(pclk + 14 * r, d);
    if pclk <= 16 * r {
      HaltsByRest(pclk, b, q, 0);
      assert HaltsIn32(pclk, b, q, 0);
    } else if l >= 1 {
      LoweredRest(pclk, b, q, l);
      assert Reaches(pclk, b, NextRest(pclk, b, r), 0);
      assert Reaches(pclk, b, r, 1);
      HaltsByRest(pclk, b, q, 1);
      assert HaltsIn32(pclk, b, q, 1);
    } else {
      assert NextRest(pclk, b, r) == r by { NoWrap(r); }
      forall n: nat ensures !HaltsIn32(pclk, b, q, n) {
        RestStays(pclk, b, r, n);
        HaltsByRest(pclk, b, q, n);
      }
    }
  }

  lemma LoweredRest(pclk: int, b: int, q: int, l: int)
    requires Good(pclk, b, q) && pclk < 0x8000_0000 && WORD <= 16 * b && 1 <= l <= q
    ensures var r' := (pclk - q * b + b * l) % WORD; r' > 0 && pclk <= 16 * r'
  {
    assert q * b == b * q;
    Between(b, l, q);
    QuotientBelow(b, q, 8);
    NoWrap(pclk - q * b + b * l);
  }

  lemma Between(b: int, l: int, q: int)
    requires b > 0 && 1 <= l <= q
    ensures b <= b * l <= b * q
  {
  }

  lemma QuotientBelow(b: int, q: int, k: int)
    requires b > 0 && b * q < b * k
    ensures q < k && b * q <= b * k - b
  {
    assert b * (k - q) > 0;
    PositiveFactor(b, k - q);
    assert b * (k - q) >= b * 1;
  }

  lemma {:induction false} RestStays(pclk: int, b: int, r: int, n: nat)
    requires Mul32(16, b) != 0 && NextRest(pclk, b, r) == r && 16 * r < pclk
    ensures !Reaches(pclk, b, r, n)
    decreases n
  {
    hide NextRest;
    if n > 0 {
      RestStays(pclk, b, r, n - 1);
    }
  }

  /** A rate beyond that range for which the search ends although Starts does not hold: the first turn takes q
      to 0, and the second ends with m = 0. */
  lemma EndsAtZero()
    ensures var pclk, b := 0x3265_b210, 0x3265_b1f0;
            && b == Mul32(16, 0x326_5b1f) && pclk / b == 1 && Mul32(16, b) != 0 && !Starts(pclk, b, 1)
            && Sub32(1, Add32(Mul32(b, 1), Mul32(15, pclk - b)) / Mul32(16, b)) == 0
            && Add32(Mul32(b, 0), pclk - 1) / pclk == 0
            && HaltsIn32(pclk, b, 1, 1)
  {
    EndsWords();
    hide HaltsIn32;
    HaltsByRest(0x3265_b210, 0x3265_b1f0, 1, 1);
  }

  lemma EndsWords()
    ensures Mul32(16, 0x3265_b1f0) == 0x265b_1f00 && Sub32(0x3265_b210, Mul32(1, 0x3265_b1f0)) == 32
    ensures Reaches(0x3265_b210, 0x3265_b1f0, 32, 1)
  {
    assert NextRest(0x3265_b210, 0x3265_b1f0, 32) == 0x3265_b210;
    assert Reaches(0x3265_b210, 0x3265_b1f0, 0x3265_b210, 0);
  }

  /** A rate so high that 16 * b wraps to 0: the first turn that goes on would divide by zero. */
  lemma NoDivisor(n: nat)
    ensures Mul32(16, 0x1000_0000) == 0 && !Starts(0x1000_0001, 0x1000_0000, 1)
    ensures !HaltsIn32(0x1000_0001, 0x1000_0000, 1, n)
  {
  }

  ghost predicate Ends32(pclk: int, b: int, q: int) {
    exists n: nat :: HaltsIn32(pclk, b, q, n)
  }

  /** Starts is enough for any rate. */
  lemma StartsEnds(pclk: int, b: int, q: int)
    requires Good(pclk, b, q) && pclk < 0x8000_0000 && Starts(pclk, b, q)
    ensures Ends32(pclk, b, q)
  {
    var r := pclk - q * b;
    if b * q > 15 * r {
      DivisorFits(pclk, b, q);
      Halts32Iff(pclk, b, q);
    } else {
      RestIs(pclk, b, q);
      MultiplierFits(pclk, b, q, r);
      MultiplierBelow(b, q, r, 15);
      assert HaltsIn32(pclk, b, q, 0);
    }
  }

  /** The search of _initialize on 32-bit words, for every rate for which it ends: q and m for the divisor
      registers and s, 1 if there is a fraction. A rate whose 16-fold is 0 is a division by zero. */
  method Search(pclk: int, baudrate: int) returns (q: int, m: int, s: int)
    requires 0 <= pclk < 0x8000_0000 && 0 < baudrate < WORD && Mul32(16, baudrate) != 0
    requires var b := Mul32(16, baudrate); pclk % b == 0 || Ends32(pclk, b, pclk / b)
    ensures var b := Mul32(16, baudrate);
            var r := Sub32(pclk, Mul32(q, b));
            && (pclk % b == 0 ==> s == 0 && m == 1 && q == pclk / b && q * b == pclk)
            && (pclk % b != 0 ==> s == 1 && r > 0 && m == (pclk - 1) / r && m <= 15)
            && (pclk % b != 0 && Starts(pclk, b, pclk / b) ==>
                  0 <= q <= pclk / b && r == pclk - q * b && Least(b, q, r, m))
            && (pclk % b != 0 && pclk / b >= 16 ==> 5 <= m <= 15 && q < pclk / b)
  {
    var b := Mul32(16, baudrate);
    assert 0 < b < WORD;
    hide Least, Multiplier, Lowering, Starts, Sub32, Mul32, Add32, HaltsIn32, Lowers;
    q := pclk / b;
    Quotient(pclk, b);
    Rest32(pclk, q, b);
    var r := Sub32(pclk, Mul32(q, b));
    m, s := 1, 0;
    if r != 0 {
      s := 1;
      ghost var first := q;
      ghost var n: nat :| HaltsIn32(pclk, b, q, n);
      if first >= 16 {
        LargeStarts(pclk, b);
      }
      while true
        invariant HaltsIn32(pclk, b, q, n) && r == Sub32(pclk, Mul32(q, b))
        invariant Starts(pclk, b, first) ==> 0 <= q <= first && r == pclk - q * b && r > 0 && Starts(pclk, b, q)
        invariant first >= 16 ==> if q == first then b * q > 15 * r else b * q > 4 * r
        decreases n
      {
        HaltsTurn(pclk, b, q, n);
        m := Add32(Mul32(b, q), r - 1) / r;
        TurnByRest(pclk, b, q);
        if Starts(pclk, b, first) {
          TurnIs(pclk, b, q, r, m);
        }
        if m <= 15 {
          break;
        }
        q, r := LowerQuotient(pclk, b, q, r);
        n := n - 1;
      }
    }
  }

  lemma HaltsTurn(pclk: int, b: int, q: int, n: nat)
    requires HaltsIn32(pclk, b, q, n)
    ensures var r := Sub32(pclk, Mul32(q, b));
            && r > 0
            && (Add32(Mul32(b, q), r - 1) / r > 15 ==>
                  && n > 0 && Mul32(16, b) != 0
                  && HaltsIn32(pclk, b, Sub32(q, Add32(Mul32(b, q), Mul32(15, r)) / Mul32(16, b)), n - 1))
  {
  }

  lemma TurnIs(pclk: int, b: int, q: int, r: int, m: int)
    requires Good(pclk, b, q) && pclk < 0x8000_0000 && r == pclk - q * b && m == Add32(Mul32(b, q), r - 1) / r
    requires Starts(pclk, b, q)
    ensures Least(b, q, r, m) && (m > 15 ==> Lowers(pclk, b, q, r)) && (b * q > 4 * r ==> m >= 5)
    ensures b * q > 15 * r ==> m > 15
  {
    MultiplierFits(pclk, b, q, r);
    MultiplierBelow(b, q, r, 15);
    MultiplierBelow(b, q, r, 4);
    MultiplierIsLeast(b, q, r);
  }

  lemma Quotient(pclk: int, b: int)
    requires 0 <= pclk && 0 < b
    ensures var q := pclk / b; q >= 0 && 0 <= q * b <= pclk && pclk - q * b == pclk % b
  {
    var q := pclk / b;
    assert pclk == b * q + pclk % b;
    assert q * b == b * q;
  }
}
