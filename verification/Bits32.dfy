/** Single bits of 32-bit words under the C operators. Shift amounts are integers as in the sources;
    every fact about a shift is reduced to repeated shifts by one. */
module Bits32 {
  /** w << s, one place at a time. */
  function Shl(w: bv32, s: int): bv32
    requires 0 <= s < 32
  {
    if s == 0 then w else Shl(w, s - 1) << 1
  }

  /** w >> s, one place at a time. */
  function Shr(w: bv32, s: int): bv32
    requires 0 <= s < 32
  {
    if s == 0 then w else Shr(w, s - 1) >> 1
  }

  function And(a: bv32, b: bv32): bv32 { a & b }
  function Or(a: bv32, b: bv32): bv32 { a | b }
  function Xor(a: bv32, b: bv32): bv32 { a ^ b }
  function Not(a: bv32): bv32 { !a }

  /** w and p have a bit in common. */
  predicate Meets(w: bv32, p: bv32) {
    w & p != 0
  }

  /** The word with bit i only. */
  function Hot(i: int): bv32
    requires 0 <= i < 32
  {
    Shl(1, i)
  }

  predicate Bit(w: bv32, i: int)
    requires 0 <= i < 32
  {
    Meets(w, Hot(i))
  }

  ghost predicate OneBit(p: bv32) {
    p != 0 && p & (p - 1) == 0
  }

  // ---------------------------------------------------------------- facts about one bit p

  lemma AndAt(a: bv32, b: bv32, p: bv32)
    requires OneBit(p)
    ensures Meets(And(a, b), p) <==> Meets(a, p) && Meets(b, p)
  {
    RawAnd(a, b, p);
  }

  lemma RawAnd(a: bv32, b: bv32, p: bv32)
    requires p != 0 && p & (p - 1) == 0
    ensures (a & b) & p != 0 <==> a & p != 0 && b & p != 0
  {
  }

  lemma OrAt(a: bv32, b: bv32, p: bv32)
    ensures Meets(Or(a, b), p) <==> Meets(a, p) || Meets(b, p)
  {
    assert (a | b) & p == (a & p) | (b & p);
  }

  lemma XorAt(a: bv32, b: bv32, p: bv32)
    requires OneBit(p)
    ensures Meets(Xor(a, b), p) <==> Meets(a, p) != Meets(b, p)
  {
    RawXor(a, b, p);
  }

  lemma RawXor(a: bv32, b: bv32, p: bv32)
    requires p != 0 && p & (p - 1) == 0
    ensures (a ^ b) & p != 0 <==> (a & p != 0) != (b & p != 0)
  {
  }

  lemma NotAt(a: bv32, p: bv32)
    requires OneBit(p)
    ensures Meets(Not(a), p) <==> !Meets(a, p)
    ensures Meets(0xFFFF_FFFF, p) && !Meets(0, p)
  {
    RawNot(a, p);
  }

  lemma RawNot(a: bv32, p: bv32)
    requires p != 0 && p & (p - 1) == 0
    ensures (!a) & p != 0 <==> a & p == 0
  {
  }

  lemma ShlAt(w: bv32, p: bv32)
    requires !Meets(p, 0x8000_0000)
    ensures Meets(w << 1, p << 1) <==> Meets(w, p)
  {
  }

  lemma ShlLow(w: bv32)
    ensures !Meets(w << 1, 1)
  {
  }

  lemma ShrAt(w: bv32, p: bv32)
    requires !Meets(p, 0x8000_0000)
    ensures Meets(w >> 1, p) <==> Meets(w, p << 1)
  {
  }

  lemma ShrHigh(w: bv32)
    ensures !Meets(w >> 1, 0x8000_0000)
  {
  }

  lemma OneBitStep(p: bv32)
    requires OneBit(p) && !Meets(p, 0x8000_0000)
    ensures OneBit(p << 1)
  {
  }

  lemma HighEnds(p: bv32)
    requires OneBit(p)
    ensures Meets(p, 0x8000_0000) ==> p << 1 == 0
  {
  }

  // ---------------------------------------------------------------- the 32 one-bit words

  lemma {:induction false} ShlShl(w: bv32, s: int, t: int)
    requires 0 <= s && 0 <= t && s + t < 32
    ensures Shl(Shl(w, s), t) == Shl(w, s + t)
    decreases t
  {
    if t > 0 {
      ShlShl(w, s, t - 1);
    }
  }

  lemma {:induction false} ShlZero(s: int)
    requires 0 <= s < 32
    ensures Shl(0, s) == 0
  {
    if s > 0 {
      ShlZero(s - 1);
    }
  }

  lemma HotFirst()
    ensures Hot(0) == 0x1 && Hot(1) == 0x2 && Hot(2) == 0x4 && Hot(3) == 0x8
    ensures Hot(4) == 0x10 && Hot(5) == 0x20 && Hot(6) == 0x40 && Hot(7) == 0x80
  {
    assert Hot(2) == 0x4;
    assert Hot(4) == 0x10;
    assert Hot(6) == 0x40;
  }

  lemma HotSecond()
    ensures Hot(8) == 0x100 && Hot(9) == 0x200 && Hot(10) == 0x400 && Hot(11) == 0x800
    ensures Hot(12) == 0x1000 && Hot(13) == 0x2000 && Hot(14) == 0x4000 && Hot(15) == 0x8000
  {
    HotFirst();
    assert Hot(8) == 0x100;
    assert Hot(10) == 0x400;
    assert Hot(12) == 0x1000;
    assert Hot(14) == 0x4000;
  }

  lemma HotThird()
    ensures Hot(16) == 0x10000 && Hot(17) == 0x20000 && Hot(18) == 0x40000 && Hot(19) == 0x80000
    ensures Hot(20) == 0x100000 && Hot(21) == 0x200000 && Hot(22) == 0x400000 && Hot(23) == 0x800000
  {
    HotSecond();
    assert Hot(16) == 0x10000;
    assert Hot(18) == 0x40000;
    assert Hot(20) == 0x100000;
    assert Hot(22) == 0x400000;
  }

  lemma HotFourth()
    ensures Hot(24) == 0x1000000 && Hot(25) == 0x2000000 && Hot(26) == 0x4000000 && Hot(27) == 0x8000000
    ensures Hot(28) == 0x10000000 && Hot(29) == 0x20000000 && Hot(30) == 0x40000000 && Hot(31) == 0x80000000
  {
    HotThird();
    assert Hot(24) == 0x1000000;
    assert Hot(26) == 0x4000000;
    assert Hot(28) == 0x10000000;
    assert Hot(30) == 0x40000000;
  }

  lemma HotHigh()
    ensures Hot(31) == 0x8000_0000
  {
    HotFourth();
    hide Hot;
  }

  /** One bit that i more shifts still keep inside the word is not the highest. */
  lemma NotHigh(p: bv32, s: int)
    requires OneBit(p) && 1 <= s < 32 && Shl(p, s) != 0
    ensures !Meets(p, 0x8000_0000)
  {
    hide Meets;
    HighEnds(p);
    assert Shl(p, 1) == p << 1;
    ShlShl(p, 1, s - 1);
    ShlZero(s - 1);
  }

  lemma {:induction false} HotOne(i: int)
    requires 0 <= i < 32
    ensures OneBit(Hot(i))
    ensures i == 0 ==> Hot(i) == 1
    ensures i == 31 ==> Hot(i) == 0x8000_0000
    ensures i < 31 ==> !Meets(Hot(i), 0x8000_0000)
  {
    hide Meets, OneBit;
    HotHigh();
    if i == 0 {
      OneIsOneBit();
    } else {
      HotOne(i - 1);
      OneBitStep(Hot(i - 1));
    }
    if i < 31 {
      ShlShl(1, i, 31 - i);
      NotHigh(Hot(i), 31 - i);
    }
  }

  lemma OneIsOneBit()
    ensures OneBit(1)
  {
  }

  lemma HotStep(i: int)
    requires 0 <= i < 31
    ensures Hot(i + 1) == Hot(i) << 1
  {
  }

  // ---------------------------------------------------------------- bits of results

  lemma AndBit(a: bv32, b: bv32, i: int)
    requires 0 <= i < 32
    ensures Bit(And(a, b), i) <==> Bit(a, i) && Bit(b, i)
  {
    hide Hot, Meets, OneBit, And, Or, Xor, Not;
    HotOne(i);
    AndAt(a, b, Hot(i));
  }

  lemma OrBit(a: bv32, b: bv32, i: int)
    requires 0 <= i < 32
    ensures Bit(Or(a, b), i) <==> Bit(a, i) || Bit(b, i)
  {
    hide Hot, Meets, Or;
    OrAt(a, b, Hot(i));
  }

  lemma XorBit(a: bv32, b: bv32, i: int)
    requires 0 <= i < 32
    ensures Bit(Xor(a, b), i) <==> Bit(a, i) != Bit(b, i)
  {
    hide Hot, Meets, OneBit, And, Or, Xor, Not;
    HotOne(i);
    XorAt(a, b, Hot(i));
  }

  lemma NotBit(a: bv32, i: int)
    requires 0 <= i < 32
    ensures Bit(Not(a), i) <==> !Bit(a, i)
    ensures Bit(0xFFFF_FFFF, i) && !Bit(0, i)
  {
    hide Hot, Meets, OneBit, And, Or, Xor, Not;
    HotOne(i);
    NotAt(a, Hot(i));
  }

  lemma ShlBitOne(w: bv32, i: int)
    requires 0 <= i < 32
    ensures Bit(w << 1, i) <==> i > 0 && Bit(w, i - 1)
  {
    hide Hot, Meets, OneBit, And, Or, Xor, Not;
    HotOne(i);
    if i == 0 {
      ShlLow(w);
    } else {
      HotOne(i - 1);
      HotStep(i - 1);
      ShlAt(w, Hot(i - 1));
    }
  }

  lemma {:induction false} ShlBit(w: bv32, s: int, i: int)
    requires 0 <= s < 32 && 0 <= i < 32
    ensures Bit(Shl(w, s), i) <==> i >= s && Bit(w, i - s)
    decreases s
  {
    hide Hot, Bit;
    if s > 0 {
      ShlBitOne(Shl(w, s - 1), i);
      if i > 0 {
        ShlBit(w, s - 1, i - 1);
      }
    }
  }

  lemma ShrBitOne(w: bv32, i: int)
    requires 0 <= i < 32
    ensures Bit(w >> 1, i) <==> i < 31 && Bit(w, i + 1)
  {
    hide Hot, Meets, OneBit, And, Or, Xor, Not;
    HotOne(i);
    if i < 31 {
      HotStep(i);
      ShrAt(w, Hot(i));
    } else {
      ShrHigh(w);
    }
  }

  lemma {:induction false} ShrBit(w: bv32, s: int, i: int)
    requires 0 <= s < 32 && 0 <= i < 32
    ensures Bit(Shr(w, s), i) <==> i + s < 32 && Bit(w, i + s)
    decreases s
  {
    hide Hot, Bit;
    if s > 0 {
      ShrBitOne(Shr(w, s - 1), i);
      if i < 31 {
        ShrBit(w, s - 1, i + 1);
      }
    }
  }
}
