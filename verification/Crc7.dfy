/**
  The 7-bit CRC of exos/support/misc/crc16.c, used by SD card commands. The shift register of _encode is
  polynomial long division by x^7 + x^3 + 1.
*/
module Crc7 {

  import opened Gf2
  import opened Crc

  /** x^7 + x^3 + 1, as in section 4.5 of the SD Physical Layer Simplified Specification. */
  function Divisor7(): Poly {
    [true, false, false, true, false, false, false, true]
  }

  /** The low seven register bits. */
  function Bits7(r: bv8): (p: Poly)
    ensures |p| == 7
  {
    [Has(r, 1), Has(r, 2), Has(r, 4), Has(r, 8), Has(r, 0x10), Has(r, 0x20), Has(r, 0x40)]
  }

  /** One turn of the loop of _encode. Bit 7 stays in the register until the next shift drops it. */
  function Step7(r: bv8, bit: bool): bv8 {
    var shifted := (r << 1) | (if bit then 1 else 0);
    if shifted & 0x80 != 0 then shifted ^ 9 else shifted
  }

  lemma StepLow(r: bv8, bit: bool)
    ensures Has(Step7(r, bit), 1) == (bit != Has(r, 0x40))
    ensures Has(Step7(r, bit), 2) == Has(r, 1)
    ensures Has(Step7(r, bit), 4) == Has(r, 2)
    ensures Has(Step7(r, bit), 8) == (Has(r, 4) != Has(r, 0x40))
  {
  }

  lemma StepHigh(r: bv8, bit: bool)
    ensures Has(Step7(r, bit), 0x10) == Has(r, 8)
    ensures Has(Step7(r, bit), 0x20) == Has(r, 0x10)
    ensures Has(Step7(r, bit), 0x40) == Has(r, 0x20)
  {
  }

  lemma Bits7Are(r: bv8)
    ensures var b := Bits7(r);
            && b[0] == Has(r, 1) && b[1] == Has(r, 2) && b[2] == Has(r, 4) && b[3] == Has(r, 8)
            && b[4] == Has(r, 0x10) && b[5] == Has(r, 0x20) && b[6] == Has(r, 0x40)
  {
    hide Has;
  }

  lemma ShiftInSeven(r: Poly, bit: bool, out: Poly)
    requires |r| == |out| == 7
    requires out[0] == (bit != r[6]) && out[1] == r[0] && out[2] == r[1] && out[3] == (r[2] != r[6])
    requires out[4] == r[3] && out[5] == r[4] && out[6] == r[5]
    ensures out == ShiftIn(r, bit, r[6], Divisor7())
  {
  }

  /** A turn of the loop is a step of long division by x^7 + x^3 + 1. */
  lemma StepDivides(r: bv8, bit: bool)
    ensures Bits7(Step7(r, bit)) == ShiftIn(Bits7(r), bit, Bits7(r)[6], Divisor7())
  {
    StepLow(r, bit);
    StepHigh(r, bit);
    hide Step7, Has, Bits7, ShiftIn, Divisor7;
    Bits7Are(r);
    Bits7Are(Step7(r, bit));
    ShiftInSeven(Bits7(r), bit, Bits7(Step7(r, bit)));
  }

  function Left(cc: bv8): bv8 {
    cc << 1
  }

  /** The bits that leave cc at the top in depth shifts. */
  function InputBits(cc: bv8, depth: nat): seq<bool>
    decreases depth
  {
    if depth == 0 then [] else [Has(cc, 0x80)] + InputBits(Left(cc), depth - 1)
  }

  /** _encode. */
  method Encode(seed: bv8, input: bv8, depth: nat) returns (r: bv8)
    ensures r & 0x80 == 0
    ensures Bits7(r) == DivideBits(Bits7(seed), InputBits(input, depth), Divisor7())
  {
    var regval, cc, count := seed, input, depth;
    while count > 0
      invariant DivideBits(Bits7(regval), InputBits(cc, count), Divisor7())
             == DivideBits(Bits7(seed), InputBits(input, depth), Divisor7())
    {
      ghost var was := regval;
      var bit := cc & 0x80 != 0;
      regval := (regval << 1) | (if bit then 1 else 0);
      if regval & 0x80 != 0 {
        regval := regval ^ 9;
      }
      StepDivides(was, bit);
      DivideFirst(Bits7(was), cc, count);
      cc := Left(cc);
      count := count - 1;
    }
    r := regval & 0x7f;
    LowSeven(regval);
  }

  lemma DivideFirst(r: Poly, cc: bv8, count: nat)
    requires |r| == 7 && count > 0
    ensures DivideBits(r, InputBits(cc, count), Divisor7())
         == DivideBits(ShiftIn(r, Has(cc, 0x80), r[6], Divisor7()), InputBits(Left(cc), count - 1), Divisor7())
  {
    hide Has, Left, ShiftIn;
    assert InputBits(cc, count)[1..] == InputBits(Left(cc), count - 1);
  }

  lemma LowSeven(r: bv8)
    ensures Bits7(r & 0x7f) == Bits7(r)
  {
  }

  // ---------------------------------------------------------------- the whole message

  /** The register after a bit string holds the remainder of its polynomial. */
  lemma {:induction false} DivideRemainder(done: seq<bool>, r: Poly, bits: seq<bool>, g: Poly)
    requires |r| > 0 && IsRemainder(PolyOf(done), g, r)
    ensures IsRemainder(PolyOf(done + bits), g, DivideBits(r, bits, g))
    decreases |bits|
  {
    if bits == [] {
      assert done + bits == done;
    } else {
      var next := done + [bits[0]];
      assert next[..|done|] == done;
      assert PolyOf(next) == [bits[0]] + PolyOf(done);
      assert next + bits[1..] == done + bits;
      DivideStep(PolyOf(done), g, r, bits[0]);
      ShiftInLength(r, bits[0], r[|r| - 1], g);
      hide IsRemainder, PolyOf, ShiftIn;
      DivideRemainder(next, ShiftIn(r, bits[0], r[|r| - 1], g), bits[1..], g);
    }
  }

  lemma FirstTops(d: bv8)
    ensures Has(Left(d), 0x80) == Has(d, 0x40) && Has(Left(Left(d)), 0x80) == Has(d, 0x20)
    ensures Has(Left(Left(Left(d))), 0x80) == Has(d, 0x10)
  {
  }

  lemma LastTops(d: bv8)
    ensures Has(Left(Left(Left(Left(d)))), 0x80) == Has(d, 8)
    ensures Has(Left(Left(Left(Left(Left(d))))), 0x80) == Has(d, 4)
    ensures Has(Left(Left(Left(Left(Left(Left(d)))))), 0x80) == Has(d, 2)
    ensures Has(Left(Left(Left(Left(Left(Left(Left(d))))))), 0x80) == Has(d, 1)
  {
  }

  function Lefts(k: nat, cc: bv8): bv8
    decreases k
  {
    if k == 0 then cc else Lefts(k - 1, Left(cc))
  }

  lemma {:induction false} InputAt(cc: bv8, depth: nat, i: nat)
    requires i < depth
    ensures |InputBits(cc, depth)| == depth && InputBits(cc, depth)[i] == Has(Lefts(i, cc), 0x80)
    decreases depth
  {
    hide Has, Left;
    if depth > 1 {
      InputAt(Left(cc), depth - 1, if i == 0 then 0 else i - 1);
    }
  }

  lemma LeftsFirst(d: bv8)
    ensures Lefts(0, d) == d && Lefts(1, d) == Left(d) && Lefts(2, d) == Left(Left(d))
    ensures Lefts(3, d) == Left(Left(Left(d)))
  {
    hide Left;
    var l1 := Left(d);
    assert Lefts(2, l1) == Left(Left(l1));
  }

  lemma LeftsLast(d: bv8)
    ensures Lefts(4, d) == Left(Left(Left(Left(d)))) && Lefts(5, d) == Left(Left(Left(Left(Left(d)))))
    ensures Lefts(6, d) == Left(Left(Left(Left(Left(Left(d))))))
    ensures Lefts(7, d) == Left(Left(Left(Left(Left(Left(Left(d)))))))
  {
    hide Left;
    var l1 := Left(d);
    var l2 := Left(l1);
    var l3 := Left(l2);
    LeftsFirst(Left(l3));
    assert Lefts(4, d) == Lefts(3, l1) && Lefts(3, l1) == Lefts(2, l2) && Lefts(2, l2) == Lefts(1, l3);
    assert Lefts(5, d) == Lefts(4, l1) && Lefts(4, l1) == Lefts(3, l2) && Lefts(3, l2) == Lefts(2, l3);
    assert Lefts(6, d) == Lefts(5, l1) && Lefts(5, l1) == Lefts(4, l2) && Lefts(4, l2) == Lefts(3, l3);
    assert Lefts(7, d) == Lefts(6, l1) && Lefts(6, l1) == Lefts(5, l2) && Lefts(5, l2) == Lefts(4, l3);
  }

  lemma SameEight(a: seq<bool>, b: seq<bool>)
    requires |a| == |b| == 8
    requires a[0] == b[0] && a[1] == b[1] && a[2] == b[2] && a[3] == b[3]
    requires a[4] == b[4] && a[5] == b[5] && a[6] == b[6] && a[7] == b[7]
    ensures a == b
  {
  }

  /** A whole byte of input is its bits, most significant first. */
  lemma InputIsByte(d: bv8)
    ensures InputBits(d, 8) == ByteBits(d)
  {
    hide Has, Left, Lefts, InputBits, ByteBits;
    FirstTops(d);
    LastTops(d);
    LeftsFirst(d);
    LeftsLast(d);
    InputAt(d, 8, 0);
    InputAt(d, 8, 1);
    InputAt(d, 8, 2);
    InputAt(d, 8, 3);
    InputAt(d, 8, 4);
    InputAt(d, 8, 5);
    InputAt(d, 8, 6);
    InputAt(d, 8, 7);
    ByteBitsAre(d);
    SameEight(InputBits(d, 8), ByteBits(d));
  }

  lemma {:induction false} InputOfZero(n: nat)
    ensures InputBits(0, n) == Zeros(n)
  {
    if n > 0 {
      InputOfZero(n - 1);
      assert Left(0) == 0 && !Has(0, 0x80);
      hide Has, Left;
      assert Zeros(n) == [false] + Zeros(n - 1);
    }
  }

  lemma DivisorSeven()
    ensures |Divisor7()| == 8 && Divisor7()[7]
  {
  }

  lemma StartZero()
    ensures Bits7(0) == Zeros(7)
  {
  }

  lemma ResultBits(crc: bv8)
    requires crc & 0x80 == 0
    ensures Bits7(((crc << 1) | 1) >> 1) == Bits7(crc) && Has((crc << 1) | 1, 1)
  {
    assert ((crc << 1) | 1) >> 1 == crc;
  }

  /** crc7_do: the remainder of the message times x^7, shifted left with a 1 appended. */
  method Compute(data: array<bv8>, length: int) returns (crc: bv8)
    requires length <= data.Length
    ensures Has(crc, 1)
    ensures var n := if length < 0 then 0 else length;
            IsRemainder(Shifted(7, PolyOf(MessageBits(data[..n]))), Divisor7(), Bits7(crc >> 1))
  {
    crc := 0;
    var i := 0;
    DivisorSeven();
    StartZero();
    hide IsRemainder, Bits7, Divisor7, Shifted, Has, DivideBits, ByteBits, InputBits;
    ZeroRemainder(Divisor7(), 7);
    assert PolyOf(MessageBits(data[..0])) == [];
    while i < length
      invariant 0 <= i <= Clamp(length)
      invariant IsRemainder(PolyOf(MessageBits(data[..i])), Divisor7(), Bits7(crc))
    {
      hide PolyOf;
      ghost var was := crc;
      crc := Encode(crc, data[i], 8);
      InputIsByte(data[i]);
      DivideRemainder(MessageBits(data[..i]), Bits7(was), ByteBits(data[i]), Divisor7());
      assert data[..i + 1][..i] == data[..i];
      i := i + 1;
    }
    hide PolyOf, MessageBits;
    ghost var bits := MessageBits(data[..i]);
    ghost var was := crc;
    crc := Encode(crc, 0, 7);
    InputOfZero(7);
    DivideRemainder(bits, Bits7(was), Zeros(7), Divisor7());
    PolyOfZeros(bits, 7);
    ResultBits(crc);
    crc := (crc << 1) | 1;
  }
}
