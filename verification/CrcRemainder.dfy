/**
  What the CRC registers mean: polynomials over the two-element field. The imperative routines of
  exos/support/misc/crc16.c are proved to compute remainders of the message polynomial.
*/
module CrcRemainder {

  import opened Gf2
  import opened Crc

  // ---------------------------------------------------------------- register bits

  predicate Bit(r: bv16, mask: bv16) {
    r & mask != 0
  }

  function MaskAt(i: nat): bv16
    requires i < 16
  {
    [1, 2, 4, 8, 0x10, 0x20, 0x40, 0x80, 0x100, 0x200, 0x400, 0x800, 0x1000, 0x2000, 0x4000, 0x8000][i]
  }

  /** The register as a polynomial of degree below 16. */
  function Bits16(r: bv16): Poly {
    seq(16, i requires 0 <= i < 16 => Bit(r, MaskAt(i)))
  }

  /** x^16 plus the polynomial of the table. */
  function Divisor16(poly: bv16): Poly {
    Bits16(poly) + [true]
  }

  predicate OneBit(m: bv16) {
    m != 0 && m & (m - 1) == 0
  }

  lemma MaskStep(i: nat)
    requires i < 16
    ensures OneBit(MaskAt(i)) && (i > 0 ==> Doubled(MaskAt(i - 1), MaskAt(i)))
  {
  }

  predicate Doubled(m: bv16, m': bv16) {
    m' == m << 1 && m & 0x8000 == 0
  }

  lemma XorBit(a: bv16, b: bv16, m: bv16)
    requires OneBit(m)
    ensures Bit(Xor(a, b), m) == (Bit(a, m) != Bit(b, m))
  {
    RawXor(a, b, m);
  }

  lemma RawXor(a: bv16, b: bv16, m: bv16)
    requires m != 0 && m & (m - 1) == 0
    ensures (a ^ b) & m != 0 <==> (a & m != 0) != (b & m != 0)
  {
  }

  lemma UpBit(r: bv16, m: bv16, m': bv16)
    requires Doubled(m, m')
    ensures Bit(Up(r), m') == Bit(r, m)
  {
  }

  lemma UpLowest(r: bv16)
    ensures !Bit(Up(r), MaskAt(0))
  {
    assert MaskAt(0) == 1;
  }

  lemma StepBitsAt(r: bv16, bit: bool, p: bv16, i: nat)
    requires i < 16
    ensures Bit(StepBit(r, bit, p), MaskAt(i))
         == ((i > 0 && Bit(r, MaskAt(i - 1))) != ((Top(r) != bit) && Bit(p, MaskAt(i))))
  {
    hide Xor, Up, Top, Bit, MaskAt, OneBit, Doubled;
    MaskStep(i);
    if i == 0 {
      UpLowest(r);
    } else {
      UpBit(r, MaskAt(i - 1), MaskAt(i));
    }
    XorBit(Up(r), p, MaskAt(i));
  }

  lemma BitsAt(r: bv16, i: nat)
    requires i < 16
    ensures |Bits16(r)| == 16 && Bits16(r)[i] == Bit(r, MaskAt(i))
  {
    hide Bit, MaskAt;
  }

  lemma TopAt(r: bv16)
    ensures |Bits16(r)| == 16 && Bits16(r)[15] == Top(r)
  {
    BitsAt(r, 15);
    hide Bits16;
    assert MaskAt(15) == 0x8000;
  }

  lemma DivisorShape(p: bv16)
    ensures |Bits16(p)| == 16 && |Divisor16(p)| == 17 && Divisor16(p)[16]
    ensures forall i :: 0 <= i < 16 ==> Divisor16(p)[i] == Bits16(p)[i]
  {
    hide Bit, MaskAt;
  }

  lemma ShiftInFrom(r: Poly, top: bool, g: Poly, out: Poly)
    requires 0 < |r| == |out| <= |g|
    requires forall i :: 0 <= i < |r| ==> out[i] == ((i > 0 && r[i - 1]) != (top && g[i]))
    ensures out == ShiftIn(r, false, top, g)
  {
  }

  /** A bit step is a step of the polynomial shift register. */
  lemma StepBitShiftsIn(r: bv16, bit: bool, p: bv16)
    ensures |Bits16(r)| == 16 && |Divisor16(p)| == 17
    ensures Bits16(StepBit(r, bit, p)) == ShiftIn(Bits16(r), false, Bits16(r)[15] != bit, Divisor16(p))
  {
    hide StepBit, Bit, MaskAt, Top, Bits16, Divisor16, ShiftIn;
    TopAt(r);
    DivisorShape(p);
    var out := Bits16(StepBit(r, bit, p));
    TopAt(StepBit(r, bit, p));
    forall i | 0 <= i < 16 ensures out[i] == ((i > 0 && Bits16(r)[i - 1]) != ((Top(r) != bit) && Divisor16(p)[i])) {
      StepBitsAt(r, bit, p, i);
      BitsAt(StepBit(r, bit, p), i);
      BitsAt(p, i);
      if i > 0 {
        BitsAt(r, i - 1);
      }
    }
    ShiftInFrom(Bits16(r), Top(r) != bit, Divisor16(p), out);
  }

  lemma ZeroBits()
    ensures Bits16(0) == Zeros(16)
  {
  }

  lemma {:induction false} SerialSnoc(r: bv16, bits: seq<bool>, p: bv16)
    requires bits != []
    ensures Serial(r, bits, p) == StepBit(Serial(r, bits[..|bits| - 1], p), bits[|bits| - 1], p)
  {
    var init, last := bits[..|bits| - 1], [bits[|bits| - 1]];
    assert bits == init + last;
    SerialConcat(r, init, last, p);
  }

  /** After any bit string the register holds the remainder of the string times x^16. */
  lemma {:induction false} SerialRemainder(bits: seq<bool>, p: bv16)
    ensures IsRemainder(Shifted(16, PolyOf(bits)), Divisor16(p), Bits16(Serial(0, bits, p)))
    decreases |bits|
  {
    hide StepBit, Bit, MaskAt, Top, IsRemainder, Shifted, ShiftIn, Bits16;
    if bits == [] {
      ZeroBits();
      DivisorShape(p);
      ZeroRemainder(Divisor16(p), 16);
    } else {
      var init, last := bits[..|bits| - 1], bits[|bits| - 1];
      var r := Serial(0, init, p);
      SerialRemainder(init, p);
      SerialSnoc(0, bits, p);
      DivisorShape(r);
      AugmentedStep(PolyOf(init), Divisor16(p), Bits16(r), last);
      StepBitShiftsIn(r, last, p);
    }
  }

  /** The table-driven CRC is the remainder of the message times x^16. */
  lemma CrcIsRemainder(data: seq<bv8>, p: bv16)
    ensures IsRemainder(Shifted(16, PolyOf(MessageBits(data))), Divisor16(p), Bits16(TableCrc(0, data, p)))
  {
    hide Bits16, IsRemainder, Serial, TableCrc;
    TableIsSerial(data, p);
    SerialRemainder(MessageBits(data), p);
  }

  // ---------------------------------------------------------------- the routines

  ghost predicate IsTable(table: seq<bv16>, poly: bv16) {
    |table| >= 256 && forall b: bv8 :: table[b as int] == Entry(b, poly)
  }

  /** crc16_initialize. */
  method Initialize(table: array<bv16>, poly: bv16)
    requires table.Length >= 256
    modifies table
    ensures IsTable(table[..], poly)
    ensures table[256..] == old(table[256..])
  {
    hide ShiftZero;
    ghost var rest := table[256..];
    for b := 0 to 256
      invariant forall i :: 0 <= i < b ==> table[i] == Entry(i as bv8, poly)
      invariant table[256..] == rest
    {
      var acc := (b as bv16) << 8;
      FirstAcc(b);
      for i := 0 to 8
        invariant ShiftZeros(8 - i, acc, poly) == Entry(b as bv8, poly)
      {
        acc := ShiftZero(acc, poly);
      }
      table[b] := acc;
    }
    forall b: bv8 ensures table[..][b as int] == Entry(b, poly) {
      RoundByte(b);
    }
  }

  lemma FirstAcc(b: int)
    requires 0 <= b < 256
    ensures (b as bv16) << 8 == WordOf(b as bv8)
  {
    assert b as bv16 == (b as bv8) as bv16;
  }

  lemma RoundByte(b: bv8)
    ensures 0 <= b as int < 256 && (b as int) as bv8 == b
  {
  }

  /** The CRC16 macro with the table of poly. */
  method LookUp(table: array<bv16>, crc: bv16, d: bv8, ghost poly: bv16) returns (r: bv16)
    requires IsTable(table[..], poly)
    ensures r == Serial(crc, ByteBits(d), poly) == ByteStep(crc, d, poly)
  {
    hide Entry, Serial, ByteBits, Index, Xor, Up8;
    var index := Index(crc, d);
    assert table[..][index as int] == Entry(index, poly);
    r := Xor(Up8(crc), table[index as int]);
    ByteStepIsSerial(crc, d, poly);
  }

  lemma TableCrcSnoc(data: seq<bv8>, d: bv8, p: bv16)
    ensures TableCrc(0, data + [d], p) == ByteStep(TableCrc(0, data, p), d, p)
  {
    hide ByteStep;
    assert (data + [d])[..|data|] == data;
  }

  lemma NoBytes(data: seq<bv8>, poly: bv16)
    requires data == []
    ensures TableCrc(0, data, poly) == 0
  {
  }

  /** crc16_do with the table of poly. */
  method Compute(data: array<bv8>, length: int, table: array<bv16>, ghost poly: bv16) returns (crc: bv16)
    requires length <= data.Length && IsTable(table[..], poly)
    ensures var n := if length < 0 then 0 else length;
            && crc == Serial(0, MessageBits(data[..n]), poly)
            && IsRemainder(Shifted(16, PolyOf(MessageBits(data[..n]))), Divisor16(poly), Bits16(crc))
  {
    hide IsRemainder, Bits16, Divisor16, Shifted, Serial, MessageBits, PolyOf, TableCrc, ByteStep, IsTable;
    crc := 0;
    var i := 0;
    NoBytes(data[..0], poly);
    while i < length
      invariant 0 <= i <= Clamp(length)
      invariant crc == TableCrc(0, data[..i], poly)
    {
      crc := LookUp(table, crc, data[i], poly);
      TableCrcSnoc(data[..i], data[i], poly);
      assert data[..i + 1] == data[..i] + [data[i]];
      i := i + 1;
    }
    TableIsSerial(data[..i], poly);
    CrcIsRemainder(data[..i], poly);
  }
}
