/**
  The checksums of exos/support/misc/crc16.c: the table-driven 16-bit CRC and the bit-serial 7-bit CRC.
  Both are proved to be remainders of the message polynomial over the two-element field.
*/
module Crc {

  import opened Gf2

  // ---------------------------------------------------------------- messages as bits

  /** The number of bytes a loop over a signed length visits. */
  function Clamp(length: int): nat {
    if length < 0 then 0 else length
  }

  predicate Has(d: bv8, mask: bv8) {
    d & mask != 0
  }

  /** The bits of a byte, most significant first. */
  function ByteBits(d: bv8): seq<bool> {
    [Has(d, 0x80), Has(d, 0x40), Has(d, 0x20), Has(d, 0x10), Has(d, 8), Has(d, 4), Has(d, 2), Has(d, 1)]
  }

  function MessageBits(data: seq<bv8>): seq<bool> {
    if data == [] then [] else MessageBits(data[..|data| - 1]) + ByteBits(data[|data| - 1])
  }

  /** The polynomial whose highest coefficient is the first bit. */
  function PolyOf(bits: seq<bool>): Poly {
    if bits == [] then [] else [bits[|bits| - 1]] + PolyOf(bits[..|bits| - 1])
  }

  lemma {:induction false} PolyOfZeros(bits: seq<bool>, n: nat)
    ensures PolyOf(bits + Zeros(n)) == Shifted(n, PolyOf(bits))
  {
    if n == 0 {
      assert bits + Zeros(0) == bits;
    } else {
      var all := bits + Zeros(n);
      assert all[..|all| - 1] == bits + Zeros(n - 1);
      PolyOfZeros(bits, n - 1);
    }
  }

  // ---------------------------------------------------------------- 16-bit words

  function Xor(a: bv16, b: bv16): bv16 {
    a ^ b
  }

  function Up(a: bv16): bv16 {
    a << 1
  }

  predicate Top(a: bv16) {
    a & 0x8000 != 0
  }

  lemma XorTop(a: bv16, b: bv16)
    ensures Top(Xor(a, b)) == (Top(a) != Top(b))
  {
  }

  lemma XorUp(a: bv16, b: bv16)
    ensures Up(Xor(a, b)) == Xor(Up(a), Up(b))
  {
  }

  lemma XorLaws(a: bv16, b: bv16, p: bv16)
    ensures Xor(Xor(a, p), Xor(b, p)) == Xor(a, b)
    ensures Xor(Xor(a, p), b) == Xor(Xor(a, b), p)
    ensures Xor(a, Xor(b, p)) == Xor(Xor(a, b), p)
  {
    XorCancel(a, b, p);
    XorSwap(a, b, p);
    XorAssoc(a, b, p);
    hide Xor;
  }

  lemma XorCancel(a: bv16, b: bv16, p: bv16)
    ensures Xor(Xor(a, p), Xor(b, p)) == Xor(a, b)
  {
    XorAssoc(Xor(a, p), b, p);
    XorSwap(a, b, p);
    XorTwice(Xor(a, b), p);
    hide Xor;
  }

  lemma XorTwice(a: bv16, p: bv16)
    ensures Xor(Xor(a, p), p) == a
  {
  }

  lemma XorSwap(a: bv16, b: bv16, p: bv16)
    ensures Xor(Xor(a, p), b) == Xor(Xor(a, b), p)
  {
  }

  lemma XorAssoc(a: bv16, b: bv16, p: bv16)
    ensures Xor(a, Xor(b, p)) == Xor(Xor(a, b), p)
  {
  }

  // ---------------------------------------------------------------- the 16-bit register

  /** One turn of the inner loop of crc16_initialize. */
  function ShiftZero(r: bv16, poly: bv16): bv16 {
    if Top(r) then Xor(Up(r), poly) else Up(r)
  }

  function ShiftZeros(k: nat, r: bv16, poly: bv16): bv16 {
    if k == 0 then r else ShiftZeros(k - 1, ShiftZero(r, poly), poly)
  }

  /** The bit-serial register: the next message bit is compared with the bit shifted out. */
  function StepBit(r: bv16, bit: bool, poly: bv16): bv16 {
    if Top(r) != bit then Xor(Up(r), poly) else Up(r)
  }

  function Serial(r: bv16, bits: seq<bool>, poly: bv16): bv16
    decreases |bits|
  {
    if bits == [] then r else Serial(StepBit(r, bits[0], poly), bits[1..], poly)
  }

  lemma ShiftZeroLinear(a: bv16, b: bv16, p: bv16)
    ensures ShiftZero(Xor(a, b), p) == Xor(ShiftZero(a, p), ShiftZero(b, p))
  {
    hide Xor, Up, Top;
    XorTop(a, b);
    XorUp(a, b);
    XorLaws(Up(a), Up(b), p);
  }

  lemma {:induction false} ShiftZerosLinear(k: nat, a: bv16, b: bv16, p: bv16)
    ensures ShiftZeros(k, Xor(a, b), p) == Xor(ShiftZeros(k, a, p), ShiftZeros(k, b, p))
  {
    hide Xor, Up, Top;
    if k > 0 {
      ShiftZeroLinear(a, b, p);
      ShiftZerosLinear(k - 1, ShiftZero(a, p), ShiftZero(b, p), p);
    }
  }

  lemma StepBitLinear(a: bv16, b: bv16, c: bool, d: bool, p: bv16)
    ensures StepBit(Xor(a, b), c != d, p) == Xor(StepBit(a, c, p), StepBit(b, d, p))
  {
    hide Xor, Up, Top;
    XorTop(a, b);
    XorUp(a, b);
    XorLaws(Up(a), Up(b), p);
  }

  lemma {:induction false} SerialConcat(r: bv16, a: seq<bool>, b: seq<bool>, p: bv16)
    ensures Serial(r, a + b, p) == Serial(Serial(r, a, p), b, p)
    decreases |a|
  {
    hide Xor, Up, Top, StepBit;
    if a == [] {
      assert a + b == b;
    } else {
      assert (a + b)[1..] == a[1..] + b;
      SerialConcat(StepBit(r, a[0], p), a[1..], b, p);
    }
  }

  // ---------------------------------------------------------------- the table

  /** A byte as the top half of a word. */
  function WordOf(d: bv8): bv16 {
    (d as bv16) << 8
  }

  function Entry(b: bv8, poly: bv16): bv16 {
    ShiftZeros(8, WordOf(b), poly)
  }

  function Up8(r: bv16): bv16 {
    r << 8
  }

  function Low(r: bv16): bv16 {
    r & 0xff
  }

  function Index(r: bv16, d: bv8): bv8 {
    ((r >> 8) as bv8) ^ d
  }

  /** The CRC16 macro. */
  function ByteStep(r: bv16, d: bv8, poly: bv16): bv16 {
    Xor(Up8(r), Entry(Index(r, d), poly))
  }

  function TableCrc(r: bv16, data: seq<bv8>, poly: bv16): bv16 {
    if data == [] then r else ByteStep(TableCrc(r, data[..|data| - 1], poly), data[|data| - 1], poly)
  }

  function Mask(bit: bool): bv16 {
    if bit then 0x8000 else 0
  }

  /** Feeding the top bits of w one by one. */
  function Feed(k: nat, r: bv16, w: bv16, poly: bv16): bv16 {
    if k == 0 then r else Feed(k - 1, StepBit(r, Top(w), poly), Up(w), poly)
  }

  function Ups(k: nat, w: bv16): bv16 {
    if k == 0 then w else Ups(k - 1, Up(w))
  }

  /** Comparing the incoming bit with the outgoing one is adding it first. */
  lemma AddThenShift(r: bv16, w: bv16, p: bv16)
    ensures ShiftZero(Xor(r, w), p) == Xor(StepBit(r, Top(w), p), Up(w))
  {
    hide Xor, Up, Top;
    XorTop(r, w);
    XorUp(r, w);
    XorLaws(Up(r), Up(w), p);
  }

  lemma {:induction false} FeedIsShift(k: nat, r: bv16, w: bv16, p: bv16)
    ensures ShiftZeros(k, Xor(r, w), p) == Xor(Feed(k, r, w, p), Ups(k, w))
  {
    hide Xor, Up, Top, ShiftZero, StepBit;
    if k > 0 {
      AddThenShift(r, w, p);
      FeedIsShift(k - 1, StepBit(r, Top(w), p), Up(w), p);
    }
  }

  lemma TopBits(d: bv8)
    ensures var w := WordOf(d);
            && Top(w) == (d & 0x80 != 0) && Top(w << 1) == (d & 0x40 != 0)
            && Top(w << 2) == (d & 0x20 != 0) && Top(w << 3) == (d & 0x10 != 0)
            && Top(w << 4) == (d & 8 != 0) && Top(w << 5) == (d & 4 != 0)
            && Top(w << 6) == (d & 2 != 0) && Top(w << 7) == (d & 1 != 0)
            && w << 8 == 0
  {
  }

  lemma UpTwice(w: bv16)
    ensures Up(w) == w << 1 && Up(w << 1) == w << 2 && Up(w << 2) == w << 3 && Up(w << 3) == w << 4
    ensures Up(w << 4) == w << 5 && Up(w << 5) == w << 6 && Up(w << 6) == w << 7 && Up(w << 7) == w << 8
  {
  }

  lemma {:induction false} UpsLast(k: nat, w: bv16)
    ensures Ups(k + 1, w) == Up(Ups(k, w))
  {
    hide Up;
    if k > 0 {
      UpsLast(k - 1, Up(w));
    }
  }

  lemma UpsAre(w: bv16)
    ensures Ups(0, w) == w && Ups(1, w) == w << 1 && Ups(2, w) == w << 2 && Ups(3, w) == w << 3
    ensures Ups(4, w) == w << 4 && Ups(5, w) == w << 5 && Ups(6, w) == w << 6 && Ups(7, w) == w << 7
    ensures Ups(8, w) == w << 8
  {
    UpTwice(w);
    hide Up;
    UpsLast(0, w);
    UpsLast(1, w);
    UpsLast(2, w);
    UpsLast(3, w);
    UpsLast(4, w);
    UpsLast(5, w);
    UpsLast(6, w);
    UpsLast(7, w);
  }

  lemma {:induction false} FeedBits(r: bv16, w: bv16, bits: seq<bool>, p: bv16)
    requires forall i :: 0 <= i < |bits| ==> Top(Ups(i, w)) == bits[i]
    ensures Feed(|bits|, r, w, p) == Serial(r, bits, p)
    decreases |bits|
  {
    hide Xor, Up, Top, StepBit;
    if bits != [] {
      assert Top(Ups(0, w)) == bits[0];
      forall i | 0 <= i < |bits| - 1 ensures Top(Ups(i, Up(w))) == bits[1..][i] {
        assert Top(Ups(i + 1, w)) == bits[i + 1];
      }
      FeedBits(StepBit(r, Top(w), p), Up(w), bits[1..], p);
    }
  }

  lemma ByteTops(d: bv8)
    ensures forall i :: 0 <= i < 8 ==> Top(Ups(i, WordOf(d))) == ByteBits(d)[i]
  {
    UpsAre(WordOf(d));
    TopBits(d);
    hide Up, Top, Ups;
  }

  /** Feeding a byte from the top of a word is feeding its bits in order. */
  lemma FeedByte(r: bv16, d: bv8, p: bv16)
    ensures Feed(8, r, WordOf(d), p) == Serial(r, ByteBits(d), p)
    ensures Ups(8, WordOf(d)) == 0
  {
    UpsAre(WordOf(d));
    TopBits(d);
    ByteTops(d);
    hide Up, Top, Ups;
    FeedBits(r, WordOf(d), ByteBits(d), p);
  }

  lemma {:induction false} NoReduction(k: nat, w: bv16, p: bv16)
    requires forall i :: 0 <= i < k ==> !Top(Ups(i, w))
    ensures ShiftZeros(k, w, p) == Ups(k, w)
  {
    hide Xor, Up, Top;
    if k > 0 {
      assert !Top(Ups(0, w));
      forall i | 0 <= i < k - 1 ensures !Top(Ups(i, Up(w))) {
        assert !Top(Ups(i + 1, w));
      }
      NoReduction(k - 1, Up(w), p);
    }
  }

  lemma LowTops(w: bv16)
    requires w & 0xff00 == 0
    ensures !Top(w) && !Top(w << 1) && !Top(w << 2) && !Top(w << 3)
    ensures !Top(w << 4) && !Top(w << 5) && !Top(w << 6) && !Top(w << 7)
  {
  }

  lemma LowByteShifts(w: bv16, p: bv16)
    requires w & 0xff00 == 0
    ensures ShiftZeros(8, w, p) == w << 8
  {
    UpsAre(w);
    LowTops(w);
    hide Up, Top, Ups, ShiftZeros;
    assert forall i :: 0 <= i < 8 ==> !Top(Ups(i, w));
    NoReduction(8, w, p);
  }

  lemma WordOfXor(d: bv8, e: bv8)
    ensures WordOf(d ^ e) == Xor(WordOf(d), WordOf(e))
  {
  }

  lemma Halves(r: bv16)
    ensures r == Xor(WordOf((r >> 8) as bv8), Low(r))
  {
  }

  lemma SplitWord(r: bv16, d: bv8)
    ensures Xor(r, WordOf(d)) == Xor(WordOf(Index(r, d)), Low(r))
  {
    var h := (r >> 8) as bv8;
    WordOfXor(h, d);
    Halves(r);
    hide Xor, WordOf, Low;
    XorSwap(WordOf(h), WordOf(d), Low(r));
  }

  lemma LowWord(r: bv16)
    ensures Low(r) << 8 == Up8(r) && Low(r) & 0xff00 == 0
  {
  }

  lemma XorComm(a: bv16, b: bv16)
    ensures Xor(a, b) == Xor(b, a) && Xor(a, 0) == a
  {
  }

  /** One table look-up does the work of eight bit steps. */
  lemma ByteStepIsSerial(r: bv16, d: bv8, p: bv16)
    ensures ByteStep(r, d, p) == Serial(r, ByteBits(d), p)
  {
    SplitWord(r, d);
    LowWord(r);
    LowByteShifts(Low(r), p);
    hide Xor, Up, Top, Ups, ShiftZeros, Serial, WordOf, Index, Low, Up8;
    FeedIsShift(8, r, WordOf(d), p);
    FeedByte(r, d, p);
    XorComm(Serial(r, ByteBits(d), p), 0);
    ShiftZerosLinear(8, WordOf(Index(r, d)), Low(r), p);
    XorComm(ShiftZeros(8, WordOf(Index(r, d)), p), Up8(r));
  }

  /** For every polynomial and message the table-driven CRC is the bit-serial register. */
  lemma {:induction false} TableIsSerial(data: seq<bv8>, p: bv16)
    ensures TableCrc(0, data, p) == Serial(0, MessageBits(data), p)
  {
    hide ByteStep, ByteBits, StepBit;
    if data != [] {
      var rest := data[..|data| - 1];
      TableIsSerial(rest, p);
      SerialConcat(0, MessageBits(rest), ByteBits(data[|data| - 1]), p);
      ByteStepIsSerial(TableCrc(0, rest, p), data[|data| - 1], p);
    }
  }

  // ---------------------------------------------------------------- linearity

  function XorBits(a: seq<bool>, b: seq<bool>): seq<bool>
    requires |a| == |b|
  {
    seq(|a|, i requires 0 <= i < |a| => a[i] != b[i])
  }

  function XorBytes(a: seq<bv8>, b: seq<bv8>): seq<bv8>
    requires |a| == |b|
  {
    seq(|a|, i requires 0 <= i < |a| => XorByte(a[i], b[i]))
  }

  lemma {:induction false} SerialLinear(x: bv16, y: bv16, a: seq<bool>, b: seq<bool>, p: bv16)
    requires |a| == |b|
    ensures Serial(Xor(x, y), XorBits(a, b), p) == Xor(Serial(x, a, p), Serial(y, b, p))
    decreases |a|
  {
    hide Xor, StepBit;
    if a != [] {
      StepBitLinear(x, y, a[0], b[0], p);
      assert XorBits(a, b)[1..] == XorBits(a[1..], b[1..]);
      SerialLinear(StepBit(x, a[0], p), StepBit(y, b[0], p), a[1..], b[1..], p);
    }
  }

  function XorByte(d: bv8, e: bv8): bv8 {
    d ^ e
  }

  lemma XorHas(d: bv8, e: bv8, mask: bv8)
    requires mask != 0 && mask & (mask - 1) == 0
    ensures Has(XorByte(d, e), mask) == (Has(d, mask) != Has(e, mask))
  {
  }

  lemma XorHasAll(d: bv8, e: bv8)
    ensures Has(XorByte(d, e), 0x80) == (Has(d, 0x80) != Has(e, 0x80))
    ensures Has(XorByte(d, e), 0x40) == (Has(d, 0x40) != Has(e, 0x40))
    ensures Has(XorByte(d, e), 0x20) == (Has(d, 0x20) != Has(e, 0x20))
    ensures Has(XorByte(d, e), 0x10) == (Has(d, 0x10) != Has(e, 0x10))
    ensures Has(XorByte(d, e), 8) == (Has(d, 8) != Has(e, 8))
    ensures Has(XorByte(d, e), 4) == (Has(d, 4) != Has(e, 4))
    ensures Has(XorByte(d, e), 2) == (Has(d, 2) != Has(e, 2))
    ensures Has(XorByte(d, e), 1) == (Has(d, 1) != Has(e, 1))
  {
    XorHas(d, e, 0x80);
    XorHas(d, e, 0x40);
    XorHas(d, e, 0x20);
    XorHas(d, e, 0x10);
    XorHas(d, e, 8);
    XorHas(d, e, 4);
    XorHas(d, e, 2);
    XorHas(d, e, 1);
    hide Has, XorByte;
  }

  lemma ByteBitsAre(d: bv8)
    ensures var b := ByteBits(d);
            && |b| == 8
            && b[0] == Has(d, 0x80) && b[1] == Has(d, 0x40) && b[2] == Has(d, 0x20) && b[3] == Has(d, 0x10)
            && b[4] == Has(d, 8) && b[5] == Has(d, 4) && b[6] == Has(d, 2) && b[7] == Has(d, 1)
  {
    hide Has;
  }

  lemma XorOfEight(a: seq<bool>, b: seq<bool>, c: seq<bool>)
    requires |a| == |b| == |c| == 8
    requires c[0] == (a[0] != b[0]) && c[1] == (a[1] != b[1]) && c[2] == (a[2] != b[2]) && c[3] == (a[3] != b[3])
    requires c[4] == (a[4] != b[4]) && c[5] == (a[5] != b[5]) && c[6] == (a[6] != b[6]) && c[7] == (a[7] != b[7])
    ensures c == XorBits(a, b)
  {
  }

  lemma XorByteBits(d: bv8, e: bv8)
    ensures |ByteBits(d)| == |ByteBits(e)| == 8
    ensures ByteBits(XorByte(d, e)) == XorBits(ByteBits(d), ByteBits(e))
  {
    XorHasAll(d, e);
    ByteBitsAre(d);
    ByteBitsAre(e);
    ByteBitsAre(XorByte(d, e));
    hide Has, XorByte, ByteBits, XorBits;
    XorOfEight(ByteBits(d), ByteBits(e), ByteBits(XorByte(d, e)));
  }

  /** The CRC of the XOR of two messages of one length is the XOR of their CRCs. */
  lemma {:induction false} CrcLinear(a: seq<bv8>, b: seq<bv8>, p: bv16)
    requires |a| == |b|
    ensures TableCrc(0, XorBytes(a, b), p) == Xor(TableCrc(0, a, p), TableCrc(0, b, p))
    decreases |a|
  {
    if a == [] {
      XorComm(0, 0);
    } else {
      hide Xor, XorByte, ByteStep, ByteBits, XorBits, Serial;
      var n := |a| - 1;
      var x, y := TableCrc(0, a[..n], p), TableCrc(0, b[..n], p);
      assert XorBytes(a, b)[..n] == XorBytes(a[..n], b[..n]);
      CrcLinear(a[..n], b[..n], p);
      XorByteBits(a[n], b[n]);
      ByteStepIsSerial(x, a[n], p);
      ByteStepIsSerial(y, b[n], p);
      ByteStepIsSerial(Xor(x, y), XorByte(a[n], b[n]), p);
      SerialLinear(x, y, ByteBits(a[n]), ByteBits(b[n]), p);
    }
  }

  // ---------------------------------------------------------------- checking a received message

  function HighByte(r: bv16): bv8 {
    (r >> 8) as bv8
  }

  function LowByte(r: bv16): bv8 {
    (r & 0xff) as bv8
  }

  function Widened(d: bv8): bv16 {
    d as bv16
  }

  lemma ByteStepShifts(r: bv16, d: bv8, p: bv16)
    ensures ByteStep(r, d, p) == ShiftZeros(8, Xor(r, WordOf(d)), p)
  {
    ByteStepIsSerial(r, d, p);
    hide Xor, ByteStep, ShiftZeros, Serial, WordOf, Up, Top, Ups;
    FeedByte(r, d, p);
    FeedIsShift(8, r, WordOf(d), p);
    XorComm(Serial(r, ByteBits(d), p), 0);
  }

  lemma {:induction false} ShiftZerosAdd(j: nat, k: nat, r: bv16, p: bv16)
    ensures ShiftZeros(k, ShiftZeros(j, r, p), p) == ShiftZeros(j + k, r, p)
  {
    hide ShiftZero;
    if j > 0 {
      ShiftZerosAdd(j - 1, k, ShiftZero(r, p), p);
    }
  }

  lemma WidenedShifts(d: bv8, p: bv16)
    ensures ShiftZeros(8, Widened(d), p) == WordOf(d)
  {
    LowByteShifts(Widened(d), p);
    hide ShiftZeros;
  }

  /** Two more bytes a, b turn the register into sixteen shifts of its sum with the word a:b. */
  lemma TwoBytes(r: bv16, a: bv8, b: bv8, p: bv16)
    ensures ByteStep(ByteStep(r, a, p), b, p) == ShiftZeros(16, Xor(Xor(r, WordOf(a)), Widened(b)), p)
  {
    hide Xor, ByteStep, ShiftZeros, WordOf, Widened;
    var u := Xor(r, WordOf(a));
    ByteStepShifts(r, a, p);
    ByteStepShifts(ByteStep(r, a, p), b, p);
    WidenedShifts(b, p);
    ShiftZerosLinear(8, u, Widened(b), p);
    ShiftZerosAdd(8, 8, Xor(u, Widened(b)), p);
  }

  lemma JoinIsZero(r: bv16, a: bv8, b: bv8)
    ensures Xor(Xor(r, WordOf(a)), Widened(b)) == 0 <==> a == HighByte(r) && b == LowByte(r)
  {
  }

  lemma {:induction false} ShiftZerosOfZero(k: nat, p: bv16)
    ensures ShiftZeros(k, 0, p) == 0
  {
    if k > 0 {
      assert ShiftZero(0, p) == 0;
      ShiftZerosOfZero(k - 1, p);
    }
  }

  lemma ShiftZeroKernel(r: bv16, p: bv16)
    requires p & 1 == 1 && ShiftZero(r, p) == 0
    ensures r == 0
  {
    if Top(r) {
      RawOdd(r, p);
    }
  }

  lemma RawOdd(r: bv16, p: bv16)
    requires p & 1 == 1
    ensures (r << 1) ^ p != 0
  {
  }

  lemma {:induction false} ShiftZerosKernel(k: nat, r: bv16, p: bv16)
    requires p & 1 == 1 && ShiftZeros(k, r, p) == 0
    ensures r == 0
  {
    hide ShiftZero;
    if k > 0 {
      ShiftZerosKernel(k - 1, ShiftZero(r, p), p);
      ShiftZeroKernel(r, p);
    }
  }

  lemma {:induction false} TableConcat(data: seq<bv8>, a: bv8, b: bv8, p: bv16)
    ensures TableCrc(0, data + [a, b], p) == ByteStep(ByteStep(TableCrc(0, data, p), a, p), b, p)
  {
    hide ByteStep;
    var one := data + [a];
    assert (data + [a, b])[..|data| + 1] == one;
    assert one[..|data|] == data;
  }

  /** A message followed by its own CRC, high byte first, has CRC 0. */
  lemma OwnCrcChecks(data: seq<bv8>, p: bv16)
    ensures var c := TableCrc(0, data, p);
            TableCrc(0, data + [HighByte(c), LowByte(c)], p) == 0
  {
    hide ByteStep, ShiftZeros, Xor, WordOf, Widened;
    var c := TableCrc(0, data, p);
    TableConcat(data, HighByte(c), LowByte(c), p);
    TwoBytes(c, HighByte(c), LowByte(c), p);
    JoinIsZero(c, HighByte(c), LowByte(c));
    ShiftZerosOfZero(16, p);
  }

  /** For a polynomial with constant term 1, the check accepts no other two bytes. */
  lemma OnlyOwnCrcChecks(data: seq<bv8>, a: bv8, b: bv8, p: bv16)
    requires p & 1 == 1
    ensures var c := TableCrc(0, data, p);
            TableCrc(0, data + [a, b], p) == 0 <==> a == HighByte(c) && b == LowByte(c)
  {
    hide ByteStep, ShiftZeros, Xor, WordOf, Widened;
    var c := TableCrc(0, data, p);
    TableConcat(data, a, b, p);
    TwoBytes(c, a, b, p);
    JoinIsZero(c, a, b);
    ShiftZerosOfZero(16, p);
    if TableCrc(0, data + [a, b], p) == 0 {
      ShiftZerosKernel(16, Xor(Xor(c, WordOf(a)), Widened(b)), p);
    }
  }

  /** Without the constant term some wrong pair of bytes is always accepted. */
  lemma EvenAcceptsOther(data: seq<bv8>, p: bv16) returns (a: bv8, b: bv8)
    requires p & 1 == 0
    ensures var c := TableCrc(0, data, p);
            TableCrc(0, data + [a, b], p) == 0 && !(a == HighByte(c) && b == LowByte(c))
  {
    hide ByteStep, ShiftZeros;
    var c := TableCrc(0, data, p);
    var w := 0x8000 | (p >> 1);
    a, b := HighByte(Xor(c, w)), LowByte(Xor(c, w));
    SumOf(c, w);
    KernelOf(p);
    TableConcat(data, a, b, p);
    TwoBytes(c, a, b, p);
    JoinIsZero(c, a, b);
    hide Xor, WordOf, Widened, ShiftZero;
    ShiftZerosAdd(1, 15, w, p);
    OneShift(w, p);
    ShiftZerosOfZero(15, p);
  }

  lemma SumOf(c: bv16, w: bv16)
    ensures Xor(Xor(c, WordOf(HighByte(Xor(c, w)))), Widened(LowByte(Xor(c, w)))) == w
  {
  }

  lemma KernelOf(p: bv16)
    requires p & 1 == 0
    ensures 0x8000 | (p >> 1) != 0 && ShiftZero(0x8000 | (p >> 1), p) == 0
  {
  }

  lemma OneShift(w: bv16, p: bv16)
    ensures ShiftZeros(1, w, p) == ShiftZero(w, p)
  {
  }
}
