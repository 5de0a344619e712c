/**
  The bitmap conversion of exos/support/lcd/lcd.c: rows of 32-bit words, leftmost pixel in the highest bit,
  become vertical bytes. Each 32x8 tile is transposed by three rounds of masked bit exchange.
*/
module Lcd {

  import opened Bits32

  // ---------------------------------------------------------------- _bit_exchange

  function ExchangedA(a: bv32, b: bv32, mask: bv32, shift: int): bv32
    requires 0 <= shift < 32
  {
    Or(And(a, mask), Shl(And(b, mask), shift))
  }

  function ExchangedB(a: bv32, b: bv32, mask: bv32, shift: int): bv32
    requires 0 <= shift < 32
  {
    Or(And(Shr(a, shift), mask), And(b, Not(mask)))
  }

  /** i is a place of the mask whose neighbours at distance shift are not. */
  ghost predicate Low(mask: bv32, shift: int, i: int)
    requires 0 < shift < 32
  {
    && 0 <= i && i + shift < 32 && Bit(mask, i) && !Bit(mask, i + shift)
    && (i >= shift ==> !Bit(mask, i - shift))
  }

  lemma ExchangeA(a: bv32, b: bv32, mask: bv32, shift: int, i: int)
    requires 0 < shift < 32 && Low(mask, shift, i)
    ensures Bit(ExchangedA(a, b, mask, shift), i) == Bit(a, i)
    ensures Bit(ExchangedA(a, b, mask, shift), i + shift) == Bit(b, i)
  {
    hide Bit, And, Or, Not, Shl, Shr;
    ExchangeAAt(a, b, mask, shift, i);
    ExchangeAAt(a, b, mask, shift, i + shift);
  }

  lemma ExchangeAAt(a: bv32, b: bv32, mask: bv32, shift: int, i: int)
    requires 0 < shift < 32 && 0 <= i < 32
    ensures Bit(ExchangedA(a, b, mask, shift), i)
         == ((Bit(a, i) && Bit(mask, i)) || (i >= shift && Bit(b, i - shift) && Bit(mask, i - shift)))
  {
    hide Bit, And, Or, Not, Shl, Shr;
    OrBit(And(a, mask), Shl(And(b, mask), shift), i);
    AndBit(a, mask, i);
    ShlBit(And(b, mask), shift, i);
    if i >= shift {
      AndBit(b, mask, i - shift);
    }
  }

  lemma ExchangeBAt(a: bv32, b: bv32, mask: bv32, shift: int, i: int)
    requires 0 < shift < 32 && 0 <= i < 32
    ensures Bit(ExchangedB(a, b, mask, shift), i)
         == if Bit(mask, i) then i + shift < 32 && Bit(a, i + shift) else Bit(b, i)
  {
    hide Bit, And, Or, Not, Shl, Shr;
    OrBit(And(Shr(a, shift), mask), And(b, Not(mask)), i);
    AndBit(Shr(a, shift), mask, i);
    AndBit(b, Not(mask), i);
    NotBit(mask, i);
    ShrBit(a, shift, i);
  }

  /** _bit_exchange swaps the unmasked places of a with the masked places of b. */
  method BitExchange(a: bv32, b: bv32, mask: bv32, shift: int) returns (a': bv32, b': bv32)
    requires 0 < shift < 32
    ensures a' == ExchangedA(a, b, mask, shift) && b' == ExchangedB(a, b, mask, shift)
    ensures forall i :: Low(mask, shift, i) ==>
              && Bit(a', i) == Bit(a, i) && Bit(a', i + shift) == Bit(b, i)
              && Bit(b', i) == Bit(a, i + shift) && Bit(b', i + shift) == Bit(b, i + shift)
  {
    hide Bit, And, Or, Not, Shl, Shr;
    var r := Or(And(a, mask), Shl(And(b, mask), shift));
    b' := Or(And(Shr(a, shift), mask), And(b, Not(mask)));
    a' := r;
    forall i | Low(mask, shift, i)
      ensures Bit(a', i) == Bit(a, i) && Bit(a', i + shift) == Bit(b, i)
      ensures Bit(b', i) == Bit(a, i + shift) && Bit(b', i + shift) == Bit(b, i + shift)
    {
      ExchangeA(a, b, mask, shift, i);
      ExchangeBAt(a, b, mask, shift, i);
      ExchangeBAt(a, b, mask, shift, i + shift);
    }
  }

  // ---------------------------------------------------------------- the masks

  lemma MaskFirst(i: int)
    requires 0 <= i < 8
    ensures Bit(0x0f0f0f0f, i) == (i % 8 < 4) && Bit(0x33333333, i) == (i % 4 < 2) && Bit(0x55555555, i) == (i % 2 == 0)
  {
    HotFirst();
    hide Hot;
  }

  lemma MaskSecond(i: int)
    requires 8 <= i < 16
    ensures Bit(0x0f0f0f0f, i) == (i % 8 < 4) && Bit(0x33333333, i) == (i % 4 < 2) && Bit(0x55555555, i) == (i % 2 == 0)
  {
    HotSecond();
    hide Hot;
  }

  lemma MaskThird(i: int)
    requires 16 <= i < 24
    ensures Bit(0x0f0f0f0f, i) == (i % 8 < 4) && Bit(0x33333333, i) == (i % 4 < 2) && Bit(0x55555555, i) == (i % 2 == 0)
  {
    HotThird();
    hide Hot;
  }

  lemma MaskFourth(i: int)
    requires 24 <= i < 32
    ensures Bit(0x0f0f0f0f, i) == (i % 8 < 4) && Bit(0x33333333, i) == (i % 4 < 2) && Bit(0x55555555, i) == (i % 2 == 0)
  {
    HotFourth();
    hide Hot;
  }

  lemma Masks(i: int)
    requires 0 <= i < 32
    ensures Bit(0x0f0f0f0f, i) == (i % 8 < 4) && Bit(0x33333333, i) == (i % 4 < 2) && Bit(0x55555555, i) == (i % 2 == 0)
  {
    hide Bit;
    if i < 8 {
      MaskFirst(i);
    } else if i < 16 {
      MaskSecond(i);
    } else if i < 24 {
      MaskThird(i);
    } else {
      MaskFourth(i);
    }
  }

  lemma Low4(i: int)
    requires 0 <= i < 32 && i % 8 < 4
    ensures Low(0x0f0f0f0f, 4, i)
  {
    hide Bit;
    Masks(i);
    Masks(i + 4);
    if i >= 4 {
      Masks(i - 4);
    }
  }

  lemma Low2(i: int)
    requires 0 <= i < 32 && i % 4 < 2
    ensures Low(0x33333333, 2, i)
  {
    hide Bit;
    assert (i + 2) % 4 >= 2;
    Masks(i);
    Masks(i + 2);
    if i >= 2 {
      Masks(i - 2);
    }
  }

  lemma Low1(i: int)
    requires 0 <= i < 32 && i % 2 == 0
    ensures Low(0x55555555, 1, i)
  {
    hide Bit;
    Masks(i);
    Masks(i + 1);
    if i >= 1 {
      Masks(i - 1);
    }
  }

  // ---------------------------------------------------------------- the rounds

  type Bin = b: int | 0 <= b < 2

  predicate IsShift(s: int) {
    s == 1 || s == 2 || s == 4
  }

  function Round4(d: seq<bv32>): (e: seq<bv32>)
    requires |d| == 8
    ensures |e| == 8
  {
    [ExchangedA(d[0], d[4], 0x0f0f0f0f, 4), ExchangedA(d[1], d[5], 0x0f0f0f0f, 4),
     ExchangedA(d[2], d[6], 0x0f0f0f0f, 4), ExchangedA(d[3], d[7], 0x0f0f0f0f, 4),
     ExchangedB(d[0], d[4], 0x0f0f0f0f, 4), ExchangedB(d[1], d[5], 0x0f0f0f0f, 4),
     ExchangedB(d[2], d[6], 0x0f0f0f0f, 4), ExchangedB(d[3], d[7], 0x0f0f0f0f, 4)]
  }

  function Round2(d: seq<bv32>): (e: seq<bv32>)
    requires |d| == 8
    ensures |e| == 8
  {
    [ExchangedA(d[0], d[2], 0x33333333, 2), ExchangedA(d[1], d[3], 0x33333333, 2),
     ExchangedB(d[0], d[2], 0x33333333, 2), ExchangedB(d[1], d[3], 0x33333333, 2),
     ExchangedA(d[4], d[6], 0x33333333, 2), ExchangedA(d[5], d[7], 0x33333333, 2),
     ExchangedB(d[4], d[6], 0x33333333, 2), ExchangedB(d[5], d[7], 0x33333333, 2)]
  }

  function Round1(d: seq<bv32>): (e: seq<bv32>)
    requires |d| == 8
    ensures |e| == 8
  {
    [ExchangedA(d[0], d[1], 0x55555555, 1), ExchangedB(d[0], d[1], 0x55555555, 1),
     ExchangedA(d[2], d[3], 0x55555555, 1), ExchangedB(d[2], d[3], 0x55555555, 1),
     ExchangedA(d[4], d[5], 0x55555555, 1), ExchangedB(d[4], d[5], 0x55555555, 1),
     ExchangedA(d[6], d[7], 0x55555555, 1), ExchangedB(d[6], d[7], 0x55555555, 1)]
  }

  lemma PairBits(a: bv32, b: bv32, mask: bv32, s: int, i: int, ch: Bin, kh: Bin)
    requires IsShift(s) && Low(mask, s, i)
    ensures Bit(if ch == 0 then ExchangedA(a, b, mask, s) else ExchangedB(a, b, mask, s), i + s * kh)
         == Bit(if kh == 0 then a else b, i + s * ch)
  {
    hide Bit, ExchangedA, ExchangedB;
    ExchangeA(a, b, mask, s, i);
    ExchangeBAt(a, b, mask, s, i);
    ExchangeBAt(a, b, mask, s, i + s);
  }

  /** A round swaps one binary digit of the row number with that of the bit number. */
  lemma Round4Swaps(d: seq<bv32>, lo: int, i: int, ch: Bin, kh: Bin)
    requires |d| == 8 && 0 <= lo < 4 && Low(0x0f0f0f0f, 4, i)
    ensures Bit(Round4(d)[lo + 4 * ch], i + 4 * kh) == Bit(d[lo + 4 * kh], i + 4 * ch)
  {
    hide Bit, ExchangedA, ExchangedB, Low;
    PairBits(d[lo], d[lo + 4], 0x0f0f0f0f, 4, i, ch, kh);
    if lo == 0 {
    } else if lo == 1 {
    } else if lo == 2 {
    } else {
    }
  }

  lemma Round2Swaps(d: seq<bv32>, lo: int, i: int, ch: Bin, kh: Bin)
    requires |d| == 8 && 0 <= lo < 8 && lo % 4 < 2 && Low(0x33333333, 2, i)
    ensures Bit(Round2(d)[lo + 2 * ch], i + 2 * kh) == Bit(d[lo + 2 * kh], i + 2 * ch)
  {
    hide Bit, ExchangedA, ExchangedB, Low;
    PairBits(d[lo], d[lo + 2], 0x33333333, 2, i, ch, kh);
    if lo == 0 {
    } else if lo == 1 {
    } else if lo == 4 {
    } else {
    }
  }

  lemma Round1Swaps(d: seq<bv32>, lo: int, i: int, ch: Bin, kh: Bin)
    requires |d| == 8 && 0 <= lo < 8 && lo % 2 == 0 && Low(0x55555555, 1, i)
    ensures Bit(Round1(d)[lo + 1 * ch], i + 1 * kh) == Bit(d[lo + 1 * kh], i + 1 * ch)
  {
    hide Bit, ExchangedA, ExchangedB, Low;
    PairBits(d[lo], d[lo + 1], 0x55555555, 1, i, ch, kh);
    if lo == 0 {
    } else if lo == 2 {
    } else if lo == 4 {
    } else {
    }
  }

  /** The three rounds of _tile_rotate. */
  function Rotated(d: seq<bv32>): (e: seq<bv32>)
    requires |d| == 8
    ensures |e| == 8
  {
    Round1(Round2(Round4(d)))
  }

  lemma DigitsSwap(d: seq<bv32>, t: int, c2: Bin, c1: Bin, c0: Bin, k2: Bin, k1: Bin, k0: Bin)
    requires |d| == 8 && 0 <= t < 4
    ensures Bit(Rotated(d)[4 * c2 + 2 * c1 + c0], 8 * t + 4 * k2 + 2 * k1 + k0)
         == Bit(d[4 * k2 + 2 * k1 + k0], 8 * t + 4 * c2 + 2 * c1 + c0)
  {
    hide Bit, Round1, Round2, Round4, Low;
    Low4(8 * t + 2 * c1 + c0);
    Round4Swaps(d, 2 * k1 + k0, 8 * t + 2 * c1 + c0, c2, k2);
    Low2(8 * t + 4 * k2 + c0);
    Round2Swaps(Round4(d), 4 * c2 + k0, 8 * t + 4 * k2 + c0, c1, k1);
    Low1(8 * t + 4 * k2 + 2 * k1);
    Round1Swaps(Round2(Round4(d)), 4 * c2 + 2 * c1, 8 * t + 4 * k2 + 2 * k1, c0, k0);
  }

  /** _tile_rotate transposes every 8x8 block of the tile. */
  lemma RotatedTransposes(d: seq<bv32>, t: int, c: int, k: int)
    requires |d| == 8 && 0 <= t < 4 && 0 <= c < 8 && 0 <= k < 8
    ensures Bit(Rotated(d)[c], 8 * t + k) == Bit(d[k], 8 * t + c)
  {
    hide Bit, Rotated;
    DigitsSwap(d, t, c / 4, c / 2 % 2, c % 2, k / 4, k / 2 % 2, k % 2);
    assert c == 4 * (c / 4) + 2 * (c / 2 % 2) + c % 2;
    assert k == 4 * (k / 4) + 2 * (k / 2 % 2) + k % 2;
  }

  // ---------------------------------------------------------------- bytes of a tile

  function LowByte(w: bv32): bv8 {
    (w & 0xff) as bv8
  }

  ghost predicate ByteBit(b: bv8, k: int)
    requires 0 <= k < 8
  {
    Bit(b as bv32, k)
  }

  lemma LowBytePlaces(k: int)
    requires 0 <= k < 8
    ensures Bit(0xff, k)
  {
    HotFirst();
    hide Hot;
  }

  lemma LowByteBit(w: bv32, k: int)
    requires 0 <= k < 8
    ensures ByteBit(LowByte(w), k) == Bit(w, k)
  {
    assert LowByte(w) as bv32 == And(w, 0xff);
    hide LowByte, Bit, And;
    AndBit(w, 0xff, k);
    LowBytePlaces(k);
  }

  /** Byte x of a tile, taken from the rotated words. */
  function TileByte(e: seq<bv32>, x: int): bv8
    requires |e| == 8 && 0 <= x < 32
  {
    LowByte(Shr(e[7 - x % 8], 24 - 8 * (x / 8)))
  }

  /** Bit k of byte x of a tile is the pixel x of row k, counted from the highest bit. */
  lemma TileByteBit(d: seq<bv32>, x: int, k: int)
    requires |d| == 8 && 0 <= x < 32 && 0 <= k < 8
    ensures ByteBit(TileByte(Rotated(d), x), k) == Bit(d[k], 31 - x)
  {
    hide Bit, LowByte, Rotated, ByteBit, Shr;
    var s := 24 - 8 * (x / 8);
    var w := Rotated(d)[7 - x % 8];
    LowByteBit(Shr(w, s), k);
    ShrBit(w, s, k);
    RotatedTransposes(d, 3 - x / 8, 7 - x % 8, k);
    assert 8 * (3 - x / 8) + k == k + s;
  }

  /** b shows the pixels x of the eight rows that start at from and lie stride words apart. */
  ghost predicate Column(b: bv8, src: seq<bv32>, from: int, stride: int, x: int)
    requires 0 <= from && 0 <= stride && from + 7 * stride < |src| && 0 <= x < 32
  {
    forall k :: 0 <= k < 8 ==> ByteBit(b, k) == Bit(RowWord(src, from, stride, k), 31 - x)
  }

  function RowWord(src: seq<bv32>, from: int, stride: int, k: int): bv32
    requires 0 <= k < 8 && 0 <= from && 0 <= stride && from + 7 * stride < |src|
  {
    RowIndex(from, stride, k);
    src[from + k * stride]
  }

  lemma RowIndex(from: int, stride: int, k: int)
    requires 0 <= k < 8 && 0 <= stride
    ensures 0 <= k * stride <= 7 * stride
  {
  }

  /** The bytes at at.. are the transposed tile. */
  ghost predicate TileDone(dst: seq<bv8>, at: int, src: seq<bv32>, from: int, stride: int)
    requires 0 <= at && at + 32 <= |dst| && 0 <= from && 0 <= stride && from + 7 * stride < |src|
  {
    forall i :: at <= i < at + 32 ==> Column(dst[i], src, from, stride, i - at)
  }

  // ---------------------------------------------------------------- _tile_rotate

  /** The first four exchanges of _tile_rotate. */
  method FirstRound(d: seq<bv32>) returns (e: seq<bv32>)
    requires |d| == 8
    ensures |e| == 8 && e == Round4(d)
  {
    hide Bit, Low, ExchangedA, ExchangedB;
    var d0, d1, d2, d3, d4, d5, d6, d7 := d[0], d[1], d[2], d[3], d[4], d[5], d[6], d[7];
    d0, d4 := BitExchange(d0, d4, 0x0f0f0f0f, 4);
    d1, d5 := BitExchange(d1, d5, 0x0f0f0f0f, 4);
    d2, d6 := BitExchange(d2, d6, 0x0f0f0f0f, 4);
    d3, d7 := BitExchange(d3, d7, 0x0f0f0f0f, 4);
    e := [d0, d1, d2, d3, d4, d5, d6, d7];
  }

  /** The next four exchanges of _tile_rotate. */
  method SecondRound(d: seq<bv32>) returns (e: seq<bv32>)
    requires |d| == 8
    ensures |e| == 8 && e == Round2(d)
  {
    hide Bit, Low, ExchangedA, ExchangedB;
    var d0, d1, d2, d3, d4, d5, d6, d7 := d[0], d[1], d[2], d[3], d[4], d[5], d[6], d[7];
    d0, d2 := BitExchange(d0, d2, 0x33333333, 2);
    d1, d3 := BitExchange(d1, d3, 0x33333333, 2);
    d4, d6 := BitExchange(d4, d6, 0x33333333, 2);
    d5, d7 := BitExchange(d5, d7, 0x33333333, 2);
    e := [d0, d1, d2, d3, d4, d5, d6, d7];
  }

  /** The last four exchanges of _tile_rotate. */
  method ThirdRound(d: seq<bv32>) returns (e: seq<bv32>)
    requires |d| == 8
    ensures |e| == 8 && e == Round1(d)
  {
    hide Bit, Low, ExchangedA, ExchangedB;
    var d0, d1, d2, d3, d4, d5, d6, d7 := d[0], d[1], d[2], d[3], d[4], d[5], d[6], d[7];
    d0, d1 := BitExchange(d0, d1, 0x55555555, 1);
    d2, d3 := BitExchange(d2, d3, 0x55555555, 1);
    d4, d5 := BitExchange(d4, d5, 0x55555555, 1);
    d6, d7 := BitExchange(d6, d7, 0x55555555, 1);
    e := [d0, d1, d2, d3, d4, d5, d6, d7];
  }

  /** All twelve. */
  method RotateWords(d: seq<bv32>) returns (e: seq<bv32>)
    requires |d| == 8
    ensures |e| == 8 && e == Rotated(d)
  {
    hide Round1, Round2, Round4;
    e := FirstRound(d);
    e := SecondRound(e);
    e := ThirdRound(e);
  }

  lemma ColumnOfTile(d: seq<bv32>, src: seq<bv32>, from: int, stride: int, x: int)
    requires |d| == 8 && 0 <= from && 0 <= stride && from + 7 * stride < |src| && 0 <= x < 32
    requires forall k :: 0 <= k < 8 ==> d[k] == RowWord(src, from, stride, k)
    ensures Column(TileByte(Rotated(d), x), src, from, stride, x)
  {
    hide TileByte, Rotated, RowWord, Bit, ByteBit;
    forall k | 0 <= k < 8
      ensures ByteBit(TileByte(Rotated(d), x), k) == Bit(RowWord(src, from, stride, k), 31 - x)
    {
      TileByteBit(d, x, k);
    }
  }

  method ReadRows(src: array<bv32>, from: int, stride: int) returns (d: seq<bv32>)
    requires 0 <= from && 0 <= stride && from + 7 * stride < src.Length
    ensures |d| == 8 && forall k :: 0 <= k < 8 ==> d[k] == RowWord(src[..], from, stride, k)
  {
    d := [src[from], src[from + stride], src[from + 2 * stride], src[from + 3 * stride],
          src[from + 4 * stride], src[from + 5 * stride], src[from + 6 * stride], src[from + 7 * stride]];
  }

  /** The 32 byte stores of _tile_rotate, written as a loop. */
  method StoreTile(dst: array<bv8>, at: int, e: seq<bv32>)
    requires 0 <= at && at + 32 <= dst.Length && |e| == 8
    modifies dst
    ensures forall i :: at <= i < at + 32 ==> dst[i] == TileByte(e, i - at)
    ensures forall i :: 0 <= i < dst.Length && !(at <= i < at + 32) ==> dst[i] == old(dst[i])
  {
    hide TileByte;
    for x := 0 to 32
      invariant forall i :: at <= i < at + x ==> dst[i] == TileByte(e, i - at)
      invariant forall i :: 0 <= i < dst.Length && !(at <= i < at + x) ==> dst[i] == old(dst[i])
    {
      dst[at + x] := TileByte(e, x);
    }
  }

  /** _tile_rotate. */
  method TileRotate(dst: array<bv8>, at: int, src: array<bv32>, from: int, stride: int)
    requires 0 <= at && at + 32 <= dst.Length && 0 <= from && 0 <= stride && from + 7 * stride < src.Length
    modifies dst
    ensures TileDone(dst[..], at, src[..], from, stride)
    ensures forall i :: 0 <= i < dst.Length && !(at <= i < at + 32) ==> dst[i] == old(dst[i])
  {
    hide RowWord, Rotated, TileByte, Column;
    var d := ReadRows(src, from, stride);
    var e := RotateWords(d);
    StoreTile(dst, at, e);
    forall i | at <= i < at + 32 ensures Column(dst[i], src[..], from, stride, i - at) {
      ColumnOfTile(d, src[..], from, stride, i - at);
    }
  }

  // ---------------------------------------------------------------- lcd_bilevel_linear_2_vertical_bytes

  /** Tile t of the bar of bytes at base shows the rows at row, stride words each. */
  ghost predicate TileOk(dst: seq<bv8>, base: int, src: seq<bv32>, row: int, stride: int, t: int)
    requires 0 <= base && 0 <= row && 0 <= t < stride
    requires base + 32 * stride <= |dst| && row + 8 * stride <= |src|
  {
    TileDone(dst, base + 32 * t, src, row + t, stride)
  }

  ghost predicate BarOk(dst: seq<bv8>, base: int, src: seq<bv32>, row: int, stride: int)
    requires 0 <= base && 0 <= row && 0 <= stride
    requires base + 32 * stride <= |dst| && row + 8 * stride <= |src|
  {
    forall t :: 0 <= t < stride ==> TileOk(dst, base, src, row, stride, t)
  }

  lemma TileFrame(dst: seq<bv8>, dst': seq<bv8>, base: int, src: seq<bv32>, row: int, stride: int, t: int)
    requires 0 <= base && 0 <= row && 0 <= t < stride && |dst| == |dst'|
    requires base + 32 * stride <= |dst| && row + 8 * stride <= |src|
    requires TileOk(dst, base, src, row, stride, t)
    requires forall i :: base + 32 * t <= i < base + 32 * t + 32 ==> dst'[i] == dst[i]
    ensures TileOk(dst', base, src, row, stride, t)
  {
    hide Column;
  }

  /** The inner loop: one bar of eight rows. */
  method ConvertBar(dst: array<bv8>, base: int, src: array<bv32>, row: int, w: int)
    requires 0 <= base && 0 <= row && 0 <= w && w % 32 == 0
    requires base + w <= dst.Length && row + 8 * (w / 32) <= src.Length
    modifies dst
    ensures BarOk(dst[..], base, src[..], row, w / 32)
    ensures forall i :: 0 <= i < dst.Length && !(base <= i < base + w) ==> dst[i] == old(dst[i])
  {
    hide TileDone;
    var stride := w / 32;
    var x := 0;
    while x < w
      invariant 0 <= x <= w && x % 32 == 0
      invariant forall t :: 0 <= t < x / 32 ==> TileOk(dst[..], base, src[..], row, stride, t)
      invariant forall i :: 0 <= i < dst.Length && !(base <= i < base + w) ==> dst[i] == old(dst[i])
    {
      ghost var was := dst[..];
      ghost var here := x / 32;
      TileRotate(dst, base + x, src, row + x / 32, stride);
      assert TileOk(dst[..], base, src[..], row, stride, here);
      forall t | 0 <= t < here ensures TileOk(dst[..], base, src[..], row, stride, t) {
        TileFrame(was, dst[..], base, src[..], row, stride, t);
      }
      x := x + 32;
    }
  }

  /** Start of bar in the output and of its rows in the input. */
  function Base(w: int, bar: int): int {
    bar * w
  }

  function Row(w: int, bar: int): int
    requires 0 <= w
  {
    bar * 8 * (w / 32)
  }

  lemma BarFits(w: int, bar: int, bars: int)
    requires 0 <= w && w % 32 == 0 && 0 <= bar < bars
    ensures 0 <= Base(w, bar) && Base(w, bar) + w == Base(w, bar + 1) <= Base(w, bars)
    ensures 0 <= Row(w, bar) && Row(w, bar) + 8 * (w / 32) <= Row(w, bars)
  {
    var s := w / 32;
    assert (bar + 1) * w <= bars * w;
    assert (bar + 1) * (8 * s) <= bars * (8 * s);
    assert bars * 8 * s == bars * (8 * s) && bar * 8 * s == bar * (8 * s);
  }

  ghost predicate BarDone(dst: seq<bv8>, src: seq<bv32>, w: int, bars: int, bar: int)
    requires 0 <= w && w % 32 == 0 && 0 <= bar < bars && Base(w, bars) <= |dst| && Row(w, bars) <= |src|
  {
    BarFits(w, bar, bars);
    BarOk(dst, Base(w, bar), src, Row(w, bar), w / 32)
  }

  lemma BarFrame(dst: seq<bv8>, dst': seq<bv8>, src: seq<bv32>, w: int, bars: int, bar: int)
    requires 0 <= w && w % 32 == 0 && 0 <= bar < bars && Base(w, bars) <= |dst| == |dst'| && Row(w, bars) <= |src|
    requires BarDone(dst, src, w, bars, bar)
    requires forall i :: 0 <= i < Base(w, bar + 1) && i < |dst| ==> dst'[i] == dst[i]
    ensures BarDone(dst', src, w, bars, bar)
  {
    BarFits(w, bar, bars);
    hide Base, Row, TileOk;
    forall t | 0 <= t < w / 32 ensures TileOk(dst', Base(w, bar), src, Row(w, bar), w / 32, t) {
      TileFrame(dst, dst', Base(w, bar), src, Row(w, bar), w / 32, t);
    }
  }

  lemma {:induction false} EarlierBar(w: int, b: int, bar: int)
    requires 0 <= w && w % 32 == 0 && 0 <= b < bar
    ensures Base(w, b + 1) <= Base(w, bar)
  {
    BarFits(w, b, bar);
  }

  /** Pixel x of row y, leftmost in the highest bit. */
  ghost predicate Pixel(src: seq<bv32>, w: int, x: int, y: int)
    requires 0 <= x < w && 0 <= y && w % 32 == 0
    requires 0 <= PixelWord(w, x, y) < |src|
  {
    Bit(src[PixelWord(w, x, y)], 31 - x % 32)
  }

  function PixelWord(w: int, x: int, y: int): int
    requires 0 <= w
  {
    y * (w / 32) + x / 32
  }

  lemma WordOf(w: int, bars: int, bar: int, x: int, k: int)
    requires 0 <= w && w % 32 == 0 && 0 <= bar < bars && 0 <= x < w && 0 <= k < 8
    ensures PixelWord(w, x, 8 * bar + k) == Row(w, bar) + x / 32 + k * (w / 32)
    ensures 0 <= PixelWord(w, x, 8 * bar + k) < Row(w, bars)
  {
    var s := w / 32;
    assert (8 * bar + k) * s == bar * 8 * s + k * s;
    BarFits(w, bar, bars);
    RowIndex(0, s, k);
  }

  /** Bit k of byte bar * w + x is the pixel in column x of row 8 * bar + k. */
  ghost predicate PixelAt(dst: seq<bv8>, src: seq<bv32>, w: int, bars: int, bar: int, x: int, k: int)
    requires 0 <= w && w % 32 == 0 && 0 <= bar < bars && 0 <= x < w && 0 <= k < 8
    requires Base(w, bars) <= |dst| && Row(w, bars) <= |src|
  {
    BarFits(w, bar, bars);
    WordOf(w, bars, bar, x, k);
    ByteBit(dst[bar * w + x], k) == Pixel(src, w, x, 8 * bar + k)
  }

  lemma BarPixel(dst: seq<bv8>, src: seq<bv32>, w: int, bars: int, bar: int, x: int, k: int)
    requires 0 <= w && w % 32 == 0 && 0 <= bar < bars && 0 <= x < w && 0 <= k < 8
    requires Base(w, bars) <= |dst| && Row(w, bars) <= |src| && BarDone(dst, src, w, bars, bar)
    ensures PixelAt(dst, src, w, bars, bar, x, k)
  {
    BarFits(w, bar, bars);
    WordOf(w, bars, bar, x, k);
    assert Base(w, bar) == bar * w;
    hide Base, Row, ByteBit, Bit, PixelWord;
    var base, row, s, t := Base(w, bar), Row(w, bar), w / 32, x / 32;
    assert TileOk(dst, base, src, row, s, t);
    var at := base + x;
    assert Column(dst[at], src, row + t, s, at - (base + 32 * t));
    assert ByteBit(dst[at], k) == Bit(RowWord(src, row + t, s, k), 31 - (at - (base + 32 * t)));
  }

  /** lcd_bilevel_linear_2_vertical_bytes: an exact transpose of every tile; nothing after the last bar changes. */
  method Convert(dst: array<bv8>, src: array<bv32>, w: int, h: int)
    requires 0 <= w && w % 32 == 0 && 0 <= h
    requires Base(w, h / 8) <= dst.Length && Row(w, h / 8) <= src.Length
    modifies dst
    ensures forall bar, x, k :: 0 <= bar < h / 8 && 0 <= x < w && 0 <= k < 8 ==>
              PixelAt(dst[..], src[..], w, h / 8, bar, x, k)
    ensures forall i :: Base(w, h / 8) <= i < dst.Length ==> dst[i] == old(dst[i])
  {
    hide BarOk, PixelAt, Row;
    var bars := h / 8;
    assert Base(w, 0) == 0;
    var bar := 0;
    while bar < bars
      invariant 0 <= bar <= bars
      invariant forall b :: 0 <= b < bar ==> BarDone(dst[..], src[..], w, bars, b)
      invariant forall i :: Base(w, bars) <= i < dst.Length ==> dst[i] == old(dst[i])
    {
      ghost var was := dst[..];
      BarFits(w, bar, bars);
      ConvertBar(dst, bar * w, src, Row(w, bar), w);
      assert BarDone(dst[..], src[..], w, bars, bar);
      forall b | 0 <= b < bar ensures BarDone(dst[..], src[..], w, bars, b) {
        EarlierBar(w, b, bar);
        BarFrame(was, dst[..], src[..], w, bars, b);
      }
      bar := bar + 1;
    }
    forall b, x, k | 0 <= b < bars && 0 <= x < w && 0 <= k < 8 ensures PixelAt(dst[..], src[..], w, bars, b, x, k) {
      BarPixel(dst[..], src[..], w, bars, b, x, k);
    }
  }
}
