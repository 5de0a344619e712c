/** Wait masks as 32-bit words: the word operators of thread.c are the set operators of the kernel
    model, and _alloc_mask takes the lowest free bit. */
module WaitMask {
  import opened Bits32
  import opened KernelState
  import opened KernelSteps

  /** The bit positions of a mask. */
  ghost function Bits(m: bv32): Mask {
    set i: nat | i < MASK_BITS && Bit(m, i)
  }

  /** A word without bits is 0. */
  lemma NoBits(w: bv32)
    requires forall i :: 0 <= i < 32 ==> !Bit(w, i)
    ensures w == 0
  {
    hide Hot;
    HotFirst();
    HotSecond();
    HotThird();
    HotFourth();
    assert !Bit(w, 0) && !Bit(w, 1) && !Bit(w, 2) && !Bit(w, 3);
    assert !Bit(w, 4) && !Bit(w, 5) && !Bit(w, 6) && !Bit(w, 7);
    assert !Bit(w, 8) && !Bit(w, 9) && !Bit(w, 10) && !Bit(w, 11);
    assert !Bit(w, 12) && !Bit(w, 13) && !Bit(w, 14) && !Bit(w, 15);
    assert !Bit(w, 16) && !Bit(w, 17) && !Bit(w, 18) && !Bit(w, 19);
    assert !Bit(w, 20) && !Bit(w, 21) && !Bit(w, 22) && !Bit(w, 23);
    assert !Bit(w, 24) && !Bit(w, 25) && !Bit(w, 26) && !Bit(w, 27);
    assert !Bit(w, 28) && !Bit(w, 29) && !Bit(w, 30) && !Bit(w, 31);
  }

  lemma OrIsUnion(a: bv32, b: bv32)
    ensures Bits(Or(a, b)) == Bits(a) + Bits(b)
  {
    hide Bit, And, Or, Xor;
    forall i: nat | i < MASK_BITS ensures Bit(Or(a, b), i) <==> Bit(a, i) || Bit(b, i) {
      OrBit(a, b, i);
    }
  }

  lemma XorIsToggle(a: bv32, b: bv32)
    ensures Bits(Xor(a, b)) == Toggle(Bits(a), Bits(b))
  {
    hide Bit, And, Or, Xor;
    forall i: nat | i < MASK_BITS ensures Bit(Xor(a, b), i) <==> Bit(a, i) != Bit(b, i) {
      XorBit(a, b, i);
    }
  }

  lemma AndMeets(a: bv32, b: bv32)
    ensures And(a, b) != 0 <==> !(Bits(a) !! Bits(b))
  {
    hide Bit, And, Or, Xor;
    forall i: nat | i < MASK_BITS ensures Bit(And(a, b), i) <==> Bit(a, i) && Bit(b, i) {
      AndBit(a, b, i);
    }
    if Bits(a) * Bits(b) == {} {
      assert forall i :: i in Bits(a) && i in Bits(b) ==> i in Bits(a) * Bits(b);
      forall i | 0 <= i < 32 ensures !Bit(And(a, b), i) {
        AndBit(a, b, i);
        assert i in Bits(a) <==> Bit(a, i);
        assert i in Bits(b) <==> Bit(b, i);
      }
      NoBits(And(a, b));
    } else {
      var i :| i in Bits(a) * Bits(b);
      AndBit(a, b, i);
      if And(a, b) == 0 {
        NotBit(0, i);
      }
    }
  }

  lemma HotIsOne(i: nat)
    requires i < MASK_BITS
    ensures Bits(Hot(i)) == {i}
  {
    hide Bit, Hot;
    forall j: nat | j < MASK_BITS ensures Bit(Hot(i), j) <==> j == i {
      HotBit(i, j);
    }
  }

  lemma HotBit(i: int, j: int)
    requires 0 <= i < 32 && 0 <= j < 32
    ensures Bit(Hot(i), j) <==> j == i
  {
    ShlBit(1, i, j);
    if j >= i {
      OneBits(j - i);
    }
  }

  lemma OneBits(j: int)
    requires 0 <= j < 32
    ensures Bit(1, j) <==> j == 0
  {
    hide Hot;
    HotOne(j);
    if j > 0 {
      HotStep(j - 1);
      ShlLow(Hot(j - 1));
      MeetsSym(Hot(j), 1);
    }
  }

  lemma MeetsSym(a: bv32, b: bv32)
    ensures Meets(a, b) == Meets(b, a)
  {
  }

  /** A mask is 0 exactly when it has no bit. */
  lemma ZeroIsEmpty(m: bv32)
    ensures m == 0 <==> Bits(m) == {}
  {
    hide Bit;
    if m == 0 {
      forall i: nat | i < MASK_BITS ensures !Bit(m, i) {
        NotBit(0, i);
      }
    } else if Bits(m) == {} {
      forall i | 0 <= i < 32 ensures !Bit(m, i) {
        assert i !in Bits(m);
      }
      NoBits(m);
      assert false;
    }
  }

  /** _alloc_mask: walk a single bit up until it is free. Without a free bit the kernel panics. */
  method AllocMask(used: bv32) returns (panic: bool, mask: bv32, used': bv32)
    ensures panic <==> LowestFree(Bits(used)) == MASK_BITS
    ensures !panic ==> Bits(mask) == {LowestFree(Bits(used))} && Bits(used') == Bits(used) + Bits(mask)
  {
    hide Bit, Hot, Bits, Meets, OneBit, LowestFree, Not, Or;
    var free := Not(used);
    mask, used' := 1, used;
    ghost var i: nat := 0;
    HotFirst();
    while mask != 0
      invariant i <= LowestFree(Bits(used)) && (if i < MASK_BITS then mask == Hot(i) else mask == 0)
      decreases MASK_BITS - i
    {
      FreeBit(used, i);
      if Meets(mask, free) {
        HotIsOne(i);
        OrIsUnion(used, mask);
        return false, mask, Or(used, mask);
      }
      if i == MASK_BITS - 1 {
        HotLast();
      } else {
        HotStep(i);
      }
      mask := mask << 1;
      i := i + 1;
    }
    if i < MASK_BITS {
      HotNonZero(i);
    }
    panic := true;
  }

  lemma HotLast()
    ensures Hot(31) << 1 == 0
  {
    HotHigh();
    hide Hot;
  }

  lemma HotNonZero(i: nat)
    requires i < MASK_BITS
    ensures Hot(i) != 0
  {
    hide Hot;
    HotOne(i);
  }

  lemma FreeBit(used: bv32, i: nat)
    requires i <= LowestFree(Bits(used)) && i < MASK_BITS
    ensures Meets(Hot(i), Not(used)) <==> i == LowestFree(Bits(used))
  {
    assert Meets(Not(used), Hot(i)) <==> Bit(Not(used), i);
    MeetsSym(Not(used), Hot(i));
    hide Hot, Bit, Meets;
    NotBit(used, i);
    assert i in Bits(used) <==> Bit(used, i);
  }
}
