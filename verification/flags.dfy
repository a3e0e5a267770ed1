/** `Flags`: a 32-bit mask of independent bits.  The source keeps the
    bits in an `int`; every operation is a bitwise one, so the model keeps
    them as a `bv32` and reads each mask argument as its 32-bit pattern. */
module BitFlags {

  /** The `bits` field of a `Flags` object; a type synonym rather than a
      wrapper datatype keeps the bit-vector reasoning direct. */
  type Flags = bv32

  /** `Flags()`: no bit set. */
  function NewFlags(): (f: Flags)
  {
    0
  }

  /** `Flags(mask)` and `operator =(mask)`: the bits are the mask's. */
  function FromMask(mask: bv32): (f: Flags)
  {
    mask
  }

  /** `set(mask)`: the mask becomes set; bits outside it keep their value. */
  function Set(f: Flags, mask: bv32): (r: Flags)
  {
    f | mask
  }

  /** `reset(mask)`: no bit of the mask stays; bits outside it keep their
      value. */
  function Reset(f: Flags, mask: bv32): (r: Flags)
  {
    f & !mask
  }

  /** `clear()`: no bit stays. */
  function Clear(f: Flags): (r: Flags)
  {
    0
  }

  /** `enable(mask, state)`: `set(mask)` when `state` holds, `reset(mask)`
      otherwise; bits outside the mask keep their value either way. */
  function Enable(f: Flags, mask: bv32, state: bool): (r: Flags)
  {
    if state then Set(f, mask) else Reset(f, mask)
  }

  /** `isSet(mask)`: `(bits & mask) == mask`. */
  predicate IsSet(f: Flags, mask: bv32) {
    f & mask == mask
  }

  /** `test(mask)`: `(bits & mask) != 0`. */
  predicate Test(f: Flags, mask: bv32) {
    f & mask != 0
  }

  // ---------------------------------------------------------------------
  // Whole masks

  /** `Flags()` and `clear()` hold no bit; `Flags(mask)` holds exactly the
      mask. */
  lemma NoBitsInitially(f: Flags, mask: bv32)
    ensures !Test(NewFlags(), 0xFFFF_FFFF) && !Test(Clear(f), 0xFFFF_FFFF)
    ensures IsSet(FromMask(mask), mask) && !Test(FromMask(mask), !mask)
  {
  }

  /** After `set(mask)` the mask is set; after `reset(mask)` it does not
      test. */
  lemma SetThenQuery(f: Flags, mask: bv32)
    ensures IsSet(Set(f, mask), mask) && !Test(Reset(f, mask), mask)
  {
  }

  /** `set` and `reset` leave every bit outside the mask as it was. */
  lemma OutsideMaskUnchanged(f: Flags, mask: bv32)
    ensures Set(f, mask) & !mask == f & !mask
    ensures Reset(f, mask) & !mask == f & !mask
  {
  }

  /** `enable(mask, state)` is `set(mask)` or `reset(mask)` by `state`. */
  lemma EnableIsSetOrReset(f: Flags, mask: bv32, state: bool)
    ensures state ==> IsSet(Enable(f, mask, state), mask)
    ensures !state ==> !Test(Enable(f, mask, state), mask)
    ensures Enable(f, mask, state) & !mask == f & !mask
  {
    SetThenQuery(f, mask);
    OutsideMaskUnchanged(f, mask);
    if state {
      assert Enable(f, mask, state) == Set(f, mask);
    } else {
      assert Enable(f, mask, state) == Reset(f, mask);
    }
  }

  /** Those facts pin the result down: a pattern that holds the whole
      mask and agrees with the old bits outside it is `set(mask)`, and one
      that holds none of the mask and agrees outside it is `reset(mask)`. */
  lemma SetDetermined(f: Flags, mask: bv32, r: Flags)
    requires IsSet(r, mask) && r & !mask == f & !mask
    ensures r == Set(f, mask)
  {
  }

  lemma ResetDetermined(f: Flags, mask: bv32, r: Flags)
    requires !Test(r, mask) && r & !mask == f & !mask
    ensures r == Reset(f, mask)
  {
  }

  /** `isSet` of a union means `isSet` of each part, and the converse. */
  lemma IsSetUnion(f: Flags, a: bv32, b: bv32)
    requires IsSet(f, a | b)
    ensures IsSet(f, a) && IsSet(f, b)
  {
  }

  lemma IsSetBoth(f: Flags, a: bv32, b: bv32)
    requires IsSet(f, a) && IsSet(f, b)
    ensures IsSet(f, a | b)
  {
  }

  /** The empty mask always passes `isSet` and never `test`; a nonzero mask that
      is set also passes `test`. */
  lemma EmptyMask(f: Flags)
    ensures IsSet(f, 0) && !Test(f, 0)
  {
  }

  lemma SetMaskTests(f: Flags, mask: bv32)
    requires IsSet(f, mask) && mask != 0
    ensures Test(f, mask)
  {
  }

  // ---------------------------------------------------------------------
  // Single bits

  /** Bit i of x, i in 0..31. */
  predicate Bit(x: bv32, i: bv5) {
    (x >> i) & 1 == 1
  }

  /** `isSet(mask)` means every bit of the mask is set. */
  lemma IsSetBits(f: Flags, mask: bv32)
    ensures IsSet(f, mask) <==> forall i: bv5 :: Bit(mask, i) ==> Bit(f, i)
  {
    if forall i: bv5 :: Bit(mask, i) ==> Bit(f, i) {
      AllBitsSet(f, mask);
    }
    if IsSet(f, mask) {
      forall i: bv5 | Bit(mask, i)
        ensures Bit(f, i)
      {
        MaskBitSet(f, mask, i);
      }
    }
  }

  /** `test(mask)` means some bit of the mask is set. */
  lemma TestBits(f: Flags, mask: bv32)
    ensures Test(f, mask) <==> exists i: bv5 :: Bit(mask, i) && Bit(f, i)
  {
    if exists i: bv5 :: Bit(mask, i) && Bit(f, i) {
      var i: bv5 :| Bit(mask, i) && Bit(f, i);
      SharedBitTests(f, mask, i);
    } else {
      NoSharedBit(f, mask);
    }
  }

  lemma MaskBitSet(f: Flags, mask: bv32, i: bv5)
    requires IsSet(f, mask) && Bit(mask, i)
    ensures Bit(f, i)
  {
  }

  lemma SharedBitTests(f: Flags, mask: bv32, i: bv5)
    requires Bit(mask, i) && Bit(f, i)
    ensures Test(f, mask)
  {
  }

  /** With no bit in common, mask and f do not test: the 32 bits are
      checked one by one. */
  lemma NoSharedBit(f: Flags, mask: bv32)
    requires forall i: bv5 :: !(Bit(mask, i) && Bit(f, i))
    ensures !Test(f, mask)
  {
    assert !(Bit(mask, 0) && Bit(f, 0));
    assert !(Bit(mask, 1) && Bit(f, 1));
    assert !(Bit(mask, 2) && Bit(f, 2));
    assert !(Bit(mask, 3) && Bit(f, 3));
    assert !(Bit(mask, 4) && Bit(f, 4));
    assert !(Bit(mask, 5) && Bit(f, 5));
    assert !(Bit(mask, 6) && Bit(f, 6));
    assert !(Bit(mask, 7) && Bit(f, 7));
    assert !(Bit(mask, 8) && Bit(f, 8));
    assert !(Bit(mask, 9) && Bit(f, 9));
    assert !(Bit(mask, 10) && Bit(f, 10));
    assert !(Bit(mask, 11) && Bit(f, 11));
    assert !(Bit(mask, 12) && Bit(f, 12));
    assert !(Bit(mask, 13) && Bit(f, 13));
    assert !(Bit(mask, 14) && Bit(f, 14));
    assert !(Bit(mask, 15) && Bit(f, 15));
    assert !(Bit(mask, 16) && Bit(f, 16));
    assert !(Bit(mask, 17) && Bit(f, 17));
    assert !(Bit(mask, 18) && Bit(f, 18));
    assert !(Bit(mask, 19) && Bit(f, 19));
    assert !(Bit(mask, 20) && Bit(f, 20));
    assert !(Bit(mask, 21) && Bit(f, 21));
    assert !(Bit(mask, 22) && Bit(f, 22));
    assert !(Bit(mask, 23) && Bit(f, 23));
    assert !(Bit(mask, 24) && Bit(f, 24));
    assert !(Bit(mask, 25) && Bit(f, 25));
    assert !(Bit(mask, 26) && Bit(f, 26));
    assert !(Bit(mask, 27) && Bit(f, 27));
    assert !(Bit(mask, 28) && Bit(f, 28));
    assert !(Bit(mask, 29) && Bit(f, 29));
    assert !(Bit(mask, 30) && Bit(f, 30));
    assert !(Bit(mask, 31) && Bit(f, 31));
  }

  /** Every mask bit in f: then no mask bit is in the complement of f. */
  lemma AllBitsSet(f: Flags, mask: bv32)
    requires forall i: bv5 :: Bit(mask, i) ==> Bit(f, i)
    ensures IsSet(f, mask)
  {
    forall i: bv5
      ensures !(Bit(mask, i) && Bit(!f, i))
    {
      ComplementBit(f, i);
    }
    NoSharedBit(!f, mask);
    ComplementMask(f, mask);
  }

  lemma ComplementBit(f: bv32, i: bv5)
    ensures Bit(!f, i) == !Bit(f, i)
  {
  }

  lemma ComplementMask(f: bv32, mask: bv32)
    requires !f & mask == 0
    ensures f & mask == mask
  {
  }
}
