/** The alignment helpers of src/cia-mem/util.c, with their bit masks and 64-bit wrap-around. */
module Align {
  import opened Machine

  /** cia_size_alignf and cia_ptr_alignf: the two differ only in their C types. */
  function AlignForward(size: U64, alignment: U64): U64
    requires alignment > 0
  {
    BitAnd((size + alignment - 1) % 0x1_0000_0000_0000_0000, Complement(alignment - 1))
  }

  /** cia_size_alignb and cia_ptr_alignb. */
  function AlignBackward(size: U64, alignment: U64): U64
    requires alignment > 0
  {
    BitAnd(size, Complement(alignment - 1))
  }

  /** The number made of the low k bits of x. */
  function LowBits(x: nat, k: nat): (r: nat)
    ensures r <= x
  {
    if k == 0 then 0 else 2 * LowBits(x / 2, k - 1) + x % 2
  }

  lemma {:induction false} LowBitsIsRemainder(x: nat, k: nat)
    ensures LowBits(x, k) == x % Pow2(k)
  {
    if k > 0 {
      LowBitsIsRemainder(x / 2, k - 1);
      HalveRemainder(x, Pow2(k - 1));
    }
  }

  /** Masking with 2^w - 2^k clears the low k bits. */
  lemma {:induction false} MaskClearsLowBits(x: nat, k: nat, w: nat)
    requires k <= w && x < Pow2(w)
    ensures Pow2(k) <= Pow2(w)
    ensures BitAnd(x, Pow2(w) - Pow2(k)) == x - LowBits(x, k)
    decreases w
  {
    hide BitAnd;
    Pow2Monotone(k, w);
    if k == 0 {
      MaskKeepsAll(x, w);
    } else {
      Pow2Monotone(k - 1, w - 1);
      MaskClearsLowBits(x / 2, k - 1, w - 1);
      var y := Pow2(w - 1) - Pow2(k - 1);
      assert Pow2(w) - Pow2(k) == 2 * y;
      assert LowBits(x, k) == 2 * LowBits(x / 2, k - 1) + x % 2;
      EvenMask(x, y);
    }
  }

  lemma EvenMask(x: nat, y: nat)
    ensures BitAnd(x, 2 * y) == 2 * BitAnd(x / 2, y)
  {
    assert (2 * y) / 2 == y && (2 * y) % 2 == 0;
  }

  lemma {:induction false} MaskKeepsAll(x: nat, w: nat)
    requires x < Pow2(w)
    ensures BitAnd(x, Pow2(w) - 1) == x
    decreases w
  {
    if x > 0 {
      assert w > 0;
      assert (Pow2(w) - 1) / 2 == Pow2(w - 1) - 1 && (Pow2(w) - 1) % 2 == 1;
      MaskKeepsAll(x / 2, w - 1);
    }
  }

  /** `r` is the greatest multiple of `a` not above `x`. */
  ghost predicate GreatestMultiple(r: nat, x: nat, a: nat)
    requires a > 0
  {
    && r % a == 0 && r <= x < r + a
    && (forall y: nat :: y % a == 0 && y <= x ==> y <= r)
  }

  /** `r` is the least multiple of `a` not below `x`. */
  ghost predicate LeastMultiple(r: nat, x: nat, a: nat)
    requires a > 0
  {
    && r % a == 0 && x <= r < x + a
    && (forall y: nat :: y % a == 0 && x <= y ==> r <= y)
  }

  lemma Pow2Fits(k: nat)
    requires k < 64
    ensures 0 < Pow2(k) < TWO_TO_THE_64
  {
    Pow2At64();
    Pow2Monotone(k, 63);
    assert Pow2(64) == 2 * Pow2(63);
  }

  lemma BackwardClearsLowBits(size: U64, k: nat)
    requires k < 64 && Pow2(k) < TWO_TO_THE_64
    ensures AlignBackward(size, Pow2(k)) == size - LowBits(size, k)
  {
    Pow2At64();
    MaskClearsLowBits(size, k, 64);
  }

  /** Aligning backward yields the greatest multiple of the alignment not above the input. */
  lemma AlignBackwardIsGreatest(size: U64, k: nat)
    requires k < 64
    ensures 0 < Pow2(k) < TWO_TO_THE_64
    ensures GreatestMultiple(AlignBackward(size, Pow2(k)), size, Pow2(k))
  {
    Pow2Fits(k);
    BackwardClearsLowBits(size, k);
    LowBitsIsRemainder(size, k);
    GreatestIntro(size, Pow2(k));
  }

  lemma GreatestIntro(x: nat, a: nat)
    requires a > 0
    ensures x % a <= x
    ensures GreatestMultiple(x - x % a, x, a)
  {
    RoundDown(x, a);
  }

  lemma LeastFromGreatest(r: nat, x: nat, a: nat)
    requires a > 0 && GreatestMultiple(r, x + a - 1, a)
    ensures LeastMultiple(r, x, a)
  {
    forall y: nat | y % a == 0 && x <= y ensures r <= y {
      if y < r {
        MultiplesApart(y, r, a);
      }
    }
  }

  /** Aligning forward yields the least multiple of the alignment not below the input if the
    intermediate sum stays in the 64-bit range. */
  lemma AlignForwardIsLeast(size: U64, k: nat)
    requires k < 64 && size + Pow2(k) - 1 < TWO_TO_THE_64
    ensures 0 < Pow2(k) < TWO_TO_THE_64
    ensures LeastMultiple(AlignForward(size, Pow2(k)), size, Pow2(k))
  {
    Pow2Fits(k);
    ForwardWithoutWrap(size, Pow2(k));
    AlignBackwardIsGreatest(size + Pow2(k) - 1, k);
    hide LeastMultiple, GreatestMultiple, AlignForward, AlignBackward, Pow2;
    LeastFromGreatest(AlignBackward(size + Pow2(k) - 1, Pow2(k)), size, Pow2(k));
  }

  lemma ForwardWithoutWrap(size: U64, a: U64)
    requires a > 0 && size + a - 1 < TWO_TO_THE_64
    ensures AlignForward(size, a) == AlignBackward(size + a - 1, a)
  {
    hide BitAnd;
  }

  lemma AlignForwardAsBackward(size: U64, a: U64)
    requires a > 0
    ensures AlignForward(size, a) == AlignBackward((size + a - 1) % 0x1_0000_0000_0000_0000, a)
  {
    hide BitAnd;
  }

  /** If the sum wraps, the result is 0, which is below the input. So forward alignment returns
    the least multiple not below its input if and only if the sum does not wrap. */
  lemma AlignForwardWraps(size: U64, k: nat)
    requires k < 64 && size + Pow2(k) - 1 >= TWO_TO_THE_64
    ensures 0 < Pow2(k) < TWO_TO_THE_64
    ensures AlignForward(size, Pow2(k)) == 0 < size
  {
    Pow2Fits(k);
    AlignForwardAsBackward(size, Pow2(k));
    AlignBackwardOfSmall((size + Pow2(k) - 1) % 0x1_0000_0000_0000_0000, k);
  }

  lemma AlignBackwardOfSmall(size: U64, k: nat)
    requires k < 64 && size < Pow2(k) < TWO_TO_THE_64
    ensures AlignBackward(size, Pow2(k)) == 0
  {
    BackwardClearsLowBits(size, k);
    LowBitsOfSmall(size, k);
  }

  lemma {:induction false} LowBitsOfSmall(x: nat, k: nat)
    requires x < Pow2(k)
    ensures LowBits(x, k) == x
  {
    if k > 0 {
      LowBitsOfSmall(x / 2, k - 1);
    }
  }
}
