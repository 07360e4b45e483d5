/** Where thread control blocks lie, and how a thread finds its own from any address of its stack:
  os/linux/tinyrt-threads.c and loader/loader.c.

  A thread's stack and TLS share one mapping of 2 * 2^k bytes. */
module Tcb {
  import opened Machine
  import opened Align

  const TCB_SIZE: nat := 0x48
  const FRAME_SIZE: nat := 24

  /** A mapping at `base` for stacks of 2^k bytes, which is at least two pages. */
  predicate IsMapping(base: U64, k: nat) {
    && 13 <= k < 63 && base % PAGE_SIZE == 0
    && base + 2 * Pow2(k) <= TWO_TO_THE_64
  }

  /** The mask that _rt_thread_current and _rt_thread_finish apply to a frame's address. */
  function Mask(a: U64, k: nat): U64
    requires k < 64
  {
    Pow2Fits(k);
    AlignBackward(a, Pow2(k))
  }

  /** The TCB that _rt_thread_create places in the mapping: the mask of the last byte's address. */
  function TcbOf(base: U64, k: nat): U64
    requires IsMapping(base, k)
  {
    Mask(base + 2 * Pow2(k) - 1, k)
  }

  lemma MaskIsGreatest(a: U64, k: nat)
    requires k < 64
    ensures GreatestMultiple(Mask(a, k), a, Pow2(k))
  {
    AlignBackwardIsGreatest(a, k);
  }

  lemma MaskIs(a: U64, k: nat, t: nat)
    requires k < 64 && t % Pow2(k) == 0 && t <= a
    ensures Mask(a, k) == t <==> a < t + Pow2(k)
  {
    MaskIsGreatest(a, k);
    var m, s := Mask(a, k), Pow2(k);
    hide Mask, Pow2;
    if a < t + s && m != t {
      MultiplesApart(t, m, s);
    }
  }

  lemma SizeIsPages(k: nat)
    requires k >= 13
    ensures Pow2(k) % PAGE_SIZE == 0 && Pow2(k) >= 2 * PAGE_SIZE
  {
    Pow2At64();
    Pow2Divides(12, k);
    Pow2Monotone(13, k);
    assert Pow2(13) == 2 * Pow2(12);
  }

  lemma PageMultiple(x: nat, s: nat)
    requires s > 0 && s % PAGE_SIZE == 0 && x % s == 0
    ensures x % PAGE_SIZE == 0
  {
    assert x == (x / s) * s;
    MultipleOfMultiple(x / s, s, PAGE_SIZE);
  }

  /** The TCB lies in the upper half of the mapping, at least a page below its end. */
  lemma TcbInUpperHalf(base: U64, k: nat)
    requires IsMapping(base, k)
    ensures var t := TcbOf(base, k);
            && t % Pow2(k) == 0
            && base + Pow2(k) <= t && t + PAGE_SIZE <= base + 2 * Pow2(k)
  {
    hide Mask, Pow2;
    SizeIsPages(k);
    var s := Pow2(k);
    MaskIsGreatest(base + 2 * s - 1, k);
    var t, top := TcbOf(base, k), base + 2 * s;
    hide TcbOf;
    PageMultiple(t, s);
    MultipleOfMultiple(2, s, PAGE_SIZE);
    MultipleSum(base, 2 * s, PAGE_SIZE);
    MultiplesApart(t, top, PAGE_SIZE);
  }

  /** The TLS copy, the TCB and the start frame lie in the mapping, in this order and without
    overlap, for every TLS image that is no larger than a stack. */
  lemma PartsDisjoint(base: U64, k: nat, tls: nat)
    requires IsMapping(base, k) && tls <= Pow2(k)
    ensures var t, top := TcbOf(base, k), base + 2 * Pow2(k);
            base <= t - tls <= t < t + 0x48 <= top - 24 < top
  {
    TcbInUpperHalf(base, k);
    hide TcbOf, Pow2;
  }

  /** That bound on the image is sharp: in a mapping that is aligned to the stack size, the copy
    starts inside the mapping if and only if the image is no larger than a stack. */
  lemma ImageBoundIsSharp(base: U64, k: nat, tls: nat)
    requires IsMapping(base, k) && base % Pow2(k) == 0
    ensures base <= TcbOf(base, k) - tls <==> tls <= Pow2(k)
  {
    TcbInUpperHalf(base, k);
    var t, s := TcbOf(base, k), Pow2(k);
    hide TcbOf, Pow2, IsMapping;
    if base + s < t {
      SecondMultiple(base, t, s);
    }
  }

  lemma SecondMultiple(x: nat, y: nat, s: nat)
    requires s > 0 && x % s == 0 && y % s == 0 && x + s < y
    ensures x + 2 * s <= y
  {
    QuotientUnique(s, 1, 0, s);
    MultipleSum(x, s, s);
    MultiplesApart(x + s, y, s);
  }

  /** Every address from the TCB up to the top of the stack masks back to the TCB. */
  lemma EveryFrameFindsTcb(base: U64, k: nat, a: U64)
    requires IsMapping(base, k) && TcbOf(base, k) <= a < base + 2 * Pow2(k)
    ensures Mask(a, k) == TcbOf(base, k)
  {
    TcbInUpperHalf(base, k);
    MaskIs(a, k, TcbOf(base, k));
  }

  /** No thread finds the TCB of another one. */
  lemma ThreadsFindTheirOwn(base1: U64, base2: U64, k: nat, a: U64)
    requires IsMapping(base1, k) && IsMapping(base2, k)
    requires Apart(base1, 2 * Pow2(k), base2, 2 * Pow2(k))
    requires TcbOf(base1, k) <= a < base1 + 2 * Pow2(k)
    ensures Mask(a, k) != TcbOf(base2, k)
  {
    EveryFrameFindsTcb(base1, k, a);
    TcbInUpperHalf(base1, k);
    TcbInUpperHalf(base2, k);
    hide TcbOf, Mask, Pow2;
  }

  // ---------- the main thread ----------

  /** ld_stage3_entry aligns forward from the end of the TLS copy instead. */
  function MainTcb(base: U64, k: nat, tls: U64): U64
    requires IsMapping(base, k) && base + tls + Pow2(k) <= TWO_TO_THE_64
  {
    Pow2Fits(k);
    AlignForward(base + tls, Pow2(k))
  }

  lemma ForwardIsLeast(base: U64, k: nat, tls: U64)
    requires IsMapping(base, k) && base + tls + Pow2(k) <= TWO_TO_THE_64
    ensures LeastMultiple(MainTcb(base, k, tls), base + tls, Pow2(k))
  {
    hide AlignForward, Pow2, LeastMultiple;
    AlignForwardIsLeast(base + tls, k);
  }

  /** The addresses from the main thread's TCB to the top of its stack all mask back to it if and
    only if the TLS image reaches past the first multiple of the stack size in the mapping. */
  lemma MaskFindsMainTcb(base: U64, k: nat, tls: U64)
    requires IsMapping(base, k) && base + tls + Pow2(k) <= TWO_TO_THE_64
    ensures (forall a: U64 :: MainTcb(base, k, tls) <= a < base + 2 * Pow2(k) ==> Mask(a, k) == MainTcb(base, k, tls))
            <==> base + tls > MainTcb(base, k, 0)
  {
    var t, first, s := MainTcb(base, k, tls), MainTcb(base, k, 0), Pow2(k);
    ForwardIsLeast(base, k, tls);
    ForwardIsLeast(base, k, 0);
    hide MainTcb, Pow2, IsMapping;
    if base + tls > first {
      MultiplesApart(first, t, s);
      forall a: U64 | t <= a < base + 2 * s ensures Mask(a, k) == t {
        MaskIs(a, k, t);
      }
    } else {
      assert t == first < base + s;
      MaskIs(base + 2 * s - 1, k, t);
    }
  }

  /** A multiple of the stack size below the top of the mapping is at least a page below it. */
  lemma BelowTop(base: U64, k: nat, t: nat)
    requires IsMapping(base, k) && t % Pow2(k) == 0
    ensures t < base + 2 * Pow2(k) <==> t + TCB_SIZE <= base + 2 * Pow2(k)
  {
    hide Pow2;
    SizeIsPages(k);
    var s, top := Pow2(k), base + 2 * Pow2(k);
    PageMultiple(t, s);
    MultipleOfMultiple(2, s, PAGE_SIZE);
    MultipleSum(base, 2 * s, PAGE_SIZE);
    if t < top {
      MultiplesApart(t, top, PAGE_SIZE);
    }
  }

  /** Of the images that reach past the first multiple, those of at most one stack size more have
    their block in the mapping. */
  lemma BlockInMapping(base: U64, k: nat, tls: U64)
    requires IsMapping(base, k) && base + tls + Pow2(k) <= TWO_TO_THE_64
    requires base + tls > MainTcb(base, k, 0)
    ensures MainTcb(base, k, tls) < base + 2 * Pow2(k) <==> base + tls <= MainTcb(base, k, 0) + Pow2(k)
  {
    var t, first, s := MainTcb(base, k, tls), MainTcb(base, k, 0), Pow2(k);
    ForwardIsLeast(base, k, tls);
    ForwardIsLeast(base, k, 0);
    hide MainTcb, Pow2, IsMapping;
    MultiplesApart(first, t, s);
    if base + tls <= first + s {
      QuotientUnique(s, 1, 0, s);
      MultipleSum(first, s, s);
    } else {
      SecondMultiple(first, t, s);
    }
  }

  /** The main thread's block lies in its mapping and is found from every address up to the top of
    the stack. */
  ghost predicate MainTcbFound(base: U64, k: nat, tls: U64)
    requires IsMapping(base, k) && base + tls + Pow2(k) <= TWO_TO_THE_64
  {
    && MainTcb(base, k, tls) + TCB_SIZE <= base + 2 * Pow2(k)
    && forall a: U64 :: MainTcb(base, k, tls) <= a < base + 2 * Pow2(k) ==> Mask(a, k) == MainTcb(base, k, tls)
  }

  /** That is so if and only if the TLS image ends behind the first multiple of the stack size in the
    mapping and at most one stack size behind it. A smaller image has frames that mask to another
    block; a larger one has its block outside the mapping. */
  lemma MainFramesFindTcb(base: U64, k: nat, tls: U64)
    requires IsMapping(base, k) && base + tls + Pow2(k) <= TWO_TO_THE_64
    ensures MainTcbFound(base, k, tls) <==> MainTcb(base, k, 0) < base + tls <= MainTcb(base, k, 0) + Pow2(k)
  {
    MaskFindsMainTcb(base, k, tls);
    if base + tls > MainTcb(base, k, 0) {
      BlockInMapping(base, k, tls);
    }
    ForwardIsLeast(base, k, tls);
    BelowTop(base, k, MainTcb(base, k, tls));
    hide MainTcb, Pow2, IsMapping, Mask;
  }

  predicate IsAligned(base: U64, k: nat) {
    base % Pow2(k) == 0
  }

  lemma FirstOfAligned(base: U64, k: nat)
    requires IsMapping(base, k) && IsAligned(base, k)
    ensures MainTcb(base, k, 0) == base && 0 < Pow2(k) && Pow2(k) + 1 < TWO_TO_THE_64
  {
    SizeIsPages(k);
    hide MainTcb, Pow2, LeastMultiple;
    ForwardIsLeast(base, k, 0);
    LeastOfMultiple(MainTcb(base, k, 0), base, Pow2(k));
  }

  lemma LeastOfMultiple(r: nat, x: nat, a: nat)
    requires a > 0 && x % a == 0 && LeastMultiple(r, x, a)
    ensures r == x
  {
    if x < r {
      MultiplesApart(x, r, a);
    }
  }

  /** Without a TLS image, a mapping that is aligned to the stack size does not work, and neither does
    one whose image is a byte larger than a stack. */
  lemma MainTcbMissed(base: U64, k: nat)
    requires IsMapping(base, k) && IsAligned(base, k) && base + 2 * Pow2(k) + 1 <= TWO_TO_THE_64
    ensures Pow2(k) + 1 < TWO_TO_THE_64
    ensures !MainTcbFound(base, k, 0) && !MainTcbFound(base, k, Pow2(k) + 1)
  {
    hide MainTcb, Pow2, IsMapping, IsAligned, MainTcbFound;
    FirstOfAligned(base, k);
    MainFramesFindTcb(base, k, 0);
    MainFramesFindTcb(base, k, Pow2(k) + 1);
  }
}
