/** Building the free list of a buffer: what _pool_buffer_freelist_add, cia_pool_create,
  cia_pool_alloc, cia_pool_free and cia_pool_free_all do to the buckets a pool represents. */
module PoolGrow {
  import opened Machine
  import opened Align
  import opened PoolSpec

  lemma BucketsPairwiseApart(p: Pool, buffer: nat)
    requires Roomy(p)
    ensures PairwiseApart(BucketsOf(p, buffer), p.bucketSize)
  {
    hide BucketAt, BucketCount, Header;
    var bs := BucketsOf(p, buffer);
    forall i, j | 0 <= i < j < |bs| ensures Apart(bs[i], p.bucketSize, bs[j], p.bucketSize) {
      BucketsAscend(p, buffer, i, j);
    }
  }

  /** The whole effect of _pool_buffer_freelist_add. It puts exactly as many buckets as fit, in
    ascending order, in front of the old chain; they lie behind the header, inside the buffer and
    apart from one another; and apart from their first words all memory keeps its contents. */
  lemma FreelistAddEffect(p: Pool, buffer: nat, older: seq<nat>)
    requires Roomy(p) && p.head < TWO_TO_THE_64
    requires buffer + p.bufferSize <= TWO_TO_THE_64 && Mapped(p.mem, buffer, p.bufferSize)
    requires Chain(p.mem, p.head, older) && PairwiseApart(older, LINK_SIZE)
    requires forall i :: 0 <= i < |older| ==> Apart(older[i], LINK_SIZE, buffer, p.bufferSize)
    ensures var p' := FreelistAdd(p, buffer);
            var bs := BucketsOf(p, buffer);
            && Chain(p'.mem, p'.head, bs + older)
            && PairwiseApart(bs, p.bucketSize)
            && (forall k :: 0 <= k < |bs| ==>
                  buffer + Header(p) <= bs[k] && bs[k] + p.bucketSize <= buffer + p.bufferSize)
            && buffer + p.bufferSize < BucketAt(p, buffer, |bs|) + p.bucketSize
            && p'.mem.Keys == p.mem.Keys
            && (forall a :: a in p.mem && Outside(a, bs, LINK_SIZE) ==> p'.mem[a] == p.mem[a])
  {
    hide BucketAt, BucketCount, Header, Load, Store;
    var bs := BucketsOf(p, buffer);
    BucketsMapped(p, buffer);
    BucketsPairwiseApart(p, buffer);
    CountIsMaximal(p, buffer);
    forall k | 0 <= k < |bs|
      ensures buffer + Header(p) <= bs[k] && bs[k] + p.bucketSize <= buffer + p.bufferSize
    {
      BucketInside(p, buffer, k);
    }
    AppendApart(p, buffer, bs, older);
    LinkChainLinks(p.mem, bs, p.head, older);
    forall a | a in p.mem && Outside(a, bs, LINK_SIZE)
      ensures FreelistAdd(p, buffer).mem[a] == p.mem[a]
    {
      LinkChainFrame(p.mem, bs, p.head, a);
    }
  }

  lemma AppendApart(p: Pool, buffer: nat, bs: seq<nat>, older: seq<nat>)
    requires Roomy(p) && PairwiseApart(bs, p.bucketSize) && PairwiseApart(older, LINK_SIZE)
    requires forall k :: 0 <= k < |bs| ==> buffer <= bs[k] && bs[k] + p.bucketSize <= buffer + p.bufferSize
    requires forall i :: 0 <= i < |older| ==> Apart(older[i], LINK_SIZE, buffer, p.bufferSize)
    ensures PairwiseApart(bs + older, LINK_SIZE)
  {
    hide BucketAt, BucketCount, Header;
    var all := bs + older;
    forall i, j | 0 <= i < j < |all| ensures Apart(all[i], LINK_SIZE, all[j], LINK_SIZE) {
      if j < |bs| {
        assert Apart(bs[i], p.bucketSize, bs[j], p.bucketSize);
      } else if i < |bs| {
        assert Apart(older[j - |bs|], LINK_SIZE, buffer, p.bufferSize);
      } else {
        assert Apart(older[i - |bs|], LINK_SIZE, older[j - |bs|], LINK_SIZE);
      }
    }
  }

  // ---------- the buckets as a multiset ----------

  lemma {:induction false} DistinctAsSet(links: seq<nat>)
    requires forall i, j :: 0 <= i < j < |links| ==> links[i] != links[j]
    ensures multiset(links) == multiset(set x | x in links)
  {
    if links != [] {
      var last := |links| - 1;
      DistinctAsSet(links[..last]);
      assert links == links[..last] + [links[last]];
      assert (set x | x in links) == (set x | x in links[..last]) + {links[last]};
      assert links[last] !in links[..last];
    }
  }

  lemma BucketsAsMultiset(p: Pool, buffer: nat)
    requires Roomy(p)
    ensures multiset(BucketsOf(p, buffer)) == multiset(AllBuckets(p, [buffer]))
  {
    hide BucketAt, BucketCount, Header;
    var bs := BucketsOf(p, buffer);
    BucketsPairwiseApart(p, buffer);
    forall i, j | 0 <= i < j < |bs| ensures bs[i] != bs[j] {
      assert Apart(bs[i], p.bucketSize, bs[j], p.bucketSize);
    }
    DistinctAsSet(bs);
    var all, some := AllBuckets(p, [buffer]), set x | x in bs;
    forall x | x in all ensures x in some {
      var i, k := BucketOfBuffer(p, [buffer], x);
      assert x == bs[k];
    }
    forall x | x in some ensures x in all {
      var k :| 0 <= k < |bs| && x == bs[k];
      assert x == BucketAt(p, [buffer][0], k);
    }
    assert all == some;
  }

  lemma BucketsOfMoreBuffers(p: Pool, buffers: seq<nat>, region: nat)
    requires Roomy(p)
    requires forall i :: 0 <= i < |buffers| ==> Apart(buffers[i], p.bufferSize, region, p.bufferSize)
    ensures multiset(AllBuckets(p, buffers + [region])) == multiset(BucketsOf(p, region)) + multiset(AllBuckets(p, buffers))
  {
    hide BucketAt, BucketCount, Header;
    BucketsAsMultiset(p, region);
    var all, old', new' := AllBuckets(p, buffers + [region]), AllBuckets(p, buffers), AllBuckets(p, [region]);
    forall x | x in all ensures x in old' + new' {
      var i, k := BucketOfBuffer(p, buffers + [region], x);
      if i < |buffers| {
        assert x == BucketAt(p, buffers[i], k);
      } else {
        assert x == BucketAt(p, [region][0], k);
      }
    }
    forall x | x in old' ensures x in all && x !in new' {
      var i, k := BucketOfBuffer(p, buffers, x);
      assert x == BucketAt(p, (buffers + [region])[i], k);
      assert Apart(buffers[i], p.bufferSize, region, p.bufferSize);
      if x in new' {
        var i', k' := BucketOfBuffer(p, [region], x);
      }
    }
    forall x | x in new' ensures x in all {
      var i, k := BucketOfBuffer(p, [region], x);
      assert x == BucketAt(p, (buffers + [region])[|buffers|], k);
    }
    assert all == old' + new' && old' !! new';
  }

  // ---------- growing, creating, resetting ----------

  /** When the list is empty, cia_pool_alloc adds a buffer: every bucket of it becomes free, its
    bytes behind the links are zero, and nothing else changes. */
  lemma Grow(p: Pool, free: seq<nat>, live: multiset<nat>, buffers: seq<nat>, region: nat)
    requires Rep(p, free, live, buffers) && FreshRegion(p, region)
    requires p.head < TWO_TO_THE_64
    ensures var p' := FreelistAdd(WithRegion(p, region), region);
            && Rep(p', BucketsOf(p, region) + free, live, buffers + [region])
            && (forall a :: a in p.mem && Outside(a, BucketsOf(p, region), LINK_SIZE) ==> a in p'.mem && p'.mem[a] == p.mem[a])
            && (forall a :: region <= a < region + p.bufferSize && Outside(a, BucketsOf(p, region), LINK_SIZE)
                  ==> a in p'.mem && p'.mem[a] == 0)
  {
    hide BucketAt, BucketCount, Header, Load, Store, AlignForward;
    var q := WithRegion(p, region);
    SameGeometry(p, q, buffers);
    SameBuckets(p, q, region);
    FreeApart(p, free, live, buffers, region);
    ChainFrame(p.mem, q.mem, p.head, free) by {
      forall i | 0 <= i < |free|
        ensures Mapped(p.mem, free[i], LINK_SIZE) && Mapped(q.mem, free[i], LINK_SIZE)
                && forall a :: free[i] <= a < free[i] + LINK_SIZE ==> q.mem[a] == p.mem[a]
      {
        ChainMapped(p.mem, p.head, free, i);
      }
    }
    FreelistAddEffect(q, region, free);
    var p' := FreelistAdd(q, region);
    SameGeometry(p, p', buffers + [region]);
    RegionApart(p, buffers, region);
    BucketsOfMoreBuffers(p, buffers, region);
    assert BuffersOk(p', buffers + [region]);
    HeaderUntouched(p, p', region);
  }

  lemma SameBuckets(p: Pool, q: Pool, buffer: nat)
    requires Roomy(p) && Roomy(q)
    requires q.bufferSize == p.bufferSize && q.bucketSize == p.bucketSize && q.alignment == p.alignment
    ensures BucketsOf(q, buffer) == BucketsOf(p, buffer)
  {
    SameGeometry(p, q, []);
    hide BucketCount, Header;
    var bs, cs := BucketsOf(p, buffer), BucketsOf(q, buffer);
    assert |bs| == |cs|;
    assert forall k :: 0 <= k < |bs| ==> bs[k] == cs[k];
  }

  lemma FreeApart(p: Pool, free: seq<nat>, live: multiset<nat>, buffers: seq<nat>, region: nat)
    requires Rep(p, free, live, buffers) && FreshRegion(p, region)
    ensures PairwiseApart(free, LINK_SIZE)
    ensures forall i :: 0 <= i < |free| ==> Apart(free[i], LINK_SIZE, region, p.bufferSize)
  {
    hide BucketAt, BucketCount, Header, Load, Chain;
    forall i, j | 0 <= i < j < |free| ensures Apart(free[i], LINK_SIZE, free[j], LINK_SIZE) {
      FreeIsBucket(p, free, live, buffers, i);
      FreeIsBucket(p, free, live, buffers, j);
      DistinctBucketsApart(p, buffers, free[i], free[j]);
    }
    RegionApart(p, buffers, region);
    forall i | 0 <= i < |free| ensures Apart(free[i], LINK_SIZE, region, p.bufferSize) {
      FreeIsBucket(p, free, live, buffers, i);
      var j, k := BucketOfBuffer(p, buffers, free[i]);
      assert Apart(buffers[j], p.bufferSize, region, p.bufferSize);
    }
  }

  lemma RegionApart(p: Pool, buffers: seq<nat>, region: nat)
    requires Roomy(p) && BuffersOk(p, buffers) && FreshRegion(p, region)
    ensures PairwiseApart(buffers + [region], p.bufferSize)
    ensures forall i :: 0 <= i < |buffers| ==> Apart(buffers[i], p.bufferSize, region, p.bufferSize)
  {
    hide Header;
    forall i | 0 <= i < |buffers| ensures Apart(buffers[i], p.bufferSize, region, p.bufferSize) {
      var a := if buffers[i] <= region then region else buffers[i];
      if a < buffers[i] + p.bufferSize {
        assert a in p.mem;
      }
    }
  }

  lemma HeaderUntouched(p: Pool, p': Pool, region: nat)
    requires Roomy(p) && HeaderNull(p) && FreshRegion(p, region) && p'.first == p.first
    requires forall a :: a in p.mem && Outside(a, BucketsOf(p, region), LINK_SIZE) ==> a in p'.mem && p'.mem[a] == p.mem[a]
    ensures HeaderNull(p')
  {
    hide BucketAt, BucketCount, Header, Load;
    forall a | p.first <= a < p.first + HEADER_SIZE ensures a in p'.mem && p'.mem[a] == p.mem[a] {
      FreshBucketsOutside(p, region, a);
    }
    LoadCongruence(p.mem, p'.mem, p.first, p.first, HEADER_SIZE);
  }

  lemma FreshBucketsOutside(p: Pool, region: nat, a: nat)
    requires Roomy(p) && FreshRegion(p, region) && a in p.mem
    ensures Outside(a, BucketsOf(p, region), LINK_SIZE)
  {
    hide BucketAt, BucketCount, Header;
    var bs := BucketsOf(p, region);
    forall i | 0 <= i < |bs| ensures !(bs[i] <= a < bs[i] + LINK_SIZE) {
      BucketInside(p, region, i);
    }
  }

  /** A buffer whose header word is null, chained on its own, is a pool with all buckets free. */
  lemma OneBuffer(p: Pool)
    requires Roomy(p) && p.head == 0 && HeaderNull(p)
    requires 0 < p.first && p.first % PAGE_SIZE == 0 && p.first + p.bufferSize <= TWO_TO_THE_64
    requires Mapped(p.mem, p.first, p.bufferSize)
    ensures Rep(FreelistAdd(p, p.first), BucketsOf(p, p.first), multiset{}, [p.first])
    ensures FreelistAdd(p, p.first).mem.Keys == p.mem.Keys
    ensures forall a :: a in p.mem && Outside(a, BucketsOf(p, p.first), LINK_SIZE) ==> FreelistAdd(p, p.first).mem[a] == p.mem[a]
  {
    hide BucketAt, BucketCount, Header, Load, Store, AlignForward;
    FreelistAddEffect(p, p.first, []);
    var p', bs := FreelistAdd(p, p.first), BucketsOf(p, p.first);
    assert bs + [] == bs;
    SameGeometry(p, p', [p.first]);
    BucketsAsMultiset(p, p.first);
    forall a | p.first <= a < p.first + HEADER_SIZE ensures Outside(a, bs, LINK_SIZE) {
    }
    LoadCongruence(p.mem, p'.mem, p.first, p.first, HEADER_SIZE);
  }

  /** cia_pool_create leaves every bucket of the first buffer free, in ascending order. */
  lemma CreateRep(mem: Memory, region: nat, bufferSize: U64, bucketSize: U64, alignment: U64)
    requires alignment > 0
    requires var p := Unlinked(mem, region, bufferSize, bucketSize, alignment); Roomy(p) && FreshRegion(p, region)
    ensures var p := Create(mem, region, bufferSize, bucketSize, alignment);
            && Rep(p, BucketsOf(p, region), multiset{}, [region])
            && GrownBy(mem, p.mem, region, bufferSize) && ZeroButLinks(p, region)
  {
    hide BucketAt, BucketCount, Header, Load, Store, AlignForward, LinkChain;
    var u := Unlinked(mem, region, bufferSize, bucketSize, alignment);
    var p := WithRegion(u, region);
    SameGeometry(u, p, []);
    LoadZero(p.mem, region, HEADER_SIZE);
    OneBuffer(p);
    SameBuckets(p, FreelistAdd(p, region), region);
    RegionGrows(u, region);
  }

  /** `m'` is `m` with the given region mapped in addition: no old byte has changed, and nothing else
    is mapped. */
  ghost predicate GrownBy(m: Memory, m': Memory, region: nat, size: nat) {
    && (forall a :: a in m' <==> a in m || region <= a < region + size)
    && (forall a :: a in m && !(region <= a < region + size) ==> m'[a] == m[a])
  }

  /** The buffer's bytes are 0 but for the links in its buckets. */
  ghost predicate ZeroButLinks(p: Pool, buffer: nat)
    requires Roomy(p)
  {
    forall a :: buffer <= a < buffer + p.bufferSize && Outside(a, BucketsOf(p, buffer), LINK_SIZE) ==>
      a in p.mem && p.mem[a] == 0
  }

  /** Mapping a region and chaining its buckets does nothing to any other memory. */
  lemma RegionGrows(u: Pool, region: nat)
    requires Roomy(u) && FreshRegion(u, region) && u.head == 0 && Roomy(WithRegion(u, region))
    ensures var p := FreelistAdd(WithRegion(u, region), region);
            Roomy(p) && GrownBy(u.mem, p.mem, region, u.bufferSize) && ZeroButLinks(p, region)
  {
    hide BucketAt, BucketCount, Header, Load, Store, LinkChain, Chain;
    var q := WithRegion(u, region);
    ChainOfNone(q.mem);
    FreelistAddEffect(q, region, []);
    var p := FreelistAdd(q, region);
    SameGeometry(q, p, []);
    SameBuckets(q, p, region);
    forall a | a in u.mem && !(region <= a < region + u.bufferSize) ensures p.mem[a] == u.mem[a] {
      BucketsOutside(q, region, a);
    }
  }

  lemma ChainOfNone(m: Memory)
    ensures Chain(m, 0, [])
  {
  }

  /** An address outside a buffer is in none of its links. */
  lemma BucketsOutside(p: Pool, buffer: nat, a: nat)
    requires Roomy(p) && !(buffer <= a < buffer + p.bufferSize)
    ensures Outside(a, BucketsOf(p, buffer), LINK_SIZE)
  {
    hide BucketAt, BucketCount, Header;
    var bs := BucketsOf(p, buffer);
    forall k | 0 <= k < |bs| ensures !(bs[k] <= a < bs[k] + LINK_SIZE) {
      BucketInside(p, buffer, k);
    }
  }

  /** cia_pool_free_all, after any history: all buckets of the first buffer are free again, in
    exactly the order that cia_pool_create gave them. */
  lemma FreeAllRep(p: Pool, free: seq<nat>, live: multiset<nat>, buffers: seq<nat>)
    requires Rep(p, free, live, buffers)
    ensures Rep(FreeAll(p), BucketsOf(p, p.first), multiset{}, [p.first])
    ensures FreeAll(p).mem.Keys == p.mem.Keys
    ensures forall a :: a in p.mem && Outside(a, BucketsOf(p, p.first), LINK_SIZE) ==> FreeAll(p).mem[a] == p.mem[a]
  {
    hide BucketAt, BucketCount, Header, Load, Store, AlignForward, Chain, LinkChain;
    var q := p.(head := 0);
    SameGeometry(p, q, []);
    SameBuckets(p, q, p.first);
    OneBuffer(q);
  }

  // ---------- alignment ----------

  /** The sizes cia_pool_create computes: the bucket size is the least multiple of the alignment
    that holds both the element and a link, and so is the header size. */
  lemma CreateSizes(bufferSize: U64, bucketSize: U64, e: nat, mem: Memory, region: nat)
    requires e <= 12 && bucketSize + PAGE_SIZE < TWO_TO_THE_64
    ensures 0 < Pow2(e) <= PAGE_SIZE
    ensures var p := Unlinked(mem, region, bufferSize, bucketSize, Pow2(e));
            && LeastMultiple(Header(p), HEADER_SIZE, Pow2(e))
            && LeastMultiple(p.bucketSize, if bucketSize < LINK_SIZE then LINK_SIZE else bucketSize, Pow2(e))
            && (Roomy(p) <==> Header(p) + p.bucketSize <= bufferSize)
  {
    Pow2At64();
    Pow2Monotone(e, 12);
    AlignForwardIsLeast(HEADER_SIZE, e);
    AlignForwardIsLeast(if bucketSize < LINK_SIZE then LINK_SIZE else bucketSize, e);
  }

  /** Every bucket of a page-aligned buffer starts at a multiple of the pool's alignment. */
  lemma BucketAligned(p: Pool, buffer: nat, k: nat, e: nat)
    requires e <= 12 && p.alignment == Pow2(e) && buffer % PAGE_SIZE == 0
    requires Header(p) % p.alignment == 0 && p.bucketSize % p.alignment == 0
    ensures BucketAt(p, buffer, k) % p.alignment == 0
  {
    hide Header, AlignForward, Pow2;
    var a := p.alignment;
    Pow2At64();
    Pow2Divides(e, 12);
    assert buffer == PAGE_SIZE * (buffer / PAGE_SIZE);
    MultipleOfMultiple(buffer / PAGE_SIZE, PAGE_SIZE, a);
    MultipleOfMultiple(k, p.bucketSize, a);
    MultipleSum(buffer, Header(p), a);
    MultipleSum(buffer + Header(p), k * p.bucketSize, a);
  }
}
