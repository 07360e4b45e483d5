/** The pool of src/cia-mem/pool.c in its own form: an object whose fields and memory the
  operations update in place. Each operation is tied to its specification in PoolSpec, and keeps
  the ghost fields that say what the pool represents. */
module CiaPool {
  import opened Machine
  import opened Align
  import opened PoolSpec
  import opened PoolGrow
  import PoolRuns

  class Cia_Pool {
    var mem: Memory
    var first: nat
    var freelist_head: nat
    var buffer_size: U64
    var bucket_size: U64
    var alignment: U64

    ghost var Free: seq<nat>
    ghost var Live: multiset<nat>
    ghost var Buffers: seq<nat>

    function State(): Pool
      reads this
    {
      Pool(mem, first, freelist_head, buffer_size, bucket_size, alignment)
    }

    ghost predicate Valid()
      reads this
    {
      Rep(State(), Free, Live, Buffers)
    }

    /** _pool_buffer_freelist_add, with its do-while loop from the last bucket down to the first. */
    method FreelistAdd(buffer: nat)
      requires Roomy(State()) && freelist_head < TWO_TO_THE_64
      requires buffer + buffer_size <= TWO_TO_THE_64 && Mapped(mem, buffer, buffer_size)
      modifies `mem, `freelist_head
      ensures State() == PoolSpec.FreelistAdd(old(State()), buffer)
    {
      hide BucketAt, BucketCount, Header, Load, Store, AlignForward;
      ghost var p, bs := State(), BucketsOf(State(), buffer);
      BucketsMapped(p, buffer);
      HeaderOf(p);
      var header_size_aligned: U64 := AlignForward(HEADER_SIZE, alignment);
      var remaining_size: U64 := buffer_size - header_size_aligned;
      var buckets_count: nat := remaining_size / bucket_size;
      var buckets_size: nat := buckets_count * bucket_size;
      var bucket_offset: nat := header_size_aligned + buckets_size;
      var next_bucket: nat := freelist_head;
      ghost var k := BucketCount(p);
      LastBucket(p, buffer);
      assert bs[k..] == [];
      while true
        invariant 0 < k <= |bs|
        invariant buffer + bucket_offset == BucketAt(p, buffer, k)
        invariant freelist_head == p.head && first == p.first && buffer_size == p.bufferSize
        invariant bucket_size == p.bucketSize && alignment == p.alignment
        invariant mem == LinkChain(p.mem, bs[k..], p.head)
        invariant next_bucket == if k == |bs| then p.head else bs[k]
        decreases k
      {
        StepDown(p, buffer, k);
        bucket_offset := bucket_offset - bucket_size;
        var bucket: nat := buffer + bucket_offset;
        assert bucket == bs[k - 1] && bs[k - 1..][1..] == bs[k..];
        assert Mapped(p.mem, bs[k - 1], LINK_SIZE);
        mem := Store64(mem, bucket, next_bucket);
        next_bucket := bucket;
        k := k - 1;
        if !(bucket_offset > header_size_aligned) {
          break;
        }
      }
      assert bs[0..] == bs;
      freelist_head := next_bucket;
    }

    /** cia_pool_create on pages that the page allocator returns at `region`. */
    constructor (mem: Memory, region: nat, buffer_size: U64, bucket_size: U64, alignment: U64)
      requires alignment > 0
      requires var p := Unlinked(mem, region, buffer_size, bucket_size, alignment); Roomy(p) && FreshRegion(p, region)
      ensures Valid() && Live == multiset{} && Buffers == [region] && Free == BucketsOf(State(), region)
      ensures State() == Create(mem, region, buffer_size, bucket_size, alignment)
      ensures GrownBy(mem, this.mem, region, buffer_size) && ZeroButLinks(State(), region)
    {
      hide Rep, Header, AlignForward, BucketAt, BucketCount, LinkChain, Chain, Load;
      this.buffer_size := buffer_size;
      this.alignment := alignment;
      var size := if bucket_size < LINK_SIZE then LINK_SIZE else bucket_size;
      this.bucket_size := AlignForward(size, alignment);
      this.freelist_head := 0;
      this.first := region;
      this.mem := mem + ZeroPages(region, buffer_size);
      new;
      ghost var u := Unlinked(mem, region, buffer_size, bucket_size, alignment);
      assert State() == WithRegion(u, region);
      SameGeometry(u, State(), []);
      FreelistAdd(region);
      SameGeometry(u, State(), []);
      CreateRep(mem, region, buffer_size, bucket_size, alignment);
      Free, Live, Buffers := BucketsOf(State(), region), multiset{}, [region];
    }

    /** cia_pool_alloc. The page allocator would return `region`. */
    method Alloc(region: nat) returns (addr: nat)
      requires Valid()
      requires freelist_head == 0 ==> FreshRegion(State(), region)
      modifies `mem, `freelist_head, `Free, `Live, `Buffers
      ensures Valid()
      ensures addr !in old(Live) && Live == old(Live) + multiset{addr}
      ensures addr in AllBuckets(State(), Buffers)
      ensures Buffers == if old(freelist_head) == 0 then old(Buffers) + [region] else old(Buffers)
      ensures forall x :: x in old(Live) ==> Apart(x, bucket_size, addr, bucket_size)
      ensures forall x, a :: x in old(Live) && x <= a < x + bucket_size ==>
                a in mem && a in old(mem) && mem[a] == old(mem)[a]
      ensures PoolRuns.Defined(old(State()), PoolRuns.AllocOp(region))
      ensures (State(), addr) == PoolSpec.Alloc(old(State()), region)
    {
      hide BucketAt, BucketCount, Header, Load, LinkChain, Chain;
      ghost var w, op := PoolRuns.World(State(), Live), PoolRuns.AllocOp(region);
      HeadFits(State(), Free, Live, Buffers);
      PoolRuns.AllocStep(w, Free, Buffers, region);
      ghost var free', buffers' := PoolRuns.FreeAfter(w.p, Free, op), PoolRuns.BuffersAfter(Free, Buffers, op, first);
      if freelist_head == 0 {
        mem := mem + ZeroPages(region, buffer_size);
        SameGeometry(w.p, State(), []);
        FreelistAdd(region);
      }
      addr := freelist_head;
      freelist_head := Load64(mem, freelist_head);
      SameGeometry(w.p, State(), buffers');
      Free, Live, Buffers := free', Live + multiset{addr}, buffers';
    }

    /** cia_pool_free */
    method Dealloc(ptr: nat)
      requires Valid() && ptr in Live
      modifies `mem, `freelist_head, `Free, `Live
      ensures Valid()
      ensures Live == old(Live) - multiset{ptr} && Free == [ptr] + old(Free)
      ensures forall x, a :: x in Live && x <= a < x + bucket_size ==>
                a in mem && a in old(mem) && mem[a] == old(mem)[a]
      ensures PoolRuns.Defined(old(State()), PoolRuns.FreeOp(ptr))
      ensures State() == PoolSpec.Free(old(State()), ptr)
    {
      hide BucketAt, BucketCount, Header, Load, Chain, Store;
      ghost var w := PoolRuns.World(State(), Live);
      PoolRuns.FreeStep(w, Free, Buffers, ptr);
      LiveIsBucket(State(), Free, Live, Buffers, ptr);
      mem := Store64(mem, ptr, freelist_head);
      freelist_head := ptr;
      Free, Live := [ptr] + Free, Live - multiset{ptr};
    }

    /** cia_pool_free_all. Valid() keeps the link in the first buffer's header null, so that the
      loop over the buffers behind it ends at once. */
    method FreeAll()
      requires Valid()
      modifies `mem, `freelist_head, `Free, `Live, `Buffers
      ensures Valid()
      ensures Live == multiset{} && Buffers == [first] && Free == BucketsOf(State(), first)
      ensures State() == PoolSpec.FreeAll(old(State()))
    {
      hide BucketAt, BucketCount, Header, Load, Chain, Store;
      var buffer := Load64(mem, first);
      assert buffer == 0;
      ghost var p := State();
      FreeAllRep(p, Free, Live, Buffers);
      freelist_head := 0;
      SameGeometry(p, State(), []);
      FreelistAdd(first);
      SameBuckets(p, State(), first);
      Free, Live, Buffers := BucketsOf(p, first), multiset{}, [first];
    }
  }

  lemma LastBucket(p: Pool, buffer: nat)
    requires Roomy(p)
    ensures BucketAt(p, buffer, BucketCount(p))
            == buffer + Header(p) + ((p.bufferSize - Header(p)) / p.bucketSize) * p.bucketSize
  {
    hide Header;
  }

  lemma StepDown(p: Pool, buffer: nat, k: nat)
    requires Roomy(p) && 0 < k
    ensures BucketAt(p, buffer, k - 1) + p.bucketSize == BucketAt(p, buffer, k)
    ensures BucketAt(p, buffer, k - 1) >= buffer + Header(p)
    ensures k == 1 <==> BucketAt(p, buffer, k - 1) == buffer + Header(p)
  {
    hide Header;
    assert k * p.bucketSize == (k - 1) * p.bucketSize + p.bucketSize;
    if k > 1 {
      MulMonotone(1, k - 1, p.bucketSize);
    }
  }
}
