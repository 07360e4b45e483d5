/** The pool allocator of src/cia-mem/pool.c as functions on a record of its fields and the byte
  memory. Free buckets hold the free list inside themselves: the first word of a free bucket is
  the address of the next one, and clients write to the same bytes once they own the bucket. */
module PoolSpec {
  import opened Machine
  import opened Align

  // sizeof(Cia_Pool_Bucket) and sizeof(Cia_Pool_Buffer_Header): one pointer each
  const LINK_SIZE: nat := 8
  const HEADER_SIZE: nat := 8

  datatype Pool = Pool(mem: Memory, first: nat, head: nat, bufferSize: U64, bucketSize: U64, alignment: U64)

  // ---------- geometry ----------

  function Header(p: Pool): U64
    requires p.alignment > 0
  {
    AlignForward(HEADER_SIZE, p.alignment)
  }

  /** At least one bucket fits behind the header, and every bucket can hold a link. */
  predicate Roomy(p: Pool) {
    && p.alignment > 0 && HEADER_SIZE <= Header(p)
    && LINK_SIZE <= p.bucketSize && Header(p) + p.bucketSize <= p.bufferSize
  }

  function BucketCount(p: Pool): (n: nat)
    requires Roomy(p)
    ensures n > 0
  {
    CountPositive(p.bufferSize - Header(p), p.bucketSize);
    (p.bufferSize - Header(p)) / p.bucketSize
  }

  lemma CountPositive(x: nat, a: nat)
    requires 0 < a <= x
    ensures x / a > 0
  {
  }

  lemma QuotientFits(x: nat, a: nat)
    requires a > 0
    ensures (x / a) * a <= x < (x / a) * a + a
  {
  }

  lemma MulMonotone(x: nat, y: nat, a: nat)
    requires x <= y
    ensures x * a <= y * a
  {
  }

  function BucketAt(p: Pool, buffer: nat, k: nat): nat
    requires p.alignment > 0
  {
    ProductIsNat(k, p.bucketSize);
    buffer + Header(p) + k * p.bucketSize
  }

  lemma ProductIsNat(x: nat, y: nat)
    ensures x * y >= 0
  {
  }

  /** All buckets of a buffer in ascending order. */
  function BucketsOf(p: Pool, buffer: nat): (bs: seq<nat>)
    requires Roomy(p)
    ensures |bs| == BucketCount(p)
    ensures forall k :: 0 <= k < |bs| ==> bs[k] == BucketAt(p, buffer, k)
  {
    seq(BucketCount(p), k requires 0 <= k => BucketAt(p, buffer, k))
  }

  ghost function AllBuckets(p: Pool, buffers: seq<nat>): set<nat>
    requires Roomy(p)
  {
    set i, k | 0 <= i < |buffers| && 0 <= k < BucketCount(p) :: BucketAt(p, buffers[i], k)
  }

  /** The buckets depend on the sizes only. */
  lemma SameGeometry(p: Pool, p': Pool, buffers: seq<nat>)
    requires Roomy(p)
    requires p'.bufferSize == p.bufferSize && p'.bucketSize == p.bucketSize && p'.alignment == p.alignment
    ensures Roomy(p') && Header(p') == Header(p) && BucketCount(p') == BucketCount(p)
    ensures AllBuckets(p', buffers) == AllBuckets(p, buffers)
  {
    hide Header;
    assert Header(p') == Header(p) by {
      HeaderOf(p);
      HeaderOf(p');
    }
    hide BucketCount;
    assert BucketCount(p') == BucketCount(p) by {
      SameCount(p, p');
    }
    forall b: nat, k: nat ensures BucketAt(p', b, k) == BucketAt(p, b, k) {
    }
    hide BucketAt;
  }

  lemma HeaderOf(p: Pool)
    requires p.alignment > 0
    ensures Header(p) == AlignForward(HEADER_SIZE, p.alignment)
  {
  }

  lemma SameCount(p: Pool, p': Pool)
    requires Roomy(p) && Roomy(p') && Header(p') == Header(p)
    requires p'.bufferSize == p.bufferSize && p'.bucketSize == p.bucketSize
    ensures BucketCount(p') == BucketCount(p)
  {
  }

  lemma BucketInside(p: Pool, buffer: nat, k: nat)
    requires Roomy(p) && k < BucketCount(p)
    ensures buffer + Header(p) <= BucketAt(p, buffer, k)
    ensures BucketAt(p, buffer, k) + p.bucketSize <= buffer + p.bufferSize
  {
    hide Header;
    QuotientFits(p.bufferSize - Header(p), p.bucketSize);
    MulMonotone(k + 1, BucketCount(p), p.bucketSize);
  }

  lemma BucketsAscend(p: Pool, buffer: nat, j: nat, k: nat)
    requires Roomy(p) && j < k
    ensures BucketAt(p, buffer, j) + p.bucketSize <= BucketAt(p, buffer, k)
  {
    hide Header;
    MulMonotone(j + 1, k, p.bucketSize);
  }

  /** The number of buckets is the most that fit: one more would leave the buffer. */
  lemma CountIsMaximal(p: Pool, buffer: nat)
    requires Roomy(p)
    ensures BucketAt(p, buffer, BucketCount(p)) <= buffer + p.bufferSize
            < BucketAt(p, buffer, BucketCount(p)) + p.bucketSize
  {
    hide Header;
    QuotientFits(p.bufferSize - Header(p), p.bucketSize);
  }

  // ---------- the free list ----------

  /** Following the links from `head` visits exactly `links` and then ends. */
  ghost predicate Chain(m: Memory, head: nat, links: seq<nat>)
    decreases links
  {
    if links == [] then head == 0
    else
      && head == links[0] && head != 0 && Mapped(m, head, LINK_SIZE)
      && Chain(m, Load64(m, head), links[1..])
  }

  /** Writes the links so that `links` are chained in order and the last one leads to `tail`. */
  function LinkChain(m: Memory, links: seq<nat>, tail: U64): (m': Memory)
    requires forall i :: 0 <= i < |links| ==> Mapped(m, links[i], LINK_SIZE) && links[i] < TWO_TO_THE_64
    ensures m'.Keys == m.Keys
  {
    if links == [] then m
    else
      var rest := LinkChain(m, links[1..], tail);
      assert Mapped(m, links[0], LINK_SIZE);
      Store64(rest, links[0], if |links| == 1 then tail else links[1])
  }

  ghost predicate PairwiseApart(links: seq<nat>, n: nat) {
    forall i, j :: 0 <= i < j < |links| ==> Apart(links[i], n, links[j], n)
  }

  ghost predicate Outside(a: nat, links: seq<nat>, n: nat) {
    forall i :: 0 <= i < |links| ==> !(links[i] <= a < links[i] + n)
  }

  /** Only the link words change. */
  lemma {:induction false} LinkChainFrame(m: Memory, links: seq<nat>, tail: U64, a: nat)
    requires forall i :: 0 <= i < |links| ==> Mapped(m, links[i], LINK_SIZE) && links[i] < TWO_TO_THE_64
    requires a in m && Outside(a, links, LINK_SIZE)
    ensures LinkChain(m, links, tail)[a] == m[a]
  {
    if links != [] {
      assert Outside(a, links[1..], LINK_SIZE) by {
        forall i | 0 <= i < |links[1..]| ensures !(links[1..][i] <= a < links[1..][i] + LINK_SIZE) {
          assert links[1..][i] == links[i + 1];
        }
      }
      LinkChainFrame(m, links[1..], tail, a);
      assert !(links[0] <= a < links[0] + LINK_SIZE);
    }
  }

  lemma {:induction false} ChainFrame(m: Memory, m': Memory, head: nat, links: seq<nat>)
    requires Chain(m, head, links)
    requires forall i :: 0 <= i < |links| ==>
               Mapped(m, links[i], LINK_SIZE) && Mapped(m', links[i], LINK_SIZE)
               && forall a :: links[i] <= a < links[i] + LINK_SIZE ==> m'[a] == m[a]
    ensures Chain(m', head, links)
    decreases links
  {
    if links != [] {
      assert Mapped(m', links[0], LINK_SIZE);
      LoadCongruence(m, m', head, head, LINK_SIZE);
      ChainFrame(m, m', Load64(m, head), links[1..]);
    }
  }

  lemma {:induction false} ChainMapped(m: Memory, head: nat, links: seq<nat>, i: nat)
    requires Chain(m, head, links) && i < |links|
    ensures Mapped(m, links[i], LINK_SIZE) && links[i] != 0
    decreases links
  {
    if i > 0 {
      ChainMapped(m, Load64(m, head), links[1..], i - 1);
    }
  }

  /** Writing one more link in front of a chain. */
  lemma ChainPrepend(m: Memory, a: nat, next: U64, links: seq<nat>)
    requires Chain(m, next, links) && 0 < a && Mapped(m, a, LINK_SIZE)
    requires forall i :: 0 <= i < |links| ==> Apart(a, LINK_SIZE, links[i], LINK_SIZE)
    ensures Chain(Store64(m, a, next), a, [a] + links)
  {
    hide Store, Load;
    var m' := Store64(m, a, next);
    forall i | 0 <= i < |links|
      ensures Mapped(m, links[i], LINK_SIZE) && Mapped(m', links[i], LINK_SIZE)
              && forall b :: links[i] <= b < links[i] + LINK_SIZE ==> m'[b] == m[b]
    {
      ChainMapped(m, next, links, i);
    }
    ChainFrame(m, m', next, links);
    assert ([a] + links)[1..] == links;
  }

  /** The links that LinkChain writes, followed by the older ones, form the new chain. */
  lemma {:induction false} LinkChainLinks(m: Memory, links: seq<nat>, tail: U64, older: seq<nat>)
    requires forall i :: 0 <= i < |links| ==> Mapped(m, links[i], LINK_SIZE) && 0 < links[i] < TWO_TO_THE_64
    requires PairwiseApart(links + older, LINK_SIZE)
    requires Chain(m, tail, older)
    ensures Chain(LinkChain(m, links, tail), if links == [] then tail else links[0], links + older)
  {
    hide Store, Load;
    if links == [] {
      assert links + older == older;
    } else {
      var all := links + older;
      assert all[1..] == links[1..] + older && all == [links[0]] + all[1..];
      forall i, j | 0 <= i < j < |all[1..]| ensures Apart(all[1..][i], LINK_SIZE, all[1..][j], LINK_SIZE) {
        assert Apart(all[i + 1], LINK_SIZE, all[j + 1], LINK_SIZE);
      }
      LinkChainLinks(m, links[1..], tail, older);
      var next := if |links| == 1 then tail else links[1];
      assert Mapped(m, links[0], LINK_SIZE);
      forall i | 0 <= i < |all[1..]| ensures Apart(links[0], LINK_SIZE, all[1..][i], LINK_SIZE) {
        assert Apart(all[0], LINK_SIZE, all[i + 1], LINK_SIZE);
      }
      ChainPrepend(LinkChain(m, links[1..], tail), links[0], next, all[1..]);
    }
  }

  // ---------- the operations ----------

  /** _pool_buffer_freelist_add */
  function FreelistAdd(p: Pool, buffer: nat): Pool
    requires Roomy(p) && p.head < TWO_TO_THE_64
    requires buffer + p.bufferSize <= TWO_TO_THE_64 && Mapped(p.mem, buffer, p.bufferSize)
  {
    BucketsMapped(p, buffer);
    p.(mem := LinkChain(p.mem, BucketsOf(p, buffer), p.head), head := BucketAt(p, buffer, 0))
  }

  lemma BucketsMapped(p: Pool, buffer: nat)
    requires Roomy(p)
    requires buffer + p.bufferSize <= TWO_TO_THE_64 && Mapped(p.mem, buffer, p.bufferSize)
    ensures var bs := BucketsOf(p, buffer);
            forall i :: 0 <= i < |bs| ==> Mapped(p.mem, bs[i], LINK_SIZE) && 0 < bs[i] < TWO_TO_THE_64
  {
    forall i | 0 <= i < BucketCount(p)
      ensures Mapped(p.mem, BucketAt(p, buffer, i), LINK_SIZE) && 0 < BucketAt(p, buffer, i) < TWO_TO_THE_64
    {
      BucketInside(p, buffer, i);
    }
  }

  /** A region that an anonymous mmap may return: whole pages, not yet mapped, not at address 0. */
  ghost predicate FreshRegion(p: Pool, region: nat) {
    && 0 < region && region % PAGE_SIZE == 0 && region + p.bufferSize <= TWO_TO_THE_64
    && forall a :: region <= a < region + p.bufferSize ==> a !in p.mem
  }

  function WithRegion(p: Pool, region: nat): (p': Pool)
    ensures forall a :: region <= a < region + p.bufferSize ==> a in p'.mem && p'.mem[a] == 0
  {
    p.(mem := p.mem + ZeroPages(region, p.bufferSize))
  }

  /** cia_pool_create. `region` is what the page allocator returns for the first buffer. */
  function Create(mem: Memory, region: nat, bufferSize: U64, bucketSize: U64, alignment: U64): Pool
    requires alignment > 0
    requires var p := Unlinked(mem, region, bufferSize, bucketSize, alignment);
             Roomy(p) && region + p.bufferSize <= TWO_TO_THE_64
  {
    FreelistAdd(WithRegion(Unlinked(mem, region, bufferSize, bucketSize, alignment), region), region)
  }

  /** The fields as cia_pool_create sets them before it builds the free list. */
  function Unlinked(mem: Memory, region: nat, bufferSize: U64, bucketSize: U64, alignment: U64): Pool
    requires alignment > 0
  {
    Pool(mem, region, 0, bufferSize,
         AlignForward(if bucketSize < LINK_SIZE then LINK_SIZE else bucketSize, alignment), alignment)
  }

  ghost predicate CanAlloc(p: Pool, region: nat) {
    && Roomy(p) && p.head < TWO_TO_THE_64 && (p.head != 0 ==> Mapped(p.mem, p.head, LINK_SIZE))
    && (p.head == 0 ==> region + p.bufferSize <= TWO_TO_THE_64)
  }

  /** cia_pool_alloc up to the point where the free list is not empty. `region` is what the page
    allocator returns if it is called. */
  function Refill(p: Pool, region: nat): Pool
    requires CanAlloc(p, region)
  {
    if p.head == 0 then FreelistAdd(WithRegion(p, region), region) else p
  }

  /** cia_pool_alloc */
  function Alloc(p: Pool, region: nat): (Pool, nat)
    requires CanAlloc(p, region) && Mapped(Refill(p, region).mem, Refill(p, region).head, LINK_SIZE)
  {
    var r := Refill(p, region);
    (r.(head := Load64(r.mem, r.head)), r.head)
  }

  /** cia_pool_free */
  function Free(p: Pool, ptr: nat): Pool
    requires Mapped(p.mem, ptr, LINK_SIZE) && p.head < TWO_TO_THE_64
  {
    p.(mem := Store64(p.mem, ptr, p.head), head := ptr)
  }

  /** cia_pool_free_all. The loop over later buffers starts from the link in the first buffer's
    header; that link is null in every pool (see Rep), so the loop has no iterations. */
  function FreeAll(p: Pool): Pool
    requires Roomy(p) && p.first + p.bufferSize <= TWO_TO_THE_64 && Mapped(p.mem, p.first, p.bufferSize)
  {
    FreelistAdd(p.(head := 0), p.first)
  }

  // ---------- what a pool represents ----------

  ghost predicate BuffersOk(p: Pool, buffers: seq<nat>) {
    && (forall i :: 0 <= i < |buffers| ==>
          && 0 < buffers[i] && buffers[i] % PAGE_SIZE == 0 && buffers[i] + p.bufferSize <= TWO_TO_THE_64
          && Mapped(p.mem, buffers[i], p.bufferSize))
    && PairwiseApart(buffers, p.bufferSize)
    && |buffers| > 0 && p.first == buffers[0]
  }

  /** The header word of the first buffer is null. */
  ghost predicate HeaderNull(p: Pool) {
    Mapped(p.mem, p.first, HEADER_SIZE) && Load64(p.mem, p.first) == 0
  }

  /** The pool `p` has the given buffers, its free list is `free`, and clients own the buckets in
    `live`. Both together are all buckets, each exactly once. */
  ghost predicate Rep(p: Pool, free: seq<nat>, live: multiset<nat>, buffers: seq<nat>) {
    && Roomy(p) && BuffersOk(p, buffers) && HeaderNull(p)
    && Chain(p.mem, p.head, free)
    && multiset(free) + live == multiset(AllBuckets(p, buffers))
  }

  lemma BucketOfBuffer(p: Pool, buffers: seq<nat>, x: nat) returns (i: nat, k: nat)
    requires Roomy(p) && x in AllBuckets(p, buffers)
    ensures i < |buffers| && k < BucketCount(p) && x == BucketAt(p, buffers[i], k)
    ensures buffers[i] + Header(p) <= x && x + p.bucketSize <= buffers[i] + p.bufferSize
  {
    i, k :| 0 <= i < |buffers| && 0 <= k < BucketCount(p) && x == BucketAt(p, buffers[i], k);
    BucketInside(p, buffers[i], k);
  }

  /** Any two buckets, of one buffer or of two, have no byte in common. */
  lemma DistinctBucketsApart(p: Pool, buffers: seq<nat>, x: nat, y: nat)
    requires Roomy(p) && BuffersOk(p, buffers)
    requires x in AllBuckets(p, buffers) && y in AllBuckets(p, buffers) && x != y
    ensures Apart(x, p.bucketSize, y, p.bucketSize)
  {
    var i, j := BucketOfBuffer(p, buffers, x);
    var i', j' := BucketOfBuffer(p, buffers, y);
    if i == i' {
      if j < j' {
        BucketsAscend(p, buffers[i], j, j');
      } else if j' < j {
        BucketsAscend(p, buffers[i], j', j);
      }
    } else if i < i' {
      assert Apart(buffers[i], p.bufferSize, buffers[i'], p.bufferSize);
    } else {
      assert Apart(buffers[i'], p.bufferSize, buffers[i], p.bufferSize);
    }
  }

  lemma BucketMapped(p: Pool, buffers: seq<nat>, x: nat)
    requires Roomy(p) && BuffersOk(p, buffers) && x in AllBuckets(p, buffers)
    ensures Mapped(p.mem, x, p.bucketSize) && Mapped(p.mem, x, LINK_SIZE)
    ensures 0 < x && x + p.bucketSize <= TWO_TO_THE_64
    ensures Apart(p.first, HEADER_SIZE, x, p.bucketSize)
  {
    var i, k := BucketOfBuffer(p, buffers, x);
    if i > 0 {
      assert Apart(buffers[0], p.bufferSize, buffers[i], p.bufferSize);
    }
  }

  /** A live bucket is a bucket, it is live once, and it is not on the free list. */
  lemma LiveIsBucket(p: Pool, free: seq<nat>, live: multiset<nat>, buffers: seq<nat>, x: nat)
    requires Rep(p, free, live, buffers) && x in live
    ensures x in AllBuckets(p, buffers) && live[x] == 1 && x !in free
  {
    var all := multiset(AllBuckets(p, buffers));
    assert (multiset(free) + live)[x] == all[x];
    assert x in free ==> x in multiset(free);
  }

  /** A bucket on the free list is a bucket and is on it once. */
  lemma FreeIsBucket(p: Pool, free: seq<nat>, live: multiset<nat>, buffers: seq<nat>, i: nat)
    requires Rep(p, free, live, buffers) && i < |free|
    ensures free[i] in AllBuckets(p, buffers) && free[i] !in live
    ensures forall j :: 0 <= j < |free| && j != i ==> free[j] != free[i]
  {
    var x := free[i];
    assert (multiset(free) + live)[x] == multiset(AllBuckets(p, buffers))[x];
    assert free == free[..i] + [x] + free[i + 1..];
    assert multiset(free) == multiset(free[..i]) + multiset{x} + multiset(free[i + 1..]);
    forall j | 0 <= j < |free| && j != i ensures free[j] != x {
      assert free[j] in if j < i then free[..i] else free[i + 1..];
    }
  }

  /** The heart of the intrusive list: whatever is written inside one live bucket, the pool still
    represents the same free list and the same live buckets. */
  lemma LiveWrite(p: Pool, free: seq<nat>, live: multiset<nat>, buffers: seq<nat>, ptr: nat, mem: Memory)
    requires Rep(p, free, live, buffers) && ptr in live
    requires SameOutside(p.mem, mem, ptr, p.bucketSize)
    ensures Rep(p.(mem := mem), free, live, buffers)
  {
    hide BucketAt, BucketCount, Header, Load, AlignForward;
    var p' := p.(mem := mem);
    LiveIsBucket(p, free, live, buffers, ptr);
    BucketMapped(p, buffers, ptr);
    forall i | 0 <= i < |free|
      ensures Mapped(p.mem, free[i], LINK_SIZE) && Mapped(mem, free[i], LINK_SIZE)
              && forall a :: free[i] <= a < free[i] + LINK_SIZE ==> mem[a] == p.mem[a]
    {
      FreeIsBucket(p, free, live, buffers, i);
      DistinctBucketsApart(p, buffers, free[i], ptr);
      BucketMapped(p, buffers, free[i]);
    }
    ChainFrame(p.mem, mem, p.head, free);
    LoadFrame(p.mem, mem, ptr, p.bucketSize, p.first, HEADER_SIZE);
    SameGeometry(p, p', buffers);
    assert BuffersOk(p', buffers);
  }

  /** Taking the head off the list: the bucket becomes live. */
  lemma Pop(p: Pool, free: seq<nat>, live: multiset<nat>, buffers: seq<nat>)
    requires Rep(p, free, live, buffers) && p.head != 0
    ensures free != [] && free[0] == p.head && p.head !in live && p.head in AllBuckets(p, buffers)
    ensures Mapped(p.mem, p.head, LINK_SIZE)
    ensures Rep(p.(head := Load64(p.mem, p.head)), free[1..], live + multiset{p.head}, buffers)
  {
    hide BucketAt, BucketCount, Header, Load, AlignForward;
    FreeIsBucket(p, free, live, buffers, 0);
    var p' := p.(head := Load64(p.mem, p.head));
    assert free == [p.head] + free[1..];
    SameGeometry(p, p', buffers);
    assert BuffersOk(p', buffers);
  }

  /** Putting a live bucket whose first word already holds the head on the list. */
  lemma Push(p: Pool, free: seq<nat>, live: multiset<nat>, buffers: seq<nat>, ptr: nat)
    requires Rep(p, free, live, buffers) && ptr in live
    requires Mapped(p.mem, ptr, LINK_SIZE) && Load64(p.mem, ptr) == p.head
    ensures Rep(p.(head := ptr), [ptr] + free, live - multiset{ptr}, buffers)
  {
    hide BucketAt, BucketCount, Header, Load, AlignForward;
    LiveIsBucket(p, free, live, buffers, ptr);
    BucketMapped(p, buffers, ptr);
    var p' := p.(head := ptr);
    assert ([ptr] + free)[1..] == free;
    assert Chain(p'.mem, ptr, [ptr] + free);
    SameGeometry(p, p', buffers);
    assert BuffersOk(p', buffers);
  }

  lemma HeadFits(p: Pool, free: seq<nat>, live: multiset<nat>, buffers: seq<nat>)
    requires Rep(p, free, live, buffers)
    ensures p.head < TWO_TO_THE_64
    ensures p.head != 0 ==> Mapped(p.mem, p.head, LINK_SIZE)
    ensures p.head == 0 <==> free == []
  {
    if free != [] {
      FreeIsBucket(p, free, live, buffers, 0);
      BucketMapped(p, buffers, p.head);
    }
  }
}
