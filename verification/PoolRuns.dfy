/** Histories of a pool: any sequence of allocations, frees of live buckets, arbitrary client writes
  inside live buckets, and resets. */
module PoolRuns {
  import opened Machine
  import opened PoolSpec
  import opened PoolGrow
  import opened Align

  /** One call of a client. `region` is what the page allocator returns should it be asked. */
  datatype Op = AllocOp(region: nat) | FreeOp(ptr: nat) | WriteOp(at: nat, value: Byte) | FreeAllOp

  /** The pool and the buckets its clients own. */
  datatype World = World(p: Pool, live: multiset<nat>)

  /** What the pool demands of its clients, and mmap promises. */
  ghost predicate Allowed(w: World, op: Op) {
    match op
    case AllocOp(region) => w.p.head == 0 ==> FreshRegion(w.p, region)
    case FreeOp(ptr) => ptr in w.live
    case WriteOp(at, _) => exists ptr :: ptr in w.live && ptr <= at < ptr + w.p.bucketSize
    case FreeAllOp => true
  }

  /** The memory accesses of the call stay within mapped memory. */
  ghost predicate Defined(p: Pool, op: Op) {
    match op
    case AllocOp(region) => CanAlloc(p, region) && Mapped(Refill(p, region).mem, Refill(p, region).head, LINK_SIZE)
    case FreeOp(ptr) => Mapped(p.mem, ptr, LINK_SIZE) && p.head < TWO_TO_THE_64
    case WriteOp(at, _) => at in p.mem
    case FreeAllOp => Roomy(p) && p.first + p.bufferSize <= TWO_TO_THE_64 && Mapped(p.mem, p.first, p.bufferSize)
  }

  function Do(w: World, op: Op): World
    requires Defined(w.p, op)
  {
    match op
    case AllocOp(region) => var (p, addr) := Alloc(w.p, region); World(p, w.live + multiset{addr})
    case FreeOp(ptr) => World(Free(w.p, ptr), w.live - multiset{ptr})
    case WriteOp(at, value) => w.(p := w.p.(mem := w.p.mem[at := value]))
    case FreeAllOp => World(FreeAll(w.p), multiset{})
  }

  /** `ws` is the history of the calls `ops`, each of which its caller was allowed to make. */
  ghost predicate IsHistory(ws: seq<World>, ops: seq<Op>) {
    && |ws| == |ops| + 1
    && forall i :: 0 <= i < |ops| ==>
         Allowed(ws[i], ops[i]) && Defined(ws[i].p, ops[i]) && ws[i + 1] == Do(ws[i], ops[i])
  }

  ghost predicate StartsFresh(w: World) {
    exists mem: Memory, region: nat, bufferSize: U64, bucketSize: U64, alignment: U64 ::
      FreshPool(w, mem, region, bufferSize, bucketSize, alignment)
  }

  ghost predicate FreshPool(w: World, mem: Memory, region: nat, bufferSize: U64, bucketSize: U64, alignment: U64) {
    && alignment > 0
    && Roomy(Unlinked(mem, region, bufferSize, bucketSize, alignment))
    && FreshRegion(Unlinked(mem, region, bufferSize, bucketSize, alignment), region)
    && w == World(Create(mem, region, bufferSize, bucketSize, alignment), multiset{})
  }

  ghost predicate RepW(w: World, free: seq<nat>, buffers: seq<nat>) {
    Rep(w.p, free, w.live, buffers)
  }

  /** The free list after a call, given the one before. */
  function FreeAfter(p: Pool, free: seq<nat>, op: Op): seq<nat>
    requires Roomy(p)
  {
    match op
    case AllocOp(region) =>
      if free != [] then free[1..] else BucketsOf(p, region)[1..]
    case FreeOp(ptr) => [ptr] + free
    case WriteOp(_, _) => free
    case FreeAllOp => BucketsOf(p, p.first)
  }

  function BuffersAfter(free: seq<nat>, buffers: seq<nat>, op: Op, first: nat): seq<nat> {
    match op
    case AllocOp(region) => if free != [] then buffers else buffers + [region]
    case FreeAllOp => [first]
    case _ => buffers
  }

  /** The buffers of the pool: the first one, and every region that an allocation got from the page
    allocator since the last reset. */
  function BuffersAt(ws: seq<World>, ops: seq<Op>, i: nat): (buffers: seq<nat>)
    requires i < |ws| && i <= |ops|
    ensures |buffers| > 0 && buffers[0] == ws[0].p.first
  {
    if i == 0 then [ws[0].p.first]
    else
      var buffers := BuffersAt(ws, ops, i - 1);
      match ops[i - 1]
      case AllocOp(region) => if ws[i - 1].p.head == 0 then buffers + [region] else buffers
      case FreeAllOp => [ws[0].p.first]
      case _ => buffers
  }

  ghost predicate SameSizes(p: Pool, p': Pool) {
    && p'.bufferSize == p.bufferSize && p'.bucketSize == p.bucketSize && p'.alignment == p.alignment
    && p'.first == p.first
  }

  // ---------- one call ----------

  lemma RefillRep(w: World, free: seq<nat>, buffers: seq<nat>, region: nat)
    requires RepW(w, free, buffers) && Allowed(w, AllocOp(region))
    ensures Defined(w.p, AllocOp(region))
    ensures var r := Refill(w.p, region);
            && SameSizes(w.p, r) && r.head != 0
            && (if free != [] then Rep(r, free, w.live, buffers) && r == w.p
                else Rep(r, BucketsOf(w.p, region), w.live, buffers + [region]))
            && (forall x, a :: x in w.live && x <= a < x + w.p.bucketSize ==> a in w.p.mem && a in r.mem && r.mem[a] == w.p.mem[a])
  {
    hide BucketAt, BucketCount, Header, Load, Store, Chain, LinkChain;
    var p := w.p;
    HeadFits(p, free, w.live, buffers);
    forall x, a | x in w.live && x <= a < x + p.bucketSize ensures a in p.mem {
      LiveIsBucket(p, free, w.live, buffers, x);
      BucketMapped(p, buffers, x);
    }
    if free == [] {
      Grow(p, free, w.live, buffers, region);
      assert BucketsOf(p, region) + free == BucketsOf(p, region);
      var r := Refill(p, region);
      HeadFits(r, BucketsOf(p, region), w.live, buffers + [region]);
      forall x, a | x in w.live && x <= a < x + p.bucketSize ensures a in r.mem && r.mem[a] == p.mem[a] {
        FreshBucketsOutside(p, region, a);
      }
    }
  }

  /** An allocation never faults; it returns a bucket that is not live, does not overlap any live
    bucket, and leaves the contents of all live buckets alone. */
  lemma AllocStep(w: World, free: seq<nat>, buffers: seq<nat>, region: nat)
    requires RepW(w, free, buffers) && Allowed(w, AllocOp(region))
    ensures Defined(w.p, AllocOp(region))
    ensures var (p', addr) := Alloc(w.p, region);
            var buffers' := BuffersAfter(free, buffers, AllocOp(region), w.p.first);
            && SameSizes(w.p, p')
            && Rep(p', FreeAfter(w.p, free, AllocOp(region)), w.live + multiset{addr}, buffers')
            && addr == (if free != [] then free[0] else BucketsOf(w.p, region)[0])
            && addr !in w.live && addr in AllBuckets(w.p, buffers')
            && (forall x :: x in w.live ==> Apart(x, w.p.bucketSize, addr, w.p.bucketSize))
            && (forall x, a :: x in w.live && x <= a < x + w.p.bucketSize ==> a in w.p.mem && a in p'.mem && p'.mem[a] == w.p.mem[a])
  {
    hide BucketAt, BucketCount, Header, Load, Store, Chain, LinkChain;
    RefillRep(w, free, buffers, region);
    var r := Refill(w.p, region);
    var free' := if free != [] then free else BucketsOf(w.p, region);
    var buffers' := BuffersAfter(free, buffers, AllocOp(region), w.p.first);
    Pop(r, free', w.live, buffers');
    SameGeometry(w.p, r, buffers');
    forall x | x in w.live ensures Apart(x, r.bucketSize, r.head, r.bucketSize) {
      LiveIsBucket(r, free', w.live, buffers', x);
      DistinctBucketsApart(r, buffers', x, r.head);
    }
  }

  lemma FreeStep(w: World, free: seq<nat>, buffers: seq<nat>, ptr: nat)
    requires RepW(w, free, buffers) && ptr in w.live
    ensures Defined(w.p, FreeOp(ptr))
    ensures var p' := Free(w.p, ptr);
            && SameSizes(w.p, p')
            && Rep(p', [ptr] + free, w.live - multiset{ptr}, buffers)
            && (forall x, a :: x in w.live && x != ptr && x <= a < x + w.p.bucketSize ==>
                  a in w.p.mem && a in p'.mem && p'.mem[a] == w.p.mem[a])
  {
    hide BucketAt, BucketCount, Header, Load, Store, Chain;
    var p := w.p;
    HeadFits(p, free, w.live, buffers);
    LiveIsBucket(p, free, w.live, buffers, ptr);
    BucketMapped(p, buffers, ptr);
    var mem := Store64(p.mem, ptr, p.head);
    assert SameOutside(p.mem, mem, ptr, p.bucketSize);
    LiveWrite(p, free, w.live, buffers, ptr, mem);
    Push(p.(mem := mem), free, w.live, buffers, ptr);
    forall x, a | x in w.live && x != ptr && x <= a < x + p.bucketSize
      ensures a in p.mem && a in mem && mem[a] == p.mem[a]
    {
      LiveIsBucket(p, free, w.live, buffers, x);
      BucketMapped(p, buffers, x);
      DistinctBucketsApart(p, buffers, x, ptr);
    }
  }

  lemma WriteStep(w: World, free: seq<nat>, buffers: seq<nat>, at: nat, value: Byte)
    requires RepW(w, free, buffers) && Allowed(w, WriteOp(at, value))
    ensures at in w.p.mem && Rep(w.p.(mem := w.p.mem[at := value]), free, w.live, buffers)
  {
    hide BucketAt, BucketCount, Header, Load, Chain;
    var ptr :| ptr in w.live && ptr <= at < ptr + w.p.bucketSize;
    LiveIsBucket(w.p, free, w.live, buffers, ptr);
    BucketMapped(w.p, buffers, ptr);
    LiveWrite(w.p, free, w.live, buffers, ptr, w.p.mem[at := value]);
  }

  /** Every allowed call is free of faults and takes a represented pool to a represented pool. */
  lemma StepKeepsRep(w: World, free: seq<nat>, buffers: seq<nat>, op: Op)
    requires RepW(w, free, buffers) && Allowed(w, op)
    ensures Defined(w.p, op) && SameSizes(w.p, Do(w, op).p)
    ensures RepW(Do(w, op), FreeAfter(w.p, free, op), BuffersAfter(free, buffers, op, w.p.first))
  {
    hide Rep, Alloc, Free, Roomy, FreeAll;
    match op
    case AllocOp(region) => AllocStep(w, free, buffers, region);
    case FreeOp(ptr) => FreeStep(w, free, buffers, ptr);
    case WriteOp(at, value) => WriteStep(w, free, buffers, at, value);
    case FreeAllOp => FreeAllStep(w, free, buffers);
  }

  lemma FreeAllStep(w: World, free: seq<nat>, buffers: seq<nat>)
    requires RepW(w, free, buffers)
    ensures Defined(w.p, FreeAllOp) && SameSizes(w.p, FreeAll(w.p))
    ensures Rep(FreeAll(w.p), BucketsOf(w.p, w.p.first), multiset{}, [w.p.first])
  {
    hide BucketAt, BucketCount, Header, Load, Chain;
    FreeAllRep(w.p, free, w.live, buffers);
  }

  /** What a call does to memory: an allocation writes nothing, or maps a region if the list is empty;
    a free writes the link into the bucket it gets; a reset writes the links of the first buffer. All
    other bytes stay as they are, in the pool's buffers and outside. */
  ghost predicate CallFrame(p: Pool, p': Pool, op: Op)
    requires Roomy(p)
  {
    match op
    case AllocOp(region) => if p.head != 0 then p'.mem == p.mem else GrownBy(p.mem, p'.mem, region, p.bufferSize)
    case FreeOp(ptr) =>
      && SameOutside(p.mem, p'.mem, ptr, LINK_SIZE) && Mapped(p'.mem, ptr, LINK_SIZE)
      && Load64(p'.mem, ptr) == p.head && p'.head == ptr
    case WriteOp(at, value) => SameOutside(p.mem, p'.mem, at, 1) && at in p'.mem && p'.mem[at] == value
    case FreeAllOp =>
      && p'.mem.Keys == p.mem.Keys
      && forall a :: a in p.mem && Outside(a, BucketsOf(p, p.first), LINK_SIZE) ==> p'.mem[a] == p.mem[a]
  }

  lemma StepFrame(w: World, free: seq<nat>, buffers: seq<nat>, op: Op)
    requires RepW(w, free, buffers) && Allowed(w, op)
    ensures Defined(w.p, op) && Roomy(w.p) && CallFrame(w.p, Do(w, op).p, op)
  {
    hide Rep, CallFrame, Alloc, Free, FreeAll;
    StepKeepsRep(w, free, buffers, op);
    RepIsRoomy(w, free, buffers);
    match op
    case AllocOp(region) => AllocFrame(w.p, region);
    case FreeOp(ptr) => FreeFrame(w.p, ptr);
    case WriteOp(at, value) => WriteFrame(w.p, at, value);
    case FreeAllOp => FreeAllFrame(w, free, buffers);
  }

  lemma RepIsRoomy(w: World, free: seq<nat>, buffers: seq<nat>)
    requires RepW(w, free, buffers)
    ensures Roomy(w.p)
  {
  }

  lemma AllocFrame(p: Pool, region: nat)
    requires Roomy(p) && Defined(p, AllocOp(region)) && (p.head == 0 ==> FreshRegion(p, region))
    ensures CallFrame(p, Alloc(p, region).0, AllocOp(region))
  {
    hide BucketAt, BucketCount, Header, Load, Store, Chain, LinkChain, FreelistAdd, BucketsOf;
    if p.head == 0 {
      SameGeometry(p, WithRegion(p, region), []);
      RegionGrows(p, region);
    }
  }

  lemma WriteFrame(p: Pool, at: nat, value: Byte)
    requires Roomy(p) && at in p.mem
    ensures CallFrame(p, p.(mem := p.mem[at := value]), WriteOp(at, value))
  {
    hide BucketAt, BucketCount, Header, Load;
  }

  lemma FreeAllFrame(w: World, free: seq<nat>, buffers: seq<nat>)
    requires RepW(w, free, buffers) && Roomy(w.p) && Defined(w.p, FreeAllOp)
    ensures CallFrame(w.p, FreeAll(w.p), FreeAllOp)
  {
    hide BucketAt, BucketCount, Header, Load, Rep, FreeAll, BucketsOf;
    FreeAllRep(w.p, free, w.live, buffers);
  }

  lemma FreeFrame(p: Pool, ptr: nat)
    requires Roomy(p) && Mapped(p.mem, ptr, LINK_SIZE) && p.head < TWO_TO_THE_64
    ensures CallFrame(p, Free(p, ptr), FreeOp(ptr))
  {
    hide Load, Store, BucketsOf, Roomy;
  }

  // ---------- whole histories ----------

  lemma FreshRep(w: World) returns (free: seq<nat>)
    requires StartsFresh(w)
    ensures RepW(w, free, [w.p.first]) && free == BucketsOf(w.p, w.p.first)
  {
    var mem: Memory, region: nat, bufferSize: U64, bucketSize: U64, alignment: U64 :|
      FreshPool(w, mem, region, bufferSize, bucketSize, alignment);
    CreateRep(mem, region, bufferSize, bucketSize, alignment);
    free := BucketsOf(w.p, region);
  }

  /** In every world of a history the pool has exactly the buffers of that history. */
  lemma {:induction false} HistoryRep(ws: seq<World>, ops: seq<Op>, i: nat) returns (free: seq<nat>)
    requires IsHistory(ws, ops) && StartsFresh(ws[0]) && i < |ws|
    ensures RepW(ws[i], free, BuffersAt(ws, ops, i)) && SameSizes(ws[0].p, ws[i].p)
  {
    if i == 0 {
      free := FreshRep(ws[0]);
    } else {
      var f := HistoryRep(ws, ops, i - 1);
      var b := BuffersAt(ws, ops, i - 1);
      var w := ws[i - 1];
      assert Roomy(w.p);
      hide RepW, Do, Defined, Allowed, StartsFresh, Roomy, FreeAfter;
      StepKeepsRep(w, f, b, ops[i - 1]);
      free := FreeAfter(w.p, f, ops[i - 1]);
      BuffersNext(ws, ops, i, f);
      assert ws[i - 1 + 1] == Do(ws[i - 1], ops[i - 1]);
    }
  }

  lemma BuffersNext(ws: seq<World>, ops: seq<Op>, i: nat, free: seq<nat>)
    requires 0 < i < |ws| && i <= |ops| && RepW(ws[i - 1], free, BuffersAt(ws, ops, i - 1))
    requires ws[i - 1].p.first == ws[0].p.first
    ensures BuffersAfter(free, BuffersAt(ws, ops, i - 1), ops[i - 1], ws[i - 1].p.first) == BuffersAt(ws, ops, i)
  {
    hide Rep;
    HeadFits(ws[i - 1].p, free, ws[i - 1].live, BuffersAt(ws, ops, i - 1));
  }

  /** After any history the links from the head visit every bucket of the pool's buffers that is not
    live exactly once, visit no live bucket, and end; no bucket is live twice. The buffers are the
    first one and every region that was added, they do not overlap, and all of them are mapped. */
  lemma ChainIsComplement(ws: seq<World>, ops: seq<Op>, i: nat) returns (free: seq<nat>)
    requires IsHistory(ws, ops) && StartsFresh(ws[0]) && i < |ws|
    ensures Roomy(ws[i].p) && Chain(ws[i].p.mem, ws[i].p.head, free) && BuffersOk(ws[i].p, BuffersAt(ws, ops, i))
    ensures forall j, k :: 0 <= j < k < |free| ==> free[j] != free[k]
    ensures forall x :: x in free <==> x in AllBuckets(ws[i].p, BuffersAt(ws, ops, i)) && x !in ws[i].live
    ensures forall x :: x in ws[i].live ==> x in AllBuckets(ws[i].p, BuffersAt(ws, ops, i)) && ws[i].live[x] == 1
  {
    hide BucketAt, BucketCount, Header, Load;
    free := HistoryRep(ws, ops, i);
    var buffers := BuffersAt(ws, ops, i);
    var p, live := ws[i].p, ws[i].live;
    forall j, k | 0 <= j < k < |free| ensures free[j] != free[k] {
      FreeIsBucket(p, free, live, buffers, j);
    }
    forall x | x in free ensures x in AllBuckets(p, buffers) && x !in live {
      var j :| 0 <= j < |free| && free[j] == x;
      FreeIsBucket(p, free, live, buffers, j);
    }
    forall x | x in live ensures x in AllBuckets(p, buffers) && live[x] == 1 {
      LiveIsBucket(p, free, live, buffers, x);
    }
    forall x | x in AllBuckets(p, buffers) && x !in live ensures x in free {
      assert x in multiset(AllBuckets(p, buffers));
      assert x in multiset(free) + live;
    }
  }

  /** A new pool's header and buckets are multiples of a power-of-two alignment, even should the
    computation of their sizes wrap. */
  lemma FreshSizesAligned(w: World, e: nat)
    requires StartsFresh(w) && e < 64 && w.p.alignment == Pow2(e)
    ensures Header(w.p) % w.p.alignment == 0 && w.p.bucketSize % w.p.alignment == 0
  {
    var mem: Memory, region: nat, bufferSize: U64, bucketSize: U64, alignment: U64 :|
      FreshPool(w, mem, region, bufferSize, bucketSize, alignment);
    var u := Unlinked(mem, region, bufferSize, bucketSize, alignment);
    assert w.p.bucketSize == u.bucketSize && w.p.alignment == u.alignment == alignment;
    hide AlignForward, Pow2;
    ForwardIsMultiple(HEADER_SIZE, e);
    ForwardIsMultiple(if bucketSize < LINK_SIZE then LINK_SIZE else bucketSize, e);
  }

  lemma ForwardIsMultiple(size: U64, e: nat)
    requires e < 64 && 0 < Pow2(e) < TWO_TO_THE_64
    ensures AlignForward(size, Pow2(e)) % Pow2(e) == 0
  {
    hide Pow2;
    AlignForwardAsBackward(size, Pow2(e));
    AlignBackwardIsGreatest((size + Pow2(e) - 1) % 0x1_0000_0000_0000_0000, e);
  }

  /** After any history an allocation does not fault and returns a bucket that no client owns, that
    has no byte in common with a bucket a client owns, and that starts at a multiple of the
    alignment; and it changes no byte a client owns. */
  lemma AllocIsFresh(ws: seq<World>, ops: seq<Op>, i: nat, region: nat, e: nat)
    requires IsHistory(ws, ops) && StartsFresh(ws[0]) && i < |ws| && Allowed(ws[i], AllocOp(region))
    requires e <= 12 && ws[0].p.alignment == Pow2(e)
    ensures Defined(ws[i].p, AllocOp(region))
    ensures var (p', addr) := Alloc(ws[i].p, region);
            && addr !in ws[i].live
            && addr % p'.alignment == 0 && Mapped(p'.mem, addr, p'.bucketSize)
            && (forall x :: x in ws[i].live ==> Apart(x, p'.bucketSize, addr, p'.bucketSize))
            && (forall x, a :: x in ws[i].live && x <= a < x + p'.bucketSize ==>
                  a in ws[i].p.mem && a in p'.mem && p'.mem[a] == ws[i].p.mem[a])
  {
    hide BucketAt, BucketCount, Load, LinkChain, Chain, Refill, AlignForward;
    var free := HistoryRep(ws, ops, i);
    var buffers := BuffersAt(ws, ops, i);
    var w := ws[i];
    FreshSizesAligned(ws[0], e);
    AllocStep(w, free, buffers, region);
    var (p', addr) := Alloc(w.p, region);
    var buffers' := BuffersAfter(free, buffers, AllocOp(region), w.p.first);
    SameGeometry(ws[0].p, w.p, []);
    hide Header;
    SameGeometry(w.p, p', buffers');
    var j, k := BucketOfBuffer(p', buffers', addr);
    BucketMapped(p', buffers', addr);
    BucketAligned(p', buffers'[j], k, e);
  }

  /** The call neither gives the bucket `x` back nor writes inside it. */
  predicate LeavesAlone(op: Op, x: nat, size: nat) {
    match op
    case AllocOp(_) => true
    case FreeOp(ptr) => ptr != x
    case WriteOp(at, _) => !(x <= at < x + size)
    case FreeAllOp => false
  }

  lemma StepKeepsContents(w: World, free: seq<nat>, buffers: seq<nat>, op: Op, x: nat)
    requires RepW(w, free, buffers) && Allowed(w, op) && x in w.live && LeavesAlone(op, x, w.p.bucketSize)
    ensures Defined(w.p, op) && x in Do(w, op).live
    ensures forall a :: x <= a < x + w.p.bucketSize ==> a in w.p.mem && a in Do(w, op).p.mem && Do(w, op).p.mem[a] == w.p.mem[a]
  {
    hide BucketAt, BucketCount, Header, Load, LinkChain, Chain, Refill, Store, Alloc;
    LiveIsBucket(w.p, free, w.live, buffers, x);
    BucketMapped(w.p, buffers, x);
    match op
    case AllocOp(region) => AllocStep(w, free, buffers, region);
    case FreeOp(ptr) => FreeStep(w, free, buffers, ptr);
    case WriteOp(at, value) => WriteStep(w, free, buffers, at, value);
  }

  /** What a client stores in its bucket stays there, byte for byte, through any stretch of other
    clients' allocations, frees and writes. */
  lemma {:induction false} ContentsSurvive(ws: seq<World>, ops: seq<Op>, i: nat, j: nat, x: nat)
    requires IsHistory(ws, ops) && StartsFresh(ws[0]) && i <= j < |ws| && x in ws[i].live
    requires forall k :: i <= k < j ==> LeavesAlone(ops[k], x, ws[0].p.bucketSize)
    ensures x in ws[j].live
    ensures forall a :: x <= a < x + ws[0].p.bucketSize ==>
              a in ws[i].p.mem && a in ws[j].p.mem && ws[j].p.mem[a] == ws[i].p.mem[a]
    decreases j - i
  {
    hide Rep, Do, Defined, Allowed, StartsFresh, Load, Chain;
    if i == j {
      var free := HistoryRep(ws, ops, i);
      var buffers := BuffersAt(ws, ops, i);
      LiveMapped(ws[i], free, buffers, x);
    } else {
      ContentsSurvive(ws, ops, i, j - 1, x);
      var free := HistoryRep(ws, ops, j - 1);
      var buffers := BuffersAt(ws, ops, j - 1);
      assert LeavesAlone(ops[j - 1], x, ws[0].p.bucketSize);
      StepKeepsContents(ws[j - 1], free, buffers, ops[j - 1], x);
      assert ws[j - 1 + 1] == Do(ws[j - 1], ops[j - 1]);
    }
  }

  lemma LiveMapped(w: World, free: seq<nat>, buffers: seq<nat>, x: nat)
    requires RepW(w, free, buffers) && x in w.live
    ensures Mapped(w.p.mem, x, w.p.bucketSize)
  {
    LiveIsBucket(w.p, free, w.live, buffers, x);
    BucketMapped(w.p, buffers, x);
  }

  // ---------- resetting is like starting over ----------

  /** Two pools with the same sizes, the same first buffer and the same free list hand out the same
    addresses to the same calls, whatever else their memories hold, as long as neither grows. */
  lemma {:induction false} SameCallsSameAddresses(ws: seq<World>, vs: seq<World>, ops: seq<Op>, i: nat,
                                                  free: seq<nat>, buffers: seq<nat>, buffers': seq<nat>)
    returns (f: seq<nat>, b: seq<nat>, b': seq<nat>)
    requires IsHistory(ws, ops) && IsHistory(vs, ops) && i <= |ops|
    requires RepW(ws[0], free, buffers) && RepW(vs[0], free, buffers') && SameSizes(ws[0].p, vs[0].p)
    requires forall k :: 0 <= k < i && ops[k].AllocOp? ==> ws[k].p.head != 0
    ensures RepW(ws[i], f, b) && RepW(vs[i], f, b')
    ensures SameSizes(ws[0].p, ws[i].p) && SameSizes(ws[i].p, vs[i].p)
    ensures ws[i].p.head == vs[i].p.head
    ensures i > 0 && ops[i - 1].AllocOp? ==> Alloc(ws[i - 1].p, ops[i - 1].region).1 == Alloc(vs[i - 1].p, ops[i - 1].region).1
  {
    if i == 0 {
      f, b, b' := free, buffers, buffers';
    } else {
      var g, c, c' := SameCallsSameAddresses(ws, vs, ops, i - 1, free, buffers, buffers');
      var w, v, op := ws[i - 1], vs[i - 1], ops[i - 1];
      StepKeepsRep(w, g, c, op);
      StepKeepsRep(v, g, c', op);
      SameFreeAfter(w, v, g, op);
      f, b, b' := FreeAfter(w.p, g, op), BuffersAfter(g, c, op, w.p.first), BuffersAfter(g, c', op, v.p.first);
      assert ws[i - 1 + 1] == Do(w, op) && vs[i - 1 + 1] == Do(v, op);
    }
  }

  lemma SameFreeAfter(w: World, v: World, free: seq<nat>, op: Op)
    requires Roomy(w.p) && Roomy(v.p) && SameSizes(w.p, v.p)
    ensures FreeAfter(v.p, free, op) == FreeAfter(w.p, free, op)
  {
    match op
    case AllocOp(region) => SameBuckets(w.p, v.p, region);
    case FreeAllOp => SameBuckets(w.p, v.p, w.p.first);
    case _ =>
  }

  /** cia_pool_free_all after any history behaves like a new pool: until the first buffer is used
    up, every later sequence of calls gets the addresses that it would have got from the pool that
    cia_pool_create had just built. */
  lemma FreeAllStartsOver(ws: seq<World>, ops: seq<Op>, later: seq<World>, anew: seq<World>, calls: seq<Op>, i: nat)
    requires IsHistory(ws, ops) && StartsFresh(ws[0])
    requires IsHistory(later, calls) && IsHistory(anew, calls) && i < |calls| && calls[i].AllocOp?
    requires Defined(ws[|ops|].p, FreeAllOp) && later[0] == Do(ws[|ops|], FreeAllOp) && anew[0] == ws[0]
    requires forall k :: 0 <= k <= i && calls[k].AllocOp? ==> later[k].p.head != 0
    ensures Defined(later[i].p, calls[i]) && Defined(anew[i].p, calls[i])
    ensures Alloc(later[i].p, calls[i].region).1 == Alloc(anew[i].p, calls[i].region).1
  {
    var free := HistoryRep(ws, ops, |ops|);
    var buffers := BuffersAt(ws, ops, |ops|);
    FreeAllStep(ws[|ops|], free, buffers);
    var f0 := FreshRep(ws[0]);
    SameBuckets(ws[0].p, ws[|ops|].p, ws[0].p.first);
    var f, b, b' := SameCallsSameAddresses(later, anew, calls, i + 1, f0, [ws[0].p.first], [ws[0].p.first]);
  }
}
