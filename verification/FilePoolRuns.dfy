/** Whole runs of programs that open, use and close FILEs on any number of threads, from the state
  that _fileapi_init leaves. */
module FilePoolRuns {
  import opened Machine
  import opened PoolSpec
  import opened PoolGrow
  import opened FilePool
  import opened FilePoolSteps
  import PoolRuns
  import Align
  import Mutex

  // ---------- _fileapi_init ----------

  function FilePoolBeforeLinks(mem: Memory, region: nat): Pool {
    Unlinked(mem, region, FILE_POOL_BUFFER, SIZEOF_FILE, FILE_ALIGNMENT)
  }

  /** A page of the FILE pool holds a 16-byte header and 127 buckets of 32 bytes. */
  lemma FileSizes(mem: Memory, region: nat)
    ensures var p := FilePoolBeforeLinks(mem, region);
            Roomy(p) && Header(p) == 16 && p.bucketSize == FILE_BUCKET && BucketCount(p) == 127
  {
    var p := FilePoolBeforeLinks(mem, region);
    assert Pow2(4) == FILE_ALIGNMENT;
    hide Align.LeastMultiple, Header, Unlinked, Pow2;
    CreateSizes(FILE_POOL_BUFFER, SIZEOF_FILE, 4, mem, region);
    LeastIs(Header(p), HEADER_SIZE, 16, 16);
    LeastIs(p.bucketSize, SIZEOF_FILE, 16, 32);
    BufferIs(mem, region);
    assert (FILE_POOL_BUFFER - 16) / 32 == 127;
  }

  lemma BufferIs(mem: Memory, region: nat)
    ensures FilePoolBeforeLinks(mem, region).bufferSize == FILE_POOL_BUFFER
  {
    hide Align.AlignForward;
  }

  lemma LeastIs(r: nat, x: nat, a: nat, m: nat)
    requires a > 0 && Align.LeastMultiple(r, x, a) && m % a == 0 && m < x + a && x <= m
    ensures r == m
  {
    if r < m {
      MultiplesApart(r, m, a);
    }
  }

  // _RT_FILE_READ and _RT_FILE_WRITE
  const RT_FILE_READ: nat := 1
  const RT_FILE_WRITE: nat := 2

  /** What _rt_file_std_handles_init puts into the handles of stdin, stdout and stderr. Its last
    assignment goes to stdout's flags again, so those of stderr stay 0. */
  function StdHandles(): (files: seq<RtFile>)
    ensures |files| == 3
  {
    [RtFile(0, RT_FILE_READ), RtFile(1, RT_FILE_WRITE), RtFile(2, 0)]
  }

  /** The three standard streams get their file handles ... */
  function WriteHandles(m: Memory, f: seq<nat>, files: seq<RtFile>): (m': Memory)
    requires |f| == |files| == 3 && forall i :: 0 <= i < 3 ==> Mapped(m, f[i], SIZEOF_FILE)
    ensures m'.Keys == m.Keys
  {
    assert Mapped(m, f[0], SIZEOF_FILE) && Mapped(m, f[1], SIZEOF_FILE) && Mapped(m, f[2], SIZEOF_FILE);
    WriteFile(WriteFile(WriteFile(m, f[0], files[0]), f[1], files[1]), f[2], files[2])
  }

  /** ... and then their mutexes are initialised. */
  function InitMutexes(m: Memory, f: seq<nat>): (m': Memory)
    requires |f| == 3 && forall i :: 0 <= i < 3 ==> Mapped(m, f[i], SIZEOF_FILE)
    ensures m'.Keys == m.Keys
  {
    assert Mapped(m, f[0], SIZEOF_FILE) && Mapped(m, f[1], SIZEOF_FILE) && Mapped(m, f[2], SIZEOF_FILE);
    var m1 := Store32(m, f[0] + MUTEX_OFFSET, Mutex.FREE);
    var m2 := Store32(m1, f[1] + MUTEX_OFFSET, Mutex.FREE);
    Store32(m2, f[2] + MUTEX_OFFSET, Mutex.FREE)
  }

  function SetUpStreams(m: Memory, f: seq<nat>, files: seq<RtFile>): (m': Memory)
    requires |f| == |files| == 3 && forall i :: 0 <= i < 3 ==> Mapped(m, f[i], SIZEOF_FILE)
    ensures m'.Keys == m.Keys
  {
    InitMutexes(WriteHandles(m, f, files), f)
  }

  /** A world of the pool after the three allocations of _fileapi_init, and their results. */
  ghost predicate Allocated(mem: Memory, region: nat, w: PoolRuns.World, f: seq<nat>) {
    && FreshRegion(FilePoolBeforeLinks(mem, region), region) && Roomy(FilePoolBeforeLinks(mem, region)) && |f| == 3
    && var w0 := NewFilePool(mem, region);
    && PoolRuns.Defined(w0.p, PoolRuns.AllocOp(0)) && f[0] == Alloc(w0.p, 0).1
    && var w1 := PoolRuns.Do(w0, PoolRuns.AllocOp(0));
    && PoolRuns.Defined(w1.p, PoolRuns.AllocOp(0)) && f[1] == Alloc(w1.p, 0).1
    && var w2 := PoolRuns.Do(w1, PoolRuns.AllocOp(0));
    && PoolRuns.Defined(w2.p, PoolRuns.AllocOp(0)) && f[2] == Alloc(w2.p, 0).1
    && w == PoolRuns.Do(w2, PoolRuns.AllocOp(0))
  }

  ghost predicate Start(s: State) {
    && Mutex.Init(s.m) && |s.jobs| == |s.m.phases|
    && (forall i :: 0 <= i < |s.jobs| ==> s.jobs[i] == NoJob)
    && exists mem: Memory, region: nat, w: PoolRuns.World, f: seq<nat> :: StartsAs(s, mem, region, w, f)
  }

  ghost predicate StartsAs(s: State, mem: Memory, region: nat, w: PoolRuns.World, f: seq<nat>) {
    && Allocated(mem, region, w, f)
    && (forall i :: 0 <= i < 3 ==> Mapped(w.p.mem, f[i], SIZEOF_FILE))
    && s.open == w.live && s.pool == StartingPool(w, f, StdHandles()) && s.mapped == [region]
  }

  ghost predicate Step(s: State, s': State) {
    exists i, e :: Enabled(s, i, e) && Safe(s, i, e) && s' == Next(s, i, e)
  }

  ghost predicate IsRun(run: seq<State>) {
    && |run| > 0 && Start(run[0])
    && forall k :: 0 <= k < |run| - 1 ==> Step(run[k], run[k + 1])
  }

  // ---------- the invariant holds at the start ----------

  /** One allocation that finds the list non-empty takes its first element and writes no memory. */
  lemma TakeFirst(w: PoolRuns.World, free: seq<nat>, buffers: seq<nat>)
    requires PoolRuns.RepW(w, free, buffers) && free != []
    ensures PoolRuns.Defined(w.p, PoolRuns.AllocOp(0))
    ensures var w' := PoolRuns.Do(w, PoolRuns.AllocOp(0));
            && PoolRuns.RepW(w', free[1..], buffers) && PoolRuns.SameSizes(w.p, w'.p) && w'.p.mem == w.p.mem
            && w'.live == w.live + multiset{Alloc(w.p, 0).1}
  {
    hide BucketAt, BucketCount, Header, Load, Chain;
    HeadFits(w.p, free, w.live, buffers);
    PoolRuns.AllocStep(w, free, buffers, 0);
  }

  function NewFilePool(mem: Memory, region: nat): PoolRuns.World
    requires Roomy(FilePoolBeforeLinks(mem, region)) && FreshRegion(FilePoolBeforeLinks(mem, region), region)
  {
    PoolRuns.World(Create(mem, region, FILE_POOL_BUFFER, SIZEOF_FILE, FILE_ALIGNMENT), multiset{})
  }

  lemma NewFilePoolRep(mem: Memory, region: nat) returns (free: seq<nat>)
    requires FreshRegion(FilePoolBeforeLinks(mem, region), region)
    ensures Roomy(FilePoolBeforeLinks(mem, region))
    ensures var w := NewFilePool(mem, region);
            && PoolRuns.RepW(w, free, [region]) && |free| == 127 && w.p.bucketSize == FILE_BUCKET
            && Roomy(w.p) && WordsCount(w.p, [], [region])
  {
    FileSizes(mem, region);
    hide BucketAt, BucketCount, Header, Load, Rep, WordsCount;
    var w := NewFilePool(mem, region);
    CreateRep(mem, region, FILE_POOL_BUFFER, SIZEOF_FILE, FILE_ALIGNMENT);
    SameGeometry(FilePoolBeforeLinks(mem, region), w.p, []);
    free := BucketsOf(w.p, region);
    ZeroWords(mem, region, w.p);
  }

  /** _fileapi_init works on any fresh page: its three allocations are defined and give three
    different FILEs. */
  lemma InitAllocates(mem: Memory, region: nat)
      returns (w: PoolRuns.World, f: seq<nat>, free: seq<nat>)
    requires FreshRegion(FilePoolBeforeLinks(mem, region), region)
    ensures Allocated(mem, region, w, f) && f[0] != f[1] && f[0] != f[2] && f[1] != f[2]
    ensures forall i :: 0 <= i < 3 ==> Mapped(w.p.mem, f[i], SIZEOF_FILE)
    ensures PoolRuns.RepW(w, free, [region]) && w.live == multiset(f) && w.p.bucketSize == FILE_BUCKET
    ensures WordsCount(w.p, [], [region])
  {
    hide BucketAt, BucketCount, Header, Load, Rep, Alloc, PoolRuns.RepW, PoolRuns.Do, WordsCount, FreshRegion, Create, Roomy;
    var bs := NewFilePoolRep(mem, region);
    var w0 := NewFilePool(mem, region);
    TakeFirst(w0, bs, [region]);
    var w1 := PoolRuns.Do(w0, PoolRuns.AllocOp(0));
    TakeFirst(w1, bs[1..], [region]);
    var w2 := PoolRuns.Do(w1, PoolRuns.AllocOp(0));
    TakeFirst(w2, bs[1..][1..], [region]);
    w := PoolRuns.Do(w2, PoolRuns.AllocOp(0));
    f := [Alloc(w0.p, 0).1, Alloc(w1.p, 0).1, Alloc(w2.p, 0).1];
    free := bs[1..][1..][1..];
    assert w.live == multiset(f);
    SameWordsElsewhere(w0.p, w.p, [region]);
    LiveFiles(w, free, [region], f);
  }

  lemma SameWordsElsewhere(p: Pool, p': Pool, buffers: seq<nat>)
    requires Roomy(p) && WordsCount(p, [], buffers) && PoolRuns.SameSizes(p, p') && p'.mem == p.mem
    ensures WordsCount(p', [], buffers)
  {
    SameGeometry(p, p', buffers);
  }

  lemma AllocatedRep(mem: Memory, region: nat, w: PoolRuns.World, f: seq<nat>) returns (free: seq<nat>)
    requires Allocated(mem, region, w, f)
    ensures PoolRuns.RepW(w, free, [region]) && w.live == multiset(f) && w.p.bucketSize == FILE_BUCKET
    ensures WordsCount(w.p, [], [region]) && |f| == 3 && f[0] != f[1] && f[0] != f[2] && f[1] != f[2]
  {
    hide Alloc, FreshRegion, Roomy, Create, Rep, WordsCount;
    var w', f';
    w', f', free := InitAllocates(mem, region);
    assert f == [f[0], f[1], f[2]] && f' == [f'[0], f'[1], f'[2]];
  }

  lemma LiveFiles(w: PoolRuns.World, free: seq<nat>, buffers: seq<nat>, f: seq<nat>)
    requires PoolRuns.RepW(w, free, buffers) && |f| == 3 && w.live == multiset(f)
    requires w.p.bucketSize == FILE_BUCKET
    ensures f[0] != f[1] && f[0] != f[2] && f[1] != f[2]
    ensures forall i :: 0 <= i < 3 ==> Mapped(w.p.mem, f[i], SIZEOF_FILE)
  {
    hide Rep;
    assert f == [f[0], f[1], f[2]];
    forall i | 0 <= i < 3 ensures w.live[f[i]] == 1 && Mapped(w.p.mem, f[i], SIZEOF_FILE) {
      assert f[i] in w.live;
      LiveIsBucket(w.p, free, w.live, buffers, f[i]);
      PoolRuns.LiveMapped(w, free, buffers, f[i]);
    }
  }

  /** So a program of any number of threads has a state to start from. */
  lemma StartExists(mem: Memory, region: nat, n: nat) returns (s: State)
    requires FreshRegion(FilePoolBeforeLinks(mem, region), region)
    ensures Start(s) && |s.jobs| == n && IsRun([s])
  {
    hide FreshRegion, Roomy, Create, Alloc, PoolRuns.RepW, WordsCount, SetUpStreams;
    var w, f, _ := InitAllocates(mem, region);
    hide Allocated;
    var jobs := seq(n, _ => NoJob);
    s := State(Mutex.State(Mutex.FREE, seq(n, _ => Mutex.Idle)), StartingPool(w, f, StdHandles()), jobs, w.live, [region]);
    assert StartsAs(s, mem, region, w, f);
  }

  function StartingPool(w: PoolRuns.World, f: seq<nat>, files: seq<RtFile>): Pool
    requires |f| == |files| == 3 && forall i :: 0 <= i < 3 ==> Mapped(w.p.mem, f[i], SIZEOF_FILE)
  {
    w.p.(mem := SetUpStreams(w.p.mem, f, files))
  }

  /** Pages start zeroed and the links cover only the first word of a bucket. */
  lemma ZeroWords(mem: Memory, region: nat, p: Pool)
    requires Roomy(FilePoolBeforeLinks(mem, region)) && FreshRegion(FilePoolBeforeLinks(mem, region), region)
    requires p == Create(mem, region, FILE_POOL_BUFFER, SIZEOF_FILE, FILE_ALIGNMENT)
    requires Rep(p, BucketsOf(p, region), multiset{}, [region]) && p.bucketSize == FILE_BUCKET
    ensures WordsCount(p, [], [region])
  {
    assert Roomy(p);
    hide Align.AlignForward, BitAnd, BucketAt, BucketCount, Header, Load, Store, Chain, LinkChain, Rep, FreelistAdd;
    RepParts(p, BucketsOf(p, region), multiset{}, [region]);
    var u := FilePoolBeforeLinks(mem, region);
    SameGeometry(u, WithRegion(u, region), []);
    FirstBufferZero(u, region);
    SameGeometry(u, p, []);
    SameBuckets(u, p, region);
    ZeroBehindLinks(p, region);
  }

  lemma FirstBufferZero(u: Pool, region: nat)
    requires Roomy(u) && Roomy(WithRegion(u, region)) && FreshRegion(u, region) && u.head == 0
    ensures var p := FreelistAdd(WithRegion(u, region), region);
            && PoolRuns.SameSizes(u, p)
            && forall a :: region <= a < region + u.bufferSize && Outside(a, BucketsOf(u, region), LINK_SIZE) ==> a in p.mem && p.mem[a] == 0
  {
    var q := WithRegion(u, region);
    assert Chain(q.mem, q.head, []);
    hide BucketAt, BucketCount, Header, Load, Store, Chain, LinkChain;
    SameBuckets(u, q, region);
    FreelistAddEffect(q, region, []);
  }

  lemma ZeroBehindLinks(p: Pool, region: nat)
    requires Roomy(p) && BuffersOk(p, [region]) && p.bucketSize == FILE_BUCKET
    requires forall a :: region <= a < region + p.bufferSize && Outside(a, BucketsOf(p, region), LINK_SIZE) ==> a in p.mem && p.mem[a] == 0
    ensures WordsCount(p, [], [region])
  {
    hide BucketAt, BucketCount, Header, Load;
    forall b | b in AllBuckets(p, [region])
      ensures Mapped(p.mem, b, SIZEOF_FILE) && MutexWord(p.mem, b) == 0
    {
      BucketMapped(p, [region], b);
      var i, k := BucketOfBuffer(p, [region], b);
      forall a | b + MUTEX_OFFSET <= a < b + MUTEX_OFFSET + 4 ensures p.mem[a] == 0 {
        BehindTheLink(p, region, k, a);
      }
      LoadZero(p.mem, b + MUTEX_OFFSET, 4);
    }
  }

  /** One write while the streams are set up. */
  lemma SetUpWrite(p: Pool, mem: Memory, free: seq<nat>, live: multiset<nat>, buffers: seq<nat>, y: nat)
    requires Rep(p, free, live, buffers) && y in live && p.bucketSize == FILE_BUCKET && WordsCount(p, [], buffers)
    requires SameOutside(p.mem, mem, y, FILE_BUCKET)
    requires Mapped(mem, y, SIZEOF_FILE) && MutexWord(mem, y) == 0
    ensures Rep(p.(mem := mem), free, live, buffers) && WordsCount(p.(mem := mem), [], buffers)
  {
    hide BucketAt, BucketCount, Header, Load, Chain, MutexWord;
    RepParts(p, free, live, buffers);
    LiveIsBucket(p, free, live, buffers, y);
    hide Rep;
    LiveWrite(p, free, live, buffers, y, mem);
    WriteKeepsWords(p, p.(mem := mem), [], [], buffers, y);
  }

  lemma WriteFileKeepsWord(p: Pool, free: seq<nat>, live: multiset<nat>, buffers: seq<nat>, y: nat, file: RtFile)
    requires Rep(p, free, live, buffers) && y in live && p.bucketSize == FILE_BUCKET && WordsCount(p, [], buffers)
    requires Mapped(p.mem, y, SIZEOF_FILE)
    ensures var p' := p.(mem := WriteFile(p.mem, y, file)); Rep(p', free, live, buffers) && WordsCount(p', [], buffers)
  {
    hide BucketAt, BucketCount, Header, Load, Chain, Store;
    var mem := WriteFile(p.mem, y, file);
    LiveIsBucket(p, free, live, buffers, y);
    LoadFrame(p.mem, mem, y, MUTEX_OFFSET, y + MUTEX_OFFSET, 4);
    SetUpWrite(p, mem, free, live, buffers, y);
  }

  lemma InitMutexKeepsRep(p: Pool, free: seq<nat>, live: multiset<nat>, buffers: seq<nat>, y: nat)
    requires Rep(p, free, live, buffers) && y in live && p.bucketSize == FILE_BUCKET && WordsCount(p, [], buffers)
    requires Mapped(p.mem, y, SIZEOF_FILE)
    ensures var p' := p.(mem := Store32(p.mem, y + MUTEX_OFFSET, Mutex.FREE));
            Rep(p', free, live, buffers) && WordsCount(p', [], buffers)
  {
    hide BucketAt, BucketCount, Header, Load, Chain, Store;
    var mem := Store32(p.mem, y + MUTEX_OFFSET, Mutex.FREE);
    SetUpWrite(p, mem, free, live, buffers, y);
  }

  lemma WriteHandlesKeepsRep(p: Pool, free: seq<nat>, live: multiset<nat>, buffers: seq<nat>, f: seq<nat>, files: seq<RtFile>)
    requires Rep(p, free, live, buffers) && p.bucketSize == FILE_BUCKET && WordsCount(p, [], buffers)
    requires |f| == |files| == 3 && live == multiset(f) && forall i :: 0 <= i < 3 ==> Mapped(p.mem, f[i], SIZEOF_FILE)
    ensures var p' := p.(mem := WriteHandles(p.mem, f, files)); Rep(p', free, live, buffers) && WordsCount(p', [], buffers)
  {
    hide Rep, WordsCount, WriteFile, BucketAt, BucketCount, Header, Load64, Load32, Load;
    assert f[0] in live && f[1] in live && f[2] in live;
    assert Mapped(p.mem, f[0], SIZEOF_FILE) && Mapped(p.mem, f[1], SIZEOF_FILE) && Mapped(p.mem, f[2], SIZEOF_FILE);
    WriteFileKeepsWord(p, free, live, buffers, f[0], files[0]);
    var p1 := p.(mem := WriteFile(p.mem, f[0], files[0]));
    WriteFileKeepsWord(p1, free, live, buffers, f[1], files[1]);
    var p2 := p1.(mem := WriteFile(p1.mem, f[1], files[1]));
    WriteFileKeepsWord(p2, free, live, buffers, f[2], files[2]);
  }

  lemma InitMutexesKeepsRep(p: Pool, free: seq<nat>, live: multiset<nat>, buffers: seq<nat>, f: seq<nat>)
    requires Rep(p, free, live, buffers) && p.bucketSize == FILE_BUCKET && WordsCount(p, [], buffers)
    requires |f| == 3 && live == multiset(f) && forall i :: 0 <= i < 3 ==> Mapped(p.mem, f[i], SIZEOF_FILE)
    ensures var p' := p.(mem := InitMutexes(p.mem, f)); Rep(p', free, live, buffers) && WordsCount(p', [], buffers)
  {
    hide Rep, WordsCount, Store32, BucketAt, BucketCount, Header, Load64, Load32, Load;
    assert f[0] in live && f[1] in live && f[2] in live;
    assert Mapped(p.mem, f[0], SIZEOF_FILE) && Mapped(p.mem, f[1], SIZEOF_FILE) && Mapped(p.mem, f[2], SIZEOF_FILE);
    InitMutexKeepsRep(p, free, live, buffers, f[0]);
    var p1 := p.(mem := Store32(p.mem, f[0] + MUTEX_OFFSET, Mutex.FREE));
    InitMutexKeepsRep(p1, free, live, buffers, f[1]);
    var p2 := p1.(mem := Store32(p1.mem, f[1] + MUTEX_OFFSET, Mutex.FREE));
    InitMutexKeepsRep(p2, free, live, buffers, f[2]);
  }

  lemma SetUpKeepsRep(p: Pool, free: seq<nat>, live: multiset<nat>, buffers: seq<nat>, f: seq<nat>, files: seq<RtFile>)
    requires Rep(p, free, live, buffers) && p.bucketSize == FILE_BUCKET && WordsCount(p, [], buffers)
    requires |f| == |files| == 3 && live == multiset(f) && forall i :: 0 <= i < 3 ==> Mapped(p.mem, f[i], SIZEOF_FILE)
    ensures var p' := p.(mem := SetUpStreams(p.mem, f, files)); Rep(p', free, live, buffers) && WordsCount(p', [], buffers)
  {
    hide Rep, WordsCount, WriteHandles, InitMutexes, BucketAt, BucketCount, Header;
    WriteHandlesKeepsRep(p, free, live, buffers, f, files);
    InitMutexesKeepsRep(p.(mem := WriteHandles(p.mem, f, files)), free, live, buffers, f);
  }

  lemma {:induction false} NothingInFlight(jobs: seq<Job>)
    requires forall i :: 0 <= i < |jobs| ==> jobs[i] == NoJob
    ensures Flight(jobs) == multiset{}
    ensures forall b :: multiset(jobs)[Use(b, true)] == 0
  {
    if jobs != [] {
      NothingInFlight(jobs[1..]);
    }
    forall b ensures multiset(jobs)[Use(b, true)] == 0 {
      assert Use(b, true) !in jobs;
    }
  }

  /** The FILE at x has the given descriptor and flags and an unlocked mutex: a word at 0, and half
    words at 8 and 16. */
  ghost predicate Stream(m: Memory, x: nat, fd: nat, flags: nat) {
    Mapped(m, x, 24) && Load64(m, x) == fd && Load32(m, x + 8) == flags && Load32(m, x + 16) == 0
  }

  lemma FilesApart(w: PoolRuns.World, free: seq<nat>, buffers: seq<nat>, f: seq<nat>)
    requires PoolRuns.RepW(w, free, buffers) && |f| == 3 && w.live == multiset(f) && w.p.bucketSize == FILE_BUCKET
    requires f[0] != f[1] && f[0] != f[2] && f[1] != f[2]
    ensures Apart(f[0], 24, f[1], 24) && Apart(f[0], 24, f[2], 24) && Apart(f[1], 24, f[2], 24)
    ensures Mapped(w.p.mem, f[0], 24) && Mapped(w.p.mem, f[1], 24) && Mapped(w.p.mem, f[2], 24)
  {
    hide Rep, BucketAt, BucketCount, Header;
    assert f[0] in w.live && f[1] in w.live && f[2] in w.live;
    LiveInPool(w, free, buffers, f[0]);
    LiveInPool(w, free, buffers, f[1]);
    LiveInPool(w, free, buffers, f[2]);
    DistinctBucketsApart(w.p, buffers, f[0], f[1]);
    DistinctBucketsApart(w.p, buffers, f[0], f[2]);
    DistinctBucketsApart(w.p, buffers, f[1], f[2]);
  }

  lemma LiveInPool(w: PoolRuns.World, free: seq<nat>, buffers: seq<nat>, x: nat)
    requires PoolRuns.RepW(w, free, buffers) && x in w.live && w.p.bucketSize == FILE_BUCKET
    ensures Roomy(w.p) && BuffersOk(w.p, buffers) && x in AllBuckets(w.p, buffers) && Mapped(w.p.mem, x, 24)
  {
    RepParts(w.p, free, w.live, buffers);
    hide Rep;
    LiveIsBucket(w.p, free, w.live, buffers, x);
    PoolRuns.LiveMapped(w, free, buffers, x);
  }

  /** The descriptor and the flags, which lie in the first sixteen bytes. */
  ghost predicate Handle(m: Memory, x: nat, fd: nat, flags: nat) {
    Mapped(m, x, 24) && Load64(m, x) == fd && Load32(m, x + 8) == flags
  }

  lemma HandleFrame(m: Memory, m': Memory, x: nat, fd: nat, flags: nat, y: nat, n: nat)
    requires Handle(m, x, fd, flags) && SameOutside(m, m', y, n) && Apart(y, n, x, 16)
    ensures Handle(m', x, fd, flags)
  {
    hide Load;
    LoadFrame(m, m', y, n, x, 8);
    LoadFrame(m, m', y, n, x + 8, 4);
    forall i | x <= i < x + 24 ensures i in m' { assert i in m; }
  }

  lemma WrittenHandle(m: Memory, x: nat, file: RtFile)
    requires Mapped(m, x, 24)
    ensures Handle(WriteFile(m, x, file), x, file.fd, file.flags)
  {
    hide Load, Store;
    var m' := WriteFile(m, x, file);
    forall i | x <= i < x + 24 ensures i in m' { assert i in m; }
  }

  /** _fileapi_init, word for word: every stream has its own handle and a FREE mutex. */
  lemma StreamsSetUp(m: Memory, f: seq<nat>)
    requires |f| == 3 && Mapped(m, f[0], 24) && Mapped(m, f[1], 24) && Mapped(m, f[2], 24)
    requires Apart(f[0], 24, f[1], 24) && Apart(f[0], 24, f[2], 24) && Apart(f[1], 24, f[2], 24)
    ensures forall i :: 0 <= i < 3 ==> Mapped(m, f[i], SIZEOF_FILE)
    ensures var m' := SetUpStreams(m, f, StdHandles());
            Stream(m', f[0], 0, 1) && Stream(m', f[1], 1, 2) && Stream(m', f[2], 2, 0)
  {
    var files := StdHandles();
    var m3 := HandlesWritten(m, f);
    hide Load, Store, WriteFile, WriteHandles, Handle;
    MutexesSetUp(m3, f);
  }

  lemma HandlesWritten(m: Memory, f: seq<nat>) returns (m3: Memory)
    requires |f| == 3 && Mapped(m, f[0], 24) && Mapped(m, f[1], 24) && Mapped(m, f[2], 24)
    requires Apart(f[0], 24, f[1], 24) && Apart(f[0], 24, f[2], 24) && Apart(f[1], 24, f[2], 24)
    ensures forall i :: 0 <= i < 3 ==> Mapped(m, f[i], SIZEOF_FILE)
    ensures m3 == WriteHandles(m, f, StdHandles())
    ensures Handle(m3, f[0], 0, 1) && Handle(m3, f[1], 1, 2) && Handle(m3, f[2], 2, 0)
  {
    var files := StdHandles();
    hide Load, Store, Handle, Load64, Load32;
    WrittenHandle(m, f[0], files[0]);
    var m1 := WriteFile(m, f[0], files[0]);
    StillMappedFile(m, m1, f[1], f[0], 16);
    StillMappedFile(m, m1, f[2], f[0], 16);
    WrittenHandle(m1, f[1], files[1]);
    var m2 := WriteFile(m1, f[1], files[1]);
    HandleFrame(m1, m2, f[0], 0, 1, f[1], 16);
    StillMappedFile(m1, m2, f[2], f[1], 16);
    WrittenHandle(m2, f[2], files[2]);
    m3 := WriteFile(m2, f[2], files[2]);
    HandleFrame(m2, m3, f[0], 0, 1, f[2], 16);
    HandleFrame(m2, m3, f[1], 1, 2, f[2], 16);
  }

  lemma StillMappedFile(m: Memory, m': Memory, x: nat, y: nat, n: nat)
    requires Mapped(m, x, 24) && SameOutside(m, m', y, n)
    ensures Mapped(m', x, 24)
  {
    forall i | x <= i < x + 24 ensures i in m' { assert i in m; }
  }

  lemma MutexesSetUp(m: Memory, f: seq<nat>)
    requires |f| == 3 && Handle(m, f[0], 0, 1) && Handle(m, f[1], 1, 2) && Handle(m, f[2], 2, 0)
    requires Apart(f[0], 24, f[1], 24) && Apart(f[0], 24, f[2], 24) && Apart(f[1], 24, f[2], 24)
    ensures forall i :: 0 <= i < 3 ==> Mapped(m, f[i], SIZEOF_FILE)
    ensures var m' := InitMutexes(m, f);
            Stream(m', f[0], 0, 1) && Stream(m', f[1], 1, 2) && Stream(m', f[2], 2, 0)
  {
    hide Load, Store;
    assert Mapped(m, f[0], 24) && Mapped(m, f[1], 24) && Mapped(m, f[2], 24);
    var m1 := Store32(m, f[0] + MUTEX_OFFSET, Mutex.FREE);
    HandleFrame(m, m1, f[0], 0, 1, f[0] + 16, 4);
    HandleFrame(m, m1, f[1], 1, 2, f[0] + 16, 4);
    HandleFrame(m, m1, f[2], 2, 0, f[0] + 16, 4);
    var m2 := Store32(m1, f[1] + MUTEX_OFFSET, Mutex.FREE);
    HandleFrame(m1, m2, f[0], 0, 1, f[1] + 16, 4);
    HandleFrame(m1, m2, f[1], 1, 2, f[1] + 16, 4);
    HandleFrame(m1, m2, f[2], 2, 0, f[1] + 16, 4);
    LoadFrame(m1, m2, f[1] + 16, 4, f[0] + 16, 4);
    var m3 := Store32(m2, f[2] + MUTEX_OFFSET, Mutex.FREE);
    HandleFrame(m2, m3, f[0], 0, 1, f[2] + 16, 4);
    HandleFrame(m2, m3, f[1], 1, 2, f[2] + 16, 4);
    HandleFrame(m2, m3, f[2], 2, 0, f[2] + 16, 4);
    LoadFrame(m2, m3, f[2] + 16, 4, f[0] + 16, 4);
    LoadFrame(m2, m3, f[2] + 16, 4, f[1] + 16, 4);
    hide Handle;
  }

  /** In a start state nothing but the three standard streams is open, the pool has one buffer, and
    the invariant holds. */
  lemma StartInv(s: State) returns (free: seq<nat>, f: seq<nat>)
    requires Start(s)
    ensures Inv(s, free, s.mapped) && Accounted(s, s.mapped) && |s.mapped| == 1
    ensures |f| == 3 && f[0] != f[1] && f[0] != f[2] && f[1] != f[2] && s.open == multiset{f[0], f[1], f[2]}
    ensures Flight(s.jobs) == multiset{}
    ensures Stream(s.pool.mem, f[0], 0, 1) && Stream(s.pool.mem, f[1], 1, 2) && Stream(s.pool.mem, f[2], 2, 0)
  {
    hide BucketAt, BucketCount, Header, Load, Rep, SetUpStreams, Allocated, Stream;
    var mem: Memory, region: nat, w: PoolRuns.World;
    mem, region, w, f :| StartsAs(s, mem, region, w, f);
    free := AllocatedRep(mem, region, w, f);
    var buffers, files := [region], StdHandles();
    SetUpKeepsRep(w.p, free, w.live, buffers, f, files);
    FilesApart(w, free, buffers, f);
    StreamsSetUp(w.p.mem, f);
    NothingInFlight(s.jobs);
    assert f == [f[0], f[1], f[2]];
    assert Live(s) == w.live;
    Mutex.InvAtStart(s.m);
    RepParts(s.pool, free, Live(s), buffers);
    SameWords(s.pool, [], s.jobs, buffers);
    forall i | 0 <= i < |s.jobs| ensures PhaseFits(s.m.phases[i], s.jobs[i]) && JobFits(s, s.jobs[i], free, buffers) {
      assert s.jobs[i] == NoJob;
    }
  }

  lemma {:induction false} RunInv(run: seq<State>, k: nat) returns (free: seq<nat>, buffers: seq<nat>)
    requires IsRun(run) && k < |run|
    ensures Inv(run[k], free, buffers) && Accounted(run[k], buffers)
  {
    hide Inv, Start, Enabled, Safe, Next, Accounted;
    if k == 0 {
      var f;
      free, f := StartInv(run[0]);
      buffers := run[0].mapped;
    } else {
      free, buffers := RunInv(run, k - 1);
      assert Step(run[k - 1], run[k - 1 + 1]);
      var i, e :| Enabled(run[k - 1], i, e) && Safe(run[k - 1], i, e) && run[k] == Next(run[k - 1], i, e);
      StepKeepsInv(run[k - 1], i, e, free, buffers);
      StepKeepsAccount(run[k - 1], i, e, free, buffers);
      free, buffers := FreeAfter(run[k - 1], i, e, free), BuffersAfter(run[k - 1], i, e, buffers);
    }
  }

  // ---------- main theorems ----------

  /** In every state of every run: the buckets of open FILEs, the buckets that calls have in flight
    and the buckets on the free list are together all buckets of all regions that the pool has ever
    got, each exactly once, and the free list is a chain through the memory that visits just its own.
    The only exception is while a thread is about to store the head of a new buffer: then the free
    list is empty and that buffer's list takes its place. While the mutex word is FREE nobody is. */
  lemma BucketsArePartitioned(run: seq<State>, k: nat) returns (free: seq<nat>)
    requires IsRun(run) && k < |run|
    ensures var s := run[k];
            && Roomy(s.pool) && Chain(s.pool.mem, s.pool.head, free) && BuffersOk(s.pool, s.mapped)
            && ((forall i :: 0 <= i < |s.jobs| ==> !Publishing(s.jobs[i])) ==>
                  multiset(free) + s.open + Flight(s.jobs) == multiset(AllBuckets(s.pool, s.mapped)))
            && (forall i :: 0 <= i < |s.jobs| && Publishing(s.jobs[i]) ==>
                  PublisherSees(s, s.jobs[i].oat.region, free) && s.m.word == Mutex.LOCK)
  {
    var buffers;
    free, buffers := RunInv(run, k);
    hide Inv, IsRun, PublisherSees, AllBuckets, Flight, Accounted;
    var s := run[k];
    forall i | 0 <= i < |s.jobs| && Publishing(s.jobs[i])
      ensures s.m.word == Mutex.LOCK && PublisherSees(s, s.jobs[i].oat.region, free)
    {
      PublisherFits(s, i, free, buffers);
    }
    if exists i :: 0 <= i < |s.jobs| && Publishing(s.jobs[i]) {
      var i :| 0 <= i < |s.jobs| && Publishing(s.jobs[i]);
      SeenParts(s, s.jobs[i].oat.region, free);
      ChainOf(s, free, buffers);
    } else {
      NobodyPublishes(s, free, buffers);
    }
  }

  lemma ChainOf(s: State, free: seq<nat>, buffers: seq<nat>)
    requires Inv(s, free, buffers)
    ensures Roomy(s.pool) && Chain(s.pool.mem, s.pool.head, free)
  {
    hide BucketAt, BucketCount, Header, Load, WordsCount, JobFits, AllBuckets;
  }

  lemma NobodyPublishes(s: State, free: seq<nat>, buffers: seq<nat>)
    requires Inv(s, free, buffers) && Accounted(s, buffers)
    requires forall i :: 0 <= i < |s.jobs| ==> !Publishing(s.jobs[i])
    ensures Roomy(s.pool) && Chain(s.pool.mem, s.pool.head, free) && BuffersOk(s.pool, s.mapped)
    ensures multiset(free) + s.open + Flight(s.jobs) == multiset(AllBuckets(s.pool, s.mapped))
  {
    hide BucketAt, BucketCount, Header, Load, WordsCount, JobFits, PhaseFits, AllBuckets, Chain;
    assert multiset(free) + s.open + Flight(s.jobs) == multiset(free) + Live(s);
  }

  lemma SeenParts(s: State, region: nat, free: seq<nat>)
    requires PublisherSees(s, region, free)
    ensures Roomy(s.pool) && BuffersOk(s.pool, s.mapped)
  {
  }

  /** What holds while the list of `region` has been built and its head is not yet stored. */
  ghost predicate PublisherSees(s: State, region: nat, free: seq<nat>) {
    && Roomy(s.pool) && BuffersOk(s.pool, s.mapped)
    && free == [] && s.mapped[|s.mapped| - 1] == region
    && Chain(s.pool.mem, BucketAt(s.pool, region, 0), BucketsOf(s.pool, region))
    && multiset(BucketsOf(s.pool, region)) + s.open + Flight(s.jobs) == multiset(AllBuckets(s.pool, s.mapped))
  }

  lemma PublisherFits(s: State, i: nat, free: seq<nat>, buffers: seq<nat>)
    requires Inv(s, free, buffers) && Accounted(s, buffers) && i < |s.jobs| && Publishing(s.jobs[i])
    ensures PublisherSees(s, s.jobs[i].oat.region, free) && s.m.word == Mutex.LOCK
  {
    hide BucketAt, BucketCount, Header, Load, WordsCount, BucketsOf, AllBuckets, Chain;
    assert PhaseFits(s.m.phases[i], s.jobs[i]);
    Mutex.HolderMeansLocked(s.m, i);
    assert JobFits(s, s.jobs[i], free, buffers);
    var r := s.jobs[i].oat.region;
    var q := s.pool.(head := BucketAt(s.pool, r, 0));
    SameGeometry(s.pool, q, s.mapped);
    SameBuckets(s.pool, q, r);
    assert multiset(BucketsOf(s.pool, r)) + s.open + Flight(s.jobs) == multiset(BucketsOf(s.pool, r)) + Live(s);
  }

  /** An address in one of the regions that the pool has got. */
  ghost predicate InRegion(s: State, a: nat) {
    exists j :: 0 <= j < |s.mapped| && s.mapped[j] <= a < s.mapped[j] + s.pool.bufferSize
  }

  lemma StepMaps(s: State, i: nat, e: Event, a: nat)
    requires Enabled(s, i, e) && Safe(s, i, e)
    ensures var s' := Next(s, i, e);
            && s'.pool.bufferSize == s.pool.bufferSize && s.mapped <= s'.mapped
            && (a in s'.pool.mem && a !in s.pool.mem ==> InRegion(s', a))
  {
    hide BucketAt, BucketCount, Header, Load, Store, LinkChain;
    if e.Statement? && s.jobs[i].Open? && s.jobs[i].oat == OGrow {
      GrowMaps(s, i, e.region, a);
    }
  }

  lemma GrowMaps(s: State, i: nat, region: nat, a: nat)
    requires Enabled(s, i, Statement(region)) && Safe(s, i, Statement(region))
    requires s.jobs[i].Open? && s.jobs[i].oat == OGrow
    ensures var s' := Next(s, i, Statement(region));
            && s'.pool.bufferSize == s.pool.bufferSize && s'.mapped == s.mapped + [region]
            && (a in s'.pool.mem && a !in s.pool.mem ==> InRegion(s', a))
  {
    hide BucketAt, BucketCount, Header, Load, Store;
    var s' := Next(s, i, Statement(region));
    assert s'.mapped[|s.mapped|] == region;
  }

  /** The record of regions is complete: every address that became mapped in the course of a run
    lies in one of them, and none is ever dropped. */
  lemma {:induction false} RegionsAreAll(run: seq<State>, k: nat, a: nat)
    requires IsRun(run) && k < |run|
    ensures run[k].pool.bufferSize == run[0].pool.bufferSize && run[0].mapped <= run[k].mapped
    ensures a in run[k].pool.mem && a !in run[0].pool.mem ==> InRegion(run[k], a)
  {
    hide Start, Enabled, Safe, Next, InRegion;
    if k > 0 {
      RegionsAreAll(run, k - 1, a);
      assert Step(run[k - 1], run[k - 1 + 1]);
      var i, e :| Enabled(run[k - 1], i, e) && Safe(run[k - 1], i, e) && run[k] == Next(run[k - 1], i, e);
      StepMaps(run[k - 1], i, e, a);
      StillInRegion(run[k - 1], run[k], a);
    }
  }

  lemma StillInRegion(s: State, s': State, a: nat)
    requires s.mapped <= s'.mapped && s'.pool.bufferSize == s.pool.bufferSize
    ensures InRegion(s, a) ==> InRegion(s', a)
  {
    if InRegion(s, a) {
      var j :| 0 <= j < |s.mapped| && s.mapped[j] <= a < s.mapped[j] + s.pool.bufferSize;
      assert s'.mapped[j] == s.mapped[j];
    }
  }

  /** No two open FILEs share a bucket: fopen never returns a FILE that is open already, and two
    different open FILEs have no byte in common. */
  lemma OpenFilesDisjoint(run: seq<State>, k: nat)
    requires IsRun(run) && k < |run|
    ensures forall x :: run[k].open[x] <= 1
    ensures forall x, y :: x in run[k].open && y in run[k].open && x != y ==> Apart(x, SIZEOF_FILE, y, SIZEOF_FILE)
    ensures forall x, i :: x in run[k].open && 0 <= i < |run[k].jobs| ==> x !in InFlight(run[k].jobs[i])
  {
    hide BucketAt, BucketCount, Header, Load;
    var free, buffers := RunInv(run, k);
    var s := run[k];
    forall x ensures s.open[x] <= 1 {
      if x in s.open {
        LiveOnce(s, free, buffers, x);
      }
    }
    forall x, y | x in s.open && y in s.open && x != y ensures Apart(x, SIZEOF_FILE, y, SIZEOF_FILE) {
      LiveFileMapped(s, free, buffers, x);
      LiveFileMapped(s, free, buffers, y);
      DistinctBucketsApart(s.pool, buffers, x, y);
    }
    forall x, i | x in s.open && 0 <= i < |s.jobs| ensures x !in InFlight(s.jobs[i]) {
      LiveOnce(s, free, buffers, x);
      FlightUpdate(s.jobs, i, NoJob);
    }
  }

  /** A FILE with an unlocked mutex that carries the given handle. */
  ghost predicate Ready(m: Memory, addr: nat, file: RtFile) {
    Stream(m, addr, file.fd, file.flags)
  }

  lemma WrittenIsReady(m: Memory, addr: nat, file: RtFile)
    requires Mapped(m, addr, SIZEOF_FILE) && MutexWord(m, addr) == Mutex.FREE
    ensures Ready(WriteFile(m, addr, file), addr, file)
  {
    hide Load, Store;
    LoadFrame(m, WriteFile(m, addr, file), addr, MUTEX_OFFSET, addr + MUTEX_OFFSET, 4);
  }

  lemma FinishOpenEffect(s: State, i: nat)
    requires Enabled(s, i, FinishOpen) && Safe(s, i, FinishOpen)
    ensures s.jobs[i].Open? && s.jobs[i].oat.OInit? && InFlight(s.jobs[i]) == multiset{s.jobs[i].oat.addr}
    ensures Mapped(s.pool.mem, s.jobs[i].oat.addr, SIZEOF_FILE)
    ensures Next(s, i, FinishOpen).pool.mem == WriteFile(s.pool.mem, s.jobs[i].oat.addr, s.jobs[i].file)
    ensures Next(s, i, FinishOpen).open == s.open + multiset{s.jobs[i].oat.addr}
  {
  }

  /** fopen never initialises the mutex of the FILE it returns, and yet its word is always FREE; and
    the FILE was not open before and carries the handle that was opened for it. */
  lemma OpenedFileIsUnlocked(run: seq<State>, k: nat, i: nat, s': State)
    requires IsRun(run) && k < |run| && Enabled(run[k], i, FinishOpen)
    requires Safe(run[k], i, FinishOpen) ==> s' == Next(run[k], i, FinishOpen)
    ensures Safe(run[k], i, FinishOpen)
    ensures var job := run[k].jobs[i];
            && job.Open? && job.oat.OInit?
            && job.oat.addr !in run[k].open && job.oat.addr in s'.open
            && Ready(s'.pool.mem, job.oat.addr, job.file)
  {
    var free, buffers := RunInv(run, k);
    var s := run[k];
    EnabledIsSafe(s, i, FinishOpen, free, buffers);
    FinishOpenEffect(s, i);
    hide BucketAt, BucketCount, Header, Load, Store, Inv, Flight, InFlight, Enabled, Safe, Next, WriteFile, Ready;
    var addr := s.jobs[i].oat.addr;
    OpenFilesDisjoint(run, k);
    OwnedIsLive(s, i);
    UsersAreOpen(s, free, buffers);
    UnusedWord(s, addr, free, buffers);
    WrittenIsReady(s.pool.mem, addr, s.jobs[i].file);
  }

  lemma UnusedWord(s: State, x: nat, free: seq<nat>, buffers: seq<nat>)
    requires Inv(s, free, buffers) && x in Live(s)
    requires forall j :: 0 <= j < |s.jobs| ==> !(s.jobs[j].Use? && s.jobs[j].ptr == x)
    ensures Mapped(s.pool.mem, x, SIZEOF_FILE) && MutexWord(s.pool.mem, x) == Mutex.FREE
  {
    hide BucketAt, BucketCount, Header, Load, Rep, JobFits, PhaseFits;
    WordOf(s, x, free, buffers);
    assert Use(x, true) !in s.jobs;
    assert multiset(s.jobs)[Use(x, true)] == 0;
  }

  lemma ClosedIsUnused(s: State, i: nat, ptr: nat)
    requires Enabled(s, i, CallClose(ptr))
    ensures ptr in Live(s) && forall j :: 0 <= j < |s.jobs| ==> !(s.jobs[j].Use? && s.jobs[j].ptr == ptr)
  {
    hide Flight;
  }

  /** A FILE that is closed while no operation on it is under way is unlocked: every operation has
    released what it locked. */
  lemma ClosedFileIsUnlocked(run: seq<State>, k: nat, i: nat, ptr: nat)
    requires IsRun(run) && k < |run| && Enabled(run[k], i, CallClose(ptr))
    ensures Mapped(run[k].pool.mem, ptr, SIZEOF_FILE) && MutexWord(run[k].pool.mem, ptr) == Mutex.FREE
  {
    hide BucketAt, BucketCount, Header, Load, Inv, Accounted, IsRun;
    ClosedIsUnused(run[k], i, ptr);
    var free, buffers := RunInv(run, k);
    hide Enabled;
    UnusedWord(run[k], ptr, free, buffers);
  }

  /** No step of the library faults, no two threads are inside a pool call, no wake-up is lost, and
    no two operations hold the same FILE. */
  lemma RunIsSafe(run: seq<State>, k: nat)
    requires IsRun(run) && k < |run|
    ensures forall i, e :: Enabled(run[k], i, e) ==> Safe(run[k], i, e)
    ensures forall i, j :: 0 <= i < j < |run[k].jobs| ==> !(InPoolCall(run[k].jobs[i]) && InPoolCall(run[k].jobs[j]))
    ensures Mutex.Inv(run[k].m) && OneUser(run[k].jobs)
  {
    hide BucketAt, BucketCount, Header, Load, Rep, JobFits, WordsCount, Accounted, Safe, Enabled, IsRun, InPoolCall;
    var free, buffers := RunInv(run, k);
    var s := run[k];
    forall i, e | Enabled(s, i, e) ensures Safe(s, i, e) {
      EnabledIsSafe(s, i, e, free, buffers);
    }
    forall i, j | 0 <= i < j < |s.jobs| ensures !(InPoolCall(s.jobs[i]) && InPoolCall(s.jobs[j])) {
      OneInPool(s, i, j, free, buffers);
    }
  }

  lemma OneInPool(s: State, i: nat, j: nat, free: seq<nat>, buffers: seq<nat>)
    requires Inv(s, free, buffers) && i < j < |s.jobs|
    ensures !(InPoolCall(s.jobs[i]) && InPoolCall(s.jobs[j]))
  {
    hide Rep, WordsCount, JobFits;
    assert PhaseFits(s.m.phases[i], s.jobs[i]) && PhaseFits(s.m.phases[j], s.jobs[j]);
    Mutex.OnlyOneHolder(s.m, i, j);
  }
}
