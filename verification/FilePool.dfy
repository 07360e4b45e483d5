/** fopen, fclose and the stream operations of src/stdlib-file/file.c on any number of threads.

  fopen and fclose call the pool while they hold _g_pool_mutex. The pool calls are broken into
  their accesses to shared memory, so that another thread can run between any two of them: what
  keeps the free list intact is mutual exclusion, not atomicity of the calls. The stream
  operations lock the mutex word inside the FILE, which lies in the bucket. */
module FilePool {
  import opened Machine
  import opened PoolSpec
  import opened PoolGrow
  import Mutex

  // _fileapi_init creates the pool with these sizes; a FILE is 24 bytes long
  const FILE_POOL_BUFFER: nat := 0x1000
  const SIZEOF_FILE: nat := 24
  const FILE_ALIGNMENT: nat := 16
  const FILE_BUCKET: nat := 32
  // offsets in a FILE
  const FLAGS_OFFSET: nat := 8
  const MUTEX_OFFSET: nat := 16

  /** What _rt_file_open fills in. */
  datatype RtFile = RtFile(fd: U64, flags: U32)

  /** How far fopen has come. The stages from Test to Done are the body of cia_pool_alloc. */
  datatype OpenAt =
    | OEnter
    | OTest
    | OGrow
    | OPublish(region: nat)
    | OTake
    | ONext(addr: nat)
    | OStore(addr: nat, next: U64)
    | ODone(addr: nat)
    | OWake(addr: nat)
    | OInit(addr: nat)

  /** How far fclose has come. Link and Head are the body of cia_pool_free. */
  datatype CloseAt = CEnter | CLink | CHead | CDone | CWake

  /** The library call a thread is in. `Use` stands for fgetc, fputc, fread and fwrite. */
  datatype Job =
    | NoJob
    | Open(file: RtFile, oat: OpenAt)
    | Close(ptr: nat, cat: CloseAt)
    | Use(ptr: nat, held: bool)

  /** `m` is _g_pool_mutex, `pool` is _file_pool with the memory, and `open` holds the FILEs that
    the program has open, with repetition should fopen ever return one twice. `mapped` lists the
    regions that the pool has got from the page allocator. */
  datatype State = State(m: Mutex.State, pool: Pool, jobs: seq<Job>, open: multiset<nat>, mapped: seq<nat>)

  datatype Event =
    | CallOpen(file: RtFile)
    | CallClose(ptr: nat)
    | CallUse(ptr: nat)
    | Sync(a: Mutex.Action)
    | Statement(region: nat)
    | FinishOpen
    | TryAcquire
    | EndUse

  // ---------- the steps ----------

  predicate InPoolCall(job: Job) {
    || (job.Open? && !(job.oat.OEnter? || job.oat.ODone? || job.oat.OWake? || job.oat.OInit?))
    || (job.Close? && (job.cat == CLink || job.cat == CHead))
  }

  predicate PoolCallOver(job: Job) {
    (job.Open? && job.oat.ODone?) || (job.Close? && job.cat == CDone)
  }

  /** The calls a program may make: it closes and uses FILEs that it has open, and it does not
    close a FILE while an operation on it is under way. */
  ghost predicate Enabled(s: State, i: nat, e: Event) {
    && i < |s.jobs| == |s.m.phases|
    && var job := s.jobs[i];
       match e
       case CallOpen(_) => job == NoJob
       case CallClose(ptr) => job == NoJob && ptr in s.open && forall j :: 0 <= j < |s.jobs| ==> !(s.jobs[j].Use? && s.jobs[j].ptr == ptr)
       case CallUse(ptr) => job == NoJob && ptr in s.open
       case Sync(a) =>
         && a != Mutex.Begin && Mutex.Enabled(s.m, i, a)
         && (a == Mutex.Release ==> PoolCallOver(job))
       case Statement(region) =>
         && s.m.phases[i] == Mutex.Held && InPoolCall(job)
         && (job.Open? && job.oat == OGrow ==> FreshRegion(s.pool, region))
       case FinishOpen => job.Open? && job.oat.OInit?
       case TryAcquire => job.Use? && !job.held
       case EndUse => job.Use? && job.held
  }

  /** A call begins with the thread idle on the mutex, the memory that the step touches is mapped,
    and the buffer it adds fits the address space. */
  ghost predicate Safe(s: State, i: nat, e: Event)
    requires Enabled(s, i, e)
  {
    var p, job := s.pool, s.jobs[i];
    match e
    case CallOpen(_) => Mutex.Enabled(s.m, i, Mutex.Begin)
    case CallClose(_) => Mutex.Enabled(s.m, i, Mutex.Begin)
    case Statement(region) =>
      if job.Open? then
        match job.oat
        case OGrow => Roomy(p) && p.head < TWO_TO_THE_64 && region + p.bufferSize <= TWO_TO_THE_64
        case OPublish(region) => p.alignment > 0
        case ONext(_) => Mapped(p.mem, p.head, LINK_SIZE)
        case _ => true
      else if job.Close? && job.cat == CLink then Mapped(p.mem, job.ptr, LINK_SIZE) && p.head < TWO_TO_THE_64
      else true
    case FinishOpen => Mapped(p.mem, job.oat.addr, SIZEOF_FILE)
    case TryAcquire => Mapped(p.mem, job.ptr, SIZEOF_FILE)
    case EndUse => Mapped(p.mem, job.ptr, SIZEOF_FILE)
    case _ => true
  }

  /** What the change of the pool mutex's phase means for the call. */
  function JobAfterSync(job: Job, a: Mutex.Action, word: nat): Job {
    match a
    case CompareExchange =>
      if word != Mutex.FREE then job
      else if job.Open? then job.(oat := OTest)
      else if job.Close? then job.(cat := CLink)
      else job
    case Release =>
      if job.Open? && job.oat.ODone? then job.(oat := OWake(job.oat.addr))
      else if job.Close? then job.(cat := CWake)
      else job
    case WakeOne(_) => JobAfterWake(job)
    case WakeNobody => JobAfterWake(job)
    case _ => job
  }

  function JobAfterWake(job: Job): Job {
    if job.Open? && job.oat.OWake? then job.(oat := OInit(job.oat.addr)) else NoJob
  }

  function WriteFile(m: Memory, addr: nat, file: RtFile): (m': Memory)
    requires Mapped(m, addr, SIZEOF_FILE)
    ensures SameOutside(m, m', addr, MUTEX_OFFSET)
    ensures Mapped(m', addr, SIZEOF_FILE) && Load64(m', addr) == file.fd && Load32(m', addr + FLAGS_OFFSET) == file.flags
  {
    var m1 := Store64(m, addr, file.fd);
    var m2 := Store32(m1, addr + FLAGS_OFFSET, file.flags);
    LoadFrame(m1, m2, addr + FLAGS_OFFSET, 4, addr, 8);
    m2
  }

  function MutexWord(m: Memory, file: nat): U32
    requires Mapped(m, file, SIZEOF_FILE)
  {
    Load32(m, file + MUTEX_OFFSET)
  }

  /** One statement of the pool call: the new pool and the next stage. */
  function AfterStatement(s: State, i: nat, region: nat): (Pool, Job)
    requires Enabled(s, i, Statement(region)) && Safe(s, i, Statement(region))
  {
    var p, job := s.pool, s.jobs[i];
    if job.Open? then
      match job.oat
      case OTest => (p, job.(oat := if p.head == 0 then OGrow else OTake))
      case OGrow =>
        // the new buffer's list is built behind the old head; the pool's head is stored last
        (FreelistAdd(WithRegion(p, region), region).(head := p.head), job.(oat := OPublish(region)))
      case OPublish(r) => (p.(head := BucketAt(p, r, 0)), job.(oat := OTake))
      case OTake => (p, job.(oat := ONext(p.head)))
      case ONext(addr) => (p, job.(oat := OStore(addr, Load64(p.mem, p.head))))
      case OStore(addr, next) => (p.(head := next), job.(oat := ODone(addr)))
      case _ => (p, job)
    else if job.Close? && job.cat == CLink then
      (p.(mem := Store64(p.mem, job.ptr, p.head)), job.(cat := CHead))
    else if job.Close? then
      (p.(head := job.ptr), job.(cat := CDone))
    else (p, job)
  }

  function Next(s: State, i: nat, e: Event): State
    requires Enabled(s, i, e) && Safe(s, i, e)
  {
    var p, job := s.pool, s.jobs[i];
    match e
    case CallOpen(file) => s.(m := Mutex.Next(s.m, i, Mutex.Begin), jobs := s.jobs[i := Open(file, OEnter)])
    case CallClose(ptr) =>
      s.(m := Mutex.Next(s.m, i, Mutex.Begin), jobs := s.jobs[i := Close(ptr, CEnter)], open := s.open - multiset{ptr})
    case CallUse(ptr) => s.(jobs := s.jobs[i := Use(ptr, false)])
    case Sync(a) => s.(m := Mutex.Next(s.m, i, a), jobs := s.jobs[i := JobAfterSync(job, a, s.m.word)])
    case Statement(region) =>
      var (p', job') := AfterStatement(s, i, region);
      s.(pool := p', jobs := s.jobs[i := job'],
         mapped := if job.Open? && job.oat == OGrow then s.mapped + [region] else s.mapped)
    case FinishOpen =>
      s.(pool := p.(mem := WriteFile(p.mem, job.oat.addr, job.file)),
         jobs := s.jobs[i := NoJob], open := s.open + multiset{job.oat.addr})
    case TryAcquire =>
      if MutexWord(p.mem, job.ptr) != Mutex.FREE then s
      else s.(pool := p.(mem := Store32(p.mem, job.ptr + MUTEX_OFFSET, Mutex.LOCK)), jobs := s.jobs[i := Use(job.ptr, true)])
    case EndUse =>
      s.(pool := p.(mem := Store32(p.mem, job.ptr + MUTEX_OFFSET, Mutex.FREE)), jobs := s.jobs[i := NoJob])
  }

  // ---------- the invariant ----------

  datatype Owned = Nothing | Bucket(addr: nat)

  /** The bucket a call owns alone: taken off the list and not yet returned by fopen, or handed to
    fclose and not yet on the list. */
  function OwnedBy(job: Job): Owned {
    match job
    case Open(_, at) => if at.ODone? || at.OWake? || at.OInit? then Bucket(at.addr) else Nothing
    case Close(ptr, at) => if at == CEnter || at == CLink || at == CHead then Bucket(ptr) else Nothing
    case _ => Nothing
  }

  function InFlight(job: Job): multiset<nat> {
    match OwnedBy(job)
    case Nothing => multiset{}
    case Bucket(addr) => multiset{addr}
  }

  function Flight(jobs: seq<Job>): multiset<nat> {
    if jobs == [] then multiset{} else InFlight(jobs[0]) + Flight(jobs[1..])
  }

  /** All FILEs that are not the pool's: open ones and those in flight. */
  function Live(s: State): multiset<nat> {
    s.open + Flight(s.jobs)
  }

  predicate PhaseFits(phase: Mutex.Phase, job: Job) {
    match job
    case NoJob => phase == Mutex.Idle
    case Use(_, _) => phase == Mutex.Idle
    case Open(_, at) =>
      if at.OEnter? then Mutex.Trying(phase)
      else if at.OWake? then phase == Mutex.ToWake
      else if at.OInit? then phase == Mutex.Idle
      else phase == Mutex.Held
    case Close(_, at) =>
      if at == CEnter then Mutex.Trying(phase)
      else if at == CWake then phase == Mutex.ToWake
      else phase == Mutex.Held
  }

  /** The mutex word of every FILE bucket counts the operations that hold it. For a bucket that is
    free or in flight that count is zero. */
  ghost predicate WordsCount(p: Pool, jobs: seq<Job>, buffers: seq<nat>)
    requires Roomy(p)
  {
    forall b :: b in AllBuckets(p, buffers) ==>
      Mapped(p.mem, b, SIZEOF_FILE) && MutexWord(p.mem, b) == multiset(jobs)[Use(b, true)]
  }

  /** What a thread inside a pool call may rely on. */
  ghost predicate JobFits(s: State, job: Job, free: seq<nat>, buffers: seq<nat>) {
    var p := s.pool;
    match job
    case NoJob => true
    case Use(ptr, _) => ptr in s.open
    case Open(_, at) =>
      (match at
       case OGrow => p.head == 0
       case OPublish(region) =>
         && p.head == 0 && free == [] && Roomy(p)
         && Rep(p.(head := BucketAt(p, region, 0)), BucketsOf(p, region), Live(s), buffers + [region])
         && WordsCount(p, s.jobs, buffers + [region])
       case OTake => p.head != 0
       case ONext(addr) => addr == p.head != 0
       case OStore(addr, next) => addr == p.head != 0 && Mapped(p.mem, addr, LINK_SIZE) && next == Load64(p.mem, addr)
       case _ => true)
    case Close(ptr, at) => at == CHead ==> Mapped(p.mem, ptr, LINK_SIZE) && Load64(p.mem, ptr) == p.head
  }

  /** No two operations hold the mutex of the same FILE. */
  ghost predicate OneUser(jobs: seq<Job>) {
    forall b :: multiset(jobs)[Use(b, true)] <= 1
  }

  ghost predicate Inv(s: State, free: seq<nat>, buffers: seq<nat>) {
    && Mutex.Inv(s.m) && |s.jobs| == |s.m.phases| && OneUser(s.jobs)
    && s.pool.bucketSize == FILE_BUCKET
    && (forall i :: 0 <= i < |s.jobs| ==> PhaseFits(s.m.phases[i], s.jobs[i]))
    && Rep(s.pool, free, Live(s), buffers)
    && WordsCount(s.pool, s.jobs, buffers)
    && (forall i :: 0 <= i < |s.jobs| ==> JobFits(s, s.jobs[i], free, buffers))
  }

  /** The thread has built the list of a new buffer and not yet stored its head. */
  predicate Publishing(job: Job) {
    job.Open? && job.oat.OPublish?
  }

  /** Every region that the pool has got is one of its buffers, but for one whose head has still to
    be stored. */
  ghost predicate Accounted(s: State, buffers: seq<nat>) {
    && (forall i :: 0 <= i < |s.jobs| && Publishing(s.jobs[i]) ==> s.mapped == buffers + [s.jobs[i].oat.region])
    && ((forall i :: 0 <= i < |s.jobs| ==> !Publishing(s.jobs[i])) ==> s.mapped == buffers)
  }

  /** The pool's free list after a step, given the one before. */
  function FreeAfter(s: State, i: nat, e: Event, free: seq<nat>): seq<nat>
    requires Enabled(s, i, e) && Roomy(s.pool)
  {
    var job := s.jobs[i];
    if !e.Statement? then free
    else if job.Close? && job.cat == CHead then [job.ptr] + free
    else if Publishing(job) then BucketsOf(s.pool, job.oat.region)
    else if job.Open? && job.oat.OStore? && free != [] then free[1..]
    else free
  }

  /** The pool's buffers after a step, given those before: storing the head of a new buffer adds it. */
  function BuffersAfter(s: State, i: nat, e: Event, buffers: seq<nat>): seq<nat>
    requires Enabled(s, i, e)
  {
    if e.Statement? && Publishing(s.jobs[i]) then buffers + [s.jobs[i].oat.region] else buffers
  }

  // ---------- bookkeeping over the threads ----------

  lemma {:induction false} FlightUpdate(jobs: seq<Job>, i: nat, job: Job)
    requires i < |jobs|
    ensures Flight(jobs[i := job]) + InFlight(jobs[i]) == Flight(jobs) + InFlight(job)
    ensures InFlight(jobs[i]) <= Flight(jobs)
    decreases |jobs|
  {
    hide InFlight;
    if i > 0 {
      FlightUpdate(jobs[1..], i - 1, job);
      var updated := jobs[i := job];
      assert updated[0] == jobs[0] && updated[1..] == jobs[1..][i - 1 := job];
      var first, rest, rest' := InFlight(jobs[0]), Flight(jobs[1..]), Flight(jobs[1..][i - 1 := job]);
      assert jobs[1..][i - 1] == jobs[i];
      assert (first + rest') + InFlight(jobs[i]) == first + (rest' + InFlight(jobs[i]));
      assert first + (rest + InFlight(job)) == (first + rest) + InFlight(job);
    } else {
      assert jobs[i := job][1..] == jobs[1..];
    }
  }

  /** Two calls never own the same bucket, nor a call one that is open. */
  lemma {:induction false} FlightOfTwo(jobs: seq<Job>, i: nat, j: nat)
    requires i < j < |jobs|
    ensures InFlight(jobs[i]) + InFlight(jobs[j]) <= Flight(jobs)
    decreases |jobs|
  {
    hide InFlight;
    assert Flight(jobs) == InFlight(jobs[0]) + Flight(jobs[1..]);
    if i == 0 {
      FlightUpdate(jobs[1..], j - 1, NoJob);
      assert jobs[1..][j - 1] == jobs[j];
    } else {
      FlightOfTwo(jobs[1..], i - 1, j - 1);
      assert jobs[1..][i - 1] == jobs[i] && jobs[1..][j - 1] == jobs[j];
    }
  }

  lemma LiveOnce(s: State, free: seq<nat>, buffers: seq<nat>, x: nat)
    requires Rep(s.pool, free, Live(s), buffers) && x in Live(s)
    ensures Live(s)[x] == 1
  {
    LiveIsBucket(s.pool, free, Live(s), buffers, x);
  }

  /** Another thread's bucket is not this one. */
  lemma OthersDiffer(s: State, free: seq<nat>, buffers: seq<nat>, i: nat, j: nat, x: nat, y: nat)
    requires Rep(s.pool, free, Live(s), buffers)
    requires i < |s.jobs| && j < |s.jobs| && i != j
    requires x in InFlight(s.jobs[i]) && (y in InFlight(s.jobs[j]) || y in s.open)
    ensures x != y
  {
    FlightUpdate(s.jobs, i, NoJob);
    LiveOnce(s, free, buffers, x);
    if y !in s.open {
      if i < j { FlightOfTwo(s.jobs, i, j); } else { FlightOfTwo(s.jobs, j, i); }
    }
  }

  // ---------- steps that leave the pool alone ----------

  /** A step of thread i that changes neither the pool nor who owns what keeps the invariant, if
    the thread itself still fits. */
  lemma QuietStep(s: State, s': State, i: nat, free: seq<nat>, buffers: seq<nat>)
    requires Inv(s, free, buffers) && i < |s.jobs| == |s'.jobs|
    requires s'.pool == s.pool && Live(s') == Live(s)
    requires s'.jobs == s.jobs[i := s'.jobs[i]]
    requires !(s.jobs[i].Use? && s.jobs[i].held) && !(s'.jobs[i].Use? && s'.jobs[i].held)
    requires Mutex.Inv(s'.m) && |s'.m.phases| == |s.m.phases|
    requires forall j :: 0 <= j < |s'.jobs| ==> PhaseFits(s'.m.phases[j], s'.jobs[j])
    requires forall j :: 0 <= j < |s.jobs| && s.jobs[j].Use? && j != i ==> s.jobs[j].ptr in s'.open
    requires JobFits(s', s'.jobs[i], free, buffers)
    ensures Inv(s', free, buffers)
  {
    assert Roomy(s.pool);
    hide BucketAt, BucketCount, Header, Load, Rep, WordsCount, JobFits, PhaseFits, Flight;
    SameHolders(s.jobs, i, s'.jobs[i]);
    SameWords(s.pool, s.jobs, s'.jobs, buffers);
    forall j | 0 <= j < |s'.jobs| ensures JobFits(s', s'.jobs[j], free, buffers) {
      if j != i {
        SameFits(s, s', s.jobs[j], free, buffers);
      }
    }
  }

  lemma SameFits(s: State, s': State, job: Job, free: seq<nat>, buffers: seq<nat>)
    requires JobFits(s, job, free, buffers) && s'.pool == s.pool && Live(s') == Live(s)
    requires forall b :: multiset(s'.jobs)[Use(b, true)] == multiset(s.jobs)[Use(b, true)]
    requires job.Use? ==> job.ptr in s'.open
    ensures JobFits(s', job, free, buffers)
  {
    hide BucketAt, BucketCount, Header, Load, Rep, WordsCount, Flight;
    if job.Open? && job.oat.OPublish? {
      SameWords(s.pool, s.jobs, s'.jobs, buffers + [job.oat.region]);
    }
  }

  lemma SameHolders(jobs: seq<Job>, i: nat, job: Job)
    requires i < |jobs|
    requires !(jobs[i].Use? && jobs[i].held) && !(job.Use? && job.held)
    ensures forall b :: multiset(jobs[i := job])[Use(b, true)] == multiset(jobs)[Use(b, true)]
  {
  }

  lemma SameWords(p: Pool, jobs: seq<Job>, jobs': seq<Job>, buffers: seq<nat>)
    requires Roomy(p) && WordsCount(p, jobs, buffers)
    requires forall b :: multiset(jobs')[Use(b, true)] == multiset(jobs)[Use(b, true)]
    ensures WordsCount(p, jobs', buffers)
  {
  }

  // ---------- steps that write inside a bucket the thread may write to ----------

  /** What every pool call in progress relies on survives a write inside a live bucket, except what
    concerns that bucket itself. */
  lemma WriteKeepsFits(s: State, s': State, job: Job, free: seq<nat>, buffers: seq<nat>, y: nat)
    requires Rep(s.pool, free, Live(s), buffers) && Rep(s'.pool, free, Live(s'), buffers)
    requires s.pool.bucketSize == FILE_BUCKET && Live(s') == Live(s) && y in Live(s)
    requires s'.pool == s.pool.(mem := s'.pool.mem) && SameOutside(s.pool.mem, s'.pool.mem, y, FILE_BUCKET)
    requires JobFits(s, job, free, buffers)
    requires job.Use? ==> job.ptr in s'.open
    requires job.Close? && job.cat == CHead ==> job.ptr in Live(s) && job.ptr != y
    requires job.Open? && job.oat.OPublish? ==> WordsCount(s'.pool, s'.jobs, buffers + [job.oat.region])
    ensures JobFits(s', job, free, buffers)
  {
    hide BucketAt, BucketCount, Header, Load, Chain;
    var p, p' := s.pool, s'.pool;
    LiveIsBucket(p, free, Live(s), buffers, y);
    match job
    case NoJob =>
    case Use(_, _) =>
    case Open(_, at) =>
      if at.OPublish? {
        hide Rep;
        LiveWrite(p.(head := BucketAt(p, at.region, 0)), BucketsOf(p, at.region), Live(s), buffers + [at.region], y, p'.mem);
        SameGeometry(p, p', []);
        SameBuckets(p, p', at.region);
      } else if at.OStore? {
        HeadApart(p, free, Live(s), buffers, y);
        LoadFrame(p.mem, p'.mem, y, FILE_BUCKET, p.head, LINK_SIZE);
      }
    case Close(ptr, at) =>
      if at == CHead {
        LiveIsBucket(p, free, Live(s), buffers, ptr);
        DistinctBucketsApart(p, buffers, ptr, y);
        LoadFrame(p.mem, p'.mem, y, FILE_BUCKET, ptr, LINK_SIZE);
      }
  }

  lemma HeadApart(p: Pool, free: seq<nat>, live: multiset<nat>, buffers: seq<nat>, y: nat)
    requires Rep(p, free, live, buffers) && p.head != 0 && y in live
    ensures Apart(p.head, p.bucketSize, y, p.bucketSize)
  {
    hide BucketAt, BucketCount, Header, Load;
    LiveIsBucket(p, free, live, buffers, y);
    FreeIsBucket(p, free, live, buffers, 0);
    DistinctBucketsApart(p, buffers, p.head, y);
  }

  /** The mutex words after a write inside bucket y by a thread whose job changes: those of other
    buckets keep their values, so only y's own word has to be checked. */
  lemma WriteKeepsWords(p: Pool, p': Pool, jobs: seq<Job>, jobs': seq<Job>, buffers: seq<nat>, y: nat)
    requires Roomy(p) && BuffersOk(p, buffers) && p.bucketSize == FILE_BUCKET && p' == p.(mem := p'.mem)
    requires y in AllBuckets(p, buffers) && SameOutside(p.mem, p'.mem, y, FILE_BUCKET)
    requires WordsCount(p, jobs, buffers)
    requires forall b :: b != y ==> multiset(jobs')[Use(b, true)] == multiset(jobs)[Use(b, true)]
    requires Mapped(p'.mem, y, SIZEOF_FILE) && MutexWord(p'.mem, y) == multiset(jobs')[Use(y, true)]
    ensures Roomy(p') && WordsCount(p', jobs', buffers)
  {
    hide BucketAt, BucketCount, Header, Load;
    SameGeometry(p, p', buffers);
    forall b | b in AllBuckets(p, buffers)
      ensures Mapped(p'.mem, b, SIZEOF_FILE) && MutexWord(p'.mem, b) == multiset(jobs')[Use(b, true)]
    {
      if b != y {
        DistinctBucketsApart(p, buffers, b, y);
        LoadFrame(p.mem, p'.mem, y, FILE_BUCKET, b + MUTEX_OFFSET, 4);
        LoadFrame(p.mem, p'.mem, y, FILE_BUCKET, b, SIZEOF_FILE);
      }
    }
  }
}
