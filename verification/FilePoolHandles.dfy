/** An open FILE keeps the handle it was opened with: the pool's links, other calls and the mutex in
  the FILE itself leave it alone. */
module FilePoolHandles {
  import opened Machine
  import opened PoolSpec
  import opened PoolGrow
  import opened FilePool
  import opened FilePoolSteps
  import opened FilePoolRuns

  /** The bytes of a FILE other than its mutex word, which takes bytes 16 to 19. */
  predicate OutsideWord(x: nat, a: nat) {
    x <= a < x + 16 || x + 20 <= a < x + 24
  }

  ghost predicate KeepsFile(m: Memory, m': Memory, x: nat) {
    forall a :: OutsideWord(x, a) ==> a in m && a in m' && m'[a] == m[a]
  }

  /** A write to another FILE's bucket, or to the mutex word of this one, keeps it. */
  lemma WriteKeeps(m: Memory, m': Memory, x: nat, y: nat, n: nat)
    requires Mapped(m, x, 24) && SameOutside(m, m', y, n)
    requires Apart(y, n, x, 24) || (x + 16 <= y && y + n <= x + 20)
    ensures KeepsFile(m, m', x)
  {
  }

  /** An open FILE is not one that a call has in flight. */
  lemma OpenIsNotInFlight(s: State, free: seq<nat>, buffers: seq<nat>, i: nat, x: nat, y: nat)
    requires Inv(s, free, buffers) && i < |s.jobs| && x in s.open && y in InFlight(s.jobs[i])
    ensures x != y
  {
    hide BucketAt, BucketCount, Header, Load, WordsCount, JobFits, PhaseFits;
    LiveOnce(s, free, buffers, x);
    FlightUpdate(s.jobs, i, NoJob);
  }

  /** Two live FILEs lie in different buckets. */
  lemma LiveApart(s: State, free: seq<nat>, buffers: seq<nat>, x: nat, y: nat)
    requires Inv(s, free, buffers) && x in Live(s) && y in Live(s) && x != y
    ensures Apart(y, FILE_BUCKET, x, FILE_BUCKET)
  {
    hide BucketAt, BucketCount, Header, Load, WordsCount, JobFits, PhaseFits;
    LiveIsBucket(s.pool, free, Live(s), buffers, x);
    LiveIsBucket(s.pool, free, Live(s), buffers, y);
    DistinctBucketsApart(s.pool, buffers, x, y);
  }

  // ---------- one step ----------

  /** What the steps that write do to memory. */
  lemma Writes(s: State, i: nat, e: Event)
    requires Enabled(s, i, e) && Safe(s, i, e)
    ensures var s', p, job := Next(s, i, e), s.pool, s.jobs[i];
            && (e.Statement? && job.Open? && job.oat == OGrow ==>
                  && Roomy(p) && p.head < TWO_TO_THE_64 && Roomy(WithRegion(p, e.region)) && FreshRegion(p, e.region)
                  && e.region + p.bufferSize <= TWO_TO_THE_64
                  && s'.pool.mem == FreelistAdd(WithRegion(p, e.region), e.region).mem)
            && (e.Statement? && job.Close? && job.cat == CLink ==> SameOutside(p.mem, s'.pool.mem, job.ptr, LINK_SIZE))
            && (e.FinishOpen? ==> job.Open? && job.oat.OInit? && SameOutside(p.mem, s'.pool.mem, job.oat.addr, MUTEX_OFFSET))
            && (e.TryAcquire? || e.EndUse? ==> job.Use? && SameOutside(p.mem, s'.pool.mem, job.ptr + MUTEX_OFFSET, 4))
            && (!e.FinishOpen? && !e.TryAcquire? && !e.EndUse?
                && !(e.Statement? && ((job.Open? && job.oat == OGrow) || (job.Close? && job.cat == CLink))) ==>
                  s'.pool.mem == p.mem)
  {
    hide BucketAt, BucketCount, Header, Load, Store, LinkChain;
    if e.Statement? && s.jobs[i].Open? && s.jobs[i].oat == OGrow {
      SameGeometry(s.pool, WithRegion(s.pool, e.region), []);
    }
  }

  lemma StillOpen(s: State, i: nat, e: Event, x: nat)
    requires Enabled(s, i, e) && Safe(s, i, e) && x in s.open && e != CallClose(x)
    ensures x in Next(s, i, e).open
  {
    hide BucketAt, BucketCount, Header, Load, Store;
  }

  /** Whatever any thread does next but close it, an open FILE stays open and keeps every byte outside
    its mutex word. */
  lemma StepKeepsFile(s: State, i: nat, e: Event, x: nat, free: seq<nat>, buffers: seq<nat>)
    requires Inv(s, free, buffers) && Enabled(s, i, e) && x in s.open && e != CallClose(x)
    ensures Safe(s, i, e) && x in Next(s, i, e).open && KeepsFile(s.pool.mem, Next(s, i, e).pool.mem, x)
  {
    EnabledIsSafe(s, i, e, free, buffers);
    Writes(s, i, e);
    StillOpen(s, i, e, x);
    OpenIsMapped(s, x, free, buffers);
    var m', job := Next(s, i, e).pool.mem, s.jobs[i];
    hide Inv, Next, Enabled, Safe, KeepsFile, SameOutside, FreelistAdd, WithRegion, Roomy, FreshRegion;
    if e.FinishOpen? {
      WriteElsewhere(s, m', i, x, job.oat.addr, 16, free, buffers);
    } else if e.Statement? && job.Close? && job.cat == CLink {
      WriteElsewhere(s, m', i, x, job.ptr, LINK_SIZE, free, buffers);
    } else if e.TryAcquire? || e.EndUse? {
      UseKeeps(s, m', i, x, free, buffers);
    } else if e.Statement? && job.Open? && job.oat == OGrow {
      GrowKeeps(s, m', i, e.region, x, free, buffers);
    } else {
      SameKeeps(m', x);
    }
  }

  lemma OpenIsMapped(s: State, x: nat, free: seq<nat>, buffers: seq<nat>)
    requires Inv(s, free, buffers) && x in s.open
    ensures x in Live(s) && Mapped(s.pool.mem, x, 24)
  {
    hide Inv;
    LiveFileMapped(s, free, buffers, x);
  }

  lemma SameKeeps(m: Memory, x: nat)
    requires Mapped(m, x, 24)
    ensures KeepsFile(m, m, x)
  {
  }

  lemma UseKeeps(s: State, m': Memory, i: nat, x: nat, free: seq<nat>, buffers: seq<nat>)
    requires Inv(s, free, buffers) && i < |s.jobs| && x in s.open && s.jobs[i].Use? && Mapped(s.pool.mem, x, 24)
    requires SameOutside(s.pool.mem, m', s.jobs[i].ptr + MUTEX_OFFSET, 4)
    ensures KeepsFile(s.pool.mem, m', x)
  {
    hide Inv, KeepsFile;
    UsersAreOpen(s, free, buffers);
    var y := s.jobs[i].ptr;
    if y != x {
      assert x in Live(s) && y in Live(s);
      LiveApart(s, free, buffers, x, y);
    }
    WriteKeeps(s.pool.mem, m', x, y + MUTEX_OFFSET, 4);
  }

  lemma GrowKeeps(s: State, m': Memory, i: nat, region: nat, x: nat, free: seq<nat>, buffers: seq<nat>)
    requires Inv(s, free, buffers) && i < |s.jobs| && x in s.open && Mapped(s.pool.mem, x, 24)
    requires s.jobs[i].Open? && s.jobs[i].oat == OGrow
    requires Roomy(s.pool) && s.pool.head < TWO_TO_THE_64 && Roomy(WithRegion(s.pool, region)) && FreshRegion(s.pool, region)
    requires region + s.pool.bufferSize <= TWO_TO_THE_64
    requires m' == FreelistAdd(WithRegion(s.pool, region), region).mem
    ensures KeepsFile(s.pool.mem, m', x)
  {
    hide BucketAt, BucketCount, Header, Load, Rep, WordsCount, PhaseFits, Flight, FreelistAdd, WithRegion, Roomy;
    assert JobFits(s, s.jobs[i], free, buffers);
    RegionGrows(s.pool, region);
  }

  lemma WriteElsewhere(s: State, m': Memory, i: nat, x: nat, y: nat, n: nat, free: seq<nat>, buffers: seq<nat>)
    requires Inv(s, free, buffers) && i < |s.jobs| && x in s.open && y in InFlight(s.jobs[i]) && n <= FILE_BUCKET
    requires SameOutside(s.pool.mem, m', y, n) && Mapped(s.pool.mem, x, 24)
    ensures KeepsFile(s.pool.mem, m', x)
  {
    hide Inv, Load, KeepsFile;
    OpenIsNotInFlight(s, free, buffers, i, x, y);
    OwnedIsLive(s, i);
    LiveApart(s, free, buffers, x, y);
    WriteKeeps(s.pool.mem, m', x, y, n);
  }

  // ---------- runs ----------

  lemma KeepsTwice(m: Memory, m': Memory, m'': Memory, x: nat)
    requires KeepsFile(m, m', x) && KeepsFile(m', m'', x)
    ensures KeepsFile(m, m'', x)
  {
    forall a | OutsideWord(x, a) ensures a in m && a in m'' && m''[a] == m[a] {
      assert a in m && a in m' && m'[a] == m[a];
    }
  }

  /** Closing a FILE takes it out of the open ones. */
  lemma CloseRemoves(s: State, i: nat, x: nat)
    requires Enabled(s, i, CallClose(x)) && Safe(s, i, CallClose(x)) && s.open[x] <= 1
    ensures x !in Next(s, i, CallClose(x)).open
  {
  }

  /** As long as a FILE is open, every byte of it outside its mutex word stays as it is, whatever any
    thread does. */
  lemma {:induction false} OpenFileKept(run: seq<State>, j: nat, k: nat, x: nat)
    requires IsRun(run) && j <= k < |run| && forall t :: j <= t <= k ==> x in run[t].open
    ensures KeepsFile(run[j].pool.mem, run[k].pool.mem, x)
    decreases k
  {
    hide Inv, Start, Enabled, Safe, Next, Accounted, KeepsFile;
    var free, buffers := RunInv(run, if j < k then k - 1 else j);
    if j == k {
      OpenIsMapped(run[j], x, free, buffers);
      SameKeeps(run[j].pool.mem, x);
    } else {
      OpenFileKept(run, j, k - 1, x);
      var s := run[k - 1];
      assert Step(run[k - 1], run[k - 1 + 1]);
      var i, e :| Enabled(s, i, e) && Safe(s, i, e) && run[k] == Next(s, i, e);
      OpenFilesDisjoint(run, k - 1);
      assert x in s.open && x in run[k].open;
      if e == CallClose(x) {
        CloseRemoves(s, i, x);
      }
      StepKeepsFile(s, i, e, x, free, buffers);
      KeepsTwice(run[j].pool.mem, s.pool.mem, run[k].pool.mem, x);
    }
  }

  /** Descriptor and flags: a word at 0 and a half word at 8. */
  lemma SameHandle(m: Memory, m': Memory, x: nat)
    requires KeepsFile(m, m', x)
    ensures Mapped(m, x, 16) && Mapped(m', x, 16)
    ensures Load64(m', x) == Load64(m, x) && Load32(m', x + 8) == Load32(m, x + 8)
  {
    hide Load;
    forall a | x <= a < x + 16 ensures a in m && a in m' && m'[a] == m[a] {
      assert OutsideWord(x, a);
    }
    LoadCongruence(m, m', x, x, 8);
    LoadCongruence(m, m', x + 8, x + 8, 4);
  }

  /** If the FILE at x is open from state j to state k, it has this handle in state k. */
  ghost predicate HasHandle(run: seq<State>, j: nat, k: nat, x: nat, fd: nat, flags: nat)
    requires k < |run|
  {
    (forall t :: j <= t <= k ==> x in run[t].open) ==>
      Mapped(run[k].pool.mem, x, 16) && Load64(run[k].pool.mem, x) == fd && Load32(run[k].pool.mem, x + 8) == flags
  }

  lemma HandleStays(run: seq<State>, j: nat, k: nat, x: nat, fd: nat, flags: nat)
    requires IsRun(run) && j <= k < |run| && Stream(run[j].pool.mem, x, fd, flags)
    ensures HasHandle(run, j, k, x, fd, flags)
  {
    hide IsRun, KeepsFile, Load;
    if forall t :: j <= t <= k ==> x in run[t].open {
      OpenFileKept(run, j, k, x);
      SameHandle(run[j].pool.mem, run[k].pool.mem, x);
    }
  }

  /** From the return of the fopen that opened it until it is closed, a FILE holds the handle that was
    opened for it. */
  lemma OpenedHandleStays(run: seq<State>, j: nat, i: nat, k: nat)
    requires IsRun(run) && j < k < |run| && i < |run[j].jobs|
    requires Enabled(run[j], i, FinishOpen) && Safe(run[j], i, FinishOpen) && run[j + 1] == Next(run[j], i, FinishOpen)
    ensures run[j].jobs[i].Open? && run[j].jobs[i].oat.OInit?
    ensures var x, file := run[j].jobs[i].oat.addr, run[j].jobs[i].file; HasHandle(run, j + 1, k, x, file.fd, file.flags)
  {
    hide IsRun, Enabled, Safe, Next, HasHandle, Stream;
    OpenedFileIsUnlocked(run, j, i, run[j + 1]);
    HandleStays(run, j + 1, k, run[j].jobs[i].oat.addr, run[j].jobs[i].file.fd, run[j].jobs[i].file.flags);
  }

  /** And from the start until they are closed, the standard streams hold descriptors 0, 1 and 2 and
    the flags for reading, for writing, and none. */
  lemma StreamHandlesStay(run: seq<State>, k: nat) returns (f: seq<nat>)
    requires IsRun(run) && k < |run|
    ensures |f| == 3 && run[0].open == multiset{f[0], f[1], f[2]}
    ensures HasHandle(run, 0, k, f[0], 0, 1) && HasHandle(run, 0, k, f[1], 1, 2) && HasHandle(run, 0, k, f[2], 2, 0)
  {
    hide Inv, Accounted, Stream, HasHandle, IsRun;
    var free;
    FirstIsStart(run);
    free, f := StartInv(run[0]);
    HandleStays(run, 0, k, f[0], 0, 1);
    HandleStays(run, 0, k, f[1], 1, 2);
    HandleStays(run, 0, k, f[2], 2, 0);
  }

  lemma FirstIsStart(run: seq<State>)
    requires IsRun(run)
    ensures Start(run[0])
  {
  }
}
