/** Every step of every thread in FilePool keeps its invariant. */
module FilePoolSteps {
  import opened Machine
  import opened PoolSpec
  import opened PoolGrow
  import opened FilePool
  import PoolRuns
  import Mutex

  lemma LiveAfter(s: State, i: nat, job: Job)
    requires i < |s.jobs| && InFlight(job) == InFlight(s.jobs[i])
    ensures Flight(s.jobs[i := job]) == Flight(s.jobs)
  {
    hide InFlight;
    FlightUpdate(s.jobs, i, job);
    Cancel(Flight(s.jobs[i := job]), Flight(s.jobs), InFlight(job));
  }

  lemma Cancel(a: multiset<nat>, b: multiset<nat>, x: multiset<nat>)
    requires a + x == b + x
    ensures a == b
  {
    assert a == (a + x) - x && b == (b + x) - x;
  }

  /** The operations under way are on open FILEs. */
  lemma UsersAreOpen(s: State, free: seq<nat>, buffers: seq<nat>)
    requires Inv(s, free, buffers)
    ensures forall j :: 0 <= j < |s.jobs| && s.jobs[j].Use? ==> s.jobs[j].ptr in s.open
  {
    hide BucketAt, BucketCount, Header, Load, Rep, WordsCount, PhaseFits;
    forall j | 0 <= j < |s.jobs| && s.jobs[j].Use? ensures s.jobs[j].ptr in s.open {
      assert JobFits(s, s.jobs[j], free, buffers);
    }
  }

  /** Stages that ask nothing of the pool. */
  predicate Easy(job: Job) {
    || job == NoJob
    || (job.Open? && (job.oat == OEnter || job.oat == OTest || job.oat.ODone? || job.oat.OWake? || job.oat.OInit?))
    || (job.Close? && job.cat != CHead)
  }

  lemma EasyFits(s: State, job: Job, free: seq<nat>, buffers: seq<nat>)
    requires Easy(job)
    ensures JobFits(s, job, free, buffers)
  {
  }

  // ---------- no faults ----------

  lemma LiveFileMapped(s: State, free: seq<nat>, buffers: seq<nat>, x: nat)
    requires Inv(s, free, buffers) && x in Live(s)
    ensures Mapped(s.pool.mem, x, FILE_BUCKET) && Mapped(s.pool.mem, x, SIZEOF_FILE) && Mapped(s.pool.mem, x, LINK_SIZE)
    ensures x in AllBuckets(s.pool, buffers)
  {
    hide BucketAt, BucketCount, Header, Load, Chain;
    LiveIsBucket(s.pool, free, Live(s), buffers, x);
    BucketMapped(s.pool, buffers, x);
  }

  lemma OwnedIsLive(s: State, i: nat)
    requires i < |s.jobs|
    ensures forall x :: x in InFlight(s.jobs[i]) ==> x in Live(s)
  {
    FlightUpdate(s.jobs, i, NoJob);
  }

  lemma OpenIsSafe(s: State, i: nat, e: Event, free: seq<nat>, buffers: seq<nat>)
    requires Inv(s, free, buffers) && Enabled(s, i, e) && s.jobs[i].Open?
    ensures Safe(s, i, e)
  {
    assert JobFits(s, s.jobs[i], free, buffers) && Roomy(s.pool);
    HeadFits(s.pool, free, Live(s), buffers);
    hide BucketAt, BucketCount, Header, Load, Chain, Rep, WordsCount, PhaseFits;
    if s.jobs[i].oat.OInit? {
      OwnedIsLive(s, i);
      LiveFileMapped(s, free, buffers, s.jobs[i].oat.addr);
    }
  }

  lemma CloseOrUseIsSafe(s: State, i: nat, e: Event, free: seq<nat>, buffers: seq<nat>)
    requires Inv(s, free, buffers) && Enabled(s, i, e) && (s.jobs[i].Close? || s.jobs[i].Use?)
    ensures Safe(s, i, e)
  {
    hide BucketAt, BucketCount, Header, Load, Chain, Rep, WordsCount, PhaseFits, JobFits;
    HeadFits(s.pool, free, Live(s), buffers);
    UsersAreOpen(s, free, buffers);
    OwnedIsLive(s, i);
    if s.jobs[i].Use? || s.jobs[i].cat == CLink {
      LiveFileMapped(s, free, buffers, s.jobs[i].ptr);
    }
  }

  /** No call faults: whatever step the program may take next is defined. */
  lemma EnabledIsSafe(s: State, i: nat, e: Event, free: seq<nat>, buffers: seq<nat>)
    requires Inv(s, free, buffers) && Enabled(s, i, e)
    ensures Safe(s, i, e)
  {
    assert PhaseFits(s.m.phases[i], s.jobs[i]);
    hide Rep, WordsCount, JobFits;
    if s.jobs[i].Open? {
      OpenIsSafe(s, i, e, free, buffers);
    } else if s.jobs[i].Close? || s.jobs[i].Use? {
      CloseOrUseIsSafe(s, i, e, free, buffers);
    }
  }

  // ---------- calls, and steps of the pool mutex ----------

  lemma BeginFits(s: State, i: nat, job: Job)
    requires |s.jobs| == |s.m.phases| && (forall j :: 0 <= j < |s.jobs| ==> PhaseFits(s.m.phases[j], s.jobs[j]))
    requires i < |s.jobs| && s.jobs[i] == NoJob
    requires (job.Open? && job.oat == OEnter) || (job.Close? && job.cat == CEnter)
    ensures Mutex.Enabled(s.m, i, Mutex.Begin)
    ensures var m' := Mutex.Next(s.m, i, Mutex.Begin);
            forall j :: 0 <= j < |s.jobs| ==> PhaseFits(m'.phases[j], s.jobs[i := job][j])
  {
  }

  lemma CallOpenStep(s: State, i: nat, file: RtFile, free: seq<nat>, buffers: seq<nat>)
    requires Inv(s, free, buffers) && Enabled(s, i, CallOpen(file)) && Safe(s, i, CallOpen(file))
    ensures Inv(Next(s, i, CallOpen(file)), free, buffers)
  {
    hide BucketAt, BucketCount, Header, Load, Rep, WordsCount, JobFits, PhaseFits;
    var s' := Next(s, i, CallOpen(file));
    LiveAfter(s, i, s'.jobs[i]);
    Mutex.StepKeepsInv(s.m, i, Mutex.Begin);
    BeginFits(s, i, s'.jobs[i]);
    UsersAreOpen(s, free, buffers);
    EasyFits(s', s'.jobs[i], free, buffers);
    QuietStep(s, s', i, free, buffers);
  }

  /** A FILE handed to fclose goes from the open ones to those in flight. */
  lemma HandedOver(s: State, i: nat, ptr: nat)
    requires i < |s.jobs| && s.jobs[i] == NoJob && ptr in s.open
    ensures (s.open - multiset{ptr}) + Flight(s.jobs[i := Close(ptr, CEnter)]) == Live(s)
  {
    FlightUpdate(s.jobs, i, Close(ptr, CEnter));
    assert InFlight(NoJob) == multiset{} && InFlight(Close(ptr, CEnter)) == multiset{ptr};
    hide InFlight, Flight;
    PassedOn(s.open, Flight(s.jobs), Flight(s.jobs[i := Close(ptr, CEnter)]), ptr);
  }

  lemma PassedOn(o: multiset<nat>, f: multiset<nat>, f': multiset<nat>, x: nat)
    requires x in o && f' + multiset{} == f + multiset{x}
    ensures (o - multiset{x}) + f' == o + f
  {
    assert o == (o - multiset{x}) + multiset{x};
    assert f' == f + multiset{x};
    assert (o - multiset{x}) + (f + multiset{x}) == ((o - multiset{x}) + multiset{x}) + f;
  }

  lemma CallCloseStep(s: State, i: nat, ptr: nat, free: seq<nat>, buffers: seq<nat>)
    requires Inv(s, free, buffers) && Enabled(s, i, CallClose(ptr)) && Safe(s, i, CallClose(ptr))
    ensures Inv(Next(s, i, CallClose(ptr)), free, buffers)
  {
    hide BucketAt, BucketCount, Header, Load, Rep, WordsCount, JobFits, PhaseFits;
    var s' := Next(s, i, CallClose(ptr));
    HandedOver(s, i, ptr);
    Mutex.StepKeepsInv(s.m, i, Mutex.Begin);
    BeginFits(s, i, s'.jobs[i]);
    UsersAreOpen(s, free, buffers);
    EasyFits(s', s'.jobs[i], free, buffers);
    QuietStep(s, s', i, free, buffers);
  }

  lemma CallUseStep(s: State, i: nat, ptr: nat, free: seq<nat>, buffers: seq<nat>)
    requires Inv(s, free, buffers) && Enabled(s, i, CallUse(ptr))
    ensures Inv(Next(s, i, CallUse(ptr)), free, buffers)
  {
    hide BucketAt, BucketCount, Header, Load, Rep, WordsCount;
    var s' := Next(s, i, CallUse(ptr));
    assert PhaseFits(s.m.phases[i], NoJob) && PhaseFits(s.m.phases[i], s'.jobs[i]);
    assert JobFits(s', s'.jobs[i], free, buffers);
    assert InFlight(s'.jobs[i]) == InFlight(s.jobs[i]);
    hide PhaseFits, JobFits, InFlight, Flight;
    LiveAfter(s, i, s'.jobs[i]);
    UsersAreOpen(s, free, buffers);
    QuietStep(s, s', i, free, buffers);
  }

  /** The phase of the pool mutex and the stage of the call change together. */
  lemma SyncOwnFits(m: Mutex.State, job: Job, i: nat, a: Mutex.Action)
    requires i < |m.phases| && PhaseFits(m.phases[i], job)
    requires a != Mutex.Begin && Mutex.Enabled(m, i, a) && (a == Mutex.Release ==> PoolCallOver(job))
    ensures Easy(JobAfterSync(job, a, m.word)) && !JobAfterSync(job, a, m.word).Use? && !job.Use?
    ensures |Mutex.Next(m, i, a).phases| == |m.phases|
    ensures PhaseFits(Mutex.Next(m, i, a).phases[i], JobAfterSync(job, a, m.word))
  {
    hide InFlight;
  }

  lemma SyncOwnsSame(phase: Mutex.Phase, job: Job, a: Mutex.Action, word: nat)
    requires PhaseFits(phase, job) && (a == Mutex.Release ==> PoolCallOver(job))
    requires a == Mutex.CompareExchange ==> phase == Mutex.TryCas
    requires a.WakeOne? || a.WakeNobody? ==> phase == Mutex.ToWake
    ensures OwnedBy(JobAfterSync(job, a, word)) == OwnedBy(job)
  {
  }

  lemma SyncOthersFit(m: Mutex.State, job: Job, i: nat, a: Mutex.Action, j: nat)
    requires i < |m.phases| && j < |m.phases| && j != i && PhaseFits(m.phases[j], job)
    requires Mutex.Enabled(m, i, a)
    ensures |Mutex.Next(m, i, a).phases| == |m.phases| && PhaseFits(Mutex.Next(m, i, a).phases[j], job)
  {
  }

  lemma SyncFits(s: State, i: nat, a: Mutex.Action)
    requires |s.jobs| == |s.m.phases| && (forall j :: 0 <= j < |s.jobs| ==> PhaseFits(s.m.phases[j], s.jobs[j]))
    requires a != Mutex.Begin && Mutex.Enabled(s.m, i, a) && (a == Mutex.Release ==> PoolCallOver(s.jobs[i]))
    ensures var m', job' := Mutex.Next(s.m, i, a), JobAfterSync(s.jobs[i], a, s.m.word);
            && Easy(job') && InFlight(job') == InFlight(s.jobs[i])
            && !job'.Use? && !s.jobs[i].Use? && |m'.phases| == |s.m.phases|
            && forall j :: 0 <= j < |s.jobs| ==> PhaseFits(m'.phases[j], s.jobs[i := job'][j])
  {
    hide PhaseFits, OwnedBy, Easy, JobAfterSync, PoolCallOver;
    SyncOwnFits(s.m, s.jobs[i], i, a);
    SyncOwnsSame(s.m.phases[i], s.jobs[i], a, s.m.word);
    var m', job' := Mutex.Next(s.m, i, a), JobAfterSync(s.jobs[i], a, s.m.word);
    forall j | 0 <= j < |s.jobs| ensures PhaseFits(m'.phases[j], s.jobs[i := job'][j]) {
      if j != i {
        SyncOthersFit(s.m, s.jobs[j], i, a, j);
      }
    }
  }

  lemma SyncStep(s: State, i: nat, a: Mutex.Action, free: seq<nat>, buffers: seq<nat>)
    requires Inv(s, free, buffers) && Enabled(s, i, Sync(a))
    ensures Inv(Next(s, i, Sync(a)), free, buffers)
  {
    hide BucketAt, BucketCount, Header, Load, Rep, WordsCount, JobFits, PhaseFits, JobAfterSync, InFlight, Easy;
    var s' := Next(s, i, Sync(a));
    SyncFits(s, i, a);
    Mutex.StepKeepsInv(s.m, i, a);
    LiveAfter(s, i, s'.jobs[i]);
    UsersAreOpen(s, free, buffers);
    EasyFits(s', s'.jobs[i], free, buffers);
    QuietStep(s, s', i, free, buffers);
  }

  // ---------- statements of the pool calls ----------

  /** While thread i is in the critical section, no other thread is inside a pool call; so the
    others do not mind what it does to the list. */
  lemma OthersOutside(s: State, s': State, i: nat, free: seq<nat>, buffers: seq<nat>, free': seq<nat>, buffers': seq<nat>)
    requires Inv(s, free, buffers) && i < |s.jobs| && s.m.phases[i] == Mutex.Held
    requires s'.m == s.m && |s'.jobs| == |s.jobs| && s'.open == s.open
    requires s'.jobs == s.jobs[i := s'.jobs[i]] && PhaseFits(Mutex.Held, s'.jobs[i])
    ensures forall j :: 0 <= j < |s'.jobs| ==> PhaseFits(s'.m.phases[j], s'.jobs[j])
    ensures forall j :: 0 <= j < |s'.jobs| && j != i ==> JobFits(s', s'.jobs[j], free', buffers')
  {
    hide BucketAt, BucketCount, Header, Load, Rep, WordsCount;
    forall j | 0 <= j < |s'.jobs|
      ensures PhaseFits(s'.m.phases[j], s'.jobs[j])
      ensures j != i ==> JobFits(s', s'.jobs[j], free', buffers')
    {
      assert PhaseFits(s.m.phases[j], s.jobs[j]) && JobFits(s, s.jobs[j], free, buffers);
      if j != i {
        Mutex.OnlyOneHolder(s.m, i, j);
      }
    }
  }

  /** A statement of the thread in the critical section, whatever it does to the list. */
  lemma HolderStep(s: State, s': State, i: nat, free: seq<nat>, buffers: seq<nat>, free': seq<nat>, buffers': seq<nat>)
    requires Inv(s, free, buffers) && i < |s.jobs| && s.m.phases[i] == Mutex.Held
    requires s'.m == s.m && |s'.jobs| == |s.jobs| && s'.open == s.open && s'.pool.bucketSize == s.pool.bucketSize
    requires s'.jobs == s.jobs[i := s'.jobs[i]] && PhaseFits(Mutex.Held, s'.jobs[i])
    requires Roomy(s'.pool) && Rep(s'.pool, free', Live(s'), buffers') && WordsCount(s'.pool, s.jobs, buffers')
    requires JobFits(s', s'.jobs[i], free', buffers')
    ensures Inv(s', free', buffers')
  {
    hide BucketAt, BucketCount, Header, Load, Rep, WordsCount, JobFits;
    OthersOutside(s, s', i, free, buffers, free', buffers');
    NotUsing(s, i);
    NotUsing(s', i);
    SameHolders(s.jobs, i, s'.jobs[i]);
    SameWords(s'.pool, s.jobs, s'.jobs, buffers');
  }

  lemma NotUsing(s: State, i: nat)
    requires i < |s.jobs| == |s.m.phases| && PhaseFits(Mutex.Held, s.jobs[i])
    ensures !s.jobs[i].Use?
  {
  }

  lemma WordsIgnoreHead(p: Pool, p': Pool, jobs: seq<Job>, buffers: seq<nat>)
    requires Roomy(p) && WordsCount(p, jobs, buffers) && p' == p.(head := p'.head)
    ensures Roomy(p') && WordsCount(p', jobs, buffers)
  {
    hide BucketAt, BucketCount, Header, Load;
    SameGeometry(p, p', buffers);
  }

  lemma ReadFits(s: State, i: nat, region: nat, free: seq<nat>, buffers: seq<nat>)
    requires Enabled(s, i, Statement(region)) && Safe(s, i, Statement(region))
    requires s.jobs[i].Open? && (s.jobs[i].oat == OTest || s.jobs[i].oat == OTake || s.jobs[i].oat.ONext?)
    requires JobFits(s, s.jobs[i], free, buffers)
    ensures var s' := Next(s, i, Statement(region));
            && s' == s.(jobs := s.jobs[i := s'.jobs[i]])
            && InFlight(s'.jobs[i]) == InFlight(s.jobs[i])
            && PhaseFits(Mutex.Held, s'.jobs[i]) && JobFits(s', s'.jobs[i], free, buffers)
  {
    hide BucketAt, BucketCount, Header, Load, Rep, WordsCount;
  }

  /** Reading steps: the test for an empty list, and the two reads of the head. */
  lemma ReadStatement(s: State, i: nat, region: nat, free: seq<nat>, buffers: seq<nat>)
    requires Inv(s, free, buffers) && Enabled(s, i, Statement(region)) && Safe(s, i, Statement(region))
    requires s.jobs[i].Open? && (s.jobs[i].oat == OTest || s.jobs[i].oat == OTake || s.jobs[i].oat.ONext?)
    ensures Inv(Next(s, i, Statement(region)), free, buffers)
  {
    ReadFits(s, i, region, free, buffers);
    hide BucketAt, BucketCount, Header, Load, Rep, WordsCount, JobFits, PhaseFits, InFlight, Next, Safe;
    var s' := Next(s, i, Statement(region));
    LiveAfter(s, i, s'.jobs[i]);
    RepParts(s.pool, free, Live(s), buffers);
    HolderStep(s, s', i, free, buffers, free, buffers);
  }

  lemma StoreFits(s: State, i: nat, region: nat, free: seq<nat>, buffers: seq<nat>)
    requires Enabled(s, i, Statement(region)) && Safe(s, i, Statement(region))
    requires s.jobs[i].Open? && s.jobs[i].oat.OStore? && JobFits(s, s.jobs[i], free, buffers)
    ensures var s' := Next(s, i, Statement(region));
            && s.pool.head != 0 && Mapped(s.pool.mem, s.pool.head, LINK_SIZE)
            && s' == s.(pool := s.pool.(head := Load64(s.pool.mem, s.pool.head)), jobs := s.jobs[i := s'.jobs[i]])
            && InFlight(s.jobs[i]) == multiset{} && InFlight(s'.jobs[i]) == multiset{s.pool.head}
            && PhaseFits(Mutex.Held, s'.jobs[i]) && Easy(s'.jobs[i])
  {
    hide BucketAt, BucketCount, Header, Load, Rep, WordsCount;
  }

  /** Storing the second bucket's address as the head: the first bucket is now in flight. */
  lemma StoreHead(s: State, i: nat, region: nat, free: seq<nat>, buffers: seq<nat>)
    requires Inv(s, free, buffers) && Enabled(s, i, Statement(region)) && Safe(s, i, Statement(region))
    requires s.jobs[i].Open? && s.jobs[i].oat.OStore?
    ensures free != [] && Inv(Next(s, i, Statement(region)), free[1..], buffers)
  {
    StoreFits(s, i, region, free, buffers);
    hide BucketAt, BucketCount, Header, Load, Chain, Rep, WordsCount, JobFits, PhaseFits, InFlight, Next, Safe, Easy;
    var s' := Next(s, i, Statement(region));
    RepParts(s.pool, free, Live(s), buffers);
    Pop(s.pool, free, Live(s), buffers);
    EasyFits(s', s'.jobs[i], free[1..], buffers);
    FlightUpdate(s.jobs, i, s'.jobs[i]);
    assert Flight(s'.jobs) == Flight(s.jobs) + multiset{s.pool.head};
    assert Live(s') == Live(s) + multiset{s.pool.head};
    WordsIgnoreHead(s.pool, s'.pool, s.jobs, buffers);
    HolderStep(s, s', i, free, buffers, free[1..], buffers);
  }

  lemma LandedFlight(s: State, i: nat, ptr: nat)
    requires i < |s.jobs| && s.jobs[i] == Close(ptr, CHead)
    ensures ptr in Live(s)
    ensures s.open + Flight(s.jobs[i := Close(ptr, CDone)]) == Live(s) - multiset{ptr}
  {
    FlightUpdate(s.jobs, i, Close(ptr, CDone));
    Landed(s.open, Flight(s.jobs), Flight(s.jobs[i := Close(ptr, CDone)]), ptr);
  }

  lemma Landed(o: multiset<nat>, f: multiset<nat>, f': multiset<nat>, x: nat)
    requires f' + multiset{x} == f
    ensures x in o + f && o + f' == (o + f) - multiset{x}
  {
  }

  /** Storing the freed bucket's address as the head. */
  lemma PushHead(s: State, i: nat, region: nat, free: seq<nat>, buffers: seq<nat>)
    requires Inv(s, free, buffers) && Enabled(s, i, Statement(region)) && Safe(s, i, Statement(region))
    requires s.jobs[i].Close? && s.jobs[i].cat == CHead
    ensures Inv(Next(s, i, Statement(region)), [s.jobs[i].ptr] + free, buffers)
  {
    hide BucketAt, BucketCount, Header, Load, Chain, Rep, WordsCount;
    var s' := Next(s, i, Statement(region));
    var ptr := s.jobs[i].ptr;
    assert PhaseFits(s.m.phases[i], s.jobs[i]) && PhaseFits(Mutex.Held, s'.jobs[i]) && JobFits(s, s.jobs[i], free, buffers);
    EasyFits(s', s'.jobs[i], [ptr] + free, buffers);
    hide JobFits, PhaseFits, Easy;
    RepParts(s.pool, free, Live(s), buffers);
    LandedFlight(s, i, ptr);
    Push(s.pool, free, Live(s), buffers, ptr);
    WordsIgnoreHead(s.pool, s'.pool, s.jobs, buffers);
    HolderStep(s, s', i, free, buffers, [ptr] + free, buffers);
  }

  /** Storing the head of the new buffer's list. */
  lemma PublishBuffer(s: State, i: nat, region: nat, free: seq<nat>, buffers: seq<nat>)
    requires Inv(s, free, buffers) && Enabled(s, i, Statement(region)) && Safe(s, i, Statement(region))
    requires s.jobs[i].Open? && s.jobs[i].oat.OPublish?
    ensures Inv(Next(s, i, Statement(region)), BucketsOf(s.pool, s.jobs[i].oat.region), buffers + [s.jobs[i].oat.region])
  {
    hide BucketAt, BucketCount, Header, Load, Chain, Rep, WordsCount;
    var s' := Next(s, i, Statement(region));
    var r := s.jobs[i].oat.region;
    assert PhaseFits(s.m.phases[i], s.jobs[i]) && JobFits(s, s.jobs[i], free, buffers);
    LiveAfter(s, i, s'.jobs[i]);
    WordsIgnoreHead(s.pool, s'.pool, s.jobs, buffers + [r]);
    HeadFits(s'.pool, BucketsOf(s.pool, r), Live(s), buffers + [r]);
    HolderStep(s, s', i, free, buffers, BucketsOf(s.pool, r), buffers + [r]);
  }

  /** Mapping a new buffer and building its list: nobody can see it yet. */
  lemma GrowBuffer(s: State, i: nat, region: nat, free: seq<nat>, buffers: seq<nat>)
    requires Inv(s, free, buffers) && Enabled(s, i, Statement(region)) && Safe(s, i, Statement(region))
    requires s.jobs[i].Open? && s.jobs[i].oat == OGrow
    ensures Inv(Next(s, i, Statement(region)), free, buffers)
  {
    hide BucketAt, BucketCount, Header, Load, LinkChain, WordsCount, Rep, Chain;
    var s' := Next(s, i, Statement(region));
    var p := s.pool;
    RepParts(p, free, Live(s), buffers);
    SameGeometry(p, WithRegion(p, region), []);
    assert PhaseFits(s.m.phases[i], s.jobs[i]) && JobFits(s, s.jobs[i], free, buffers);
    HeadFits(p, free, Live(s), buffers);
    LiveAfter(s, i, s'.jobs[i]);
    Grow(p, free, Live(s), buffers, region);
    var grown := FreelistAdd(WithRegion(p, region), region);
    RepParts(grown, BucketsOf(p, region) + free, Live(s), buffers + [region]);
    assert BucketsOf(p, region) + free == BucketsOf(p, region);
    SameGeometry(p, s'.pool, buffers);
    SameAddress(grown, s'.pool, region, 0);
    SameAddress(WithRegion(p, region), grown, region, 0);
    assert s'.pool.(head := BucketAt(s'.pool, region, 0)) == grown;
    SameBuckets(p, s'.pool, region);
    UnpublishedRep(p, s'.pool, Live(s), buffers, region);
    GrownWords(s, grown, region, free, buffers);
    WordsIgnoreHead(grown, s'.pool, s.jobs, buffers + [region]);
    MoreBuffersMoreBuckets(s'.pool, buffers, region);
    FewerWords(s'.pool, s.jobs, buffers, region);
    var job' := s'.jobs[i];
    SameHolders(s.jobs, i, job');
    SameWords(s'.pool, s.jobs, s'.jobs, buffers + [region]);
    HolderStep(s, s', i, free, buffers, free, buffers);
  }

  lemma RepParts(p: Pool, free: seq<nat>, live: multiset<nat>, buffers: seq<nat>)
    requires Rep(p, free, live, buffers)
    ensures Roomy(p) && BuffersOk(p, buffers) && HeaderNull(p)
  {
  }

  /** Before its head is stored, a new buffer changes nothing for an empty list. */
  lemma UnpublishedRep(p: Pool, p': Pool, live: multiset<nat>, buffers: seq<nat>, region: nat)
    requires Rep(p, [], live, buffers) && FreshRegion(p, region) && PoolRuns.SameSizes(p, p') && p'.head == p.head
    requires forall a :: a in p.mem ==> a in p'.mem
    requires forall a :: a in p.mem && Outside(a, BucketsOf(p, region), LINK_SIZE) ==> a in p'.mem && p'.mem[a] == p.mem[a]
    ensures Rep(p', [], live, buffers)
  {
    hide BucketAt, BucketCount, Header, Load;
    SameGeometry(p, p', buffers);
    HeaderUntouched(p, p', region);
    assert BuffersOk(p', buffers);
  }

  lemma FewerWords(p: Pool, jobs: seq<Job>, buffers: seq<nat>, region: nat)
    requires Roomy(p) && AllBuckets(p, buffers) <= AllBuckets(p, buffers + [region])
    requires WordsCount(p, jobs, buffers + [region])
    ensures WordsCount(p, jobs, buffers)
  {
    hide BucketAt, BucketCount, Header, Load;
  }

  lemma SameAddress(p: Pool, q: Pool, buffer: nat, k: nat)
    requires Roomy(p) && q.bucketSize == p.bucketSize && q.alignment == p.alignment
    ensures BucketAt(q, buffer, k) == BucketAt(p, buffer, k)
  {
  }

  lemma MoreBuffersMoreBuckets(p: Pool, buffers: seq<nat>, region: nat)
    requires Roomy(p)
    ensures AllBuckets(p, buffers) <= AllBuckets(p, buffers + [region])
  {
    hide BucketAt, BucketCount, Header;
    forall x | x in AllBuckets(p, buffers) ensures x in AllBuckets(p, buffers + [region]) {
      var j, k := BucketOfBuffer(p, buffers, x);
      assert x == BucketAt(p, (buffers + [region])[j], k);
    }
  }

  /** The mutex words of a buffer fresh from mmap are zero, and no operation is under way there. */
  lemma GrownWords(s: State, grown: Pool, region: nat, free: seq<nat>, buffers: seq<nat>)
    requires Inv(s, free, buffers) && FreshRegion(s.pool, region) && PoolRuns.SameSizes(s.pool, grown)
    requires forall a :: a in s.pool.mem && Outside(a, BucketsOf(s.pool, region), LINK_SIZE) ==> a in grown.mem && grown.mem[a] == s.pool.mem[a]
    requires forall a :: region <= a < region + s.pool.bufferSize && Outside(a, BucketsOf(s.pool, region), LINK_SIZE)
               ==> a in grown.mem && grown.mem[a] == 0
    requires Roomy(grown) && BuffersOk(grown, buffers + [region])
    ensures WordsCount(grown, s.jobs, buffers + [region])
  {
    hide BucketAt, BucketCount, Header, Load, Chain;
    var p := s.pool;
    SameGeometry(p, grown, buffers + [region]);
    forall b | b in AllBuckets(grown, buffers + [region])
      ensures Mapped(grown.mem, b, SIZEOF_FILE) && MutexWord(grown.mem, b) == multiset(s.jobs)[Use(b, true)]
    {
      BucketMapped(grown, buffers + [region], b);
      var j, k := BucketOfBuffer(grown, buffers + [region], b);
      if j < |buffers| {
        SameAddress(p, grown, buffers[j], k);
        assert b == BucketAt(p, buffers[j], k) && b in AllBuckets(p, buffers);
        forall a | b + MUTEX_OFFSET <= a < b + MUTEX_OFFSET + 4 ensures a in p.mem && grown.mem[a] == p.mem[a] {
          FreshBucketsOutside(p, region, a);
        }
        LoadCongruence(p.mem, grown.mem, b + MUTEX_OFFSET, b + MUTEX_OFFSET, 4);
      } else {
        SameAddress(p, grown, region, k);
        forall a | b + MUTEX_OFFSET <= a < b + MUTEX_OFFSET + 4 ensures grown.mem[a] == 0 {
          BehindTheLink(p, region, k, a);
        }
        LoadZero(grown.mem, b + MUTEX_OFFSET, 4);
        NobodyUses(s, free, buffers, b, region);
      }
    }
  }

  lemma BehindTheLink(p: Pool, region: nat, k: nat, a: nat)
    requires Roomy(p) && k < BucketCount(p)
    requires BucketAt(p, region, k) + LINK_SIZE <= a < BucketAt(p, region, k) + p.bucketSize
    ensures Outside(a, BucketsOf(p, region), LINK_SIZE)
  {
    hide BucketAt, BucketCount, Header;
    var bs := BucketsOf(p, region);
    forall j | 0 <= j < |bs| ensures !(bs[j] <= a < bs[j] + LINK_SIZE) {
      if j < k {
        BucketsAscend(p, region, j, k);
      } else if k < j {
        BucketsAscend(p, region, k, j);
      }
    }
  }

  lemma NobodyUses(s: State, free: seq<nat>, buffers: seq<nat>, b: nat, region: nat)
    requires Inv(s, free, buffers) && FreshRegion(s.pool, region)
    requires region <= b < region + s.pool.bufferSize
    ensures multiset(s.jobs)[Use(b, true)] == 0
  {
    hide BucketAt, BucketCount, Header, Load, Rep, WordsCount;
    if Use(b, true) in multiset(s.jobs) {
      var j :| 0 <= j < |s.jobs| && s.jobs[j] == Use(b, true);
      assert JobFits(s, s.jobs[j], free, buffers);
      var mapped := b in s.pool.mem;
      LiveFileMapped(s, free, buffers, b);
    }
  }

  // ---------- steps that write in a FILE ----------

  lemma WriteStep(s: State, s': State, i: nat, y: nat, free: seq<nat>, buffers: seq<nat>)
    requires Inv(s, free, buffers) && i < |s.jobs| && |s'.jobs| == |s.jobs|
    requires y in InFlight(s.jobs[i]) || y in s.open
    requires s'.m == s.m && s'.jobs == s.jobs[i := s'.jobs[i]] && Live(s') == Live(s)
    requires s'.pool == s.pool.(mem := s'.pool.mem) && SameOutside(s.pool.mem, s'.pool.mem, y, FILE_BUCKET)
    requires PhaseFits(s.m.phases[i], s'.jobs[i]) && OneUser(s'.jobs)
    requires forall b :: b != y ==> multiset(s'.jobs)[Use(b, true)] == multiset(s.jobs)[Use(b, true)]
    requires Mapped(s'.pool.mem, y, SIZEOF_FILE) && MutexWord(s'.pool.mem, y) == multiset(s'.jobs)[Use(y, true)]
    requires forall j :: 0 <= j < |s.jobs| && s.jobs[j].Use? && j != i ==> s.jobs[j].ptr in s'.open
    requires !(s'.jobs[i].Open?) && JobFits(s', s'.jobs[i], free, buffers)
    ensures Inv(s', free, buffers)
  {
    hide BucketAt, BucketCount, Header, Load, Chain, MutexWord, Rep, WordsCount, JobFits, PhaseFits, Flight, InFlight, BuffersOk;
    OwnedIsLive(s, i);
    WriteKeepsPool(s, s', y, free, buffers);
    UsersAreOpen(s, free, buffers);
    forall j | 0 <= j < |s'.jobs| ensures JobFits(s', s'.jobs[j], free, buffers) {
      if j != i {
        OtherJobFits(s, s', i, j, y, free, buffers);
      }
    }
  }

  lemma WriteKeepsPool(s: State, s': State, y: nat, free: seq<nat>, buffers: seq<nat>)
    requires Inv(s, free, buffers) && y in Live(s)
    requires s'.pool == s.pool.(mem := s'.pool.mem) && SameOutside(s.pool.mem, s'.pool.mem, y, FILE_BUCKET)
    requires forall b :: b != y ==> multiset(s'.jobs)[Use(b, true)] == multiset(s.jobs)[Use(b, true)]
    requires Mapped(s'.pool.mem, y, SIZEOF_FILE) && MutexWord(s'.pool.mem, y) == multiset(s'.jobs)[Use(y, true)]
    ensures Rep(s'.pool, free, Live(s), buffers) && Roomy(s'.pool) && WordsCount(s'.pool, s'.jobs, buffers)
  {
    hide BucketAt, BucketCount, Header, Load, Chain, MutexWord, Rep, WordsCount, JobFits, PhaseFits;
    LiveFileMapped(s, free, buffers, y);
    RepParts(s.pool, free, Live(s), buffers);
    LiveWrite(s.pool, free, Live(s), buffers, y, s'.pool.mem);
    WriteKeepsWords(s.pool, s'.pool, s.jobs, s'.jobs, buffers, y);
  }

  lemma OtherJobFits(s: State, s': State, i: nat, j: nat, y: nat, free: seq<nat>, buffers: seq<nat>)
    requires Inv(s, free, buffers) && i < |s.jobs| && j < |s.jobs| && i != j && y in Live(s)
    requires y in InFlight(s.jobs[i]) || y in s.open
    requires Live(s') == Live(s) && Rep(s'.pool, free, Live(s'), buffers)
    requires s'.pool == s.pool.(mem := s'.pool.mem) && SameOutside(s.pool.mem, s'.pool.mem, y, FILE_BUCKET)
    requires forall b :: b != y ==> multiset(s'.jobs)[Use(b, true)] == multiset(s.jobs)[Use(b, true)]
    requires Mapped(s'.pool.mem, y, SIZEOF_FILE) && MutexWord(s'.pool.mem, y) == multiset(s'.jobs)[Use(y, true)]
    requires s.jobs[j].Use? ==> s.jobs[j].ptr in s'.open
    ensures JobFits(s', s.jobs[j], free, buffers)
  {
    hide BucketAt, BucketCount, Header, Load, Chain, MutexWord;
    var job := s.jobs[j];
    assert JobFits(s, job, free, buffers);
    if job.Open? && job.oat.OPublish? {
      var p, r := s.pool, job.oat.region;
      var q := p.(head := BucketAt(p, r, 0));
      LiveIsBucket(q, BucketsOf(p, r), Live(s), buffers + [r], y);
      SameGeometry(q, p, buffers + [r]);
      WriteKeepsWords(p, s'.pool, s.jobs, s'.jobs, buffers + [r], y);
    } else if job.Close? && job.cat == CHead {
      OwnedIsLive(s, j);
      OthersDiffer(s, free, buffers, j, i, job.ptr, y);
    }
    WriteKeepsFits(s, s', job, free, buffers, y);
  }

  lemma LinkEffect(s: State, i: nat, region: nat, free: seq<nat>, buffers: seq<nat>)
    requires Enabled(s, i, Statement(region)) && Safe(s, i, Statement(region))
    requires s.jobs[i].Close? && s.jobs[i].cat == CLink
    ensures var s', ptr := Next(s, i, Statement(region)), s.jobs[i].ptr;
            && Mapped(s.pool.mem, ptr, LINK_SIZE)
            && s' == s.(pool := s.pool.(mem := s'.pool.mem), jobs := s.jobs[i := Close(ptr, CHead)])
            && SameOutside(s.pool.mem, s'.pool.mem, ptr, LINK_SIZE)
            && s.m.phases[i] == Mutex.Held && PhaseFits(Mutex.Held, s'.jobs[i]) && JobFits(s', s'.jobs[i], free, buffers)
  {
    hide BucketAt, BucketCount, Header, Load, Rep, Store, WordsCount;
  }

  /** cia_pool_free writes the link into the bucket. */
  lemma LinkFreed(s: State, i: nat, region: nat, free: seq<nat>, buffers: seq<nat>)
    requires Inv(s, free, buffers) && Enabled(s, i, Statement(region)) && Safe(s, i, Statement(region))
    requires s.jobs[i].Close? && s.jobs[i].cat == CLink
    ensures Inv(Next(s, i, Statement(region)), free, buffers)
  {
    LinkEffect(s, i, region, free, buffers);
    var s', ptr := Next(s, i, Statement(region)), s.jobs[i].ptr;
    assert ptr in InFlight(s.jobs[i]) && InFlight(s'.jobs[i]) == InFlight(s.jobs[i]);
    hide BucketAt, BucketCount, Header, Load, Rep, Store, WordsCount, JobFits, PhaseFits, Next, Safe, Enabled, InFlight, Flight;
    LiveAfter(s, i, s'.jobs[i]);
    OwnedIsLive(s, i);
    WordKept(s, s'.pool.mem, ptr, LINK_SIZE, free, buffers);
    SameHolders(s.jobs, i, s'.jobs[i]);
    UsersAreOpen(s, free, buffers);
    WriteStep(s, s', i, ptr, free, buffers);
  }

  /** A write to the first words of a FILE leaves its mutex word alone. */
  lemma WordKept(s: State, mem: Memory, y: nat, n: nat, free: seq<nat>, buffers: seq<nat>)
    requires Inv(s, free, buffers) && y in Live(s) && n <= MUTEX_OFFSET
    requires SameOutside(s.pool.mem, mem, y, n)
    ensures Mapped(mem, y, SIZEOF_FILE) && MutexWord(mem, y) == multiset(s.jobs)[Use(y, true)]
    ensures SameOutside(s.pool.mem, mem, y, FILE_BUCKET)
  {
    hide BucketAt, BucketCount, Header, Load, Rep, JobFits, PhaseFits;
    LiveFileMapped(s, free, buffers, y);
    LoadFrame(s.pool.mem, mem, y, n, y + MUTEX_OFFSET, 4);
  }

  /** fopen fills in the FILE and returns it. */
  lemma FinishOpenStep(s: State, i: nat, free: seq<nat>, buffers: seq<nat>)
    requires Inv(s, free, buffers) && Enabled(s, i, FinishOpen) && Safe(s, i, FinishOpen)
    ensures Inv(Next(s, i, FinishOpen), free, buffers)
  {
    hide BucketAt, BucketCount, Header, Load, Rep, Store, WordsCount, JobFits;
    var s' := Next(s, i, FinishOpen);
    var addr := s.jobs[i].oat.addr;
    assert PhaseFits(s.m.phases[i], s.jobs[i]);
    assert PhaseFits(s.m.phases[i], NoJob);
    hide PhaseFits;
    FlightUpdate(s.jobs, i, NoJob);
    assert Flight(s'.jobs) + multiset{addr} == Flight(s.jobs);
    assert Live(s') == Live(s);
    OwnedIsLive(s, i);
    LiveFileMapped(s, free, buffers, addr);
    WordKept(s, s'.pool.mem, addr, MUTEX_OFFSET, free, buffers);
    SameHolders(s.jobs, i, s'.jobs[i]);
    UsersAreOpen(s, free, buffers);
    EasyFits(s', NoJob, free, buffers);
    WriteStep(s, s', i, addr, free, buffers);
  }

  /** An operation takes or releases the mutex of an open FILE. */
  lemma UseStep(s: State, s': State, i: nat, ptr: nat, word: nat, free: seq<nat>, buffers: seq<nat>)
    requires Inv(s, free, buffers) && i < |s.jobs| && s.jobs[i].Use? && s.jobs[i].ptr == ptr
    requires word <= 1 && Mapped(s.pool.mem, ptr, SIZEOF_FILE)
    requires s' == s.(pool := s.pool.(mem := Store32(s.pool.mem, ptr + MUTEX_OFFSET, word)), jobs := s'.jobs)
    requires s'.jobs == s.jobs[i := if word == 1 then Use(ptr, true) else NoJob] && s.jobs[i].held == (word == 0)
    requires word == 1 ==> MutexWord(s.pool.mem, ptr) == 0
    ensures Inv(s', free, buffers)
  {
    hide BucketAt, BucketCount, Header, Load, Rep, Store, WordsCount;
    assert PhaseFits(s.m.phases[i], s.jobs[i]) && JobFits(s, s.jobs[i], free, buffers);
    assert PhaseFits(s.m.phases[i], s'.jobs[i]) && JobFits(s', s'.jobs[i], free, buffers);
    assert InFlight(s'.jobs[i]) == InFlight(s.jobs[i]);
    hide PhaseFits, JobFits, InFlight, Flight;
    LiveAfter(s, i, s'.jobs[i]);
    LiveFileMapped(s, free, buffers, ptr);
    UseCount(s, i, ptr, s'.jobs[i]);
    UsersAreOpen(s, free, buffers);
    WordOf(s, ptr, free, buffers);
    assert OneUser(s'.jobs);
    WriteStep(s, s', i, ptr, free, buffers);
  }

  lemma TryAcquireStep(s: State, i: nat, free: seq<nat>, buffers: seq<nat>)
    requires Inv(s, free, buffers) && Enabled(s, i, TryAcquire) && Safe(s, i, TryAcquire)
    ensures Inv(Next(s, i, TryAcquire), free, buffers)
  {
    hide Inv, Load, Store, Load32, Store32;
    TryAcquireEffect(s, i);
    hide Next, Enabled, Safe, MutexWord;
    if MutexWord(s.pool.mem, s.jobs[i].ptr) == Mutex.FREE {
      UseStep(s, Next(s, i, TryAcquire), i, s.jobs[i].ptr, 1, free, buffers);
    }
  }

  lemma TryAcquireEffect(s: State, i: nat)
    requires Enabled(s, i, TryAcquire) && Safe(s, i, TryAcquire)
    ensures i < |s.jobs| && s.jobs[i].Use? && !s.jobs[i].held && Mapped(s.pool.mem, s.jobs[i].ptr, SIZEOF_FILE)
    ensures Next(s, i, TryAcquire) ==
            if MutexWord(s.pool.mem, s.jobs[i].ptr) != Mutex.FREE then s
            else s.(pool := s.pool.(mem := Store32(s.pool.mem, s.jobs[i].ptr + MUTEX_OFFSET, 1)),
                    jobs := s.jobs[i := Use(s.jobs[i].ptr, true)])
  {
    hide Load, Store;
  }

  lemma EndUseStep(s: State, i: nat, free: seq<nat>, buffers: seq<nat>)
    requires Inv(s, free, buffers) && Enabled(s, i, EndUse) && Safe(s, i, EndUse)
    ensures Inv(Next(s, i, EndUse), free, buffers)
  {
    hide Inv;
    UseStep(s, Next(s, i, EndUse), i, s.jobs[i].ptr, 0, free, buffers);
  }

  lemma WordOf(s: State, y: nat, free: seq<nat>, buffers: seq<nat>)
    requires Inv(s, free, buffers) && y in Live(s)
    ensures Mapped(s.pool.mem, y, SIZEOF_FILE) && MutexWord(s.pool.mem, y) == multiset(s.jobs)[Use(y, true)]
  {
    hide BucketAt, BucketCount, Header, Load, Rep, JobFits, PhaseFits;
    LiveFileMapped(s, free, buffers, y);
  }

  lemma UseCount(s: State, i: nat, ptr: nat, job: Job)
    requires i < |s.jobs| && s.jobs[i].Use? && s.jobs[i].ptr == ptr
    requires job == NoJob || (job == Use(ptr, true) && !s.jobs[i].held)
    ensures forall b :: b != ptr ==> multiset(s.jobs[i := job])[Use(b, true)] == multiset(s.jobs)[Use(b, true)]
    ensures var n, n' := multiset(s.jobs)[Use(ptr, true)], multiset(s.jobs[i := job])[Use(ptr, true)];
            n' + (if s.jobs[i].held then 1 else 0) == n + (if job == NoJob then 0 else 1)
  {
    assert s.jobs[i] in multiset(s.jobs);
  }

  // ---------- all steps ----------

  lemma StatementKeepsInv(s: State, i: nat, region: nat, free: seq<nat>, buffers: seq<nat>)
    requires Inv(s, free, buffers) && Enabled(s, i, Statement(region)) && Safe(s, i, Statement(region))
    ensures Roomy(s.pool)
    ensures Inv(Next(s, i, Statement(region)),
                FreeAfter(s, i, Statement(region), free), BuffersAfter(s, i, Statement(region), buffers))
  {
    RepParts(s.pool, free, Live(s), buffers);
    InCall(s, i, region);
    hide Inv, Next, Safe, Enabled, Roomy, BucketsOf;
    var job := s.jobs[i];
    if job.Close? {
      if job.cat == CLink {
        LinkFreed(s, i, region, free, buffers);
      } else {
        PushHead(s, i, region, free, buffers);
      }
    } else if job.oat == OGrow {
      GrowBuffer(s, i, region, free, buffers);
    } else if job.oat.OPublish? {
      PublishBuffer(s, i, region, free, buffers);
    } else if job.oat.OStore? {
      StoreHead(s, i, region, free, buffers);
    } else {
      ReadStatement(s, i, region, free, buffers);
    }
  }

  lemma InCall(s: State, i: nat, region: nat)
    requires Enabled(s, i, Statement(region))
    ensures i < |s.jobs| && InPoolCall(s.jobs[i])
  {
  }

  /** A step of any thread keeps the invariant, with the free list and the buffers that the step
    leaves. */
  lemma StepKeepsInv(s: State, i: nat, e: Event, free: seq<nat>, buffers: seq<nat>)
    requires Inv(s, free, buffers) && Enabled(s, i, e)
    ensures Safe(s, i, e) && Roomy(s.pool)
    ensures Inv(Next(s, i, e), FreeAfter(s, i, e, free), BuffersAfter(s, i, e, buffers))
  {
    EnabledIsSafe(s, i, e, free, buffers);
    RepParts(s.pool, free, Live(s), buffers);
    hide Inv, Next, Safe, Roomy, BucketsOf;
    match e
    case CallOpen(file) => CallOpenStep(s, i, file, free, buffers);
    case CallClose(ptr) => CallCloseStep(s, i, ptr, free, buffers);
    case CallUse(ptr) => CallUseStep(s, i, ptr, free, buffers);
    case Sync(a) => SyncStep(s, i, a, free, buffers);
    case Statement(region) => StatementKeepsInv(s, i, region, free, buffers);
    case FinishOpen => FinishOpenStep(s, i, free, buffers);
    case TryAcquire => TryAcquireStep(s, i, free, buffers);
    case EndUse => EndUseStep(s, i, free, buffers);
  }

  // ---------- no region is lost ----------

  /** Only growing and publishing change who is publishing and what is mapped. */
  lemma StatusSame(s: State, i: nat, e: Event)
    requires Enabled(s, i, e) && Safe(s, i, e)
    requires PhaseFits(s.m.phases[i], s.jobs[i])
    requires e.Statement? ==> !(s.jobs[i].Open? && (s.jobs[i].oat == OGrow || s.jobs[i].oat.OPublish?))
    ensures var s' := Next(s, i, e);
            && s'.mapped == s.mapped && |s'.jobs| == |s.jobs|
            && (forall j :: 0 <= j < |s.jobs| && j != i ==> s'.jobs[j] == s.jobs[j])
            && (Publishing(s.jobs[i]) || Publishing(s'.jobs[i]) ==> s'.jobs[i] == s.jobs[i])
  {
    hide BucketAt, BucketCount, Header, Load, Store;
  }

  lemma PhaseOf(s: State, i: nat, free: seq<nat>, buffers: seq<nat>)
    requires Inv(s, free, buffers) && i < |s.jobs|
    ensures i < |s.m.phases| && PhaseFits(s.m.phases[i], s.jobs[i])
  {
    hide Rep, WordsCount, JobFits;
  }

  lemma NobodyElsePublishes(s: State, i: nat, j: nat, free: seq<nat>, buffers: seq<nat>)
    requires Inv(s, free, buffers) && i < |s.jobs| && j < |s.jobs| && i != j && InPoolCall(s.jobs[i])
    ensures !Publishing(s.jobs[j])
  {
    hide BucketAt, BucketCount, Header, Load, Rep, WordsCount, JobFits;
    assert PhaseFits(s.m.phases[i], s.jobs[i]) && PhaseFits(s.m.phases[j], s.jobs[j]);
    if s.m.phases[j] == Mutex.Held {
      Mutex.OnlyOneHolder(s.m, i, j);
    }
  }

  /** No step loses a region: what the page allocator returned is a buffer of the pool, or becomes
    one when the thread that got it stores its head. */
  lemma StepKeepsAccount(s: State, i: nat, e: Event, free: seq<nat>, buffers: seq<nat>)
    requires Inv(s, free, buffers) && Enabled(s, i, e) && Safe(s, i, e) && Accounted(s, buffers)
    ensures Accounted(Next(s, i, e), BuffersAfter(s, i, e, buffers))
  {
    hide BucketAt, BucketCount, Header, Load, Store, Inv, Rep, WordsCount, JobFits;
    var s' := Next(s, i, e);
    if e.Statement? && s.jobs[i].Open? && (s.jobs[i].oat == OGrow || s.jobs[i].oat.OPublish?) {
      forall j | 0 <= j < |s.jobs| && j != i ensures !Publishing(s.jobs[j]) {
        NobodyElsePublishes(s, i, j, free, buffers);
      }
      GrowStatus(s, i, e.region);
    } else {
      PhaseOf(s, i, free, buffers);
      StatusSame(s, i, e);
      hide Next, Enabled, Safe;
      if exists j :: 0 <= j < |s.jobs| && Publishing(s.jobs[j]) {
        var j :| 0 <= j < |s.jobs| && Publishing(s.jobs[j]);
        assert s'.jobs[j] == s.jobs[j];
      } else {
        forall j | 0 <= j < |s'.jobs| ensures !Publishing(s'.jobs[j]) {
          assert !Publishing(s.jobs[j]);
        }
      }
    }
  }

  lemma GrowStatus(s: State, i: nat, region: nat)
    requires Enabled(s, i, Statement(region)) && Safe(s, i, Statement(region))
    requires s.jobs[i].Open? && (s.jobs[i].oat == OGrow || s.jobs[i].oat.OPublish?)
    ensures var s' := Next(s, i, Statement(region));
            && |s'.jobs| == |s.jobs| && (forall j :: 0 <= j < |s.jobs| && j != i ==> s'.jobs[j] == s.jobs[j])
            && if s.jobs[i].oat == OGrow then
                 s'.mapped == s.mapped + [region] && s'.jobs[i] == s.jobs[i].(oat := OPublish(region))
               else s'.mapped == s.mapped && s'.jobs[i] == s.jobs[i].(oat := OTake)
  {
    hide BucketAt, BucketCount, Header, Load, Store;
  }
}
