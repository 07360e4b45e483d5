/** The statements of fopen's and fclose's pool calls, taken one after the other without another
  thread in between, are cia_pool_alloc and cia_pool_free. */
module FilePoolCalls {
  import opened Machine
  import opened PoolSpec
  import opened FilePool
  import opened FilePoolSteps
  import Mutex

  /** Thread i takes the next statement of its pool call. */
  ghost predicate Does(s: State, i: nat, region: nat, s': State) {
    && Enabled(s, i, Statement(region)) && Safe(s, i, Statement(region))
    && s' == Next(s, i, Statement(region))
  }

  /** Thread i alone takes statement after statement. */
  ghost predicate Undisturbed(ss: seq<State>, i: nat, region: nat) {
    |ss| > 0 && forall j :: 0 <= j < |ss| - 1 ==> Does(ss[j], i, region, ss[j + 1])
  }

  lemma OneMore(ss: seq<State>, i: nat, region: nat, s: State)
    requires Undisturbed(ss, i, region) && Does(ss[|ss| - 1], i, region, s)
    ensures Undisturbed(ss + [s], i, region)
  {
    hide Does;
    var longer := ss + [s];
    forall j | 0 <= j < |longer| - 1 ensures Does(longer[j], i, region, longer[j + 1]) {
      if j < |ss| - 1 {
        assert Does(ss[j], i, region, ss[j + 1]);
      }
    }
  }

  /** Thread i is at the given stage of fopen. */
  predicate AtStage(s: State, i: nat, at: OpenAt) {
    i < |s.jobs| && s.jobs[i].Open? && s.jobs[i].oat == at
  }

  function Moved(s: State, i: nat, p: Pool, at: OpenAt): State
    requires i < |s.jobs| && s.jobs[i].Open?
  {
    s.(pool := p, jobs := s.jobs[i := s.jobs[i].(oat := at)])
  }

  lemma StatementOf(s: State, i: nat, region: nat, free: seq<nat>, buffers: seq<nat>)
    requires Inv(s, free, buffers) && i < |s.jobs| && InPoolCall(s.jobs[i])
    requires s.jobs[i].Open? && s.jobs[i].oat == OGrow ==> FreshRegion(s.pool, region)
    ensures Enabled(s, i, Statement(region)) && Safe(s, i, Statement(region)) && Roomy(s.pool)
    ensures Inv(Next(s, i, Statement(region)),
                FreeAfter(s, i, Statement(region), free), BuffersAfter(s, i, Statement(region), buffers))
  {
    assert Enabled(s, i, Statement(region)) by {
      hide Rep, WordsCount, JobFits;
      assert PhaseFits(s.m.phases[i], s.jobs[i]);
    }
    hide Inv, Enabled, Safe, Next;
    StepKeepsInv(s, i, Statement(region), free, buffers);
  }

  // ---------- cia_pool_free ----------

  lemma LinkThenHead(s: State, i: nat, region: nat)
    requires Enabled(s, i, Statement(region)) && Safe(s, i, Statement(region))
    requires s.jobs[i].Close? && (s.jobs[i].cat == CLink || s.jobs[i].cat == CHead)
    ensures var s', ptr := Next(s, i, Statement(region)), s.jobs[i].ptr;
            if s.jobs[i].cat == CLink then
              && Mapped(s.pool.mem, ptr, LINK_SIZE) && s.pool.head < TWO_TO_THE_64
              && s' == s.(pool := s.pool.(mem := Store64(s.pool.mem, ptr, s.pool.head)), jobs := s.jobs[i := Close(ptr, CHead)])
            else s' == s.(pool := s.pool.(head := ptr), jobs := s.jobs[i := Close(ptr, CDone)])
  {
    hide BucketAt, BucketCount, Header, Load, Store;
  }

  /** fclose's two statements put the bucket on the list as cia_pool_free does. */
  lemma FreeAlone(s: State, i: nat, free: seq<nat>, buffers: seq<nat>) returns (ss: seq<State>)
    requires Inv(s, free, buffers) && i < |s.jobs| && s.jobs[i].Close? && s.jobs[i].cat == CLink
    ensures Undisturbed(ss, i, 0) && ss[0] == s
    ensures Mapped(s.pool.mem, s.jobs[i].ptr, LINK_SIZE) && s.pool.head < TWO_TO_THE_64
    ensures var t := ss[|ss| - 1]; var ptr := s.jobs[i].ptr;
            t == s.(pool := Free(s.pool, ptr), jobs := s.jobs[i := Close(ptr, CDone)])
  {
    hide Inv, Enabled, Safe, Next, Store, Load, Store64, FreeAfter, BuffersAfter, Roomy;
    var e := Statement(0);
    StatementOf(s, i, 0, free, buffers);
    LinkThenHead(s, i, 0);
    var s1 := Next(s, i, e);
    StatementOf(s1, i, 0, FreeAfter(s, i, e, free), BuffersAfter(s, i, e, buffers));
    LinkThenHead(s1, i, 0);
    var s2 := Next(s1, i, e);
    assert s.jobs[i := Close(s.jobs[i].ptr, CHead)][i := Close(s.jobs[i].ptr, CDone)] == s.jobs[i := Close(s.jobs[i].ptr, CDone)];
    ss := [s];
    OneMore(ss, i, 0, s1);
    OneMore(ss + [s1], i, 0, s2);
    ss := ss + [s1] + [s2];
  }

  // ---------- cia_pool_alloc ----------

  /** What each statement of fopen's pool call does. */
  lemma Stages(s: State, i: nat, region: nat)
    requires Enabled(s, i, Statement(region)) && Safe(s, i, Statement(region)) && s.jobs[i].Open?
    ensures var s', p, at := Next(s, i, Statement(region)), s.pool, s.jobs[i].oat;
            match at
            case OTest => s' == Moved(s, i, p, if p.head == 0 then OGrow else OTake)
            case OTake => s' == Moved(s, i, p, ONext(p.head))
            case ONext(addr) =>
              Mapped(p.mem, p.head, LINK_SIZE) && s' == Moved(s, i, p, OStore(addr, Load64(p.mem, p.head)))
            case OStore(addr, next) => s' == Moved(s, i, p.(head := next), ODone(addr))
            case OPublish(r) => p.alignment > 0 && s' == Moved(s, i, p.(head := BucketAt(p, r, 0)), OTake)
            case _ => true
  {
    hide BucketAt, BucketCount, Header, Load, Store, FreelistAdd, WithRegion;
  }

  lemma GrowStage(s: State, i: nat, region: nat)
    requires Enabled(s, i, Statement(region)) && Safe(s, i, Statement(region)) && AtStage(s, i, OGrow)
    ensures Roomy(s.pool) && region + s.pool.bufferSize <= TWO_TO_THE_64 && s.pool.head < TWO_TO_THE_64
    ensures Roomy(WithRegion(s.pool, region))
    ensures Next(s, i, Statement(region)) ==
            Moved(s, i, FreelistAdd(WithRegion(s.pool, region), region).(head := s.pool.head), OPublish(region))
              .(mapped := s.mapped + [region])
  {
    hide BucketAt, BucketCount, Load, Store;
  }

  lemma MovedTwice(s: State, i: nat, p: Pool, at: OpenAt, q: Pool, at': OpenAt)
    requires i < |s.jobs| && s.jobs[i].Open?
    ensures Moved(Moved(s, i, p, at), i, q, at') == Moved(s, i, q, at')
    ensures AtStage(Moved(s, i, p, at), i, at) && Moved(s, i, p, at).pool == p && Moved(s, i, p, at).mapped == s.mapped
  {
  }

  /** The statements from the read of the head on. */
  lemma TakeAlone(s: State, i: nat, region: nat, free: seq<nat>, buffers: seq<nat>) returns (ss: seq<State>)
    requires Inv(s, free, buffers) && AtStage(s, i, OTake)
    ensures Undisturbed(ss, i, region) && ss[0] == s && Mapped(s.pool.mem, s.pool.head, LINK_SIZE)
    ensures ss[|ss| - 1] == Moved(s, i, s.pool.(head := Load64(s.pool.mem, s.pool.head)), ODone(s.pool.head))
  {
    hide Inv, Enabled, Safe, Next, Load, Load64, FreeAfter, BuffersAfter, Roomy, Moved;
    var e, p := Statement(region), s.pool;
    StatementOf(s, i, region, free, buffers);
    Stages(s, i, region);
    var s1, f1, b1 := Next(s, i, e), FreeAfter(s, i, e, free), BuffersAfter(s, i, e, buffers);
    MovedTwice(s, i, p, ONext(p.head), p, OTake);
    StatementOf(s1, i, region, f1, b1);
    Stages(s1, i, region);
    var next := Load64(p.mem, p.head);
    MovedTwice(s, i, p, ONext(p.head), p, OStore(p.head, next));
    var s2, f2, b2 := Next(s1, i, e), FreeAfter(s1, i, e, f1), BuffersAfter(s1, i, e, b1);
    MovedTwice(s, i, p, OStore(p.head, next), p.(head := next), ODone(p.head));
    StatementOf(s2, i, region, f2, b2);
    Stages(s2, i, region);
    var s3 := Next(s2, i, e);
    ss := [s];
    OneMore(ss, i, region, s1);
    OneMore(ss + [s1], i, region, s2);
    OneMore(ss + [s1] + [s2], i, region, s3);
    ss := ss + [s1] + [s2] + [s3];
  }

  lemma BeforeAll(s: State, ss: seq<State>, i: nat, region: nat)
    requires Undisturbed(ss, i, region) && Does(s, i, region, ss[0])
    ensures Undisturbed([s] + ss, i, region)
  {
    hide Does;
    var longer := [s] + ss;
    forall j | 0 <= j < |longer| - 1 ensures Does(longer[j], i, region, longer[j + 1]) {
      if j > 0 {
        assert Does(ss[j - 1], i, region, ss[j - 1 + 1]);
      }
    }
  }

  /** Building the new buffer's list behind the old head and storing the new head last comes to the
    same as adding the buffer at once. */
  lemma GrownHead(p: Pool, region: nat)
    requires Roomy(p) && p.head < TWO_TO_THE_64 && region + p.bufferSize <= TWO_TO_THE_64 && Roomy(WithRegion(p, region))
    ensures var grown := FreelistAdd(WithRegion(p, region), region);
            var built := grown.(head := p.head);
            built.alignment > 0 && built.(head := BucketAt(built, region, 0)) == grown
  {
    hide BucketAt, BucketCount, Header, Load, LinkChain;
    var q := WithRegion(p, region);
    var grown := FreelistAdd(q, region);
    var built := grown.(head := p.head);
    SameGeometry(p, q, []);
    SameGeometry(q, grown, []);
    SameGeometry(q, built, []);
    SameAddress(q, grown, region, 0);
    SameAddress(q, built, region, 0);
  }

  lemma WithRegionFits(p: Pool, region: nat)
    ensures var q := WithRegion(p, region);
            q.bufferSize == p.bufferSize && q.head == p.head && Mapped(q.mem, region, p.bufferSize)
  {
  }

  /** The statements that add a buffer when the list is empty. */
  lemma GrowAlone(s: State, i: nat, region: nat, free: seq<nat>, buffers: seq<nat>)
      returns (s1: State, s2: State, s3: State, f3: seq<nat>, b3: seq<nat>)
    requires Inv(s, free, buffers) && AtStage(s, i, OTest) && s.pool.head == 0 && FreshRegion(s.pool, region)
    ensures Does(s, i, region, s1) && Does(s1, i, region, s2) && Does(s2, i, region, s3)
    ensures CanAlloc(s.pool, region)
    ensures s3 == Moved(s, i, Refill(s.pool, region), OTake).(mapped := s.mapped + [region])
    ensures Inv(s3, f3, b3) && AtStage(s3, i, OTake)
  {
    hide Inv, Enabled, Safe, Next, Load, Load64, FreeAfter, BuffersAfter, Roomy, Moved, FreelistAdd, WithRegion,
      FreshRegion;
    var e, p := Statement(region), s.pool;
    StatementOf(s, i, region, free, buffers);
    Stages(s, i, region);
    s1 := Next(s, i, e);
    var f1, b1 := FreeAfter(s, i, e, free), BuffersAfter(s, i, e, buffers);
    MovedTwice(s, i, p, OGrow, p, OGrow);
    StatementOf(s1, i, region, f1, b1);
    GrowStage(s1, i, region);
    s2 := Next(s1, i, e);
    var f2, b2 := FreeAfter(s1, i, e, f1), BuffersAfter(s1, i, e, b1);
    WithRegionFits(p, region);
    var grown := FreelistAdd(WithRegion(p, region), region);
    var built := grown.(head := p.head);
    GrownHead(p, region);
    MovedTwice(s, i, p, OGrow, built, OPublish(region));
    MovedAndMapped(s, i, built, OPublish(region), s.mapped + [region], grown, OTake);
    StatementOf(s2, i, region, f2, b2);
    Stages(s2, i, region);
    s3 := Next(s2, i, e);
    f3, b3 := FreeAfter(s2, i, e, f2), BuffersAfter(s2, i, e, b2);
  }

  lemma MovedAndMapped(s: State, i: nat, p: Pool, at: OpenAt, mapped: seq<nat>, q: Pool, at': OpenAt)
    requires i < |s.jobs| && s.jobs[i].Open?
    ensures var t := Moved(s, i, p, at).(mapped := mapped);
            && AtStage(t, i, at) && t.pool == p
            && Moved(t, i, q, at') == Moved(s, i, q, at').(mapped := mapped)
            && AtStage(Moved(t, i, q, at'), i, at') && Moved(t, i, q, at').pool == q
  {
  }

  /** fopen's statements, six or four of them, allocate as cia_pool_alloc does. */
  lemma AllocAlone(s: State, i: nat, region: nat, free: seq<nat>, buffers: seq<nat>) returns (ss: seq<State>)
    requires Inv(s, free, buffers) && AtStage(s, i, OTest)
    requires s.pool.head == 0 ==> FreshRegion(s.pool, region)
    ensures Undisturbed(ss, i, region) && ss[0] == s
    ensures CanAlloc(s.pool, region) && Mapped(Refill(s.pool, region).mem, Refill(s.pool, region).head, LINK_SIZE)
    ensures var (p, addr) := Alloc(s.pool, region);
            ss[|ss| - 1] == Moved(s, i, p, ODone(addr)).(mapped := if s.pool.head == 0 then s.mapped + [region] else s.mapped)
  {
    if s.pool.head == 0 {
      var s1, s2, s3, f3, b3 := GrowAlone(s, i, region, free, buffers);
      hide Inv, Does, Moved, Load, Load64, FreelistAdd, WithRegion, FreshRegion, Roomy, Undisturbed;
      var r := Refill(s.pool, region);
      MovedAndMapped(s, i, r, OTake, s.mapped + [region], r.(head := 0), OTake);
      ss := TakeAlone(s3, i, region, f3, b3);
      var p, addr := r.(head := Load64(r.mem, r.head)), r.head;
      MovedAndMapped(s, i, r, OTake, s.mapped + [region], p, ODone(addr));
      NotEmpty(ss, i, region);
      BeforeAll(s2, ss, i, region);
      BeforeAll(s1, [s2] + ss, i, region);
      BeforeAll(s, [s1] + ([s2] + ss), i, region);
      ss := [s] + ([s1] + ([s2] + ss));
    } else {
      hide Enabled, Safe, Next, Moved, Load, Load64, Rep, WordsCount, JobFits, FreeAfter, BuffersAfter, Roomy, Undisturbed;
      StatementOf(s, i, region, free, buffers);
      Stages(s, i, region);
      var e := Statement(region);
      var s1 := Next(s, i, e);
      MovedTwice(s, i, s.pool, OTake, s.pool, OTake);
      ss := TakeAlone(s1, i, region, FreeAfter(s, i, e, free), BuffersAfter(s, i, e, buffers));
      var p := s.pool.(head := Load64(s.pool.mem, s.pool.head));
      MovedTwice(s, i, s.pool, OTake, p, ODone(s.pool.head));
      CanTake(s, free, buffers, region);
      NotEmpty(ss, i, region);
      BeforeAll(s, ss, i, region);
      ss := [s] + ss;
    }
  }

  lemma NotEmpty(ss: seq<State>, i: nat, region: nat)
    requires Undisturbed(ss, i, region)
    ensures |ss| > 0
  {
  }

  lemma CanTake(s: State, free: seq<nat>, buffers: seq<nat>, region: nat)
    requires Inv(s, free, buffers) && s.pool.head != 0
    ensures CanAlloc(s.pool, region)
  {
    hide BucketAt, BucketCount, Header, Load, WordsCount, JobFits;
    HeadFits(s.pool, free, Live(s), buffers);
  }

  // ---------- whole calls ----------

  /** Thread i takes the given step. */
  ghost predicate Takes(s: State, i: nat, e: Event, s': State) {
    Enabled(s, i, e) && Safe(s, i, e) && s' == Next(s, i, e)
  }

  lemma TakeStep(s: State, i: nat, e: Event, free: seq<nat>, buffers: seq<nat>) returns (s': State, free': seq<nat>, buffers': seq<nat>)
    requires Inv(s, free, buffers) && Enabled(s, i, e)
    ensures Takes(s, i, e, s') && Inv(s', free', buffers')
  {
    hide Inv, Enabled, Safe, Next, FreeAfter, BuffersAfter, Roomy;
    StepKeepsInv(s, i, e, free, buffers);
    s', free', buffers' := Next(s, i, e), FreeAfter(s, i, e, free), BuffersAfter(s, i, e, buffers);
  }

  lemma {:induction false} UndisturbedInv(ss: seq<State>, i: nat, region: nat, free: seq<nat>, buffers: seq<nat>, j: nat)
      returns (free': seq<nat>, buffers': seq<nat>)
    requires Undisturbed(ss, i, region) && Inv(ss[0], free, buffers) && j < |ss|
    ensures Inv(ss[j], free', buffers')
  {
    hide Inv, Enabled, Safe, Next, FreeAfter, BuffersAfter, Roomy;
    if j == 0 {
      free', buffers' := free, buffers;
    } else {
      var f, b := UndisturbedInv(ss, i, region, free, buffers, j - 1);
      assert Does(ss[j - 1], i, region, ss[j - 1 + 1]);
      var t;
      t, free', buffers' := TakeStep(ss[j - 1], i, Statement(region), f, b);
    }
  }

  /** Nobody holds _g_pool_mutex, nobody sleeps on it, and thread i has no call under way. */
  predicate Quiet(s: State, i: nat) {
    && i < |s.jobs| == |s.m.phases| && s.jobs[i] == NoJob && s.m.phases[i] == Mutex.Idle
    && s.m.word == Mutex.FREE && Mutex.Asleep !in s.m.phases
  }

  function WithPhase(s: State, i: nat, word: nat, phase: Mutex.Phase, job: Job): State
    requires i < |s.jobs| == |s.m.phases|
  {
    s.(m := Mutex.State(word, s.m.phases[i := phase]), jobs := s.jobs[i := job])
  }

  /** The stage at which a call enters the pool. */
  function Entering(e: Event, word: nat): Job {
    match e
    case CallOpen(file) => Open(file, if word == Mutex.FREE then OEnter else OTest)
    case CallClose(ptr) => Close(ptr, if word == Mutex.FREE then CEnter else CLink)
    case _ => NoJob
  }

  function OpenAfter(s: State, e: Event): multiset<nat> {
    if e.CallClose? then s.open - multiset{e.ptr} else s.open
  }

  lemma CallEffect(s: State, i: nat, e: Event, s1: State)
    requires Quiet(s, i) && (e.CallOpen? || e.CallClose?) && Takes(s, i, e, s1)
    ensures s1 == WithPhase(s, i, Mutex.FREE, Mutex.TryCas, Entering(e, Mutex.FREE)).(open := OpenAfter(s, e))
    ensures Enabled(s1, i, Sync(Mutex.CompareExchange))
  {
  }

  lemma LockEffect(s: State, i: nat, e: Event, s1: State, s2: State)
    requires i < |s.jobs| == |s.m.phases| && (e.CallOpen? || e.CallClose?)
    requires s1 == WithPhase(s, i, Mutex.FREE, Mutex.TryCas, Entering(e, Mutex.FREE)).(open := OpenAfter(s, e))
    requires Takes(s1, i, Sync(Mutex.CompareExchange), s2)
    ensures s2 == WithPhase(s, i, Mutex.LOCK, Mutex.Held, Entering(e, Mutex.LOCK)).(open := OpenAfter(s, e))
  {
    assert s1.jobs[i := s2.jobs[i]] == s.jobs[i := s2.jobs[i]];
    assert s1.m.phases[i := Mutex.Held] == s.m.phases[i := Mutex.Held];
  }

  /** Taking the lock for a call. */
  lemma LockAlone(s: State, i: nat, e: Event, free: seq<nat>, buffers: seq<nat>)
      returns (s1: State, s2: State, f2: seq<nat>, b2: seq<nat>)
    requires Inv(s, free, buffers) && Quiet(s, i) && (e.CallOpen? || e.CallClose?) && Enabled(s, i, e)
    ensures Takes(s, i, e, s1) && Takes(s1, i, Sync(Mutex.CompareExchange), s2) && Inv(s2, f2, b2)
    ensures s2 == WithPhase(s, i, Mutex.LOCK, Mutex.Held, Entering(e, Mutex.LOCK)).(open := OpenAfter(s, e))
  {
    hide Inv, Takes, Enabled, WithPhase;
    var f1, b1;
    s1, f1, b1 := TakeStep(s, i, e, free, buffers);
    CallEffect(s, i, e, s1);
    s2, f2, b2 := TakeStep(s1, i, Sync(Mutex.CompareExchange), f1, b1);
    LockEffect(s, i, e, s1, s2);
  }

  /** Releasing it. */
  lemma UnlockAlone(t: State, i: nat, free: seq<nat>, buffers: seq<nat>)
      returns (t1: State, t2: State, f2: seq<nat>, b2: seq<nat>)
    requires Inv(t, free, buffers) && i < |t.jobs| == |t.m.phases| && t.m.phases[i] == Mutex.Held && PoolCallOver(t.jobs[i])
    requires Mutex.Asleep !in t.m.phases
    ensures Takes(t, i, Sync(Mutex.Release), t1) && Takes(t1, i, Sync(Mutex.WakeNobody), t2) && Inv(t2, f2, b2)
    ensures t2 == WithPhase(t, i, Mutex.FREE, Mutex.Idle,
                            if t.jobs[i].Open? then t.jobs[i].(oat := OInit(t.jobs[i].oat.addr)) else NoJob)
  {
    hide Inv, Safe;
    var f1, b1;
    t1, f1, b1 := TakeStep(t, i, Sync(Mutex.Release), free, buffers);
    assert Mutex.Asleep !in t1.m.phases;
    t2, f2, b2 := TakeStep(t1, i, Sync(Mutex.WakeNobody), f1, b1);
    assert t1.jobs[i := t2.jobs[i]] == t.jobs[i := t2.jobs[i]];
    assert t1.m.phases[i := Mutex.Idle] == t.m.phases[i := Mutex.Idle];
  }

  /** fclose, undisturbed: it ends with the mutex free and the FILE on the list. */
  lemma CloseAlone(s: State, i: nat, ptr: nat, free: seq<nat>, buffers: seq<nat>)
      returns (s1: State, ss: seq<State>, t1: State, t2: State)
    requires Inv(s, free, buffers) && Quiet(s, i) && Enabled(s, i, CallClose(ptr))
    ensures Undisturbed(ss, i, 0)
    ensures Takes(s, i, CallClose(ptr), s1) && Takes(s1, i, Sync(Mutex.CompareExchange), ss[0])
    ensures Takes(ss[|ss| - 1], i, Sync(Mutex.Release), t1) && Takes(t1, i, Sync(Mutex.WakeNobody), t2)
    ensures Mapped(s.pool.mem, ptr, LINK_SIZE) && s.pool.head < TWO_TO_THE_64
    ensures t2 == s.(pool := Free(s.pool, ptr), open := s.open - multiset{ptr})
  {
    hide Inv, Takes, Enabled, Undisturbed, Free, Load, Store;
    var s2, f2, b2;
    s1, s2, f2, b2 := LockAlone(s, i, CallClose(ptr), free, buffers);
    ss := FreeAlone(s2, i, f2, b2);
    NotEmpty(ss, i, 0);
    var t := ss[|ss| - 1];
    var f3, b3 := UndisturbedInv(ss, i, 0, f2, b2, |ss| - 1);
    StillNobody(s, t, i);
    var f4, b4;
    t1, t2, f4, b4 := UnlockAlone(t, i, f3, b3);
    BackToIdle(s, t2, i);
  }

  lemma StillNobody(s: State, t: State, i: nat)
    requires Quiet(s, i) && t.m.phases == s.m.phases[i := Mutex.Held]
    ensures Mutex.Asleep !in t.m.phases
  {
  }

  lemma BackToIdle(s: State, t: State, i: nat)
    requires Quiet(s, i) && |t.jobs| == |s.jobs| && |t.m.phases| == |s.m.phases| && t.jobs[i] == NoJob
    requires t.m.word == Mutex.FREE && t.m.phases[i] == Mutex.Idle
    requires forall j :: 0 <= j < |s.jobs| && j != i ==> t.jobs[j] == s.jobs[j] && t.m.phases[j] == s.m.phases[j]
    ensures t.jobs == s.jobs && t.m == s.m
  {
  }

  /** fopen, undisturbed: it ends with the mutex free, and the FILE that cia_pool_alloc gives is open
    and has the handle. */
  lemma OpenAlone(s: State, i: nat, file: RtFile, region: nat, free: seq<nat>, buffers: seq<nat>)
      returns (s1: State, ss: seq<State>, t1: State, t2: State, t3: State)
    requires Inv(s, free, buffers) && Quiet(s, i) && (s.pool.head == 0 ==> FreshRegion(s.pool, region))
    ensures Undisturbed(ss, i, region)
    ensures Takes(s, i, CallOpen(file), s1) && Takes(s1, i, Sync(Mutex.CompareExchange), ss[0])
    ensures Takes(ss[|ss| - 1], i, Sync(Mutex.Release), t1) && Takes(t1, i, Sync(Mutex.WakeNobody), t2)
    ensures Takes(t2, i, FinishOpen, t3)
    ensures CanAlloc(s.pool, region) && Mapped(Refill(s.pool, region).mem, Refill(s.pool, region).head, LINK_SIZE)
    ensures var (p, addr) := Alloc(s.pool, region);
            && Mapped(p.mem, addr, SIZEOF_FILE)
            && t3.pool == p.(mem := WriteFile(p.mem, addr, file)) && t3.open == s.open + multiset{addr}
            && t3.jobs == s.jobs && t3.m == s.m
  {
    assert Enabled(s, i, CallOpen(file));
    hide Inv, Takes, Enabled, Undisturbed, Load, Store, Alloc, Refill, WriteFile, FreshRegion, CanAlloc, WithPhase, Moved,
      Entering, OpenAfter, Quiet;
    var s2, f2, b2;
    s1, s2, f2, b2 := LockAlone(s, i, CallOpen(file), free, buffers);
    LockedForOpen(s, s2, i, file);
    ss := AllocAlone(s2, i, region, f2, b2);
    NotEmpty(ss, i, region);
    var f3, b3 := UndisturbedInv(ss, i, region, f2, b2, |ss| - 1);
    var (p, addr) := Alloc(s.pool, region);
    Placed(s, s2, i, file, p, addr, if s.pool.head == 0 then s2.mapped + [region] else s2.mapped);
    t1, t2, t3 := OpenRest(s, ss[|ss| - 1], i, file, addr, f3, b3);
  }

  lemma LockedForOpen(s: State, s2: State, i: nat, file: RtFile)
    requires Quiet(s, i)
    requires s2 == WithPhase(s, i, Mutex.LOCK, Mutex.Held, Entering(CallOpen(file), Mutex.LOCK)).(open := OpenAfter(s, CallOpen(file)))
    ensures i < |s.jobs| && AtStage(s2, i, OTest) && s2.jobs[i] == Open(file, OTest) && s2.pool == s.pool && s2.open == s.open
    ensures s2.jobs == s.jobs[i := Open(file, OTest)] && s2.m == Mutex.State(Mutex.LOCK, s.m.phases[i := Mutex.Held])
  {
  }

  lemma Placed(s: State, s2: State, i: nat, file: RtFile, p: Pool, addr: nat, mapped: seq<nat>)
    requires i < |s.jobs| && s2.jobs == s.jobs[i := Open(file, OTest)] && s2.jobs[i].Open?
    ensures var t := Moved(s2, i, p, ODone(addr)).(mapped := mapped);
            t.jobs == s.jobs[i := Open(file, ODone(addr))] && t.m == s2.m && t.pool == p && t.open == s2.open
  {
  }

  /** The part of fopen behind the allocation. */
  lemma OpenRest(s: State, t: State, i: nat, file: RtFile, addr: nat, free: seq<nat>, buffers: seq<nat>)
      returns (t1: State, t2: State, t3: State)
    requires Quiet(s, i) && Inv(t, free, buffers)
    requires t.jobs == s.jobs[i := Open(file, ODone(addr))] && t.m == Mutex.State(Mutex.LOCK, s.m.phases[i := Mutex.Held])
    ensures Takes(t, i, Sync(Mutex.Release), t1) && Takes(t1, i, Sync(Mutex.WakeNobody), t2) && Takes(t2, i, FinishOpen, t3)
    ensures Mapped(t.pool.mem, addr, SIZEOF_FILE)
    ensures t3 == t.(pool := t.pool.(mem := WriteFile(t.pool.mem, addr, file)), open := t.open + multiset{addr},
                     jobs := s.jobs, m := s.m)
  {
    hide Inv, Takes, Enabled, WriteFile;
    StillNobody(s, t, i);
    var f4, b4, f5, b5;
    t1, t2, f4, b4 := UnlockAlone(t, i, free, buffers);
    FinishEnabled(t2, i);
    t3, f5, b5 := TakeStep(t2, i, FinishOpen, f4, b4);
    FinishEffect(t2, i, t3);
    BackToIdle(s, t3, i);
  }

  lemma FinishEnabled(s: State, i: nat)
    requires i < |s.jobs| == |s.m.phases| && s.jobs[i].Open? && s.jobs[i].oat.OInit?
    ensures Enabled(s, i, FinishOpen)
  {
  }

  lemma FinishEffect(s: State, i: nat, s': State)
    requires i < |s.jobs| && Takes(s, i, FinishOpen, s') && s.jobs[i].Open? && s.jobs[i].oat.OInit?
    ensures var addr := s.jobs[i].oat.addr;
            && Mapped(s.pool.mem, addr, SIZEOF_FILE)
            && s' == s.(pool := s.pool.(mem := WriteFile(s.pool.mem, addr, s.jobs[i].file)), jobs := s.jobs[i := NoJob],
                        open := s.open + multiset{addr})
  {
    hide WriteFile;
  }
}
