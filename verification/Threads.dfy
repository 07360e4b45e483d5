/** The life of one thread, os/linux/tinyrt-threads.c, as atomic steps of its creator, the thread
  itself, the kernel, and any number of clients that call _rt_thread_join or _rt_thread_detach on
  it.

  They share three words of the thread's TCB. The kernel stores 0 to state_finish when the thread
  exits, and then wakes one thread that sleeps on it. FUTEX_WAIT sleeps only while the word has the
  expected value; sleepers may wake up for no reason. The wake in _rt_thread_join passes a count of
  0, so it may or may not wake the thread. */
module Threads {
  import opened Machine

  const NOT_YET: nat := 0
  const DETACHED: nat := 1
  const JOINED: nat := 2

  type I32 = v: int | -0x8000_0000 <= v < 0x8000_0000

  datatype Tcb = Tcb(state_finish: U32, state_detach: U32, exit_code: U32)

  datatype Creator = Allocated | Prepared | Started | Failed

  /** The thread, with the value `v` that its function returned. */
  datatype Child =
    | Unborn
    | InFunction
    | ToLoad(v: I32)
    | ToDecide(v: I32, seen: U32)
    | ToWait(v: I32)
    | Asleep(v: I32)
    | ToStore(v: I32)
    | ToExit(v: I32)
    | Exited(v: I32)
    | Cleared(v: I32)
    | Gone(v: I32)

  datatype Client =
    | Outside
    | ToSignal
    | ToWake
    | ToTest
    | ToDoze
    | Dozing
    | ToRead
    | Joined(code: I32)
    | ToDetach
    | Detached

  datatype State = State(tcb: Tcb, creator: Creator, child: Child, clients: seq<Client>)

  datatype Action =
    | Prepare
    | Clone(ok: bool)
    | Return(v: I32)
    | Load
    | Decide
    | ChildWait
    | ChildSpurious
    | StoreCode
    | Exit
    | ClearTid
    | KernelWake(sleeper: nat)
    | KernelWakesNobody
    | CallJoin(i: nat)
    | Signal(i: nat)
    | WakeChild(i: nat)
    | WakeNothing(i: nat)
    | Test(i: nat)
    | ClientWait(i: nat)
    | ClientSpurious(i: nat)
    | Read(i: nat)
    | CallDetach(i: nat)
    | StoreDetached(i: nat)

  /** C's conversions between int and u32. */
  function ToWord(v: I32): U32 {
    if v < 0 then v + TWO_TO_THE_32 else v
  }

  function FromWord(w: U32): I32 {
    if w >= 0x8000_0000 then w - TWO_TO_THE_32 else w
  }

  predicate At(s: State, i: nat, c: Client) {
    i < |s.clients| && s.clients[i] == c
  }

  predicate Enabled(s: State, a: Action) {
    match a
    case Prepare => s.creator == Allocated
    case Clone(_) => s.creator == Prepared
    case Return(_) => s.child == InFunction
    case Load => s.child.ToLoad?
    case Decide => s.child.ToDecide?
    case ChildWait => s.child.ToWait?
    case ChildSpurious => s.child.Asleep?
    case StoreCode => s.child.ToStore?
    case Exit => s.child.ToExit?
    case ClearTid => s.child.Exited?
    case KernelWake(j) => s.child.Cleared? && At(s, j, Dozing)
    case KernelWakesNobody => s.child.Cleared? && Dozing !in s.clients
    case CallJoin(i) => s.creator == Started && At(s, i, Outside)
    case Signal(i) => At(s, i, ToSignal)
    case WakeChild(i) => At(s, i, ToWake) && s.child.Asleep?
    case WakeNothing(i) => At(s, i, ToWake)
    case Test(i) => At(s, i, ToTest)
    case ClientWait(i) => At(s, i, ToDoze)
    case ClientSpurious(i) => At(s, i, Dozing)
    case Read(i) => At(s, i, ToRead)
    case CallDetach(i) => s.creator == Started && At(s, i, Outside)
    case StoreDetached(i) => At(s, i, ToDetach)
  }

  function Moved(s: State, i: nat, c: Client): State
    requires i < |s.clients|
  {
    s.(clients := s.clients[i := c])
  }

  function Next(s: State, a: Action): State
    requires Enabled(s, a)
  {
    match a
    case Prepare => s.(creator := Prepared, tcb := s.tcb.(state_finish := 1))
    case Clone(ok) => if ok then s.(creator := Started, child := InFunction) else s.(creator := Failed)
    case Return(v) => s.(child := ToLoad(v))
    case Load => s.(child := ToDecide(s.child.v, s.tcb.state_detach))
    case Decide => s.(child := if s.child.seen == NOT_YET then ToWait(s.child.v) else ToStore(s.child.v))
    case ChildWait => s.(child := if s.tcb.state_detach == NOT_YET then Asleep(s.child.v) else ToLoad(s.child.v))
    case ChildSpurious => s.(child := ToLoad(s.child.v))
    case StoreCode => s.(child := ToExit(s.child.v), tcb := s.tcb.(exit_code := ToWord(s.child.v)))
    case Exit => s.(child := Exited(s.child.v))
    case ClearTid => s.(child := Cleared(s.child.v), tcb := s.tcb.(state_finish := 0))
    case KernelWake(j) => Moved(s, j, ToTest).(child := Gone(s.child.v))
    case KernelWakesNobody => s.(child := Gone(s.child.v))
    case CallJoin(i) => Moved(s, i, ToSignal)
    case Signal(i) => Moved(s, i, ToWake).(tcb := s.tcb.(state_detach := JOINED))
    case WakeChild(i) => Moved(s, i, ToTest).(child := ToLoad(s.child.v))
    case WakeNothing(i) => Moved(s, i, ToTest)
    case Test(i) => Moved(s, i, if s.tcb.state_finish != 0 then ToDoze else ToRead)
    case ClientWait(i) => Moved(s, i, if s.tcb.state_finish == 0 then Dozing else ToTest)
    case ClientSpurious(i) => Moved(s, i, ToTest)
    case Read(i) => Moved(s, i, Joined(FromWord(s.tcb.exit_code)))
    case CallDetach(i) => Moved(s, i, ToDetach)
    case StoreDetached(i) => Moved(s, i, Detached).(tcb := s.tcb.(state_detach := DETACHED))
  }

  ghost predicate Step(s: State, s': State) {
    exists a :: Enabled(s, a) && s' == Next(s, a)
  }

  /** The TCB lies in pages that the kernel has just mapped, so its words are 0. */
  predicate Init(s: State) {
    && s.tcb == Tcb(0, 0, 0) && s.creator == Allocated && s.child == Unborn
    && forall i :: 0 <= i < |s.clients| ==> s.clients[i] == Outside
  }

  ghost predicate IsRun(run: seq<State>) {
    && |run| > 0 && Init(run[0])
    && forall k :: 0 <= k < |run| - 1 ==> Step(run[k], run[k + 1])
  }

  // ---------- the invariant ----------

  /** The thread has passed the wait in _rt_thread_finish. */
  predicate PastWait(c: Child) {
    c.ToStore? || c.ToExit? || c.Exited? || c.Cleared? || c.Gone?
  }

  predicate CodeStored(c: Child) {
    c.ToExit? || c.Exited? || c.Cleared? || c.Gone?
  }

  predicate HasExited(c: Child) {
    c.Exited? || c.Cleared? || c.Gone?
  }

  predicate Finished(c: Child) {
    c.Cleared? || c.Gone?
  }

  predicate WordsFit(s: State) {
    && (s.creator == Started <==> s.child != Unborn)
    && (s.tcb.state_finish == 0 <==> s.creator == Allocated || Finished(s.child))
    && (PastWait(s.child) ==> s.tcb.state_detach != NOT_YET)
    && (s.child.ToDecide? && s.child.seen != NOT_YET ==> s.tcb.state_detach != NOT_YET)
    && (CodeStored(s.child) ==> s.tcb.exit_code == ToWord(s.child.v))
  }

  /** The client has stored its decision. */
  predicate HasDecided(c: Client) {
    !(c == Outside || c == ToSignal || c == ToDetach)
  }

  predicate ClientFits(s: State, c: Client) {
    && (HasDecided(c) ==> s.tcb.state_detach != NOT_YET)
    && (c != Outside ==> s.creator == Started)
    && (c == Dozing || c == ToRead ==> Finished(s.child))
    && (c.Joined? ==> Finished(s.child) && c.code == s.child.v)
  }

  predicate Inv(s: State) {
    WordsFit(s) && forall i :: 0 <= i < |s.clients| ==> ClientFits(s, s.clients[i])
  }

  lemma CodeRoundTrip(v: I32)
    ensures FromWord(ToWord(v)) == v
  {
  }

  lemma StepKeepsWords(s: State, a: Action)
    requires WordsFit(s) && Enabled(s, a)
    requires forall i :: 0 <= i < |s.clients| ==> ClientFits(s, s.clients[i])
    ensures WordsFit(Next(s, a))
  {
    hide ToWord, FromWord;
  }

  lemma StepKeepsClient(s: State, a: Action, i: nat)
    requires WordsFit(s) && Enabled(s, a) && i < |s.clients| && ClientFits(s, s.clients[i])
    ensures i < |Next(s, a).clients| && ClientFits(Next(s, a), Next(s, a).clients[i])
  {
    if s.child.ToExit? || HasExited(s.child) {
      CodeRoundTrip(s.child.v);
    }
    hide ToWord, FromWord;
  }

  lemma StepKeepsInv(s: State, a: Action)
    requires Inv(s) && Enabled(s, a)
    ensures Inv(Next(s, a))
  {
    hide WordsFit, ClientFits;
    StepKeepsWords(s, a);
    SameClients(s, a);
    hide Next, Enabled;
    forall i | 0 <= i < |Next(s, a).clients| ensures ClientFits(Next(s, a), Next(s, a).clients[i]) {
      StepKeepsClient(s, a, i);
    }
  }

  lemma SameClients(s: State, a: Action)
    requires Enabled(s, a)
    ensures |Next(s, a).clients| == |s.clients|
  {
  }

  lemma {:induction false} RunInv(run: seq<State>, k: nat)
    requires IsRun(run) && k < |run|
    ensures Inv(run[k])
  {
    if k > 0 {
      RunInv(run, k - 1);
      assert Step(run[k - 1], run[k - 1 + 1]);
      var a :| Enabled(run[k - 1], a) && run[k] == Next(run[k - 1], a);
      StepKeepsInv(run[k - 1], a);
    }
  }

  // ---------- safety of join ----------

  /** state_finish is 0 after the thread was created only if its exit code is stored and
    state_detach has left NOT_YET. */
  lemma FinishedMeansStored(run: seq<State>, k: nat)
    requires IsRun(run) && k < |run| && run[k].creator == Started && run[k].tcb.state_finish == 0
    ensures HasExited(run[k].child)
    ensures FromWord(run[k].tcb.exit_code) == run[k].child.v
    ensures run[k].tcb.state_detach != NOT_YET
  {
    RunInv(run, k);
    CodeRoundTrip(run[k].child.v);
  }

  /** The value a thread carries once its function has returned. */
  function Returned(c: Child): (r: seq<I32>) {
    if c.Unborn? || c.InFunction? then [] else [c.v]
  }

  /** A step changes whether and with what value the function has returned only by returning, and
    whether the thread has exited only by exiting. */
  lemma ChildSteps(s: State, a: Action)
    requires Inv(s) && Enabled(s, a)
    ensures var c := Next(s, a).child;
            && (if a.Return? then s.child == InFunction && c == ToLoad(a.v) else Returned(c) == Returned(s.child))
            && (if a.Exit? then s.child.ToExit? && c == Exited(s.child.v) else HasExited(c) == HasExited(s.child))
  {
  }

  /** Where the value comes from: the thread's function returned it, in one step of the run. */
  lemma {:induction false} ValueWasReturned(run: seq<State>, k: nat) returns (j: nat)
    requires IsRun(run) && k < |run| && Returned(run[k].child) != []
    ensures j < k && run[j].child == InFunction && run[j + 1].child == ToLoad(run[k].child.v)
  {
    hide Enabled, Next;
    assert Step(run[k - 1], run[k - 1 + 1]);
    var a :| Enabled(run[k - 1], a) && run[k] == Next(run[k - 1], a);
    RunInv(run, k - 1);
    ChildSteps(run[k - 1], a);
    if a.Return? {
      j := k - 1;
    } else {
      j := ValueWasReturned(run, k - 1);
    }
  }

  /** The thread makes its exit system call in one step of the run, if it has exited. */
  lemma {:induction false} ExitHappened(run: seq<State>, k: nat) returns (j: nat)
    requires IsRun(run) && k < |run| && HasExited(run[k].child)
    ensures j < k && run[j].child == ToExit(run[k].child.v) && run[j + 1].child == Exited(run[k].child.v)
  {
    hide Enabled, Next;
    assert Step(run[k - 1], run[k - 1 + 1]);
    var a :| Enabled(run[k - 1], a) && run[k] == Next(run[k - 1], a);
    RunInv(run, k - 1);
    ChildSteps(run[k - 1], a);
    if a.Exit? {
      j := k - 1;
    } else {
      j := ExitHappened(run, k - 1);
    }
  }

  /** A join that returns does so after the thread has exited, and yields exactly the value that
    the thread's function returned. */
  lemma JoinIsSafe(run: seq<State>, k: nat, i: nat)
    requires IsRun(run) && k < |run| && i < |run[k].clients| && run[k].clients[i].Joined?
    ensures var code := run[k].clients[i].code;
            && (exists j :: 0 <= j < k && run[j].child == InFunction && run[j + 1].child == ToLoad(code))
            && (exists j :: 0 <= j < k && run[j].child == ToExit(code) && run[j + 1].child == Exited(code))
  {
    RunInv(run, k);
    assert ClientFits(run[k], run[k].clients[i]);
    var j := ValueWasReturned(run, k);
    var l := ExitHappened(run, k);
  }

  /** All joins of one thread yield the same value. */
  lemma JoinsAgree(run: seq<State>, k: nat, i: nat, j: nat)
    requires IsRun(run) && k < |run| && i < |run[k].clients| && j < |run[k].clients|
    requires run[k].clients[i].Joined? && run[k].clients[j].Joined?
    ensures run[k].clients[i] == run[k].clients[j]
  {
    RunInv(run, k);
    assert ClientFits(run[k], run[k].clients[i]) && ClientFits(run[k], run[k].clients[j]);
  }

  /** Without a decision to join or detach, a thread does not finish. */
  lemma NobodyDecided(run: seq<State>, k: nat)
    requires IsRun(run) && k < |run| && run[k].tcb.state_detach == NOT_YET
    ensures !PastWait(run[k].child)
    ensures forall i :: 0 <= i < |run[k].clients| ==> !run[k].clients[i].Joined?
  {
    RunInv(run, k);
    forall i | 0 <= i < |run[k].clients| ensures !run[k].clients[i].Joined? {
      assert ClientFits(run[k], run[k].clients[i]);
    }
  }

  // ---------- where join does not return ----------

  /** A sleeping joiner is past help, short of a spurious wake-up, if and only if the kernel has
    already issued its one wake: no step of anybody changes anything for it. */
  lemma StuckIffGone(s: State, i: nat)
    requires Inv(s) && i < |s.clients| && s.clients[i] == Dozing
    ensures s.child.Gone? <==> forall a :: Enabled(s, a) && a != ClientSpurious(i) ==> At(Next(s, a), i, Dozing)
    ensures s.child.Gone? ==> forall a :: Enabled(s, a) ==> Next(s, a).child.Gone?
  {
    assert ClientFits(s, s.clients[i]);
    if s.child.Cleared? {
      var a := KernelWake(i);
      assert Enabled(s, a) && !At(Next(s, a), i, Dozing);
    }
  }

  /** Such a state is reached when the thread exits between the joiner's test and its wait: the wait
    expects 0, which is what state_finish then is. */
  lemma JoinCanSleepForever() returns (run: seq<State>)
    ensures IsRun(run)
    ensures var s := run[|run| - 1]; s.clients == [Dozing] && s.child == Gone(0)
  {
    run := JoinerTests();
    run := Extend(run, Return(0), State(Tcb(1, JOINED, 0), Started, ToLoad(0), [ToDoze]));
    run := Extend(run, Load, State(Tcb(1, JOINED, 0), Started, ToDecide(0, JOINED), [ToDoze]));
    run := Extend(run, Decide, State(Tcb(1, JOINED, 0), Started, ToStore(0), [ToDoze]));
    run := Extend(run, StoreCode, State(Tcb(1, JOINED, 0), Started, ToExit(0), [ToDoze]));
    run := Extend(run, Exit, State(Tcb(1, JOINED, 0), Started, Exited(0), [ToDoze]));
    run := Extend(run, ClearTid, State(Tcb(0, JOINED, 0), Started, Cleared(0), [ToDoze]));
    run := Extend(run, KernelWakesNobody, State(Tcb(0, JOINED, 0), Started, Gone(0), [ToDoze]));
    run := Extend(run, ClientWait(0), State(Tcb(0, JOINED, 0), Started, Gone(0), [Dozing]));
  }

  lemma JoinerTests() returns (run: seq<State>)
    ensures IsRun(run) && run[|run| - 1] == State(Tcb(1, JOINED, 0), Started, InFunction, [ToDoze])
  {
    run := JoinerCalls();
    OneClient(ToSignal, ToWake);
    run := Extend(run, Signal(0), State(Tcb(1, JOINED, 0), Started, InFunction, [ToWake]));
    OneClient(ToWake, ToTest);
    run := Extend(run, WakeNothing(0), State(Tcb(1, JOINED, 0), Started, InFunction, [ToTest]));
    OneClient(ToTest, ToDoze);
    run := Extend(run, Test(0), State(Tcb(1, JOINED, 0), Started, InFunction, [ToDoze]));
  }

  lemma JoinerCalls() returns (run: seq<State>)
    ensures IsRun(run) && run[|run| - 1] == State(Tcb(1, 0, 0), Started, InFunction, [ToSignal])
  {
    run := [State(Tcb(0, 0, 0), Allocated, Unborn, [Outside])];
    run := Extend(run, Prepare, State(Tcb(1, 0, 0), Prepared, Unborn, [Outside]));
    run := Extend(run, Clone(true), State(Tcb(1, 0, 0), Started, InFunction, [Outside]));
    OneClient(Outside, ToSignal);
    run := Extend(run, CallJoin(0), State(Tcb(1, 0, 0), Started, InFunction, [ToSignal]));
  }

  lemma OneClient(c: Client, d: Client)
    ensures [c][0 := d] == [d]
  {
  }

  lemma Extend(run: seq<State>, a: Action, s: State) returns (longer: seq<State>)
    requires IsRun(run) && Enabled(run[|run| - 1], a) && s == Next(run[|run| - 1], a)
    ensures IsRun(longer) && longer[|longer| - 1] == s
  {
    Prolong(run, a);
    longer := run + [s];
  }

  lemma Prolong(run: seq<State>, a: Action)
    requires IsRun(run) && Enabled(run[|run| - 1], a)
    ensures IsRun(run + [Next(run[|run| - 1], a)])
  {
    hide Enabled, Next, Init;
    var longer := run + [Next(run[|run| - 1], a)];
    forall k | 0 <= k < |longer| - 1 ensures Step(longer[k], longer[k + 1]) {
      if k < |run| - 1 {
        assert Step(run[k], run[k + 1]);
      }
    }
  }

  // ---------- when join can sleep for ever ----------

  /** The run `longer` begins like the first k + 1 states of `run`. */
  ghost predicate Continues(run: seq<State>, k: nat, longer: seq<State>)
    requires k < |run|
  {
    IsRun(longer) && k < |longer| && longer[..k + 1] == run[..k + 1]
  }

  /** Client i sleeps, and the kernel's only wake is over. */
  predicate SleepsForGood(s: State, i: nat) {
    At(s, i, Dozing) && s.child.Gone?
  }

  /** A client that read 0 from state_finish, or is about to, is on its way out of the loop. */
  predicate OnItsWay(s: State, i: nat) {
    && s.creator == Started && s.tcb.state_finish == 0 && i < |s.clients|
    && (s.clients[i] == ToTest || s.clients[i] == ToRead || s.clients[i].Joined?)
  }

  lemma StaysOnItsWay(s: State, i: nat, a: Action)
    requires OnItsWay(s, i) && Enabled(s, a)
    ensures OnItsWay(Next(s, a), i)
  {
  }

  /** From a test that finds state_finish to be 0 on, the client never sleeps. */
  lemma {:induction false} NeverSleeps(longer: seq<State>, k: nat, j: nat, i: nat)
    requires IsRun(longer) && k <= j < |longer| && OnItsWay(longer[k], i)
    ensures OnItsWay(longer[j], i) && !At(longer[j], i, Dozing)
    decreases j
  {
    hide Enabled, Next, Init, OnItsWay;
    if k < j {
      NeverSleeps(longer, k, j - 1, i);
      assert Step(longer[j - 1], longer[j - 1 + 1]);
      var a :| Enabled(longer[j - 1], a) && longer[j] == Next(longer[j - 1], a);
      StaysOnItsWay(longer[j - 1], i, a);
    }
    WayIsAwake(longer[j], i);
  }

  lemma WayIsAwake(s: State, i: nat)
    requires OnItsWay(s, i)
    ensures !At(s, i, Dozing)
  {
  }

  /** A move of the thread, or of the kernel for it, towards its end. */
  function Towards(c: Child): Action {
    match c
    case Unborn => Clone(true)
    case InFunction => Return(0)
    case ToLoad(_) => Load
    case ToDecide(_, _) => Decide
    case ToWait(_) => ChildWait
    case Asleep(_) => ChildSpurious
    case ToStore(_) => StoreCode
    case ToExit(_) => Exit
    case Exited(_) => ClearTid
    case Cleared(_) => KernelWakesNobody
    case Gone(_) => KernelWakesNobody
  }

  /** The number of those moves until the thread is gone, once a client has decided. */
  function Moves(c: Child): nat {
    match c
    case Unborn => 11
    case InFunction => 8
    case ToDecide(_, seen) => if seen == NOT_YET then 9 else 6
    case ToWait(_) => 8
    case Asleep(_) => 8
    case ToLoad(_) => 7
    case ToStore(_) => 5
    case ToExit(_) => 4
    case Exited(_) => 3
    case Cleared(_) => 2
    case Gone(_) => 1
  }

  /** Somebody has decided, and nobody sleeps on state_finish. */
  predicate Free(s: State) {
    Inv(s) && s.creator == Started && s.tcb.state_detach != NOT_YET && Dozing !in s.clients
  }

  lemma MoveTowards(s: State)
    requires Free(s) && !s.child.Gone?
    ensures Enabled(s, Towards(s.child))
    ensures var s' := Next(s, Towards(s.child));
            Free(s') && s'.clients == s.clients && Moves(s'.child) < Moves(s.child)
  {
    StepKeepsInv(s, Towards(s.child));
    hide ClientFits;
  }

  lemma {:induction false} RunToItsEnd(run: seq<State>) returns (longer: seq<State>)
    requires IsRun(run) && Free(run[|run| - 1])
    ensures IsRun(longer) && |run| <= |longer| && longer[..|run|] == run
    ensures Free(longer[|longer| - 1]) && longer[|longer| - 1].child.Gone?
    ensures longer[|longer| - 1].clients == run[|run| - 1].clients
    decreases Moves(run[|run| - 1].child)
  {
    assert |run| > 0;
    hide Enabled, Next, IsRun, Free, Towards, Moves;
    var s := run[|run| - 1];
    if s.child.Gone? {
      longer := run;
    } else {
      MoveTowards(s);
      Prolong(run, Towards(s.child));
      var next := run + [Next(s, Towards(s.child))];
      longer := RunToItsEnd(next);
      assert longer[..|run|] == longer[..|next|][..|run|];
    }
  }

  /** The last steps before and after the thread's end: the test that fails, and the wait. */
  lemma TestThenFree(s: State, i: nat)
    requires Inv(s) && At(s, i, ToTest) && s.tcb.state_finish != 0
    ensures Enabled(s, Test(i)) && Free(Next(s, Test(i))) && At(Next(s, Test(i)), i, ToDoze)
  {
    StepKeepsInv(s, Test(i));
    assert ClientFits(s, s.clients[i]);
    var s' := Next(s, Test(i));
    forall j | 0 <= j < |s'.clients| ensures s'.clients[j] != Dozing {
      assert ClientFits(s', s'.clients[j]);
    }
  }

  lemma WaitThenDoze(s: State, i: nat)
    requires Inv(s) && At(s, i, ToDoze) && s.child.Gone?
    ensures Enabled(s, ClientWait(i)) && SleepsForGood(Next(s, ClientWait(i)), i)
  {
  }

  lemma SleepIsReachable(run: seq<State>, k: nat, i: nat) returns (longer: seq<State>)
    requires IsRun(run) && k < |run| && At(run[k], i, ToTest) && run[k].tcb.state_finish != 0
    ensures Continues(run, k, longer) && SleepsForGood(longer[|longer| - 1], i)
  {
    RunInv(run, k);
    var upto := run[..k + 1];
    assert IsRun(upto) by { PrefixIsRun(run, k); }
    TestThenFree(run[k], i);
    hide Enabled, Next, IsRun, Free, SleepsForGood, Inv, Init;
    Prolong(upto, Test(i));
    var tested := upto + [Next(run[k], Test(i))];
    var gone := RunToItsEnd(tested);
    var s := gone[|gone| - 1];
    FreeInv(s);
    WaitThenDoze(s, i);
    Prolong(gone, ClientWait(i));
    longer := gone + [Next(s, ClientWait(i))];
    assert longer[..k + 1] == gone[..|tested|][..k + 1];
  }

  lemma FreeInv(s: State)
    requires Free(s)
    ensures Inv(s)
  {
  }

  lemma PrefixIsRun(run: seq<State>, k: nat)
    requires IsRun(run) && k < |run|
    ensures IsRun(run[..k + 1])
  {
    var upto := run[..k + 1];
    forall j | 0 <= j < |upto| - 1 ensures Step(upto[j], upto[j + 1]) {
      assert Step(run[j], run[j + 1]);
    }
  }

  /** The exact condition, at the test of the loop in _rt_thread_join: the call can end up asleep
    beyond the kernel's wake if and only if the test does not find state_finish to be 0. Otherwise
    it never sleeps again, whatever happens. */
  lemma JoinMaySleepIff(run: seq<State>, k: nat, i: nat)
    requires IsRun(run) && k < |run| && At(run[k], i, ToTest)
    ensures run[k].tcb.state_finish != 0 <==>
            exists longer: seq<State> :: Continues(run, k, longer) && SleepsForGood(longer[|longer| - 1], i)
    ensures run[k].tcb.state_finish == 0 ==>
            forall longer: seq<State>, j :: Continues(run, k, longer) && k <= j < |longer| ==> !At(longer[j], i, Dozing)
  {
    RunInv(run, k);
    assert ClientFits(run[k], run[k].clients[i]);
    if run[k].tcb.state_finish != 0 {
      var longer := SleepIsReachable(run, k, i);
    } else {
      assert OnItsWay(run[k], i);
      hide Inv, IsRun, OnItsWay;
      forall longer: seq<State>, j | Continues(run, k, longer) && k <= j < |longer| ensures !At(longer[j], i, Dozing) {
        assert longer[k] == longer[..k + 1][k] == run[..k + 1][k] == run[k];
        NeverSleeps(longer, k, j, i);
      }
    }
  }

  // ---------- where join does return ----------

  /** A client that finds state_finish to be 0 is two steps of its own from returning the value that
    the thread's function returned. */
  lemma TestThenRead(s: State, i: nat)
    requires Inv(s) && At(s, i, ToTest) && s.tcb.state_finish == 0
    ensures HasExited(s.child) && Enabled(s, Test(i))
    ensures var s1 := Next(s, Test(i)); Enabled(s1, Read(i)) && At(Next(s1, Read(i)), i, Joined(s.child.v))
  {
    assert ClientFits(s, s.clients[i]);
    CodeRoundTrip(s.child.v);
    hide ToWord, FromWord;
  }

  /** From every test of every join, some continuation has the call return. */
  lemma JoinCanReturn(run: seq<State>, k: nat, i: nat) returns (longer: seq<State>)
    requires IsRun(run) && k < |run| && At(run[k], i, ToTest)
    ensures Continues(run, k, longer)
    ensures var s := longer[|longer| - 1]; HasExited(s.child) && At(s, i, Joined(s.child.v))
  {
    RunInv(run, k);
    var upto := run[..k + 1];
    PrefixIsRun(run, k);
    if run[k].tcb.state_finish != 0 {
      TestThenFree(run[k], i);
      FreeBefore(run[k], i);
    } else {
      assert ClientFits(run[k], run[k].clients[i]);
    }
    hide Enabled, Next, IsRun, Free, Inv, Init;
    var gone := upto;
    if run[k].tcb.state_finish != 0 {
      gone := RunToItsEnd(upto);
    }
    var s := gone[|gone| - 1];
    assert gone[..k + 1] == upto;
    FinishedNow(run[k], s);
    TestThenRead(s, i);
    ReadKeepsChild(s, i);
    Prolong(gone, Test(i));
    var tested := gone + [Next(s, Test(i))];
    Prolong(tested, Read(i));
    longer := tested + [Next(Next(s, Test(i)), Read(i))];
    assert longer[..k + 1] == gone[..k + 1];
  }

  lemma FreeBefore(s: State, i: nat)
    requires Inv(s) && At(s, i, ToTest) && s.tcb.state_finish != 0
    ensures Free(s)
  {
    assert ClientFits(s, s.clients[i]);
    forall j | 0 <= j < |s.clients| ensures s.clients[j] != Dozing {
      assert ClientFits(s, s.clients[j]);
    }
  }

  lemma FinishedNow(s0: State, s: State)
    requires Inv(s0) && s0.creator == Started
    requires if s0.tcb.state_finish != 0 then Free(s) && s.child.Gone? else s == s0
    ensures Inv(s) && s.tcb.state_finish == 0
  {
  }

  lemma ReadKeepsChild(s: State, i: nat)
    requires At(s, i, ToTest) && Enabled(s, Test(i)) && Enabled(Next(s, Test(i)), Read(i))
    ensures Next(Next(s, Test(i)), Read(i)).child == s.child
  {
  }

  // ---------- who decided what ----------

  /** The client has stored JOINED. */
  predicate HasSignalled(c: Client) {
    c == ToWake || c == ToTest || c == ToDoze || c == Dozing || c == ToRead || c.Joined?
  }

  /** state_detach says what some client stored: 2 for a join, 1 for a detach, 0 as long as nobody has
    stored anything. */
  ghost predicate WordTells(s: State) {
    || (s.tcb.state_detach == 0 && forall i :: 0 <= i < |s.clients| ==> !HasDecided(s.clients[i]))
    || (s.tcb.state_detach == 1 && exists i :: 0 <= i < |s.clients| && s.clients[i] == Detached)
    || (s.tcb.state_detach == 2 && exists i :: 0 <= i < |s.clients| && HasSignalled(s.clients[i]))
  }

  /** Whoever has signalled or detached stays so. */
  lemma DecisionsStay(s: State, a: Action, i: nat)
    requires Enabled(s, a) && i < |s.clients|
    ensures i < |Next(s, a).clients|
    ensures HasSignalled(s.clients[i]) ==> HasSignalled(Next(s, a).clients[i])
    ensures s.clients[i] == Detached ==> Next(s, a).clients[i] == Detached
  {
  }

  lemma WhoDecides(s: State, a: Action, i: nat)
    requires Enabled(s, a) && i < |Next(s, a).clients|
    ensures i < |s.clients|
    ensures !a.Signal? && !a.StoreDetached? ==>
              Next(s, a).tcb.state_detach == s.tcb.state_detach
              && (HasDecided(Next(s, a).clients[i]) ==> HasDecided(s.clients[i]))
    ensures a.Signal? ==> a.i < |s.clients| && Next(s, a).clients[a.i] == ToWake && Next(s, a).tcb.state_detach == 2
    ensures a.StoreDetached? ==> a.i < |s.clients| && Next(s, a).clients[a.i] == Detached && Next(s, a).tcb.state_detach == 1
  {
  }

  lemma StepTells(s: State, a: Action)
    requires WordTells(s) && Enabled(s, a)
    ensures WordTells(Next(s, a))
  {
    SameClients(s, a);
    var s' := Next(s, a);
    if s.clients == [] {
      NobodyDecides(s, a);
    } else {
      WhoDecides(s, a, 0);
      hide Next, Enabled, HasDecided, HasSignalled;
      if a.Signal? {
        assert HasSignalled(ToWake) by { SignalledNow(); }
        assert HasSignalled(s'.clients[a.i]);
      } else if a.StoreDetached? {
        assert s'.clients[a.i] == Detached;
      } else if s.tcb.state_detach == 0 {
        forall i | 0 <= i < |s'.clients| ensures !HasDecided(s'.clients[i]) {
          WhoDecides(s, a, i);
        }
      } else if s.tcb.state_detach == 1 {
        var i :| 0 <= i < |s.clients| && s.clients[i] == Detached;
        DecisionsStay(s, a, i);
      } else {
        var i :| 0 <= i < |s.clients| && HasSignalled(s.clients[i]);
        DecisionsStay(s, a, i);
      }
    }
  }

  lemma SignalledNow()
    ensures HasSignalled(ToWake)
  {
  }

  lemma NobodyDecides(s: State, a: Action)
    requires WordTells(s) && Enabled(s, a) && s.clients == []
    ensures WordTells(Next(s, a))
  {
  }

  /** So in a run in which nobody called join, the word is 0 or 1, and it is 1 once a detach has
    returned; and without a detach it is 0 or 2. */
  lemma {:induction false} DetachWord(run: seq<State>, k: nat)
    requires IsRun(run) && k < |run|
    ensures WordTells(run[k])
    ensures (forall i :: 0 <= i < |run[k].clients| ==> !HasSignalled(run[k].clients[i])) ==>
              && run[k].tcb.state_detach <= 1
              && ((exists i :: 0 <= i < |run[k].clients| && run[k].clients[i] == Detached) ==> run[k].tcb.state_detach == 1)
    ensures (forall i :: 0 <= i < |run[k].clients| ==> run[k].clients[i] != Detached) ==>
              run[k].tcb.state_detach == 0 || run[k].tcb.state_detach == 2
  {
    hide Enabled, Next;
    if k > 0 {
      DetachWord(run, k - 1);
      assert Step(run[k - 1], run[k - 1 + 1]);
      var a :| Enabled(run[k - 1], a) && run[k] == Next(run[k - 1], a);
      StepTells(run[k - 1], a);
    }
  }

  // ---------- where a detached thread stays ----------

  /** A sleeping thread is woken by a joiner that is about to wake it, and otherwise only spuriously. */
  lemma AsleepUntilJoin(s: State, a: Action)
    requires s.child.Asleep? && Enabled(s, a) && a != ChildSpurious && forall i :: 0 <= i < |s.clients| ==> s.clients[i] != ToWake
    requires s.creator == Started
    ensures Next(s, a).child == s.child
  {
  }

  /** A detach wakes nobody, so a thread that went to sleep before it can stay asleep although it is
    detached. */
  lemma DetachedCanSleep() returns (run: seq<State>)
    ensures IsRun(run)
    ensures var s := run[|run| - 1]; s.clients == [Detached] && s.child == Asleep(0) && s.tcb.state_detach == 1
  {
    run := ThreadAsleep();
    OneClient(Outside, ToDetach);
    run := Extend(run, CallDetach(0), State(Tcb(1, 0, 0), Started, Asleep(0), [ToDetach]));
    OneClient(ToDetach, Detached);
    run := Extend(run, StoreDetached(0), State(Tcb(1, 1, 0), Started, Asleep(0), [Detached]));
  }

  lemma ThreadAsleep() returns (run: seq<State>)
    ensures IsRun(run) && run[|run| - 1] == State(Tcb(1, 0, 0), Started, Asleep(0), [Outside])
  {
    run := [State(Tcb(0, 0, 0), Allocated, Unborn, [Outside])];
    run := Extend(run, Prepare, State(Tcb(1, 0, 0), Prepared, Unborn, [Outside]));
    run := Extend(run, Clone(true), State(Tcb(1, 0, 0), Started, InFunction, [Outside]));
    run := Extend(run, Return(0), State(Tcb(1, 0, 0), Started, ToLoad(0), [Outside]));
    run := Extend(run, Load, State(Tcb(1, 0, 0), Started, ToDecide(0, 0), [Outside]));
    run := Extend(run, Decide, State(Tcb(1, 0, 0), Started, ToWait(0), [Outside]));
    run := Extend(run, ChildWait, State(Tcb(1, 0, 0), Started, Asleep(0), [Outside]));
  }
}
