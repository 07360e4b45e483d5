/** The workload of tests/threaded.c: N threads that each run K rounds of lock, increment a shared
  64-bit counter, unlock. The increment is a load and a separate store, so its result depends on
  mutual exclusion. */
module CounterRun {
  import opened Machine
  import Mutex

  /** How far a thread is in its critical section. */
  datatype Body = Entered | Loaded(value: U64) | Stored

  datatype Work = Work(rounds: nat, body: Body)

  datatype State = State(m: Mutex.State, counter: U64, work: seq<Work>)

  datatype Action = Sync(a: Mutex.Action) | LoadCounter | StoreCounter

  predicate Enabled(s: State, i: nat, a: Action) {
    && i < |s.work| == |s.m.phases|
    && match a
       case Sync(ma) =>
         && Mutex.Enabled(s.m, i, ma)
         && (ma == Mutex.Begin ==> s.work[i].rounds > 0)
         && (ma == Mutex.Release ==> s.work[i].body == Stored)
       case LoadCounter => s.m.phases[i] == Mutex.Held && s.work[i].body == Entered
       case StoreCounter => s.m.phases[i] == Mutex.Held && s.work[i].body.Loaded?
  }

  /** A round is over once the wake call has returned. */
  function WorkAfter(w: Work, ma: Mutex.Action): Work {
    match ma
    case WakeOne(_) => Work(if w.rounds > 0 then w.rounds - 1 else 0, Entered)
    case WakeNobody => Work(if w.rounds > 0 then w.rounds - 1 else 0, Entered)
    case _ => w
  }

  function Next(s: State, i: nat, a: Action): State
    requires Enabled(s, i, a)
  {
    var w := s.work[i];
    match a
    case Sync(ma) => s.(m := Mutex.Next(s.m, i, ma), work := s.work[i := WorkAfter(w, ma)])
    case LoadCounter => s.(work := s.work[i := w.(body := Loaded(s.counter))])
    case StoreCounter =>
      s.(counter := (w.body.value + 1) % TWO_TO_THE_64, work := s.work[i := w.(body := Stored)])
  }

  const SPURIOUS: Action := Sync(Mutex.SpuriousWake)

  /** No thread has a step but a spurious wake-up. */
  ghost predicate Stuck(s: State) {
    forall i, a :: Enabled(s, i, a) ==> a == SPURIOUS
  }

  function Start(n: nat, k: nat): State {
    State(Mutex.State(Mutex.FREE, seq(n, i => Mutex.Idle)), 0, seq(n, i => Work(k, Entered)))
  }

  /** Who takes a step, and which. */
  datatype Move = Move(i: nat, a: Action)

  /** `run` are the states that the moves go through. */
  ghost predicate IsRun(run: seq<State>, moves: seq<Move>, n: nat, k: nat) {
    && |run| == |moves| + 1 && run[0] == Start(n, k)
    && forall j :: 0 <= j < |moves| ==> Takes(run[j], moves[j], run[j + 1])
  }

  predicate Takes(s: State, move: Move, s': State) {
    Enabled(s, move.i, move.a) && s' == Next(s, move.i, move.a)
  }

  /** The number of spurious wake-ups among the first `j` moves. */
  function Spurious(moves: seq<Move>, j: nat): nat
    requires j <= |moves|
  {
    if j == 0 then 0 else Spurious(moves, j - 1) + (if moves[j - 1].a == SPURIOUS then 1 else 0)
  }

  predicate Finished(s: State) {
    && |s.work| == |s.m.phases|
    && forall i :: 0 <= i < |s.work| ==> s.m.phases[i] == Mutex.Idle && s.work[i] == Work(0, Entered)
  }

  // ---------- sums over threads ----------

  /** Sum of a per-thread weight over all threads. */
  function Total(f: (Mutex.Phase, Work) -> nat, phases: seq<Mutex.Phase>, work: seq<Work>): nat
    requires |phases| == |work|
  {
    if |work| == 0 then 0 else f(phases[0], work[0]) + Total(f, phases[1..], work[1..])
  }

  lemma {:induction false} TotalUpdate(f: (Mutex.Phase, Work) -> nat, phases: seq<Mutex.Phase>, work: seq<Work>,
                                       i: nat, p: Mutex.Phase, w: Work)
    requires |phases| == |work| && i < |work|
    ensures Total(f, phases[i := p], work[i := w]) + f(phases[i], work[i]) == Total(f, phases, work) + f(p, w)
    decreases |work|
  {
    if i > 0 {
      TotalUpdate(f, phases[1..], work[1..], i - 1, p, w);
      assert phases[i := p][1..] == phases[1..][i - 1 := p];
      assert work[i := w][1..] == work[1..][i - 1 := w];
    }
  }

  lemma {:induction false} TotalOfEqual(f: (Mutex.Phase, Work) -> nat, phases: seq<Mutex.Phase>, work: seq<Work>, c: nat)
    requires |phases| == |work|
    requires forall i :: 0 <= i < |work| ==> f(phases[i], work[i]) == c
    ensures Total(f, phases, work) == |work| * c
  {
    if |work| > 0 {
      assert f(phases[0], work[0]) == c;
      TotalOfEqual(f, phases[1..], work[1..], c);
    }
  }

  // ---------- invariant ----------

  /** Which bodies and round counts go with which phase. */
  predicate ThreadOk(p: Mutex.Phase, w: Work, counter: U64) {
    match p
    case Idle => w.body == Entered
    case Held => w.rounds > 0 && (w.body.Loaded? ==> w.body.value == counter)
    case ToWake => w.rounds > 0 && w.body == Stored
    case _ => w.rounds > 0 && w.body == Entered
  }

  /** The increments a thread has still to store. */
  function Todo(p: Mutex.Phase, w: Work): nat {
    if w.rounds == 0 then 0 else if w.body == Stored then w.rounds - 1 else w.rounds
  }

  predicate Inv(s: State, total: nat) {
    && Mutex.Inv(s.m)
    && |s.m.phases| == |s.work|
    && (forall i :: 0 <= i < |s.work| ==> ThreadOk(s.m.phases[i], s.work[i], s.counter))
    && (s.counter + Total(Todo, s.m.phases, s.work)) % TWO_TO_THE_64 == total % TWO_TO_THE_64
  }

  lemma InvAtStart(n: nat, k: nat)
    ensures Inv(Start(n, k), n * k)
  {
    var s := Start(n, k);
    Mutex.InvAtStart(s.m);
    TotalOfEqual(Todo, s.m.phases, s.work, k);
  }

  /** The effect of one step on a sum over threads. */
  lemma TotalStep(f: (Mutex.Phase, Work) -> nat, s: State, i: nat, a: Action)
    requires Enabled(s, i, a)
    ensures var s' := Next(s, i, a);
            && |s'.m.phases| == |s'.work| == |s.work|
            && (if a.Sync? && a.a.WakeOne? then
                  var j := a.a.sleeper;
                  && i != j
                  && Total(f, s'.m.phases, s'.work) + f(s.m.phases[i], s.work[i]) + f(s.m.phases[j], s.work[j])
                     == Total(f, s.m.phases, s.work) + f(s'.m.phases[i], s'.work[i]) + f(s'.m.phases[j], s'.work[j])
                else
                  Total(f, s'.m.phases, s'.work) + f(s.m.phases[i], s.work[i])
                  == Total(f, s.m.phases, s.work) + f(s'.m.phases[i], s'.work[i]))
  {
    var s' := Next(s, i, a);
    TotalUpdate(f, s.m.phases, s.work, i, s'.m.phases[i], s'.work[i]);
    if a.Sync? && a.a.WakeOne? {
      var j := a.a.sleeper;
      var phases, work := s.m.phases[i := Mutex.Idle], s'.work;
      TotalUpdate(f, phases, work, j, Mutex.TryCas, work[j]);
      assert work[j := work[j]] == work;
    } else {
      assert s'.m.phases == s.m.phases[i := s'.m.phases[i]];
    }
  }

  lemma StepKeepsThreads(s: State, i: nat, a: Action, total: nat)
    requires Inv(s, total) && Enabled(s, i, a)
    ensures var s' := Next(s, i, a);
            && |s'.m.phases| == |s'.work|
            && forall j :: 0 <= j < |s'.work| ==> ThreadOk(s'.m.phases[j], s'.work[j], s'.counter)
  {
    var s' := Next(s, i, a);
    forall j | 0 <= j < |s'.work| ensures ThreadOk(s'.m.phases[j], s'.work[j], s'.counter) {
      assert ThreadOk(s.m.phases[j], s.work[j], s.counter);
      if a == StoreCounter && j != i {
        Mutex.OnlyOneHolder(s.m, i, j);
      }
    }
  }

  lemma TodoStep(s: State, i: nat, a: Action, total: nat)
    requires Inv(s, total) && Enabled(s, i, a)
    ensures var s' := Next(s, i, a);
            && |s'.m.phases| == |s'.work|
            && Total(Todo, s'.m.phases, s'.work) + (if a == StoreCounter then 1 else 0) == Total(Todo, s.m.phases, s.work)
  {
    assert ThreadOk(s.m.phases[i], s.work[i], s.counter);
    TotalStep(Todo, s, i, a);
    if a.Sync? && a.a.WakeOne? {
      assert ThreadOk(s.m.phases[a.a.sleeper], s.work[a.a.sleeper], s.counter);
    }
  }

  /** What a step adds to the counter it takes off the increments still to do. */
  lemma StepKeepsSum(s: State, i: nat, a: Action, total: nat)
    requires Inv(s, total) && Enabled(s, i, a)
    ensures var s' := Next(s, i, a);
            && |s'.m.phases| == |s'.work|
            && (s'.counter + Total(Todo, s'.m.phases, s'.work)) % TWO_TO_THE_64
               == (s.counter + Total(Todo, s.m.phases, s.work)) % TWO_TO_THE_64
  {
    assert ThreadOk(s.m.phases[i], s.work[i], s.counter);
    TodoStep(s, i, a, total);
    hide Total, Todo;
  }

  lemma SyncPart(s: State, i: nat, a: Action)
    requires Enabled(s, i, a)
    ensures if a.Sync? then Mutex.Enabled(s.m, i, a.a) && Next(s, i, a).m == Mutex.Next(s.m, i, a.a)
            else Next(s, i, a).m == s.m
  {
  }

  lemma StepKeepsInv(s: State, i: nat, a: Action, total: nat)
    requires Inv(s, total) && Enabled(s, i, a)
    ensures Inv(Next(s, i, a), total)
  {
    hide Total, Todo, ThreadOk, WorkAfter;
    StepKeepsThreads(s, i, a, total);
    StepKeepsSum(s, i, a, total);
    hide Next, Enabled;
    assert a.Sync? ==> Mutex.Enabled(s.m, i, a.a) && Next(s, i, a).m == Mutex.Next(s.m, i, a.a) by { SyncPart(s, i, a); }
    assert !a.Sync? ==> Next(s, i, a).m == s.m by { SyncPart(s, i, a); }
    hide Mutex.Next, Mutex.Enabled;
    if a.Sync? {
      Mutex.StepKeepsInv(s.m, i, a.a);
    }
  }

  // ---------- termination ----------

  /** Steps that a thread has left, not counting failed attempts to take the lock: six a round. */
  function Ahead(p: Mutex.Phase, w: Work): nat {
    6 * w.rounds - (
      if w.rounds == 0 then 0
      else match p
           case Idle => 0
           case TryCas => 1
           case ToWait => 1
           case Asleep => 1
           case Held => if w.body == Entered then 2 else if w.body == Stored then 4 else 3
           case ToWake => 5)
  }

  /** Failed attempts that are possible before somebody moves ahead. While the lock is taken a
    contender can fail its compare-and-swap and then go to sleep; once it is free, a contender
    that was about to wait comes straight back. */
  function Attempts(m: Mutex.State): nat {
    if m.word == Mutex.LOCK then 2 * multiset(m.phases)[Mutex.TryCas] + multiset(m.phases)[Mutex.ToWait]
    else multiset(m.phases)[Mutex.ToWait]
  }

  /** The lexicographic pair (steps ahead, attempts), folded into one number. */
  function Measure(s: State): nat
    requires |s.m.phases| == |s.work|
  {
    Pair(Total(Ahead, s.m.phases, s.work), Attempts(s.m), |s.work|)
  }

  function Pair(big: nat, small: nat, n: nat): nat {
    big * (2 * n + 1) + small
  }

  lemma AttemptsBound(m: Mutex.State)
    ensures Attempts(m) <= 2 * |m.phases|
  {
    var ms := multiset(m.phases);
    var rest := ms[Mutex.TryCas := 0];
    assert |rest| == |ms| - ms[Mutex.TryCas];
    assert |rest[Mutex.ToWait := 0]| == |rest| - rest[Mutex.ToWait];
  }

  lemma Lexicographic(big: nat, big': nat, small: nat, small': nat, n: nat)
    requires small' <= 2 * n
    requires big' < big || (big' == big && small' < small)
    ensures Pair(big', small', n) < Pair(big, small, n)
  {
    if big' < big {
      assert (big' + 1) * (2 * n + 1) <= big * (2 * n + 1);
    }
  }

  /** The step neither gets nor releases anything: a failed attempt to lock, or a wait. */
  predicate Fails(s: State, a: Action) {
    a == Sync(Mutex.FutexWait) || (a == Sync(Mutex.CompareExchange) && s.m.word == Mutex.LOCK)
  }

  /** What a step does for its own thread, and for the one it wakes. */
  lemma OwnAhead(s: State, i: nat, a: Action, total: nat)
    requires Inv(s, total) && Enabled(s, i, a) && a != SPURIOUS
    ensures var s' := Next(s, i, a);
            && |s'.m.phases| == |s'.work| == |s.work|
            && var own, own' := Ahead(s.m.phases[i], s.work[i]), Ahead(s'.m.phases[i], s'.work[i]);
            && (if Fails(s, a) then own' == own else own' < own)
            && (a.Sync? && a.a.WakeOne? ==>
                  var j := a.a.sleeper; Ahead(s'.m.phases[j], s'.work[j]) == Ahead(s.m.phases[j], s.work[j]))
  {
    assert ThreadOk(s.m.phases[i], s.work[i], s.counter);
    if a.Sync? && a.a.WakeOne? {
      assert ThreadOk(s.m.phases[a.a.sleeper], s.work[a.a.sleeper], s.counter);
    }
  }

  /** A step that does not fail brings its thread ahead. */
  lemma StepAhead(s: State, i: nat, a: Action, total: nat)
    requires Inv(s, total) && Enabled(s, i, a) && a != SPURIOUS
    ensures |Next(s, i, a).m.phases| == |Next(s, i, a).work| == |s.work|
    ensures var big, big' := Total(Ahead, s.m.phases, s.work), Total(Ahead, Next(s, i, a).m.phases, Next(s, i, a).work);
            if Fails(s, a) then big' == big else big' < big
  {
    OwnAhead(s, i, a, total);
    TotalStep(Ahead, s, i, a);
    hide Ahead, Total, ThreadOk, Fails;
  }

  lemma StepAttempts(m: Mutex.State, i: nat, a: Mutex.Action)
    requires Mutex.Exclusive(m) && Mutex.Enabled(m, i, a)
    requires a == Mutex.FutexWait || (a == Mutex.CompareExchange && m.word == Mutex.LOCK)
    ensures Attempts(Mutex.Next(m, i, a)) < Attempts(m)
  {
    Mutex.PhaseAppears(m.phases, i);
  }

  /** Every step but a spurious wake-up decreases the measure. */
  lemma StepDecreases(s: State, i: nat, a: Action, total: nat)
    requires Inv(s, total) && Enabled(s, i, a) && a != SPURIOUS
    ensures |Next(s, i, a).m.phases| == |Next(s, i, a).work|
    ensures Measure(Next(s, i, a)) < Measure(s)
  {
    hide Pair;
    var s' := Next(s, i, a);
    StepAhead(s, i, a, total);
    AttemptsBound(s'.m);
    if Fails(s, a) {
      StepAttempts(s.m, i, a.a);
    }
    Lexicographic(Total(Ahead, s.m.phases, s.work), Total(Ahead, s'.m.phases, s'.work),
                  Attempts(s.m), Attempts(s'.m), |s.work|);
  }

  /** A spurious wake-up brings nobody ahead or back, and costs at most two more attempts. */
  lemma SpuriousIncreases(s: State, i: nat, total: nat)
    requires Inv(s, total) && Enabled(s, i, SPURIOUS)
    ensures |Next(s, i, SPURIOUS).m.phases| == |Next(s, i, SPURIOUS).work|
    ensures Measure(Next(s, i, SPURIOUS)) <= Measure(s) + 2
  {
    var s' := Next(s, i, SPURIOUS);
    assert ThreadOk(s.m.phases[i], s.work[i], s.counter);
    TotalStep(Ahead, s, i, SPURIOUS);
    hide Total;
    OneMoreAttempt(s.m, i);
    hide Attempts, Ahead;
  }

  lemma OneMoreAttempt(m: Mutex.State, i: nat)
    requires Mutex.Enabled(m, i, Mutex.SpuriousWake)
    ensures Attempts(Mutex.Next(m, i, Mutex.SpuriousWake)) <= Attempts(m) + 2
  {
  }

  /** Along a run the invariant holds, and the measure has dropped at least once a step, apart from
    the spurious wake-ups. */
  lemma {:induction false} RunProgress(run: seq<State>, moves: seq<Move>, n: nat, k: nat, j: nat)
    requires IsRun(run, moves, n, k) && j < |run|
    ensures Inv(run[j], n * k) && |run[j].work| == n
    ensures Measure(run[j]) + j <= Measure(run[0]) + 3 * Spurious(moves, j)
  {
    hide Measure, Inv, Enabled, Next;
    if j == 0 {
      InvAtStart(n, k);
    } else {
      RunProgress(run, moves, n, k, j - 1);
      assert Takes(run[j - 1], moves[j - 1], run[j - 1 + 1]);
      hide IsRun;
      var s, i, a := run[j - 1], moves[j - 1].i, moves[j - 1].a;
      SameThreads(s, i, a);
      StepKeepsInv(s, i, a, n * k);
      if a == SPURIOUS {
        SpuriousIncreases(s, i, n * k);
      } else {
        StepDecreases(s, i, a, n * k);
      }
    }
  }

  lemma SameThreads(s: State, i: nat, a: Action)
    requires Enabled(s, i, a)
    ensures |Next(s, i, a).work| == |s.work|
  {
  }

  /** No run of N threads with K rounds each takes more than 6NK(2N+1) steps, and three more for
    every spurious wake-up in it. */
  lemma RunsAreFinite(run: seq<State>, moves: seq<Move>, n: nat, k: nat)
    requires IsRun(run, moves, n, k)
    ensures |moves| <= (n * (6 * k)) * (2 * n + 1) + 3 * Spurious(moves, |moves|)
  {
    hide Spurious, Measure, Takes, Inv;
    RunProgress(run, moves, n, k, |moves|);
    StartMeasure(n, k);
  }

  lemma StartMeasure(n: nat, k: nat)
    ensures Measure(Start(n, k)) == (n * (6 * k)) * (2 * n + 1)
  {
    var s := Start(n, k);
    TotalOfEqual(Ahead, s.m.phases, s.work, 6 * k);
    assert Mutex.ToWait !in s.m.phases;
    assert Attempts(s.m) == 0;
    hide Total, Ahead, Attempts;
  }

  /** A thread that is neither idle without work nor asleep has a step of its own. */
  lemma AwakeCanStep(s: State, i: nat, total: nat)
    requires Inv(s, total) && i < |s.work|
    requires s.m.phases[i] != Mutex.Asleep && !(s.m.phases[i] == Mutex.Idle && s.work[i].rounds == 0)
    ensures !Stuck(s)
  {
    assert ThreadOk(s.m.phases[i], s.work[i], s.counter);
    match s.m.phases[i]
    case Idle => assert Enabled(s, i, Sync(Mutex.Begin));
    case TryCas => assert Enabled(s, i, Sync(Mutex.CompareExchange));
    case ToWait => assert Enabled(s, i, Sync(Mutex.FutexWait));
    case Held =>
      match s.work[i].body {
        case Entered => assert Enabled(s, i, LoadCounter);
        case Loaded(_) => assert Enabled(s, i, StoreCounter);
        case Stored => assert Enabled(s, i, Sync(Mutex.Release));
      }
    case ToWake =>
      if Mutex.Asleep in s.m.phases {
        var j :| 0 <= j < |s.m.phases| && s.m.phases[j] == Mutex.Asleep;
        assert Enabled(s, i, Sync(Mutex.WakeOne(j)));
      } else {
        assert Enabled(s, i, Sync(Mutex.WakeNobody));
      }
    case Asleep => assert false;
  }

  /** In a state without a step nobody sleeps, since whoever would wake a sleeper could step. */
  lemma StuckIsFinished(s: State, total: nat)
    requires Inv(s, total) && Stuck(s)
    ensures Finished(s)
  {
    forall i | 0 <= i < |s.work| ensures s.m.phases[i] == Mutex.Idle && s.work[i] == Work(0, Entered) {
      StuckThread(s, i, total);
    }
  }

  lemma StuckThread(s: State, i: nat, total: nat)
    requires Inv(s, total) && Stuck(s) && i < |s.work|
    ensures s.m.phases[i] == Mutex.Idle && s.work[i] == Work(0, Entered)
  {
    assert ThreadOk(s.m.phases[i], s.work[i], s.counter);
    hide Stuck;
    if s.m.phases[i] == Mutex.Asleep {
      var p :| p in s.m.phases && p in {Mutex.Held, Mutex.ToWake, Mutex.TryCas, Mutex.ToWait};
      var w :| 0 <= w < |s.m.phases| && s.m.phases[w] == p;
      AwakeCanStep(s, w, total);
    } else if !(s.m.phases[i] == Mutex.Idle && s.work[i].rounds == 0) {
      AwakeCanStep(s, i, total);
    }
  }

  lemma FinishedIsStuck(s: State, total: nat)
    requires Inv(s, total) && Finished(s)
    ensures Stuck(s) && s.counter == total % TWO_TO_THE_64
  {
    TotalOfEqual(Todo, s.m.phases, s.work, 0);
  }

  /** Nobody is left behind, spurious wake-ups or not: a state without a step is one where every
    thread has finished, and then the counter holds N*K (in 64 bits). The other way round, a finished
    state has no step. */
  lemma StuckIffFinished(run: seq<State>, moves: seq<Move>, n: nat, k: nat, j: nat)
    requires IsRun(run, moves, n, k) && j < |run|
    ensures Stuck(run[j]) <==> Finished(run[j])
    ensures Finished(run[j]) ==> run[j].counter == (n * k) % TWO_TO_THE_64
  {
    hide Inv, ThreadOk, Enabled, Next, IsRun, Measure, Spurious;
    var s := run[j];
    RunProgress(run, moves, n, k, j);
    if Stuck(s) {
      StuckIsFinished(s, n * k);
    }
    if Finished(s) {
      FinishedIsStuck(s, n * k);
    }
  }
}
