/** cia_mutex_lock and cia_mutex_unlock (src/cia-sync/mutex.c) as atomic steps of any number of
  threads, over the futex calls of os/linux/tinyrt.c.

  A thread that locks alternates between a compare-and-swap on the mutex word and a futex wait
  that sleeps only while the word is LOCK. A thread that unlocks stores FREE and then, as a
  separate step, wakes one sleeper if there is one. A sleeping thread may also wake up for no
  reason. Atomic operations are sequentially consistent. */
module Mutex {

  const FREE: nat := 0
  const LOCK: nat := 1

  /** Where a thread is: outside the lock, about to compare-and-swap, about to call futex wait,
    asleep on the word, in the critical section, or past the releasing store but before its wake. */
  datatype Phase = Idle | TryCas | ToWait | Asleep | Held | ToWake

  datatype State = State(word: nat, phases: seq<Phase>)

  datatype Action =
    | Begin
    | CompareExchange
    | FutexWait
    | SpuriousWake
    | Release
    | WakeOne(sleeper: nat)
    | WakeNobody

  predicate Trying(p: Phase) {
    p == TryCas || p == ToWait || p == Asleep
  }

  predicate Enabled(s: State, i: nat, a: Action) {
    && i < |s.phases|
    && match a
       case Begin => s.phases[i] == Idle
       case CompareExchange => s.phases[i] == TryCas
       case FutexWait => s.phases[i] == ToWait
       case SpuriousWake => s.phases[i] == Asleep
       case Release => s.phases[i] == Held
       case WakeOne(j) => s.phases[i] == ToWake && j < |s.phases| && s.phases[j] == Asleep
       case WakeNobody => s.phases[i] == ToWake && Asleep !in s.phases
  }

  function Next(s: State, i: nat, a: Action): State
    requires Enabled(s, i, a)
  {
    match a
    case Begin => s.(phases := s.phases[i := TryCas])
    case CompareExchange =>
      if s.word == FREE then State(LOCK, s.phases[i := Held])
      else s.(phases := s.phases[i := ToWait])
    case FutexWait => s.(phases := s.phases[i := if s.word == LOCK then Asleep else TryCas])
    case SpuriousWake => s.(phases := s.phases[i := TryCas])
    case Release => State(FREE, s.phases[i := ToWake])
    case WakeOne(j) => s.(phases := s.phases[i := Idle][j := TryCas])
    case WakeNobody => s.(phases := s.phases[i := Idle])
  }

  ghost predicate Step(s: State, s': State) {
    exists i, a :: Enabled(s, i, a) && s' == Next(s, i, a)
  }

  /** cia_mutex_init, before any thread has touched the mutex. */
  predicate Init(s: State) {
    s.word == FREE && forall i :: 0 <= i < |s.phases| ==> s.phases[i] == Idle
  }

  ghost predicate IsRun(run: seq<State>) {
    && |run| > 0 && Init(run[0])
    && forall k :: 0 <= k < |run| - 1 ==> Step(run[k], run[k + 1])
  }

  // ---------- safety ----------

  /** The word says exactly how many threads are in the critical section. */
  predicate Exclusive(s: State) {
    || (s.word == FREE && multiset(s.phases)[Held] == 0)
    || (s.word == LOCK && multiset(s.phases)[Held] == 1)
  }

  /** If somebody sleeps, then somebody who will issue a wake or retry is awake. */
  predicate NoLostWakeup(s: State) {
    Asleep in s.phases ==>
      || (s.word == LOCK && Held in s.phases)
      || ToWake in s.phases || TryCas in s.phases || ToWait in s.phases
  }

  predicate Inv(s: State) {
    Exclusive(s) && NoLostWakeup(s)
  }

  lemma InvAtStart(s: State)
    requires Init(s)
    ensures Inv(s)
  {
    if Held in s.phases || Asleep in s.phases {
      assert false;
    }
    assert multiset(s.phases)[Held] == 0;
  }

  lemma PhaseAppears(phases: seq<Phase>, i: nat)
    requires i < |phases|
    ensures phases[i] in phases && phases[i] in multiset(phases)
  {
  }

  /** Every step, spurious wake-ups included, keeps both halves of the invariant. */
  lemma StepKeepsInv(s: State, i: nat, a: Action)
    requires Inv(s) && Enabled(s, i, a)
    ensures Inv(Next(s, i, a))
  {
    var s' := Next(s, i, a);
    PhaseAppears(s.phases, i);
    PhaseAppears(s'.phases, i);
    if s.word == LOCK {
      assert Held in multiset(s.phases);
    }
    match a
    case WakeOne(j) =>
      PhaseAppears(s'.phases, j);
    case WakeNobody =>
      assert Asleep !in multiset(s.phases);
      assert Asleep !in multiset(s'.phases);
    case CompareExchange =>
      assert s'.phases[i] in {Held, ToWait};
    case FutexWait =>
      if s.word == LOCK {
        assert Held in multiset(s'.phases);
      }
    case _ =>
  }

  /** Main safety theorem: in every state of every run the lock word is FREE or LOCK, it counts
    the threads in the critical section, no two threads are in it, and no wake-up is lost. */
  lemma {:induction false} RunIsSafe(run: seq<State>, k: nat)
    requires IsRun(run) && k < |run|
    ensures Inv(run[k])
    ensures forall i, j :: 0 <= i < j < |run[k].phases| ==> !(run[k].phases[i] == Held && run[k].phases[j] == Held)
  {
    if k == 0 {
      InvAtStart(run[0]);
    } else {
      RunIsSafe(run, k - 1);
      assert Step(run[k - 1], run[k - 1 + 1]);
      var i, a :| Enabled(run[k - 1], i, a) && run[k] == Next(run[k - 1], i, a);
      StepKeepsInv(run[k - 1], i, a);
    }
    forall i, j | 0 <= i < j < |run[k].phases|
      ensures !(run[k].phases[i] == Held && run[k].phases[j] == Held)
    {
      OnlyOneHolder(run[k], i, j);
    }
  }

  lemma OnlyOneHolder(s: State, i: nat, j: nat)
    requires Exclusive(s) && i < |s.phases| && j < |s.phases| && i != j
    ensures !(s.phases[i] == Held && s.phases[j] == Held)
  {
    var rest := s.phases[i := Idle];
    PhaseAppears(s.phases, i);
    PhaseAppears(rest, j);
    assert s.phases[i] == Held ==> multiset(rest)[Held] + 1 == multiset(s.phases)[Held];
  }

  lemma HolderMeansLocked(s: State, i: nat)
    requires Exclusive(s) && i < |s.phases| && s.phases[i] == Held
    ensures s.word == LOCK
  {
    PhaseAppears(s.phases, i);
  }
}
