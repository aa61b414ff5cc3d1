/** _atomic_dec_and_lock and example_atomic_inc built on compare-and-swap, for any number of
threads and every interleaving of their accesses.

atomic_read carries no barrier, so a read may deliver any value at all; only the
compare-and-swap is exact. Whether spin_lock orders the accesses after it is a parameter: if not,
the compare-and-swap may take effect before the lock is taken. */
module DecAndLock {
  import opened Common

  type Thread = nat

  /** What a thread does next. */
  datatype Pc =
    | Idle
    | DecRead                              // old = atomic_read(atomic)
    | DecLock(seen: int)                   // spin_lock(lock): the new value would be 0
    | DecCas(seen: int, wentToZero: bool)  // ret = cas(atomic, old, new)
    | DecUnlock                            // the swap failed under the lock
    | EarlySwapped(wrote: int)             // the swap has overtaken spin_lock, and succeeded
    | EarlyFailed                          // ... or failed
    | DecReturn(wentToZero: bool, wrote: int)
    | Owner                                // the caller's critical section
    | IncRead
    | IncCas(seen: int)
    | IncReturn

  /** A completed call of _atomic_dec_and_lock: what it returned, what its own successful swap
      wrote, and whether the thread held the lock. */
  datatype Outcome = Outcome(thread: Thread, result: bool, wrote: int, locked: bool)

  datatype State = State(
    counter: int,
    lock: Option<Thread>,
    pc: map<Thread, Pc>,
    decs: multiset<Thread>,      // who swapped in _atomic_dec_and_lock
    incs: multiset<Thread>,      // who swapped in example_atomic_inc
    outcomes: seq<Outcome>,      // completed calls of _atomic_dec_and_lock
    incCalls: multiset<Thread>)  // who completed a call of example_atomic_inc

  datatype Step =
    | BeginDec(thread: Thread)
    | BeginInc(thread: Thread)
    | TakeLock(thread: Thread)              // a caller takes the lock for itself
    | Unlock(thread: Thread)                // and gives it up
    | Read(thread: Thread, value: int)      // the value may be stale
    | Lock(thread: Thread)
    | Cas(thread: Thread)
    | EarlyCas(thread: Thread)              // the swap overtakes spin_lock
    | Retry(thread: Thread)
    | Return(thread: Thread)

  function Init(threads: set<Thread>, value: int): State {
    State(value, None, map t | t in threads :: Idle, multiset{}, multiset{}, [], multiset{})
  }

  predicate Enabled(ordered: bool, s: State, a: Step) {
    a.thread in s.pc &&
    var p := s.pc[a.thread];
    match a
    case BeginDec(_) => p.Idle?
    case BeginInc(_) => p.Idle?
    case TakeLock(_) => p.Idle? && s.lock.None?
    case Unlock(_) => p.Owner?
    case Read(_, _) => p.DecRead? || p.IncRead?
    case Lock(_) => (p.DecLock? || p.EarlySwapped? || p.EarlyFailed?) && s.lock.None?
    case Cas(_) => p.DecCas? || p.IncCas?
    case EarlyCas(_) => !ordered && p.DecLock?
    case Retry(_) => p.DecUnlock?
    case Return(_) => p.DecReturn? || p.IncReturn?
  }

  function Goto(s: State, t: Thread, p: Pc): State {
    s.(pc := s.pc[t := p])
  }

  function ReadStep(s: State, t: Thread, p: Pc, value: int): State {
    Goto(s, t, if p.IncRead? then IncCas(value) else if value - 1 == 0 then DecLock(value) else DecCas(value, false))
  }

  /** cas: write new if the value is still old, and tell. */
  function CasStep(s: State, t: Thread, p: Pc): State
    requires p.DecCas? || p.IncCas?
  {
    if s.counter == p.seen then
      if p.IncCas? then Goto(s.(counter := p.seen + 1, incs := s.incs + multiset{t}), t, IncReturn)
      else Goto(s.(counter := p.seen - 1, decs := s.decs + multiset{t}), t, DecReturn(p.wentToZero, p.seen - 1))
    else
      Goto(s, t, if p.IncCas? then IncRead else if p.wentToZero then DecUnlock else DecRead)
  }

  function EarlyCasStep(s: State, t: Thread, p: Pc): State
    requires p.DecLock?
  {
    if s.counter == p.seen then
      Goto(s.(counter := p.seen - 1, decs := s.decs + multiset{t}), t, EarlySwapped(p.seen - 1))
    else
      Goto(s, t, EarlyFailed)
  }

  function LockStep(s: State, t: Thread, p: Pc): State
    requires p.DecLock? || p.EarlySwapped? || p.EarlyFailed?
  {
    Goto(s.(lock := Some(t)), t,
         if p.DecLock? then DecCas(p.seen, true) else if p.EarlySwapped? then DecReturn(true, p.wrote) else DecUnlock)
  }

  function ReturnStep(s: State, t: Thread, p: Pc): State {
    if p.DecReturn? then
      Goto(s.(outcomes := s.outcomes + [Outcome(t, p.wentToZero, p.wrote, s.lock == Some(t))]), t,
           if p.wentToZero then Owner else Idle)
    else
      Goto(s.(incCalls := s.incCalls + multiset{t}), t, Idle)
  }

  function Apply(ordered: bool, s: State, a: Step): State
    requires Enabled(ordered, s, a)
  {
    var p := s.pc[a.thread];
    match a
    case BeginDec(t) => Goto(s, t, DecRead)
    case BeginInc(t) => Goto(s, t, IncRead)
    case TakeLock(t) => Goto(s.(lock := Some(t)), t, Owner)
    case Unlock(t) => Goto(s.(lock := None), t, Idle)
    case Read(t, value) => ReadStep(s, t, p, value)
    case Lock(t) => LockStep(s, t, p)
    case Cas(t) => CasStep(s, t, p)
    case EarlyCas(t) => EarlyCasStep(s, t, p)
    case Retry(t) => Goto(s.(lock := None), t, DecRead)
    case Return(t) => ReturnStep(s, t, p)
  }

  /** The state after a schedule, if every step of it could be taken. */
  function Execute(ordered: bool, threads: set<Thread>, value: int, schedule: seq<Step>): Option<State> {
    if schedule == [] then Some(Init(threads, value))
    else
      var before := Execute(ordered, threads, value, schedule[..|schedule| - 1]);
      var a := schedule[|schedule| - 1];
      if before.Some? && Enabled(ordered, before.value, a) then Some(Apply(ordered, before.value, a)) else None
  }

  // ----- The invariant -----

  predicate HoldsLock(p: Pc) {
    (p.DecCas? && p.wentToZero) || p.DecUnlock? || (p.DecReturn? && p.wentToZero) || p.Owner?
  }

  ghost predicate Locking(s: State) {
    && (forall t :: t in s.pc && HoldsLock(s.pc[t]) ==> s.lock == Some(t))
    && (s.lock.Some? ==> s.lock.value in s.pc && HoldsLock(s.pc[s.lock.value]))
  }

  /** The lock is taken exactly for the value that leads to zero. */
  predicate Local(p: Pc) {
    match p
    case DecLock(seen) => seen == 1
    case DecCas(seen, z) => z <==> seen == 1
    case DecReturn(z, wrote) => z <==> wrote == 0
    case EarlySwapped(wrote) => wrote == 0
    case _ => true
  }

  /** The threads whose calls of _atomic_dec_and_lock have returned, once for each call. */
  function Callers(outcomes: seq<Outcome>): (r: seq<Thread>)
    ensures |r| == |outcomes| && forall i :: 0 <= i < |r| ==> r[i] == outcomes[i].thread
  {
    seq(|outcomes|, i requires 0 <= i < |outcomes| => outcomes[i].thread)
  }

  predicate HasSwapped(p: Pc) {
    p.DecReturn? || p.EarlySwapped?
  }

  /** Thread t has swapped once for each call that has returned, and once more if it is about to
      return. */
  ghost predicate DecSwapped(s: State, t: Thread) {
    s.decs[t] == multiset(Callers(s.outcomes))[t] + One(t in s.pc && HasSwapped(s.pc[t]))
  }

  ghost predicate IncSwapped(s: State, t: Thread) {
    s.incs[t] == s.incCalls[t] + One(t in s.pc && s.pc[t].IncReturn?)
  }

  ghost predicate Counting(s: State, value: int) {
    s.counter == value + |s.incs| - |s.decs| && forall t :: DecSwapped(s, t) && IncSwapped(s, t)
  }

  predicate Truthful(x: Outcome) {
    (x.result <==> x.wrote == 0) && (x.locked <==> x.result)
  }

  ghost predicate Inv(s: State, value: int) {
    && Locking(s)
    && (forall t :: t in s.pc ==> Local(s.pc[t]))
    && Counting(s, value)
    && (forall i :: 0 <= i < |s.outcomes| ==> Truthful(s.outcomes[i]))
  }

  lemma CallersAppend(outcomes: seq<Outcome>, x: Outcome)
    ensures multiset(Callers(outcomes + [x])) == multiset(Callers(outcomes)) + multiset{x.thread}
  {
    assert Callers(outcomes + [x]) == Callers(outcomes) + [x.thread];
  }

  /** A step moves one thread, which takes the lock, gives it up, or leaves it as it was. */
  lemma StepShape(ordered: bool, s: State, a: Step)
    requires Enabled(ordered, s, a) && Local(s.pc[a.thread])
    requires HoldsLock(s.pc[a.thread]) ==> s.lock == Some(a.thread)
    ensures a.thread in Apply(ordered, s, a).pc
    ensures var t, s' := a.thread, Apply(ordered, s, a);
            && s'.pc == s.pc[t := s'.pc[t]] && Local(s'.pc[t])
            && ( || (s'.lock == s.lock && (HoldsLock(s'.pc[t]) <==> HoldsLock(s.pc[t])))
                 || (s.lock == None && s'.lock == Some(t) && HoldsLock(s'.pc[t]))
                 || (s.lock == Some(t) && s'.lock == None && !HoldsLock(s'.pc[t])))
  {
  }

  lemma LockingKept(ordered: bool, s: State, a: Step)
    requires Locking(s) && Enabled(ordered, s, a)
    requires forall t :: t in s.pc ==> Local(s.pc[t])
    ensures Locking(Apply(ordered, s, a))
    ensures forall t :: t in Apply(ordered, s, a).pc ==> Local(Apply(ordered, s, a).pc[t])
  {
    StepShape(ordered, s, a);
    var s' := Apply(ordered, s, a);
    forall t | t in s'.pc
      ensures Local(s'.pc[t])
    {
      assert t == a.thread || s'.pc[t] == s.pc[t];
    }
  }

  lemma ReturnSwapped(s: State, c: Thread, p: Pc, t: Thread)
    requires c in s.pc && s.pc[c] == p && p.DecReturn? && DecSwapped(s, t)
    ensures DecSwapped(ReturnStep(s, c, p), t)
  {
    CallersAppend(s.outcomes, Outcome(c, p.wentToZero, p.wrote, s.lock == Some(c)));
  }

  lemma DecSwappedKept(ordered: bool, s: State, a: Step, t: Thread)
    requires Enabled(ordered, s, a) && DecSwapped(s, t)
    ensures DecSwapped(Apply(ordered, s, a), t)
  {
    if a.Return? && s.pc[a.thread].DecReturn? {
      ReturnSwapped(s, a.thread, s.pc[a.thread], t);
    } else {
      assert Apply(ordered, s, a).outcomes == s.outcomes;
    }
  }

  lemma IncSwappedKept(ordered: bool, s: State, a: Step, t: Thread)
    requires Enabled(ordered, s, a) && IncSwapped(s, t)
    ensures IncSwapped(Apply(ordered, s, a), t)
  {
  }

  lemma CountingKept(ordered: bool, s: State, a: Step, value: int)
    requires Counting(s, value) && Enabled(ordered, s, a)
    ensures Counting(Apply(ordered, s, a), value)
  {
    forall t
      ensures DecSwapped(Apply(ordered, s, a), t) && IncSwapped(Apply(ordered, s, a), t)
    {
      DecSwappedKept(ordered, s, a, t);
      IncSwappedKept(ordered, s, a, t);
    }
  }

  lemma OutcomesKept(ordered: bool, s: State, a: Step, value: int)
    requires Inv(s, value) && Enabled(ordered, s, a)
    ensures forall i :: 0 <= i < |Apply(ordered, s, a).outcomes| ==> Truthful(Apply(ordered, s, a).outcomes[i])
  {
  }

  lemma {:induction false} ExecutionKept(ordered: bool, threads: set<Thread>, value: int, schedule: seq<Step>)
    requires Execute(ordered, threads, value, schedule).Some?
    ensures Inv(Execute(ordered, threads, value, schedule).value, value)
  {
    if schedule != [] {
      var init, a := schedule[..|schedule| - 1], schedule[|schedule| - 1];
      ExecutionKept(ordered, threads, value, init);
      var s := Execute(ordered, threads, value, init).value;
      LockingKept(ordered, s, a);
      CountingKept(ordered, s, a, value);
      OutcomesKept(ordered, s, a, value);
    }
  }

  // ----- What the function promises -----

  /** Main result: a call returns 1 exactly when its own swap wrote zero, and it returns holding
      the lock exactly when it returns 1. */
  lemma {:induction false} OutcomesTruthful(ordered: bool, threads: set<Thread>, value: int, schedule: seq<Step>, i: nat)
    requires Execute(ordered, threads, value, schedule).Some? && i < |Execute(ordered, threads, value, schedule).value.outcomes|
    ensures var x := Execute(ordered, threads, value, schedule).value.outcomes[i];
            (x.result <==> x.wrote == 0) && (x.locked <==> x.result)
  {
    ExecutionKept(ordered, threads, value, schedule);
    assert Truthful(Execute(ordered, threads, value, schedule).value.outcomes[i]);
  }

  /** If the step takes the counter to zero, it is a decrement of 1 by the thread that holds the lock,
      or an increment of -1. */
  ghost predicate ZeroIsLocked(ordered: bool, s: State, a: Step)
    requires Enabled(ordered, s, a)
  {
    var s' := Apply(ordered, s, a);
    s.counter != 0 && s'.counter == 0 ==>
      || (s.counter == 1 && s.lock == Some(a.thread) == s'.lock)
      || (s.counter == -1 && s.pc[a.thread] == IncCas(-1))
  }

  ghost predicate RunIsLocked(ordered: bool, threads: set<Thread>, value: int, schedule: seq<Step>, a: Step) {
    var r := Execute(ordered, threads, value, schedule);
    r.Some? && Enabled(ordered, r.value, a) ==> ZeroIsLocked(ordered, r.value, a)
  }

  lemma {:induction false} ZeroUnderLock(threads: set<Thread>, value: int, schedule: seq<Step>, a: Step)
    ensures RunIsLocked(true, threads, value, schedule, a)
  {
    if Execute(true, threads, value, schedule).Some? && Enabled(true, Execute(true, threads, value, schedule).value, a) {
      ExecutionKept(true, threads, value, schedule);
      assert Local(Execute(true, threads, value, schedule).value.pc[a.thread]);
    }
  }

  lemma Extend(schedule: seq<Step>, s: State, a: Step) returns (longer: seq<Step>, s': State)
    requires Execute(false, {0}, 1, schedule) == Some(s) && Enabled(false, s, a)
    ensures Execute(false, {0}, 1, longer) == Some(s') && s' == Apply(false, s, a)
  {
    longer, s' := schedule + [a], Apply(false, s, a);
    assert longer[..|schedule|] == schedule;
  }

  /** Without the order, the swap to zero overtakes the lock. */
  lemma ZeroOvertakes() returns (schedule: seq<Step>)
    ensures !RunIsLocked(false, {0}, 1, schedule, EarlyCas(0))
  {
    var s: State;
    schedule, s := Extend([], Init({0}, 1), BeginDec(0));
    schedule, s := Extend(schedule, s, Read(0, 1));
    assert s.pc[0] == DecLock(1) && s.counter == 1 && s.lock == None;
    assert !ZeroIsLocked(false, s, EarlyCas(0));
  }

  /** Main result: in all runs the counter falls to zero only in a step of the thread that holds the
      lock, exactly when spin_lock orders the accesses after it. From any value, the only other way
      to zero is an increment of -1. */
  lemma {:induction false} ZeroUnderLockIff(ordered: bool)
    ensures ordered <==>
      forall threads: set<Thread>, value: int, schedule: seq<Step>, a: Step :: RunIsLocked(ordered, threads, value, schedule, a)
  {
    if ordered {
      forall threads: set<Thread>, value: int, schedule: seq<Step>, a: Step
        ensures RunIsLocked(ordered, threads, value, schedule, a)
      {
        ZeroUnderLock(threads, value, schedule, a);
      }
    } else {
      var schedule := ZeroOvertakes();
    }
  }

  /** The threads that have begun a call of example_atomic_inc, once for each call. */
  function IncBegun(schedule: seq<Step>): multiset<Thread> {
    if schedule == [] then multiset{}
    else
      var a := schedule[|schedule| - 1];
      IncBegun(schedule[..|schedule| - 1]) + (if a.BeginInc? then multiset{a.thread} else multiset{})
  }

  function DecBegun(schedule: seq<Step>): multiset<Thread> {
    if schedule == [] then multiset{}
    else
      var a := schedule[|schedule| - 1];
      DecBegun(schedule[..|schedule| - 1]) + (if a.BeginDec? then multiset{a.thread} else multiset{})
  }

  predicate InInc(p: Pc) {
    p.IncRead? || p.IncCas? || p.IncReturn?
  }

  predicate InDec(p: Pc) {
    p.DecRead? || p.DecLock? || p.DecCas? || p.DecUnlock? || p.EarlySwapped? || p.EarlyFailed? || p.DecReturn?
  }

  ghost predicate IncAccounted(s: State, begun: multiset<Thread>, t: Thread) {
    begun[t] == s.incCalls[t] + One(t in s.pc && InInc(s.pc[t]))
  }

  ghost predicate DecAccounted(s: State, begun: multiset<Thread>, t: Thread) {
    begun[t] == multiset(Callers(s.outcomes))[t] + One(t in s.pc && InDec(s.pc[t]))
  }

  lemma IncAccountedKept(ordered: bool, s: State, a: Step, begun: multiset<Thread>, t: Thread)
    requires Enabled(ordered, s, a) && IncAccounted(s, begun, t)
    ensures IncAccounted(Apply(ordered, s, a), begun + (if a.BeginInc? then multiset{a.thread} else multiset{}), t)
  {
  }

  lemma ReturnAccounted(s: State, c: Thread, p: Pc, begun: multiset<Thread>, t: Thread)
    requires c in s.pc && s.pc[c] == p && p.DecReturn? && DecAccounted(s, begun, t)
    ensures DecAccounted(ReturnStep(s, c, p), begun, t)
  {
    CallersAppend(s.outcomes, Outcome(c, p.wentToZero, p.wrote, s.lock == Some(c)));
  }

  lemma DecAccountedKept(ordered: bool, s: State, a: Step, begun: multiset<Thread>, t: Thread)
    requires Enabled(ordered, s, a) && DecAccounted(s, begun, t)
    ensures DecAccounted(Apply(ordered, s, a), begun + (if a.BeginDec? then multiset{a.thread} else multiset{}), t)
  {
    if a.Return? && s.pc[a.thread].DecReturn? {
      ReturnAccounted(s, a.thread, s.pc[a.thread], begun, t);
    } else {
      assert Apply(ordered, s, a).outcomes == s.outcomes;
    }
  }

  /** Main result: no call is lost. At every point of every run each thread has begun as many calls as
      it has returned from, and one more exactly while it is inside one. */
  lemma {:induction false} BegunIsReturned(ordered: bool, threads: set<Thread>, value: int, schedule: seq<Step>, t: Thread)
    requires Execute(ordered, threads, value, schedule).Some?
    ensures var s := Execute(ordered, threads, value, schedule).value;
            && IncBegun(schedule)[t] == s.incCalls[t] + One(t in s.pc && InInc(s.pc[t]))
            && DecBegun(schedule)[t] == multiset(Callers(s.outcomes))[t] + One(t in s.pc && InDec(s.pc[t]))
  {
    if schedule != [] {
      var init, a := schedule[..|schedule| - 1], schedule[|schedule| - 1];
      BegunIsReturned(ordered, threads, value, init, t);
      var s := Execute(ordered, threads, value, init).value;
      IncAccountedKept(ordered, s, a, IncBegun(init), t);
      DecAccountedKept(ordered, s, a, DecBegun(init), t);
    }
  }

  ghost predicate AllReturned(s: State) {
    forall t :: t in s.pc ==> s.pc[t].Idle? || s.pc[t].Owner?
  }

  lemma Settled(s: State, value: int, incs: multiset<Thread>, decs: multiset<Thread>)
    requires Counting(s, value) && AllReturned(s)
    requires forall t :: IncAccounted(s, incs, t) && DecAccounted(s, decs, t)
    ensures s.counter == value + |incs| - |decs| == value + |s.incCalls| - |s.outcomes|
  {
    forall t
      ensures s.decs[t] == decs[t] == multiset(Callers(s.outcomes))[t] && s.incs[t] == incs[t] == s.incCalls[t]
    {
      assert DecSwapped(s, t) && IncSwapped(s, t);
      assert IncAccounted(s, incs, t) && DecAccounted(s, decs, t);
    }
    assert s.decs == decs == multiset(Callers(s.outcomes)) && s.incs == incs == s.incCalls;
  }

  /** Main result: at every point of every run each thread has changed the counter once for each of
      its calls that has returned, however often it had to retry, and once more only between its
      swap and its return; when every call has returned, the counter is the start value plus the
      increments begun less the decrements begun. */
  lemma {:induction false} ExactlyOnce(ordered: bool, threads: set<Thread>, value: int, schedule: seq<Step>, t: Thread)
    requires Execute(ordered, threads, value, schedule).Some?
    ensures var s := Execute(ordered, threads, value, schedule).value;
            && s.counter == value + |s.incs| - |s.decs|
            && s.decs[t] == multiset(Callers(s.outcomes))[t] + One(t in s.pc && HasSwapped(s.pc[t]))
            && s.incs[t] == s.incCalls[t] + One(t in s.pc && s.pc[t].IncReturn?)
            && (AllReturned(s) ==>
                  && s.counter == value + |IncBegun(schedule)| - |DecBegun(schedule)|
                  && s.counter == value + |s.incCalls| - |s.outcomes|)
  {
    ExecutionKept(ordered, threads, value, schedule);
    var s := Execute(ordered, threads, value, schedule).value;
    assert DecSwapped(s, t) && IncSwapped(s, t);
    if AllReturned(s) {
      forall u
        ensures IncAccounted(s, IncBegun(schedule), u) && DecAccounted(s, DecBegun(schedule), u)
      {
        BegunIsReturned(ordered, threads, value, schedule, u);
      }
      Settled(s, value, IncBegun(schedule), DecBegun(schedule));
    }
  }

  /** Two threads are never in the critical section together, nor between taking the lock and
      returning. */
  lemma {:induction false} MutualExclusion(ordered: bool, threads: set<Thread>, value: int, schedule: seq<Step>, t: Thread, u: Thread)
    requires Execute(ordered, threads, value, schedule).Some?
    requires t in Execute(ordered, threads, value, schedule).value.pc && u in Execute(ordered, threads, value, schedule).value.pc
    requires HoldsLock(Execute(ordered, threads, value, schedule).value.pc[t]) && HoldsLock(Execute(ordered, threads, value, schedule).value.pc[u])
    ensures t == u
  {
    ExecutionKept(ordered, threads, value, schedule);
  }
}
