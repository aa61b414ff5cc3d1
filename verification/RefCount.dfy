/** The list / reference count / destroy protocol, for any number of CPUs and objects.

Every CPU executes its calls one atomic access at a time and the accesses of different CPUs
interleave arbitrarily. A plain store to obj->active first goes into the CPU's own store
buffer and becomes visible to the others at some later step; which operations wait for the
buffer to drain is a parameter. */
module RefCount {
  import opened Common

  type Cpu = nat
  type Obj = nat

  /** Which operations make all earlier stores of their CPU visible first: releasing the list lock
      after obj_list_add, releasing it in obj_poke and obj_timeout, and atomic_dec_and_test. */
  datatype Barriers = Barriers(onAdd: bool, onUnlock: bool, onDec: bool)

  /** A pending `obj->active = value`. */
  datatype Store = Store(obj: Obj, value: bool)

  /** What a CPU does next. */
  datatype Pc =
    | Idle
    | AddStore(obj: Obj)
    | AddLink(obj: Obj)
    | AddUnlock(obj: Obj)
    | PokePeek
    | PokeInc(obj: Obj)
    | PokeUnlock(obj: Obj)
    | PokeLeave
    | Poke(obj: Obj)
    | PokeDec(obj: Obj)
    | TimeoutUnlink(obj: Obj)
    | TimeoutStore(obj: Obj)
    | TimeoutUnlock(obj: Obj)
    | TimeoutDec(obj: Obj)
    | Destroy(obj: Obj)

  datatype State = State(
    pc: map<Cpu, Pc>,
    buffer: map<Cpu, seq<Store>>,
    lock: Option<Cpu>,
    list: seq<Obj>,
    refcnt: map<Obj, int>,
    active: map<Obj, bool>,
    added: seq<Obj>,           // every object that was linked, oldest first
    timedOut: set<Obj>,
    freed: multiset<Obj>,
    bug: bool,
    useAfterFree: bool)

  /** One step of the system: a CPU begins a call (taking the list lock), performs the next
      access of its call, or its oldest pending store becomes visible. */
  datatype Step =
    | BeginAdd(cpu: Cpu, obj: Obj)
    | BeginPoke(cpu: Cpu)
    | BeginTimeout(cpu: Cpu, obj: Obj)
    | Advance(cpu: Cpu, at: Pc)
    | Drain(cpu: Cpu)

  function Init(cpus: set<Cpu>): State {
    State(map c | c in cpus :: Idle, map c | c in cpus :: [], None, [], map[], map[], [], {}, multiset{}, false, false)
  }

  /** The value of obj->active that the CPU reads: its own pending store, or memory. */
  predicate Seen(s: State, c: Cpu, o: Obj)
    requires c in s.buffer && o in s.active
  {
    var mine := s.buffer[c];
    if mine == [] || mine[|mine| - 1].obj != o then s.active[o] else mine[|mine| - 1].value
  }

  predicate NeedsDrain(b: Barriers, p: Pc) {
    match p
    case AddUnlock(_) => b.onAdd
    case PokeUnlock(_) => b.onUnlock
    case PokeLeave => b.onUnlock
    case TimeoutUnlock(_) => b.onUnlock
    case PokeDec(_) => b.onDec
    case TimeoutDec(_) => b.onDec
    case _ => false
  }

  predicate Enabled(b: Barriers, s: State, t: Step) {
    t.cpu in s.pc && t.cpu in s.buffer &&
    match t
    case BeginAdd(c, o) => s.pc[c].Idle? && s.lock.None? && o !in s.refcnt
    case BeginPoke(c) => s.pc[c].Idle? && s.lock.None?
    case BeginTimeout(c, o) => s.pc[c].Idle? && s.lock.None? && o in s.list
    case Advance(c, at) => s.pc[c] == at && !at.Idle? && (NeedsDrain(b, at) ==> s.buffer[c] == [])
    case Drain(c) => s.buffer[c] != []
  }

  function Goto(s: State, c: Cpu, p: Pc): State {
    s.(pc := s.pc[c := p])
  }

  /** The object is accessed. */
  function Touch(s: State, o: Obj): State {
    s.(useAfterFree := s.useAfterFree || o in s.freed)
  }

  function Counter(s: State, o: Obj): int {
    if o in s.refcnt then s.refcnt[o] else 0
  }

  /** atomic_dec_and_test, then obj_destroy if the count fell to zero. */
  function DecAndTest(s: State, c: Cpu, o: Obj): State {
    var n := Counter(s, o) - 1;
    Goto(Touch(s, o).(refcnt := s.refcnt[o := n]), c, if n == 0 then Destroy(o) else Idle)
  }

  function StoreActive(s: State, c: Cpu, o: Obj, v: bool, next: Pc): State
    requires c in s.buffer
  {
    Goto(Touch(s, o).(buffer := s.buffer[c := s.buffer[c] + [Store(o, v)]]), c, next)
  }

  function Link(s: State, c: Cpu, o: Obj): State {
    Goto(Touch(s, o).(list := [o] + s.list, added := s.added + [o]), c, AddUnlock(o))
  }

  function Unlink(s: State, c: Cpu, o: Obj): State {
    Goto(Touch(s, o).(list := Remove(s.list, o), timedOut := s.timedOut + {o}), c, TimeoutStore(o))
  }

  function Unlock(s: State, c: Cpu, p: Pc): State {
    Goto(s.(lock := None), c, p)
  }

  function Lock(s: State, c: Cpu, p: Pc): State {
    Goto(s.(lock := Some(c)), c, p)
  }

  function Inc(s: State, c: Cpu, o: Obj): State {
    Goto(Touch(s, o).(refcnt := s.refcnt[o := Counter(s, o) + 1]), c, PokeUnlock(o))
  }

  /** obj_destroy: BUG_ON(obj->active), then kfree. */
  function Free(s: State, c: Cpu, o: Obj): State
    requires c in s.buffer
  {
    var seen := o in s.active && Seen(s, c, o);
    Goto(Touch(s, o).(bug := s.bug || seen, freed := s.freed + multiset{o}), c, Idle)
  }

  /** The next access of the CPU's call. */
  function AdvanceCpu(s: State, c: Cpu, at: Pc): State
    requires c in s.buffer
  {
    match at
    case Idle => s
    case AddStore(o) => StoreActive(s, c, o, true, AddLink(o))
    case AddLink(o) => Link(s, c, o)
    case AddUnlock(o) => Unlock(s, c, Idle)
    case PokePeek => Goto(s, c, if s.list == [] then PokeLeave else PokeInc(s.list[0]))
    case PokeInc(o) => Inc(s, c, o)
    case PokeUnlock(o) => Unlock(s, c, Poke(o))
    case PokeLeave => Unlock(s, c, Idle)
    case Poke(o) => Goto(Touch(s, o), c, PokeDec(o))
    case PokeDec(o) => DecAndTest(s, c, o)
    case TimeoutUnlink(o) => Unlink(s, c, o)
    case TimeoutStore(o) => StoreActive(s, c, o, false, TimeoutUnlock(o))
    case TimeoutUnlock(o) => Unlock(s, c, TimeoutDec(o))
    case TimeoutDec(o) => DecAndTest(s, c, o)
    case Destroy(o) => Free(s, c, o)
  }

  /** A new object that no CPU knows yet, counted once for the list. */
  function Fresh(s: State, o: Obj): State {
    s.(refcnt := s.refcnt[o := 1], active := s.active[o := false])
  }

  function Create(s: State, c: Cpu, o: Obj): State {
    Lock(Fresh(s, o), c, AddStore(o))
  }

  function DrainOne(s: State, c: Cpu): State
    requires c in s.buffer && s.buffer[c] != []
  {
    var first := s.buffer[c][0];
    Touch(s, first.obj).(buffer := s.buffer[c := s.buffer[c][1..]], active := s.active[first.obj := first.value])
  }

  function Apply(b: Barriers, s: State, t: Step): State
    requires Enabled(b, s, t)
  {
    match t
    case BeginAdd(c, o) => Create(s, c, o)
    case BeginPoke(c) => Lock(s, c, PokePeek)
    case BeginTimeout(c, o) => Lock(s, c, TimeoutUnlink(o))
    case Advance(c, at) => AdvanceCpu(s, c, at)
    case Drain(c) => DrainOne(s, c)
  }

  /** The state after a schedule, if every step of it could be taken. */
  function Execute(b: Barriers, cpus: set<Cpu>, schedule: seq<Step>): Option<State> {
    if schedule == [] then Some(Init(cpus))
    else
      var before := Execute(b, cpus, schedule[..|schedule| - 1]);
      var t := schedule[|schedule| - 1];
      if before.Some? && Enabled(b, before.value, t) then Some(Apply(b, before.value, t)) else None
  }

  // ----- The invariant, part by part -----

  predicate HoldsLock(p: Pc) {
    p.AddStore? || p.AddLink? || p.AddUnlock? || p.PokePeek? || p.PokeInc? || p.PokeUnlock? || p.PokeLeave? ||
    p.TimeoutUnlink? || p.TimeoutStore? || p.TimeoutUnlock?
  }

  ghost predicate Locking(pc: map<Cpu, Pc>, lock: Option<Cpu>) {
    && (forall c :: c in pc && HoldsLock(pc[c]) ==> lock == Some(c))
    && (lock.Some? ==> lock.value in pc && HoldsLock(pc[lock.value]))
  }

  ghost predicate Listing(list: seq<Obj>, known: set<Obj>, timedOut: set<Obj>) {
    && Distinct(list)
    && (forall o :: o in list ==> o in known && o !in timedOut)
    && timedOut <= known
  }

  /** What a CPU relies on at its place. */
  predicate Placed(p: Pc, list: seq<Obj>, known: set<Obj>, timedOut: set<Obj>) {
    match p
    case AddStore(o) => o in known && o !in list && o !in timedOut
    case AddLink(o) => o in known && o !in list && o !in timedOut
    case AddUnlock(o) => o in list
    case PokeInc(o) => o in list
    case PokeUnlock(o) => o in known
    case Poke(o) => o in known
    case PokeDec(o) => o in known
    case TimeoutUnlink(o) => o in list
    case TimeoutStore(o) => o in timedOut
    case TimeoutUnlock(o) => o in timedOut
    case TimeoutDec(o) => o in timedOut
    case Destroy(o) => o in known
    case _ => true
  }

  ghost predicate Placing(pc: map<Cpu, Pc>, list: seq<Obj>, known: set<Obj>, timedOut: set<Obj>) {
    forall c :: c in pc ==> Placed(pc[c], list, known, timedOut)
  }

  /** The CPU owns a reference to o. The list's own reference passes to obj_timeout when it
      unlinks the object. */
  predicate HoldsRef(p: Pc, o: Obj) {
    p == PokeUnlock(o) || p == Poke(o) || p == PokeDec(o) ||
    p == TimeoutStore(o) || p == TimeoutUnlock(o) || p == TimeoutDec(o)
  }

  ghost function Holders(pc: map<Cpu, Pc>, o: Obj): set<Cpu> {
    set c | c in pc && HoldsRef(pc[c], o)
  }

  ghost function Destroyers(pc: map<Cpu, Pc>, o: Obj): set<Cpu> {
    set c | c in pc && pc[c] == Destroy(o)
  }

  /** The count is the number of references, and it is zero exactly from the moment one CPU is
      bound to destroy the object. */
  ghost predicate Counted(pc: map<Cpu, Pc>, count: int, linked: bool, freed: nat, o: Obj) {
    && count == |Holders(pc, o)| + (if linked then 1 else 0)
    && |Destroyers(pc, o)| + freed == (if count == 0 then 1 else 0)
  }

  ghost predicate Counting(pc: map<Cpu, Pc>, refcnt: map<Obj, int>, timedOut: set<Obj>, freed: multiset<Obj>) {
    && (forall o :: o in refcnt ==> Counted(pc, refcnt[o], o !in timedOut, freed[o], o))
    && (forall o :: o in freed ==> o in refcnt)
  }

  /** At most one store is pending, and it belongs to the call the CPU is in. */
  predicate Pending(b: Barriers, p: Pc, buffer: seq<Store>) {
    buffer == [] ||
    match p
    case AddLink(o) => buffer == [Store(o, true)]
    case AddUnlock(o) => buffer == [Store(o, true)]
    case TimeoutUnlock(o) => buffer == [Store(o, false)]
    case TimeoutDec(o) => !b.onUnlock && buffer == [Store(o, false)]
    case _ => false
  }

  /** The CPU has still to issue or to drain its `o->active = 0`. */
  predicate Late(p: Pc, buffer: seq<Store>, o: Obj) {
    p == TimeoutStore(o) || ((p == TimeoutUnlock(o) || p == TimeoutDec(o)) && buffer != [])
  }

  ghost predicate SomeLate(pc: map<Cpu, Pc>, buffer: map<Cpu, seq<Store>>, o: Obj) {
    exists c :: c in pc && c in buffer && Late(pc[c], buffer[c], o)
  }

  ghost predicate Buffering(b: Barriers, pc: map<Cpu, Pc>, buffer: map<Cpu, seq<Store>>) {
    pc.Keys == buffer.Keys && forall c :: c in pc ==> Pending(b, pc[c], buffer[c])
  }

  ghost predicate Deactivating(pc: map<Cpu, Pc>, buffer: map<Cpu, seq<Store>>, active: map<Obj, bool>, timedOut: set<Obj>) {
    forall o :: o in timedOut && o in active && active[o] ==> SomeLate(pc, buffer, o)
  }

  ghost predicate Inv(b: Barriers, s: State) {
    && s.refcnt.Keys == s.active.Keys
    && Locking(s.pc, s.lock)
    && Listing(s.list, s.refcnt.Keys, s.timedOut)
    && Placing(s.pc, s.list, s.refcnt.Keys, s.timedOut)
    && Counting(s.pc, s.refcnt, s.timedOut, s.freed)
    && Buffering(b, s.pc, s.buffer)
    && Deactivating(s.pc, s.buffer, s.active, s.timedOut)
    && !s.bug && !s.useAfterFree
  }

  // ----- How each part changes when one CPU moves -----

  predicate LockMove(p: Pc, p': Pc, lock: Option<Cpu>, lock': Option<Cpu>, c: Cpu) {
    if !HoldsLock(p) && HoldsLock(p') then lock.None? && lock' == Some(c)
    else if HoldsLock(p) && !HoldsLock(p') then lock'.None?
    else lock' == lock
  }

  lemma LockMoved(pc: map<Cpu, Pc>, lock: Option<Cpu>, c: Cpu, p': Pc, lock': Option<Cpu>)
    requires Locking(pc, lock) && c in pc && LockMove(pc[c], p', lock, lock', c)
    ensures Locking(pc[c := p'], lock')
  {
  }

  /** Places outside the lock only need the sets to grow. */
  lemma PlacesMoved(pc: map<Cpu, Pc>, lock: Option<Cpu>, c: Cpu, p': Pc,
                    list: seq<Obj>, known: set<Obj>, timedOut: set<Obj>,
                    list': seq<Obj>, known': set<Obj>, timedOut': set<Obj>)
    requires Locking(pc, lock) && Placing(pc, list, known, timedOut) && c in pc
    requires (list' == list && known' == known && timedOut' == timedOut) || lock == None || lock == Some(c)
    requires known <= known' && timedOut <= timedOut'
    requires Placed(p', list', known', timedOut')
    ensures Placing(pc[c := p'], list', known', timedOut')
  {
  }

  lemma MembersMoved(pc: map<Cpu, Pc>, c: Cpu, p': Pc, o: Obj)
    requires c in pc
    ensures |Holders(pc[c := p'], o)| - |Holders(pc, o)| == One(HoldsRef(p', o)) - One(HoldsRef(pc[c], o))
    ensures |Destroyers(pc[c := p'], o)| - |Destroyers(pc, o)| == One(p' == Destroy(o)) - One(pc[c] == Destroy(o))
  {
    var pc' := pc[c := p'];
    OneMoves(Holders(pc, o), Holders(pc', o), c);
    OneMoves(Destroyers(pc, o), Destroyers(pc', o), c);
  }

  /** References and destroyers of o are conserved by a move from p to p'. */
  predicate CountMove(p: Pc, p': Pc, o: Obj, n: int, n': int, linked: bool, linked': bool, freed: nat, freed': nat) {
    && n' - n == One(HoldsRef(p', o)) - One(HoldsRef(p, o)) + One(linked') - One(linked)
    && One(n' == 0) - One(n == 0) == One(p' == Destroy(o)) - One(p == Destroy(o)) + freed' - freed
  }

  lemma CountsMoved(pc: map<Cpu, Pc>, refcnt: map<Obj, int>, timedOut: set<Obj>, freed: multiset<Obj>,
                    c: Cpu, p': Pc, refcnt': map<Obj, int>, timedOut': set<Obj>, freed': multiset<Obj>)
    requires Counting(pc, refcnt, timedOut, freed) && c in pc && refcnt'.Keys == refcnt.Keys
    requires forall o :: o in refcnt ==>
      CountMove(pc[c], p', o, refcnt[o], refcnt'[o], o !in timedOut, o !in timedOut', freed[o], freed'[o])
    requires forall o :: o in freed' ==> o in refcnt
    ensures Counting(pc[c := p'], refcnt', timedOut', freed')
  {
    forall o | o in refcnt'
      ensures Counted(pc[c := p'], refcnt'[o], o !in timedOut', freed'[o], o)
    {
      MembersMoved(pc, c, p', o);
      assert Counted(pc, refcnt[o], o !in timedOut, freed[o], o);
      assert CountMove(pc[c], p', o, refcnt[o], refcnt'[o], o !in timedOut, o !in timedOut', freed[o], freed'[o]);
    }
  }

  lemma BuffersMoved(b: Barriers, pc: map<Cpu, Pc>, buffer: map<Cpu, seq<Store>>, c: Cpu, p': Pc, mine: seq<Store>)
    requires Buffering(b, pc, buffer) && c in pc && Pending(b, p', mine)
    ensures Buffering(b, pc[c := p'], buffer[c := mine])
  {
  }

  /** An object stays covered by a late CPU, or is seen inactive. */
  lemma LateMoved(pc: map<Cpu, Pc>, buffer: map<Cpu, seq<Store>>, active: map<Obj, bool>, timedOut: set<Obj>,
                  c: Cpu, p': Pc, mine: seq<Store>, active': map<Obj, bool>, timedOut': set<Obj>)
    requires Deactivating(pc, buffer, active, timedOut) && c in pc && c in buffer
    requires forall o :: o in timedOut' && o in active' && active'[o] ==>
      (o in timedOut && o in active && active[o] && (Late(pc[c], buffer[c], o) ==> Late(p', mine, o))) || Late(p', mine, o)
    ensures Deactivating(pc[c := p'], buffer[c := mine], active', timedOut')
  {
    var pc', buffer' := pc[c := p'], buffer[c := mine];
    forall o | o in timedOut' && o in active' && active'[o]
      ensures SomeLate(pc', buffer', o)
    {
      if Late(p', mine, o) {
        assert Late(pc'[c], buffer'[c], o);
      } else {
        assert SomeLate(pc, buffer, o);
        var d :| d in pc && d in buffer && Late(pc[d], buffer[d], o);
        assert Late(pc'[d], buffer'[d], o);
      }
    }
  }

  /** Everything that must be shown of a step in which CPU c moves to p' and its buffer to mine. */
  ghost predicate Move(b: Barriers, s: State, s': State, c: Cpu, p': Pc, mine: seq<Store>)
    requires c in s.pc && c in s.buffer
  {
    && s'.pc == s.pc[c := p'] && s'.buffer == s.buffer[c := mine]
    && s'.refcnt.Keys == s.refcnt.Keys == s'.active.Keys
    && LockMove(s.pc[c], p', s.lock, s'.lock, c)
    && ((s'.list == s.list && s'.timedOut == s.timedOut) || (s.lock == Some(c) && s.timedOut <= s'.timedOut))
    && Listing(s'.list, s'.refcnt.Keys, s'.timedOut)
    && Placed(p', s'.list, s'.refcnt.Keys, s'.timedOut)
    && (forall o :: o in s.refcnt ==>
         CountMove(s.pc[c], p', o, s.refcnt[o], s'.refcnt[o], o !in s.timedOut, o !in s'.timedOut, s.freed[o], s'.freed[o]))
    && (forall o :: o in s'.freed ==> o in s.refcnt)
    && Pending(b, p', mine)
    && (forall o :: o in s'.timedOut && o in s'.active && s'.active[o] ==>
         (o in s.timedOut && o in s.active && s.active[o] && (Late(s.pc[c], s.buffer[c], o) ==> Late(p', mine, o))) || Late(p', mine, o))
    && !s'.bug && !s'.useAfterFree
  }

  lemma MoveKept(b: Barriers, s: State, s': State, c: Cpu, p': Pc, mine: seq<Store>)
    requires Inv(b, s) && c in s.pc && c in s.buffer && Move(b, s, s', c, p', mine)
    ensures Inv(b, s')
  {
    LockMoved(s.pc, s.lock, c, p', s'.lock);
    PlacesMoved(s.pc, s.lock, c, p', s.list, s.refcnt.Keys, s.timedOut, s'.list, s'.refcnt.Keys, s'.timedOut);
    CountsMoved(s.pc, s.refcnt, s.timedOut, s.freed, c, p', s'.refcnt, s'.timedOut, s'.freed);
    BuffersMoved(b, s.pc, s.buffer, c, p', mine);
    LateMoved(s.pc, s.buffer, s.active, s.timedOut, c, p', mine, s'.active, s'.timedOut);
  }

  // ----- Each access keeps the invariant -----

  /** What is known at the moving CPU. */
  ghost predicate Local(b: Barriers, s: State, c: Cpu, p: Pc) {
    && c in s.pc && c in s.buffer && s.pc[c] == p
    && (HoldsLock(p) ==> s.lock == Some(c))
    && s.refcnt.Keys == s.active.Keys
    && Listing(s.list, s.refcnt.Keys, s.timedOut)
    && Placed(p, s.list, s.refcnt.Keys, s.timedOut)
    && Pending(b, p, s.buffer[c])
    && (forall o :: o in s.freed ==> o in s.refcnt)
    && !s.bug && !s.useAfterFree
  }

  predicate IsAlive(s: State, o: Obj) {
    o in s.refcnt && s.refcnt[o] >= 1 && o !in s.freed
  }

  lemma Here(b: Barriers, s: State, c: Cpu)
    requires Inv(b, s) && c in s.pc
    ensures Local(b, s, c, s.pc[c])
  {
  }

  lemma StoreMove(b: Barriers, s: State, c: Cpu, o: Obj, v: bool, p: Pc, p': Pc)
    requires Local(b, s, c, p) && IsAlive(s, o)
    requires (p == AddStore(o) && p' == AddLink(o) && v) || (p == TimeoutStore(o) && p' == TimeoutUnlock(o) && !v)
    ensures Move(b, s, StoreActive(s, c, o, v, p'), c, p', [Store(o, v)])
  {
    assert s.buffer[c] + [Store(o, v)] == [Store(o, v)];
  }

  lemma LinkMove(b: Barriers, s: State, c: Cpu, o: Obj)
    requires Local(b, s, c, AddLink(o)) && IsAlive(s, o)
    ensures Move(b, s, Link(s, c, o), c, AddUnlock(o), s.buffer[c])
  {
  }

  lemma UnlinkMove(b: Barriers, s: State, c: Cpu, o: Obj)
    requires Local(b, s, c, TimeoutUnlink(o)) && IsAlive(s, o)
    ensures Move(b, s, Unlink(s, c, o), c, TimeoutStore(o), s.buffer[c])
  {
    RemoveDistinct(s.list, o);
    forall x: Obj
      ensures x in Remove(s.list, o) <==> x in s.list && x != o
    {
      RemoveMembers(s.list, o, x);
    }
  }

  lemma LockMoveStep(b: Barriers, s: State, c: Cpu, p': Pc)
    requires Local(b, s, c, Idle) && s.lock.None?
    requires p' == PokePeek || (p'.TimeoutUnlink? && p'.obj in s.list) ||
             (p'.AddStore? && p'.obj in s.refcnt && p'.obj !in s.list && p'.obj !in s.timedOut)
    ensures Move(b, s, Lock(s, c, p'), c, p', s.buffer[c])
  {
  }

  lemma PeekMove(b: Barriers, s: State, c: Cpu, p': Pc)
    requires Local(b, s, c, PokePeek)
    requires p' == if s.list == [] then PokeLeave else PokeInc(s.list[0])
    ensures Move(b, s, Goto(s, c, p'), c, p', s.buffer[c])
  {
  }

  lemma IncMove(b: Barriers, s: State, c: Cpu, o: Obj)
    requires Local(b, s, c, PokeInc(o)) && IsAlive(s, o)
    ensures Move(b, s, Inc(s, c, o), c, PokeUnlock(o), s.buffer[c])
  {
  }

  lemma AddUnlockMove(b: Barriers, s: State, c: Cpu, o: Obj)
    requires Local(b, s, c, AddUnlock(o)) && s.buffer[c] == []
    ensures Move(b, s, Unlock(s, c, Idle), c, Idle, s.buffer[c])
  {
  }

  lemma PokeUnlockMove(b: Barriers, s: State, c: Cpu, o: Obj)
    requires Local(b, s, c, PokeUnlock(o))
    ensures Move(b, s, Unlock(s, c, Poke(o)), c, Poke(o), s.buffer[c])
  {
  }

  lemma PokeLeaveMove(b: Barriers, s: State, c: Cpu)
    requires Local(b, s, c, PokeLeave)
    ensures Move(b, s, Unlock(s, c, Idle), c, Idle, s.buffer[c])
  {
  }

  lemma TimeoutUnlockMove(b: Barriers, s: State, c: Cpu, o: Obj)
    requires Local(b, s, c, TimeoutUnlock(o)) && (b.onUnlock ==> s.buffer[c] == [])
    ensures Move(b, s, Unlock(s, c, TimeoutDec(o)), c, TimeoutDec(o), s.buffer[c])
  {
  }

  lemma PokeMove(b: Barriers, s: State, c: Cpu, o: Obj)
    requires Local(b, s, c, Poke(o)) && IsAlive(s, o)
    ensures Move(b, s, Goto(Touch(s, o), c, PokeDec(o)), c, PokeDec(o), s.buffer[c])
  {
  }

  lemma PokeDecMove(b: Barriers, s: State, c: Cpu, o: Obj, p': Pc)
    requires Local(b, s, c, PokeDec(o)) && IsAlive(s, o)
    requires p' == if s.refcnt[o] == 1 then Destroy(o) else Idle
    ensures Move(b, s, DecAndTest(s, c, o), c, p', s.buffer[c])
  {
  }

  lemma TimeoutDecMove(b: Barriers, s: State, c: Cpu, o: Obj, p': Pc)
    requires Local(b, s, c, TimeoutDec(o)) && IsAlive(s, o) && s.buffer[c] == []
    requires p' == if s.refcnt[o] == 1 then Destroy(o) else Idle
    ensures Move(b, s, DecAndTest(s, c, o), c, p', s.buffer[c])
  {
  }

  lemma FreeMove(b: Barriers, s: State, c: Cpu, o: Obj)
    requires Local(b, s, c, Destroy(o)) && o in s.refcnt && o in s.active && s.refcnt[o] == 0 && o !in s.freed && !s.active[o]
    ensures Move(b, s, Free(s, c, o), c, Idle, s.buffer[c])
  {
  }

  /** The activation is visible before others can find the object, and the deactivation before the
      count can fall. */
  predicate Strong(b: Barriers) {
    b.onAdd && (b.onUnlock || b.onDec)
  }

  lemma DrainMove(b: Barriers, s: State, c: Cpu)
    requires c in s.pc && Local(b, s, c, s.pc[c]) && s.buffer[c] != [] && IsAlive(s, s.buffer[c][0].obj)
    ensures Move(b, s, DrainOne(s, c), c, s.pc[c], [])
  {
    assert s.buffer[c][1..] == [];
    assert s.pc[c := s.pc[c]] == s.pc;
  }

  lemma HolderAlive(b: Barriers, s: State, c: Cpu, o: Obj)
    requires Inv(b, s) && c in s.pc && o in s.refcnt && (HoldsRef(s.pc[c], o) || o !in s.timedOut)
    ensures IsAlive(s, o)
  {
    assert Counted(s.pc, s.refcnt[o], o !in s.timedOut, s.freed[o], o);
    if HoldsRef(s.pc[c], o) {
      assert c in Holders(s.pc, o);
    }
  }

  lemma NoneLate(pc: map<Cpu, Pc>, buffer: map<Cpu, seq<Store>>, o: Obj)
    requires Holders(pc, o) == {}
    ensures !SomeLate(pc, buffer, o)
  {
    forall c | c in pc && c in buffer
      ensures !Late(pc[c], buffer[c], o)
    {
      assert c !in Holders(pc, o);
    }
  }

  /** Main step: when a CPU is about to destroy o, nobody refers to o, o is not yet freed, and
      the deactivation of o has become visible. */
  lemma {:induction false} LastReference(b: Barriers, s: State, c: Cpu, o: Obj)
    requires Inv(b, s) && c in s.pc && s.pc[c] == Destroy(o)
    ensures o in s.refcnt && s.refcnt[o] == 0 && o !in s.freed && Holders(s.pc, o) == {} && o in s.active && !s.active[o]
  {
    assert Placed(s.pc[c], s.list, s.refcnt.Keys, s.timedOut);
    assert Counted(s.pc, s.refcnt[o], o !in s.timedOut, s.freed[o], o);
    assert c in Destroyers(s.pc, o);
    assert s.refcnt[o] == 0 && s.freed[o] == 0;
    NoneLate(s.pc, s.buffer, o);
  }

  lemma FreshCounts(pc: map<Cpu, Pc>, refcnt: map<Obj, int>, timedOut: set<Obj>, freed: multiset<Obj>,
                    list: seq<Obj>, o: Obj)
    requires Counting(pc, refcnt, timedOut, freed) && Placing(pc, list, refcnt.Keys, timedOut)
    requires Listing(list, refcnt.Keys, timedOut) && o !in refcnt
    ensures Counting(pc, refcnt[o := 1], timedOut, freed)
  {
    forall c | c in pc
      ensures !HoldsRef(pc[c], o) && pc[c] != Destroy(o)
    {
      assert Placed(pc[c], list, refcnt.Keys, timedOut);
    }
    assert Holders(pc, o) == {} && Destroyers(pc, o) == {};
    assert freed[o] == 0;
    assert Counted(pc, 1, true, freed[o], o);
  }

  lemma FreshKept(b: Barriers, s: State, o: Obj)
    requires Inv(b, s) && o !in s.refcnt
    ensures Inv(b, Fresh(s, o))
  {
    FreshCounts(s.pc, s.refcnt, s.timedOut, s.freed, s.list, o);
    assert Fresh(s, o).refcnt.Keys == s.refcnt.Keys + {o};
  }

  lemma CreateKept(b: Barriers, s: State, c: Cpu, o: Obj)
    requires Inv(b, s) && c in s.pc && s.pc[c] == Idle && s.lock == None && o !in s.refcnt
    ensures Inv(b, Create(s, c, o))
  {
    FreshKept(b, s, o);
    var s1 := Fresh(s, o);
    assert o !in s1.list && o !in s1.timedOut;
    BeginKept(b, s1, c, AddStore(o));
  }

  lemma DrainKept(b: Barriers, s: State, c: Cpu)
    requires Inv(b, s) && c in s.pc && c in s.buffer && s.buffer[c] != []
    ensures Inv(b, DrainOne(s, c))
  {
    Here(b, s, c);
    HolderAlive(b, s, c, s.buffer[c][0].obj);
    DrainMove(b, s, c);
    MoveKept(b, s, DrainOne(s, c), c, s.pc[c], []);
  }

  lemma BeginKept(b: Barriers, s: State, c: Cpu, p': Pc)
    requires Inv(b, s) && c in s.pc && s.pc[c] == Idle && s.lock == None
    requires p' == PokePeek || (p'.TimeoutUnlink? && p'.obj in s.list) ||
             (p'.AddStore? && p'.obj in s.refcnt && p'.obj !in s.list && p'.obj !in s.timedOut)
    ensures Inv(b, Lock(s, c, p'))
  {
    Here(b, s, c);
    LockMoveStep(b, s, c, p');
    MoveKept(b, s, Lock(s, c, p'), c, p', s.buffer[c]);
  }

  lemma AddKept(b: Barriers, s: State, c: Cpu, o: Obj)
    requires Inv(b, s) && c in s.pc && (s.pc[c] == AddStore(o) || s.pc[c] == AddLink(o) || s.pc[c] == AddUnlock(o))
    requires s.pc[c].AddUnlock? ==> c in s.buffer && s.buffer[c] == []
    ensures c in s.buffer && Inv(b, AdvanceCpu(s, c, s.pc[c]))
  {
    Here(b, s, c);
    match s.pc[c]
    case AddStore(_) =>
      HolderAlive(b, s, c, o);
      StoreMove(b, s, c, o, true, AddStore(o), AddLink(o));
      MoveKept(b, s, StoreActive(s, c, o, true, AddLink(o)), c, AddLink(o), [Store(o, true)]);
    case AddLink(_) =>
      HolderAlive(b, s, c, o);
      LinkMove(b, s, c, o);
      MoveKept(b, s, Link(s, c, o), c, AddUnlock(o), s.buffer[c]);
    case AddUnlock(_) =>
      AddUnlockMove(b, s, c, o);
      MoveKept(b, s, Unlock(s, c, Idle), c, Idle, s.buffer[c]);
  }

  lemma PokeKept(b: Barriers, s: State, c: Cpu)
    requires Inv(b, s) && c in s.pc && c in s.buffer
    requires s.pc[c].PokePeek? || s.pc[c].PokeInc? || s.pc[c].PokeUnlock? || s.pc[c].PokeLeave?
    ensures Inv(b, AdvanceCpu(s, c, s.pc[c]))
  {
    Here(b, s, c);
    match s.pc[c]
    case PokePeek =>
      var p' := if s.list == [] then PokeLeave else PokeInc(s.list[0]);
      PeekMove(b, s, c, p');
      MoveKept(b, s, Goto(s, c, p'), c, p', s.buffer[c]);
    case PokeInc(o) =>
      HolderAlive(b, s, c, o);
      IncMove(b, s, c, o);
      MoveKept(b, s, Inc(s, c, o), c, PokeUnlock(o), s.buffer[c]);
    case PokeUnlock(o) =>
      PokeUnlockMove(b, s, c, o);
      MoveKept(b, s, Unlock(s, c, Poke(o)), c, Poke(o), s.buffer[c]);
    case PokeLeave =>
      PokeLeaveMove(b, s, c);
      MoveKept(b, s, Unlock(s, c, Idle), c, Idle, s.buffer[c]);
  }

  lemma PokedKept(b: Barriers, s: State, c: Cpu)
    requires Inv(b, s) && c in s.pc && c in s.buffer && (s.pc[c].Poke? || s.pc[c].PokeDec? || s.pc[c].Destroy?)
    ensures Inv(b, AdvanceCpu(s, c, s.pc[c]))
  {
    Here(b, s, c);
    match s.pc[c]
    case Poke(o) =>
      HolderAlive(b, s, c, o);
      PokeMove(b, s, c, o);
      MoveKept(b, s, Goto(Touch(s, o), c, PokeDec(o)), c, PokeDec(o), s.buffer[c]);
    case PokeDec(o) =>
      HolderAlive(b, s, c, o);
      var p' := if s.refcnt[o] == 1 then Destroy(o) else Idle;
      PokeDecMove(b, s, c, o, p');
      MoveKept(b, s, DecAndTest(s, c, o), c, p', s.buffer[c]);
    case Destroy(o) =>
      LastReference(b, s, c, o);
      FreeMove(b, s, c, o);
      MoveKept(b, s, Free(s, c, o), c, Idle, s.buffer[c]);
  }

  lemma TimeoutListKept(b: Barriers, s: State, c: Cpu)
    requires Inv(b, s) && c in s.pc && c in s.buffer && (s.pc[c].TimeoutUnlink? || s.pc[c].TimeoutStore?)
    ensures Inv(b, AdvanceCpu(s, c, s.pc[c]))
  {
    Here(b, s, c);
    HolderAlive(b, s, c, s.pc[c].obj);
    match s.pc[c]
    case TimeoutUnlink(o) =>
      UnlinkMove(b, s, c, o);
      MoveKept(b, s, Unlink(s, c, o), c, TimeoutStore(o), s.buffer[c]);
    case TimeoutStore(o) =>
      StoreMove(b, s, c, o, false, TimeoutStore(o), TimeoutUnlock(o));
      MoveKept(b, s, StoreActive(s, c, o, false, TimeoutUnlock(o)), c, TimeoutUnlock(o), [Store(o, false)]);
  }

  lemma TimeoutLeaveKept(b: Barriers, s: State, c: Cpu)
    requires Strong(b) && Inv(b, s) && c in s.pc && c in s.buffer && (s.pc[c].TimeoutUnlock? || s.pc[c].TimeoutDec?)
    requires NeedsDrain(b, s.pc[c]) ==> s.buffer[c] == []
    ensures Inv(b, AdvanceCpu(s, c, s.pc[c]))
  {
    Here(b, s, c);
    match s.pc[c]
    case TimeoutUnlock(o) =>
      TimeoutUnlockMove(b, s, c, o);
      MoveKept(b, s, Unlock(s, c, TimeoutDec(o)), c, TimeoutDec(o), s.buffer[c]);
    case TimeoutDec(o) =>
      HolderAlive(b, s, c, o);
      var p' := if s.refcnt[o] == 1 then Destroy(o) else Idle;
      TimeoutDecMove(b, s, c, o, p');
      MoveKept(b, s, DecAndTest(s, c, o), c, p', s.buffer[c]);
  }

  lemma {:induction false} StepKept(b: Barriers, s: State, t: Step)
    requires Strong(b) && Inv(b, s) && Enabled(b, s, t)
    ensures Inv(b, Apply(b, s, t))
  {
    match t
    case BeginAdd(c, o) => CreateKept(b, s, c, o);
    case BeginPoke(c) => BeginKept(b, s, c, PokePeek);
    case BeginTimeout(c, o) => BeginKept(b, s, c, TimeoutUnlink(o));
    case Drain(c) => DrainKept(b, s, c);
    case Advance(c, p) =>
      if p.AddStore? || p.AddLink? || p.AddUnlock? {
        AddKept(b, s, c, p.obj);
      } else if p.PokePeek? || p.PokeInc? || p.PokeUnlock? || p.PokeLeave? {
        PokeKept(b, s, c);
      } else if p.Poke? || p.PokeDec? || p.Destroy? {
        PokedKept(b, s, c);
      } else if p.TimeoutUnlink? || p.TimeoutStore? {
        TimeoutListKept(b, s, c);
      } else {
        TimeoutLeaveKept(b, s, c);
      }
  }

  lemma InitKept(b: Barriers, cpus: set<Cpu>)
    ensures Inv(b, Init(cpus))
  {
  }

  lemma {:induction false} ExecutionKept(b: Barriers, cpus: set<Cpu>, schedule: seq<Step>)
    requires Strong(b) && Execute(b, cpus, schedule).Some?
    ensures Inv(b, Execute(b, cpus, schedule).value)
  {
    if schedule == [] {
      InitKept(b, cpus);
    } else {
      var init := schedule[..|schedule| - 1];
      ExecutionKept(b, cpus, init);
      StepKept(b, Execute(b, cpus, init).value, schedule[|schedule| - 1]);
    }
  }

  // ----- What the protocol promises -----

  /** No object is destroyed while active, none is destroyed twice, and none is accessed after
      it was destroyed: not poked, counted, listed, tested, nor hit by a late store. */
  ghost predicate Safe(s: State) {
    !s.bug && !s.useAfterFree && forall o :: s.freed[o] <= 1
  }

  lemma InvSafe(b: Barriers, s: State)
    requires Inv(b, s)
    ensures Safe(s)
  {
    forall o
      ensures s.freed[o] <= 1
    {
      if o in s.freed {
        assert Counted(s.pc, s.refcnt[o], o !in s.timedOut, s.freed[o], o);
      }
    }
  }

  /** When every call has returned, exactly the timed-out objects have been destroyed. */
  lemma {:induction false} NoLeak(b: Barriers, cpus: set<Cpu>, schedule: seq<Step>, o: Obj)
    requires Strong(b) && Execute(b, cpus, schedule).Some?
    requires forall c :: c in Execute(b, cpus, schedule).value.pc ==> Execute(b, cpus, schedule).value.pc[c] == Idle
    ensures var s := Execute(b, cpus, schedule).value; s.freed[o] == if o in s.timedOut then 1 else 0
  {
    var s := Execute(b, cpus, schedule).value;
    ExecutionKept(b, cpus, schedule);
    if o in s.refcnt {
      assert Counted(s.pc, s.refcnt[o], o !in s.timedOut, s.freed[o], o);
      assert Holders(s.pc, o) == {} && Destroyers(s.pc, o) == {};
    }
  }

  /** Every access to an object is recorded: after it was destroyed, each of them counts as one. */
  lemma AccessRecorded(s: State, c: Cpu, at: Pc, o: Obj)
    requires c in s.buffer && o in s.freed
    requires at in {AddStore(o), AddLink(o), PokeInc(o), Poke(o), PokeDec(o),
                    TimeoutUnlink(o), TimeoutStore(o), TimeoutDec(o), Destroy(o)}
    ensures AdvanceCpu(s, c, at).useAfterFree
  {
  }

  /** A CPU sees its own latest store at once, and the others what has been drained. */
  lemma OwnStoreSeen(s: State, c: Cpu, d: Cpu, o: Obj, v: bool, next: Pc)
    requires c in s.buffer && d in s.buffer && o in s.active
    ensures Seen(StoreActive(s, c, o, v, next), c, o) == v
    ensures d != c && s.buffer[d] == [] ==> Seen(StoreActive(s, c, o, v, next), d, o) == s.active[o]
  {
  }

  // ----- Which object is poked -----

  /** The added objects that have not timed out, newest first. */
  function Remaining(added: seq<Obj>, timedOut: set<Obj>): seq<Obj> {
    if added == [] then []
    else
      var o, rest := added[|added| - 1], Remaining(added[..|added| - 1], timedOut);
      if o in timedOut then rest else [o] + rest
  }

  lemma {:induction false} RemainingMembers(added: seq<Obj>, timedOut: set<Obj>, o: Obj)
    ensures o in Remaining(added, timedOut) <==> o in added && o !in timedOut
  {
    if added != [] {
      RemainingMembers(added[..|added| - 1], timedOut, o);
      assert added == added[..|added| - 1] + [added[|added| - 1]];
    }
  }

  lemma {:induction false} RemainingRemoved(added: seq<Obj>, timedOut: set<Obj>, o: Obj)
    requires Distinct(Remaining(added, timedOut))
    ensures Remaining(added, timedOut + {o}) == Remove(Remaining(added, timedOut), o)
  {
    if added != [] {
      var init, last := added[..|added| - 1], added[|added| - 1];
      var rest := Remaining(init, timedOut);
      if last in timedOut {
        RemainingRemoved(init, timedOut, o);
      } else {
        assert rest == Remaining(added, timedOut)[1..];
        RemainingRemoved(init, timedOut, o);
        if last == o {
          forall k | 0 <= k < |rest|
            ensures rest[k] != o
          {
            var full := Remaining(added, timedOut);
            assert full == [last] + rest && full[0] != full[k + 1];
          }
          NothingRemoved(rest, o);
        }
      }
    }
  }

  lemma {:induction false} NothingRemoved(list: seq<Obj>, o: Obj)
    requires o !in list
    ensures Remove(list, o) == list
  {
    if list != [] {
      NothingRemoved(list[1..], o);
    }
  }

  /** The list is what remains, and a CPU that has peeked holds its first entry until it unlocks. */
  ghost predicate Newest(s: State) {
    && s.list == Remaining(s.added, s.timedOut)
    && forall c :: c in s.pc && s.pc[c].PokeInc? ==> s.list != [] && s.list[0] == s.pc[c].obj
  }

  lemma LinkNewest(s: State, c: Cpu, o: Obj)
    requires Newest(s) && Locking(s.pc, s.lock) && s.lock == Some(c) && o !in s.timedOut
    ensures Newest(Link(s, c, o))
  {
    assert (s.added + [o])[..|s.added|] == s.added;
  }

  lemma UnlinkNewest(s: State, c: Cpu, o: Obj)
    requires Newest(s) && Locking(s.pc, s.lock) && s.lock == Some(c) && Distinct(s.list)
    ensures Newest(Unlink(s, c, o))
  {
    RemainingRemoved(s.added, s.timedOut, o);
  }

  lemma PeekNewest(s: State, s': State, c: Cpu)
    requires Newest(s) && c in s'.pc && s'.pc == s.pc[c := s'.pc[c]]
    requires s'.list == s.list && s'.added == s.added && s'.timedOut == s.timedOut
    requires s'.pc[c].PokeInc? ==> s.list != [] && s.list[0] == s'.pc[c].obj
    ensures Newest(s')
  {
  }

  lemma AdvanceShape(s: State, c: Cpu, at: Pc)
    requires c in s.pc && c in s.buffer && !at.AddLink? && !at.TimeoutUnlink? && !at.Idle?
    ensures var s' := AdvanceCpu(s, c, at);
            && c in s'.pc && s'.pc == s.pc[c := s'.pc[c]]
            && s'.list == s.list && s'.added == s.added && s'.timedOut == s.timedOut
            && (s'.pc[c].PokeInc? ==> s.list != [] && s.list[0] == s'.pc[c].obj)
  {
  }

  lemma AdvanceNewest(b: Barriers, s: State, c: Cpu, at: Pc)
    requires Inv(b, s) && Newest(s) && Enabled(b, s, Advance(c, at))
    ensures Newest(AdvanceCpu(s, c, at))
  {
    Here(b, s, c);
    if at.AddLink? {
      LinkNewest(s, c, at.obj);
    } else if at.TimeoutUnlink? {
      UnlinkNewest(s, c, at.obj);
    } else {
      AdvanceShape(s, c, at);
      PeekNewest(s, AdvanceCpu(s, c, at), c);
    }
  }

  lemma NewestKept(b: Barriers, s: State, t: Step)
    requires Inv(b, s) && Newest(s) && Enabled(b, s, t)
    ensures Newest(Apply(b, s, t))
  {
    if t.Advance? {
      AdvanceNewest(b, s, t.cpu, t.at);
    } else {
      PeekNewest(s, Apply(b, s, t), t.cpu);
    }
  }

  lemma {:induction false} ExecutionNewest(b: Barriers, cpus: set<Cpu>, schedule: seq<Step>)
    requires Strong(b) && Execute(b, cpus, schedule).Some?
    ensures Newest(Execute(b, cpus, schedule).value)
  {
    if schedule != [] {
      var init := schedule[..|schedule| - 1];
      ExecutionKept(b, cpus, init);
      ExecutionNewest(b, cpus, init);
      NewestKept(b, Execute(b, cpus, init).value, schedule[|schedule| - 1]);
    }
  }

  lemma {:induction false} FirstRemaining(added: seq<Obj>, timedOut: set<Obj>) returns (i: nat)
    requires Remaining(added, timedOut) != []
    ensures i < |added| && added[i] == Remaining(added, timedOut)[0] && added[i] !in timedOut
    ensures forall j :: i < j < |added| ==> added[j] in timedOut
  {
    if added[|added| - 1] in timedOut {
      i := FirstRemaining(added[..|added| - 1], timedOut);
    } else {
      i := |added| - 1;
    }
  }

  /** Main result: in every run, the object that obj_poke takes a reference to is the one added last
      among those that have not timed out. */
  lemma {:induction false} PokesNewest(b: Barriers, cpus: set<Cpu>, schedule: seq<Step>, c: Cpu) returns (i: nat)
    requires Strong(b) && Execute(b, cpus, schedule).Some?
    requires c in Execute(b, cpus, schedule).value.pc && Execute(b, cpus, schedule).value.pc[c].PokeInc?
    ensures var s := Execute(b, cpus, schedule).value;
            && i < |s.added| && s.added[i] == s.pc[c].obj && s.added[i] !in s.timedOut
            && forall j :: i < j < |s.added| ==> s.added[j] in s.timedOut
  {
    ExecutionNewest(b, cpus, schedule);
    var s := Execute(b, cpus, schedule).value;
    i := FirstRemaining(s.added, s.timedOut);
  }

  // ----- Without the barriers -----

  lemma Extend(b: Barriers, schedule: seq<Step>, s: State, t: Step) returns (longer: seq<Step>, s': State)
    requires Execute(b, {0, 1}, schedule) == Some(s) && Enabled(b, s, t)
    ensures Execute(b, {0, 1}, longer) == Some(s') && s' == Apply(b, s, t)
  {
    longer, s' := schedule + [t], Apply(b, s, t);
    assert longer[..|schedule|] == schedule;
  }

  /** CPU 0 runs obj_poke, CPU 1 runs obj_timeout, on object 0. */
  ghost predicate Shot(s: State, p0: Pc, p1: Pc, late: seq<Store>, lock: Option<Cpu>, list: seq<Obj>, n: int, active: bool) {
    && 0 in s.pc && s.pc[0] == p0 && 1 in s.pc && s.pc[1] == p1
    && 0 in s.buffer && s.buffer[0] == [] && 1 in s.buffer && s.buffer[1] == late
    && s.lock == lock && s.list == list
    && 0 in s.refcnt && s.refcnt[0] == n && 0 in s.active && s.active[0] == active
  }

  lemma Activated(b: Barriers, s: State)
    requires Shot(s, Idle, AddStore(0), [], Some(1), [], 1, false)
    ensures Enabled(b, s, Advance(1, AddStore(0)))
    ensures Shot(Apply(b, s, Advance(1, AddStore(0))), Idle, AddLink(0), [Store(0, true)], Some(1), [], 1, false)
  {
  }

  lemma Linked(b: Barriers, s: State)
    requires Shot(s, Idle, AddLink(0), [Store(0, true)], Some(1), [], 1, false)
    ensures Enabled(b, s, Advance(1, AddLink(0)))
    ensures Shot(Apply(b, s, Advance(1, AddLink(0))), Idle, AddUnlock(0), [Store(0, true)], Some(1), [0], 1, false)
  {
  }

  lemma Drained(b: Barriers, s: State)
    requires Shot(s, Idle, AddUnlock(0), [Store(0, true)], Some(1), [0], 1, false)
    ensures Enabled(b, s, Drain(1))
    ensures Shot(Apply(b, s, Drain(1)), Idle, AddUnlock(0), [], Some(1), [0], 1, true)
  {
  }

  lemma Added(b: Barriers, s: State)
    requires Shot(s, Idle, AddUnlock(0), [], Some(1), [0], 1, true)
    ensures Enabled(b, s, Advance(1, AddUnlock(0)))
    ensures Shot(Apply(b, s, Advance(1, AddUnlock(0))), Idle, Idle, [], None, [0], 1, true)
  {
  }

  lemma PokeBegun(b: Barriers, s: State)
    requires Shot(s, Idle, Idle, [], None, [0], 1, true)
    ensures Enabled(b, s, BeginPoke(0))
    ensures Shot(Apply(b, s, BeginPoke(0)), PokePeek, Idle, [], Some(0), [0], 1, true)
  {
  }

  lemma Peeked(b: Barriers, s: State)
    requires Shot(s, PokePeek, Idle, [], Some(0), [0], 1, true)
    ensures Enabled(b, s, Advance(0, PokePeek))
    ensures Shot(Apply(b, s, Advance(0, PokePeek)), PokeInc(0), Idle, [], Some(0), [0], 1, true)
  {
  }

  lemma Referenced(b: Barriers, s: State)
    requires Shot(s, PokeInc(0), Idle, [], Some(0), [0], 1, true)
    ensures Enabled(b, s, Advance(0, PokeInc(0)))
    ensures Shot(Apply(b, s, Advance(0, PokeInc(0))), PokeUnlock(0), Idle, [], Some(0), [0], 2, true)
  {
  }

  lemma PokeUnlocked(b: Barriers, s: State)
    requires Shot(s, PokeUnlock(0), Idle, [], Some(0), [0], 2, true)
    ensures Enabled(b, s, Advance(0, PokeUnlock(0)))
    ensures Shot(Apply(b, s, Advance(0, PokeUnlock(0))), Poke(0), Idle, [], None, [0], 2, true)
  {
  }

  lemma TimeoutBegun(b: Barriers, s: State)
    requires Shot(s, Poke(0), Idle, [], None, [0], 2, true)
    ensures Enabled(b, s, BeginTimeout(1, 0))
    ensures Shot(Apply(b, s, BeginTimeout(1, 0)), Poke(0), TimeoutUnlink(0), [], Some(1), [0], 2, true)
  {
  }

  lemma Unlinked(b: Barriers, s: State)
    requires Shot(s, Poke(0), TimeoutUnlink(0), [], Some(1), [0], 2, true)
    ensures Enabled(b, s, Advance(1, TimeoutUnlink(0)))
    ensures Shot(Apply(b, s, Advance(1, TimeoutUnlink(0))), Poke(0), TimeoutStore(0), [], Some(1), [], 2, true)
  {
  }

  lemma StoreIssued(b: Barriers, s: State)
    requires Shot(s, Poke(0), TimeoutStore(0), [], Some(1), [], 2, true)
    ensures Enabled(b, s, Advance(1, TimeoutStore(0)))
    ensures Shot(Apply(b, s, Advance(1, TimeoutStore(0))), Poke(0), TimeoutUnlock(0), [Store(0, false)], Some(1), [], 2, true)
  {
  }

  lemma TimeoutUnlocked(b: Barriers, s: State)
    requires !b.onUnlock && !b.onDec && Shot(s, Poke(0), TimeoutUnlock(0), [Store(0, false)], Some(1), [], 2, true)
    ensures Enabled(b, s, Advance(1, TimeoutUnlock(0)))
    ensures Shot(Apply(b, s, Advance(1, TimeoutUnlock(0))), Poke(0), TimeoutDec(0), [Store(0, false)], None, [], 2, true)
  {
  }

  lemma TimedOut(b: Barriers, s: State)
    requires !b.onUnlock && !b.onDec && Shot(s, Poke(0), TimeoutDec(0), [Store(0, false)], None, [], 2, true)
    ensures Enabled(b, s, Advance(1, TimeoutDec(0)))
    ensures Shot(Apply(b, s, Advance(1, TimeoutDec(0))), Poke(0), Idle, [Store(0, false)], None, [], 1, true)
  {
  }

  lemma Poked(b: Barriers, s: State)
    requires Shot(s, Poke(0), Idle, [Store(0, false)], None, [], 1, true)
    ensures Enabled(b, s, Advance(0, Poke(0)))
    ensures Shot(Apply(b, s, Advance(0, Poke(0))), PokeDec(0), Idle, [Store(0, false)], None, [], 1, true)
  {
  }

  lemma FellToZero(b: Barriers, s: State)
    requires !b.onUnlock && !b.onDec && Shot(s, PokeDec(0), Idle, [Store(0, false)], None, [], 1, true)
    ensures Enabled(b, s, Advance(0, PokeDec(0)))
    ensures Shot(Apply(b, s, Advance(0, PokeDec(0))), Destroy(0), Idle, [Store(0, false)], None, [], 0, true)
  {
  }

  lemma BugSeen(b: Barriers, s: State)
    requires Shot(s, Destroy(0), Idle, [Store(0, false)], None, [], 0, true)
    ensures Enabled(b, s, Advance(0, Destroy(0)))
    ensures Apply(b, s, Advance(0, Destroy(0))).bug
  {
  }

  /** The error sequence: the deactivation is still invisible when the count falls to zero. */
  lemma {:induction false} BugTriggers(b: Barriers) returns (schedule: seq<Step>, s: State)
    requires !b.onUnlock && !b.onDec
    ensures Execute(b, {0, 1}, schedule) == Some(s) && s.bug
  {
    schedule, s := Extend(b, [], Init({0, 1}), BeginAdd(1, 0));
    Activated(b, s);
    schedule, s := Extend(b, schedule, s, Advance(1, AddStore(0)));
    Linked(b, s);
    schedule, s := Extend(b, schedule, s, Advance(1, AddLink(0)));
    Drained(b, s);
    schedule, s := Extend(b, schedule, s, Drain(1));
    Added(b, s);
    schedule, s := Extend(b, schedule, s, Advance(1, AddUnlock(0)));
    PokeBegun(b, s);
    schedule, s := Extend(b, schedule, s, BeginPoke(0));
    Peeked(b, s);
    schedule, s := Extend(b, schedule, s, Advance(0, PokePeek));
    Referenced(b, s);
    schedule, s := Extend(b, schedule, s, Advance(0, PokeInc(0)));
    PokeUnlocked(b, s);
    schedule, s := Extend(b, schedule, s, Advance(0, PokeUnlock(0)));
    TimeoutBegun(b, s);
    schedule, s := Extend(b, schedule, s, BeginTimeout(1, 0));
    Unlinked(b, s);
    schedule, s := Extend(b, schedule, s, Advance(1, TimeoutUnlink(0)));
    StoreIssued(b, s);
    schedule, s := Extend(b, schedule, s, Advance(1, TimeoutStore(0)));
    TimeoutUnlocked(b, s);
    schedule, s := Extend(b, schedule, s, Advance(1, TimeoutUnlock(0)));
    TimedOut(b, s);
    schedule, s := Extend(b, schedule, s, Advance(1, TimeoutDec(0)));
    Poked(b, s);
    schedule, s := Extend(b, schedule, s, Advance(0, Poke(0)));
    FellToZero(b, s);
    schedule, s := Extend(b, schedule, s, Advance(0, PokeDec(0)));
    BugSeen(b, s);
    schedule, s := Extend(b, schedule, s, Advance(0, Destroy(0)));
  }

  /** CPU 0 has added object 0 with the activation still pending, CPU 1 runs obj_timeout. */
  ghost predicate Stale(s: State, p0: Pc, p1: Pc, late: seq<Store>, lock: Option<Cpu>, list: seq<Obj>, n: int) {
    && 0 in s.pc && s.pc[0] == p0 && 1 in s.pc && s.pc[1] == p1
    && 0 in s.buffer && s.buffer[0] == [Store(0, true)] && 1 in s.buffer && s.buffer[1] == late
    && s.lock == lock && s.list == list
    && 0 in s.refcnt && s.refcnt[0] == n && 0 in s.active
  }

  lemma AddIssued(b: Barriers, s: State)
    requires s == Create(Init({0, 1}), 0, 0)
    ensures Enabled(b, s, Advance(0, AddStore(0)))
    ensures Stale(Apply(b, s, Advance(0, AddStore(0))), AddLink(0), Idle, [], Some(0), [], 1)
  {
  }

  lemma AddLinked(b: Barriers, s: State)
    requires Stale(s, AddLink(0), Idle, [], Some(0), [], 1)
    ensures Enabled(b, s, Advance(0, AddLink(0)))
    ensures Stale(Apply(b, s, Advance(0, AddLink(0))), AddUnlock(0), Idle, [], Some(0), [0], 1)
  {
  }

  lemma AddReleased(b: Barriers, s: State)
    requires !b.onAdd && Stale(s, AddUnlock(0), Idle, [], Some(0), [0], 1)
    ensures Enabled(b, s, Advance(0, AddUnlock(0)))
    ensures Stale(Apply(b, s, Advance(0, AddUnlock(0))), Idle, Idle, [], None, [0], 1)
  {
  }

  lemma ExpiryBegun(b: Barriers, s: State)
    requires Stale(s, Idle, Idle, [], None, [0], 1)
    ensures Enabled(b, s, BeginTimeout(1, 0))
    ensures Stale(Apply(b, s, BeginTimeout(1, 0)), Idle, TimeoutUnlink(0), [], Some(1), [0], 1)
  {
  }

  lemma ExpiryUnlinked(b: Barriers, s: State)
    requires Stale(s, Idle, TimeoutUnlink(0), [], Some(1), [0], 1)
    ensures Enabled(b, s, Advance(1, TimeoutUnlink(0)))
    ensures Stale(Apply(b, s, Advance(1, TimeoutUnlink(0))), Idle, TimeoutStore(0), [], Some(1), [], 1)
  {
  }

  lemma ExpiryIssued(b: Barriers, s: State)
    requires Stale(s, Idle, TimeoutStore(0), [], Some(1), [], 1)
    ensures Enabled(b, s, Advance(1, TimeoutStore(0)))
    ensures Stale(Apply(b, s, Advance(1, TimeoutStore(0))), Idle, TimeoutUnlock(0), [Store(0, false)], Some(1), [], 1)
  {
  }

  lemma ExpiryDrained(b: Barriers, s: State)
    requires Stale(s, Idle, TimeoutUnlock(0), [Store(0, false)], Some(1), [], 1)
    ensures Enabled(b, s, Drain(1))
    ensures Stale(Apply(b, s, Drain(1)), Idle, TimeoutUnlock(0), [], Some(1), [], 1)
  {
  }

  lemma ExpiryReleased(b: Barriers, s: State)
    requires Stale(s, Idle, TimeoutUnlock(0), [], Some(1), [], 1)
    ensures Enabled(b, s, Advance(1, TimeoutUnlock(0)))
    ensures Stale(Apply(b, s, Advance(1, TimeoutUnlock(0))), Idle, TimeoutDec(0), [], None, [], 1)
  {
  }

  lemma ExpiryCounted(b: Barriers, s: State)
    requires Stale(s, Idle, TimeoutDec(0), [], None, [], 1)
    ensures Enabled(b, s, Advance(1, TimeoutDec(0)))
    ensures Stale(Apply(b, s, Advance(1, TimeoutDec(0))), Idle, Destroy(0), [], None, [], 0)
  {
  }

  lemma ExpiryFreed(b: Barriers, s: State)
    requires Stale(s, Idle, Destroy(0), [], None, [], 0)
    ensures Enabled(b, s, Advance(1, Destroy(0)))
    ensures var s' := Apply(b, s, Advance(1, Destroy(0)));
            Stale(s', Idle, Idle, [], None, [], 0) && 0 in s'.freed
  {
  }

  lemma StoreLands(b: Barriers, s: State)
    requires Stale(s, Idle, Idle, [], None, [], 0) && 0 in s.freed
    ensures Enabled(b, s, Drain(0)) && Apply(b, s, Drain(0)).useAfterFree
  {
  }

  /** The late activation: the object is timed out and destroyed while the store of obj_list_add is
      still pending, and then the store hits the freed object. The other barriers do not help. */
  lemma {:induction false} LateActivation(b: Barriers) returns (schedule: seq<Step>, s: State)
    requires !b.onAdd
    ensures Execute(b, {0, 1}, schedule) == Some(s) && s.useAfterFree
  {
    schedule, s := Extend(b, [], Init({0, 1}), BeginAdd(0, 0));
    AddIssued(b, s);
    schedule, s := Extend(b, schedule, s, Advance(0, AddStore(0)));
    AddLinked(b, s);
    schedule, s := Extend(b, schedule, s, Advance(0, AddLink(0)));
    AddReleased(b, s);
    schedule, s := Extend(b, schedule, s, Advance(0, AddUnlock(0)));
    ExpiryBegun(b, s);
    schedule, s := Extend(b, schedule, s, BeginTimeout(1, 0));
    ExpiryUnlinked(b, s);
    schedule, s := Extend(b, schedule, s, Advance(1, TimeoutUnlink(0)));
    ExpiryIssued(b, s);
    schedule, s := Extend(b, schedule, s, Advance(1, TimeoutStore(0)));
    ExpiryDrained(b, s);
    schedule, s := Extend(b, schedule, s, Drain(1));
    ExpiryReleased(b, s);
    schedule, s := Extend(b, schedule, s, Advance(1, TimeoutUnlock(0)));
    ExpiryCounted(b, s);
    schedule, s := Extend(b, schedule, s, Advance(1, TimeoutDec(0)));
    ExpiryFreed(b, s);
    schedule, s := Extend(b, schedule, s, Advance(1, Destroy(0)));
    StoreLands(b, s);
    schedule, s := Extend(b, schedule, s, Drain(0));
  }

  /** Main result: every execution, on any CPUs and any objects, is safe exactly when the release
      after obj_list_add makes earlier stores visible and one of the two operations between the
      deactivation and the last reference does. */
  lemma {:induction false} SafeIff(b: Barriers)
    ensures b.onAdd && (b.onUnlock || b.onDec) <==>
      forall cpus: set<Cpu>, schedule: seq<Step> ::
        Execute(b, cpus, schedule).Some? ==> Safe(Execute(b, cpus, schedule).value)
  {
    if Strong(b) {
      forall cpus: set<Cpu>, schedule: seq<Step> | Execute(b, cpus, schedule).Some?
        ensures Safe(Execute(b, cpus, schedule).value)
      {
        ExecutionKept(b, cpus, schedule);
        InvSafe(b, Execute(b, cpus, schedule).value);
      }
    } else if !b.onAdd {
      var schedule, s := LateActivation(b);
      assert !Safe(s);
    } else {
      var schedule, s := BugTriggers(b);
      assert !Safe(s);
    }
  }
}
