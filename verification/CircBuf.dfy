/** The lock-free circular buffer: one producer, one consumer, indices wrapped by bitwise AND.

The indices are unsigned words of w bits and the buffer has 2^k slots, for any k < w. Producer
and consumer run one access at a time in any interleaving. A load of the other side's index may
be stale: it delivers any value the index has had since the last one this side saw. The
producer's stores of items stay invisible until they are flushed. The consumer's load of a slot
may be done before its load of the head, or still be outstanding when the tail is published. A
configuration says which barriers rule these out. */
module CircBuf {
  import opened Common
  import opened Bits

  // ----- The measuring macros -----

  /** (head - tail) & (size - 1), on w-bit words. */
  function Cnt(w: nat, head: int, tail: int, size: nat): nat
    requires size > 0
  {
    And((head - tail) % Pow2(w), size - 1)
  }

  function Space(w: nat, head: int, tail: int, size: nat): nat
    requires size > 0
  {
    Cnt(w, tail, (head + 1) % Pow2(w), size)
  }

  /** (index + 1) & (size - 1), on w-bit words. */
  function Next(w: nat, index: nat, size: nat): nat
    requires size > 0
  {
    And((index + 1) % Pow2(w), size - 1)
  }

  lemma MaskWord(x: int, k: nat, w: nat)
    requires k < w
    ensures And(x % Pow2(w), Pow2(k) - 1) == x % Pow2(k)
  {
    AndMask(x % Pow2(w), k);
    Pow2Split(k, w);
    ModMultiple(x, Pow2(k), Pow2(w - k));
  }

  lemma CntValue(a: int, b: int, k: nat, w: nat)
    requires k < w
    ensures Cnt(w, a, b, Pow2(k)) == (a - b) % Pow2(k)
  {
    MaskWord(a - b, k, w);
  }

  lemma ModMod(x: int, n: int)
    requires n > 0
    ensures (x % n) % n == x % n
  {
    ModUnique(x % n, n, 0, x % n);
  }

  lemma NextWord(p: nat, k: nat, w: nat)
    requires k < w
    ensures ((p % Pow2(k) + 1) % Pow2(w)) % Pow2(k) == (p + 1) % Pow2(k)
  {
    Pow2Split(k, w);
    ModMultiple(p % Pow2(k) + 1, Pow2(k), Pow2(w - k));
    ModAdd(p, 1, Pow2(k));
  }

  lemma SpaceValue(p: nat, c: nat, k: nat, w: nat)
    requires k < w
    ensures Space(w, p % Pow2(k), c % Pow2(k), Pow2(k)) == (c - p - 1) % Pow2(k)
  {
    var n := Pow2(k);
    var next := (p % n + 1) % Pow2(w);
    CntValue(c % n, next, k, w);
    ModSub(c % n, next, n);
    ModMod(c, n);
    NextWord(p, k, w);
    ModSub(c, p + 1, n);
  }

  /** Main result: with p items ever inserted and c ever removed, the macros measure occupancy
      and free space, whatever the indices have wrapped to. */
  lemma {:induction false} Measures(p: nat, c: nat, k: nat, w: nat)
    requires k < w && c <= p < c + Pow2(k)
    ensures Cnt(w, p % Pow2(k), c % Pow2(k), Pow2(k)) == p - c
    ensures Space(w, p % Pow2(k), c % Pow2(k), Pow2(k)) == Pow2(k) - 1 - (p - c)
  {
    var n := Pow2(k);
    CntValue(p % n, c % n, k, w);
    ModSub(p, c, n);
    ModUnique(p - c, n, 0, p - c);
    SpaceValue(p, c, k, w);
    ModUnique(c - p - 1, n, -1, n - 1 - (p - c));
  }

  lemma {:induction false} NextIndex(p: nat, k: nat, w: nat)
    requires k < w
    ensures Next(w, p % Pow2(k), Pow2(k)) == (p + 1) % Pow2(k)
  {
    MaskWord(p % Pow2(k) + 1, k, w);
    ModAdd(p, 1, Pow2(k));
  }

  /** What stale indices show. To the producer, space computed from an old tail is a
      lower bound; to the consumer, a count computed from an old head is a lower bound; and the
      other two combinations are upper bounds. */
  lemma StaleBounds(p: nat, c: nat, oldP: nat, oldC: nat, k: nat, w: nat)
    requires k < w && c <= p && oldC <= c && oldP <= p
    requires p < oldC + Pow2(k) && c <= oldP
    ensures var n := Pow2(k); var head, tail := p % n, c % n; var oldHead, oldTail := oldP % n, oldC % n;
            && Space(w, head, oldTail, n) <= Space(w, head, tail, n) <= Space(w, oldHead, tail, n)
            && Cnt(w, oldHead, tail, n) <= Cnt(w, head, tail, n) <= Cnt(w, head, oldTail, n)
  {
    Measures(p, c, k, w);
    Measures(p, oldC, k, w);
    Measures(oldP, c, k, w);
  }

  /** A third party reads the indices at any two moments: it gets the difference of the counts
      modulo the size, whatever they are. With a newer tail than head, that is a nearly full buffer
      where there is at most what was removed; the mask keeps the guess from being negative. */
  lemma {:induction false} ThirdPartyGuess(p: nat, c: nat, k: nat, w: nat)
    requires k < w
    ensures Cnt(w, p % Pow2(k), c % Pow2(k), Pow2(k)) == (p - c) % Pow2(k)
    ensures p < c < p + Pow2(k) ==> Cnt(w, p % Pow2(k), c % Pow2(k), Pow2(k)) == Pow2(k) - (c - p)
  {
    var n := Pow2(k);
    CntValue(p % n, c % n, k, w);
    ModSub(p, c, n);
    if p < c < p + n {
      ModUnique(p - c, n, -1, n - (c - p));
    }
  }

  // ----- The protocol -----

  type Item = int

  /** Where the producer is: idle, holding its copies of the indices, filling the slot at head,
      or with the finished item stored and about to publish it. */
  datatype Producer = PIdle | PLoaded(head: nat, tail: nat) | PFilling(head: nat) | PStored(head: nat, item: Item)

  /** Where the consumer is; CLeft: it has published the tail with the load of the slot still
      outstanding, and is about to release its lock. */
  datatype Consumer = CIdle | CLoaded(head: nat, tail: nat) | CReading(tail: nat) | CRead(tail: nat, item: Item) | CLeft

  /** A store of an item that other CPUs do not see yet. */
  datatype Store = Store(slot: nat, item: Item)

  datatype State = State(
    slots: seq<Item>,
    head: nat,
    tail: nat,
    producer: Producer,
    consumer: Consumer,
    pending: seq<Store>,     // the producer's invisible stores, oldest first
    early: Option<Item>,     // what the consumer loaded from the slot at tail ahead of the head
    late: seq<nat>,          // removed slots whose loads are outstanding, oldest first
    seenTail: nat,           // how many removals the producer has seen
    seenHead: nat,           // how many insertions the consumer has seen
    produced: seq<Item>,     // everything published, oldest first
    consumed: seq<Item>)     // everything received, oldest first

  datatype Step =
    | LoadTail(seen: nat)      // head = buffer->head; tail = ACCESS_ONCE(buffer->tail)
    | CheckSpace               // if (CIRC_SPACE(...) >= 1)
    | Scribble(partial: Item)  // produce_item at work: the slot holds anything meanwhile
    | Produce(item: Item)      // produce_item has stored the item
    | Flush                    // ... and the store becomes visible
    | PublishHead              // smp_store_release(buffer->head, ...)
    | Prefetch                 // the slot at tail is loaded ahead of the head
    | LoadHead(seen: nat)      // head = smp_load_acquire(buffer->head); tail = buffer->tail
    | CheckCount               // if (CIRC_CNT(...) >= 1)
    | Consume                  // consume_item reads the slot
    | UseEarly                 // ... or takes what was loaded ahead
    | PublishTail              // smp_store_release(buffer->tail, ...)
    | PublishFirst             // ... or the tail is published before the slot is read
    | ReadLate                 // and the slot is read afterwards
    | Leave                    // spin_unlock(&consumer_lock)

  /** Word width, the exponent of the size, and the barriers: publishing the head waits for the
      item's store, the slot is loaded only after the head, publishing the tail waits for the load
      of the slot, and so does the unlock-lock pair between two invocations of the consumer. */
  datatype Config = Config(w: nat, k: nat, release: bool, acquire: bool, finish: bool, fence: bool) {
    ghost predicate Valid() { k < w }
    function Size(): (n: nat) ensures n > 0 { Pow2(k) }

    /** Enough barriers, or a buffer too small to hold an item at all. */
    predicate Ordered() { (release && acquire && (finish || fence)) || k == 0 }
  }

  /** How many items have been removed, read or not. */
  function Removed(s: State): nat {
    |s.consumed| + |s.late|
  }

  ghost predicate Init(g: Config, s: State) {
    && |s.slots| == g.Size() && s.head == s.tail == 0 && s.producer == PIdle && s.consumer == CIdle
    && s.pending == [] && s.early == None && s.late == []
    && s.seenTail == s.seenHead == 0 && s.produced == s.consumed == []
  }

  predicate Enabled(g: Config, s: State, t: Step) {
    match t
    case LoadTail(seen) => s.producer.PIdle? && s.seenTail <= seen <= Removed(s)
    case CheckSpace => s.producer.PLoaded?
    case Scribble(_) => s.producer.PFilling? && s.producer.head < |s.slots|
    case Produce(_) => s.producer.PFilling?
    case Flush => s.pending != [] && s.pending[0].slot < |s.slots|
    case PublishHead => s.producer.PStored? && (g.release ==> s.pending == [])
    case Prefetch => !g.acquire && s.consumer.CIdle? && s.tail < |s.slots|
    case LoadHead(seen) => s.consumer.CIdle? && s.seenHead <= seen <= |s.produced|
    case CheckCount => s.consumer.CLoaded?
    case Consume => s.consumer.CReading? && s.consumer.tail < |s.slots| && s.late == []
    case UseEarly => s.consumer.CReading? && s.early.Some? && s.late == []
    case PublishTail => s.consumer.CRead?
    case PublishFirst => !g.finish && s.consumer.CReading?
    case ReadLate => s.late != [] && s.late[0] < |s.slots|
    case Leave => s.consumer.CLeft? && (g.fence ==> s.late == [])
  }

  function CheckSpaceStep(g: Config, s: State): State
    requires s.producer.PLoaded?
  {
    var room := Space(g.w, s.producer.head, s.producer.tail, g.Size()) >= 1;
    s.(producer := if room then PFilling(s.producer.head) else PIdle)
  }

  function CheckCountStep(g: Config, s: State): State
    requires s.consumer.CLoaded?
  {
    var any := Cnt(g.w, s.consumer.head, s.consumer.tail, g.Size()) >= 1;
    if any then s.(consumer := CReading(s.consumer.tail)) else s.(consumer := CIdle, early := None)
  }

  function Apply(g: Config, s: State, t: Step): State
    requires Enabled(g, s, t)
  {
    match t
    case LoadTail(seen) => s.(producer := PLoaded(s.head, seen % g.Size()), seenTail := seen)
    case CheckSpace => CheckSpaceStep(g, s)
    case Scribble(partial) => s.(slots := s.slots[s.producer.head := partial])
    case Produce(item) =>
      s.(producer := PStored(s.producer.head, item), pending := s.pending + [Store(s.producer.head, item)])
    case Flush => s.(slots := s.slots[s.pending[0].slot := s.pending[0].item], pending := s.pending[1..])
    case PublishHead =>
      s.(head := Next(g.w, s.producer.head, g.Size()), produced := s.produced + [s.producer.item], producer := PIdle)
    case Prefetch => s.(early := Some(s.slots[s.tail]))
    case LoadHead(seen) => s.(consumer := CLoaded(seen % g.Size(), s.tail), seenHead := seen)
    case CheckCount => CheckCountStep(g, s)
    case Consume => s.(consumer := CRead(s.consumer.tail, s.slots[s.consumer.tail]))
    case UseEarly => s.(consumer := CRead(s.consumer.tail, s.early.value))
    case PublishTail =>
      s.(tail := Next(g.w, s.consumer.tail, g.Size()), consumed := s.consumed + [s.consumer.item],
         consumer := CIdle, early := None)
    case PublishFirst =>
      s.(tail := Next(g.w, s.consumer.tail, g.Size()), late := s.late + [s.consumer.tail],
         consumer := CLeft, early := None)
    case ReadLate => s.(consumed := s.consumed + [s.slots[s.late[0]]], late := s.late[1..])
    case Leave => s.(consumer := CIdle)
  }

  /** The state after a schedule, if every step of it could be taken. */
  function Execute(g: Config, start: State, schedule: seq<Step>): Option<State> {
    if schedule == [] then Some(start)
    else
      var before := Execute(g, start, schedule[..|schedule| - 1]);
      var t := schedule[|schedule| - 1];
      if before.Some? && Enabled(g, before.value, t) then Some(Apply(g, before.value, t)) else None
  }

  // ----- Where the two sides are, whatever the barriers -----

  ghost predicate Indices(g: Config, s: State) {
    var n, p, r := g.Size(), |s.produced|, Removed(s);
    && |s.slots| == n && s.head == p % n && s.tail == r % n
    && s.seenTail <= r <= s.seenHead <= p < s.seenTail + n
    && forall i :: 0 <= i < |s.pending| ==> s.pending[i].slot < n
  }

  ghost predicate Outstanding(g: Config, s: State) {
    && (forall i :: 0 <= i < |s.late| ==> s.late[i] == (|s.consumed| + i) % g.Size())
    && (s.consumer.CRead? ==> s.late == [])
  }

  ghost predicate ProducerAt(g: Config, s: State) {
    var n, p := g.Size(), |s.produced|;
    match s.producer
    case PIdle => true
    case PLoaded(head, tail) => head == s.head && tail == s.seenTail % n
    case PFilling(head) => head == s.head && p + 1 < s.seenTail + n
    case PStored(head, _) => head == s.head && p + 1 < s.seenTail + n
  }

  ghost predicate ConsumerAt(g: Config, s: State) {
    match s.consumer
    case CIdle => true
    case CLoaded(head, tail) => head == s.seenHead % g.Size() && tail == s.tail
    case CReading(tail) => tail == s.tail && Removed(s) < s.seenHead
    case CRead(tail, _) => tail == s.tail && Removed(s) < s.seenHead
    case CLeft => true
  }

  ghost predicate Positions(g: Config, s: State) {
    g.Valid() && Indices(g, s) && Outstanding(g, s) && ProducerAt(g, s) && ConsumerAt(g, s)
  }

  lemma IndicesKept(g: Config, s: State, t: Step)
    requires Positions(g, s) && Enabled(g, s, t)
    ensures Indices(g, Apply(g, s, t))
  {
    match t
    case PublishHead => NextIndex(|s.produced|, g.k, g.w);
    case PublishTail => NextIndex(Removed(s), g.k, g.w);
    case PublishFirst => NextIndex(Removed(s), g.k, g.w);
    case _ =>
  }

  lemma OutstandingKept(g: Config, s: State, t: Step)
    requires Positions(g, s) && Enabled(g, s, t)
    ensures Outstanding(g, Apply(g, s, t))
  {
  }

  lemma PlacesKept(g: Config, s: State, t: Step)
    requires Positions(g, s) && Enabled(g, s, t)
    ensures ProducerAt(g, Apply(g, s, t)) && ConsumerAt(g, Apply(g, s, t))
  {
    match t
    case CheckSpace => Measures(|s.produced|, s.seenTail, g.k, g.w);
    case CheckCount => Measures(s.seenHead, Removed(s), g.k, g.w);
    case _ =>
  }

  lemma PositionsKept(g: Config, s: State, t: Step)
    requires Positions(g, s) && Enabled(g, s, t)
    ensures Positions(g, Apply(g, s, t))
  {
    IndicesKept(g, s, t);
    OutstandingKept(g, s, t);
    PlacesKept(g, s, t);
  }

  lemma {:induction false} ExecutionPositions(g: Config, start: State, schedule: seq<Step>)
    requires g.Valid() && Init(g, start) && Execute(g, start, schedule).Some?
    ensures Positions(g, Execute(g, start, schedule).value)
  {
    if schedule == [] {
      ModUnique(0, g.Size(), 0, 0);
    } else {
      var init := schedule[..|schedule| - 1];
      ExecutionPositions(g, start, init);
      PositionsKept(g, Execute(g, start, init).value, schedule[|schedule| - 1]);
    }
  }

  /** Main result: in every run, what each side computes from its copies of the indices bounds the
      truth. The producer's copies never show too much space nor too few items, the consumer's never
      too many items nor too little space. */
  lemma {:induction false} ViewsBound(g: Config, start: State, schedule: seq<Step>)
    requires g.Valid() && Init(g, start) && Execute(g, start, schedule).Some?
    ensures var s, w, n := Execute(g, start, schedule).value, g.w, g.Size();
            var space, count := Space(w, s.head, s.tail, n), Cnt(w, s.head, s.tail, n);
            && (s.producer.PLoaded? ==>
                  && Space(w, s.producer.head, s.producer.tail, n) <= space
                  && count <= Cnt(w, s.producer.head, s.producer.tail, n))
            && (s.consumer.CLoaded? ==>
                  && Cnt(w, s.consumer.head, s.consumer.tail, n) <= count
                  && space <= Space(w, s.consumer.head, s.consumer.tail, n))
  {
    ExecutionPositions(g, start, schedule);
    var s := Execute(g, start, schedule).value;
    StaleBounds(|s.produced|, Removed(s), s.seenHead, s.seenTail, g.k, g.w);
  }

  // ----- What the slots hold, with the barriers -----

  ghost predicate Contents(g: Config, s: State) {
    var n := g.Size();
    && |s.slots| == n && |s.consumed| <= |s.produced|
    && s.consumed == s.produced[..|s.consumed|]
    && forall i {:trigger s.produced[i]} :: |s.consumed| <= i < |s.produced| ==> s.slots[i % n] == s.produced[i]
  }

  /** The only invisible store is that of the item about to be published. */
  ghost predicate Stored(s: State) {
    s.pending == [] || (s.producer.PStored? && s.pending == [Store(s.producer.head, s.producer.item)])
  }

  /** Nothing is loaded ahead, and only the slot removed last is still to be read, before the
      consumer leaves. */
  ghost predicate Loads(g: Config, s: State) {
    && (g.k > 0 ==> s.early == None)
    && |s.late| <= 1 && (s.late != [] ==> s.consumer.CLeft?)
    && (s.consumer.CLeft? ==> !g.finish && g.k > 0)
  }

  ghost predicate Items(s: State) {
    && (s.producer.PStored? && s.pending == [] ==>
          s.producer.head < |s.slots| && s.slots[s.producer.head] == s.producer.item)
    && (s.consumer.CRead? ==> |s.consumed| < |s.produced| && s.consumer.item == s.produced[|s.consumed|])
  }

  ghost predicate Inv(g: Config, s: State) {
    g.Ordered() && Positions(g, s) && Contents(g, s) && Stored(s) && Loads(g, s) && Items(s)
  }

  /** The slot at head is none of the occupied ones. */
  lemma HeadIsFree(g: Config, s: State, i: nat)
    requires Indices(g, s) && |s.produced| - g.Size() < i < |s.produced|
    ensures s.head != i % g.Size()
  {
    ModDistinct(|s.produced|, i, g.Size());
  }

  /** While the producer writes, the slot at head is not even the one removed last. */
  lemma WriteKept(g: Config, s: State, v: Item)
    requires Indices(g, s) && Contents(g, s) && |s.late| <= 1 && s.head < |s.slots|
    requires |s.produced| + 1 < s.seenTail + g.Size()
    ensures Contents(g, s.(slots := s.slots[s.head := v]))
  {
    forall i {:trigger s.produced[i]} | |s.consumed| <= i < |s.produced|
      ensures s.slots[s.head := v][i % g.Size()] == s.produced[i]
    {
      HeadIsFree(g, s, i);
    }
  }

  lemma PublishHeadKept(g: Config, s: State)
    requires Inv(g, s) && Enabled(g, s, PublishHead)
    ensures Contents(g, Apply(g, s, PublishHead)) && s.pending == []
  {
    var s' := Apply(g, s, PublishHead);
    assert s'.produced[..|s.consumed|] == s.produced[..|s.consumed|];
    forall i {:trigger s'.produced[i]} | |s'.consumed| <= i < |s'.produced|
      ensures s'.slots[i % g.Size()] == s'.produced[i]
    {
      if i < |s.produced| {
        assert s'.produced[i] == s.produced[i];
      }
    }
  }

  lemma ReceiveKept(g: Config, s: State, s': State, item: Item)
    requires Contents(g, s) && |s.consumed| < |s.produced| && item == s.produced[|s.consumed|]
    requires s'.slots == s.slots && s'.produced == s.produced && s'.consumed == s.consumed + [item]
    ensures Contents(g, s')
  {
    var c := |s.consumed|;
    assert s.produced[..c + 1] == s.produced[..c] + [s.produced[c]];
  }

  lemma ContentsKept(g: Config, s: State, t: Step)
    requires Inv(g, s) && Enabled(g, s, t)
    ensures Contents(g, Apply(g, s, t))
  {
    match t
    case Scribble(partial) => WriteKept(g, s, partial);
    case Flush => WriteKept(g, s, s.pending[0].item);
    case PublishHead => PublishHeadKept(g, s);
    case PublishTail => ReceiveKept(g, s, Apply(g, s, t), s.consumer.item);
    case ReadLate => ReceiveKept(g, s, Apply(g, s, t), s.produced[|s.consumed|]);
    case _ =>
  }

  lemma StoredKept(g: Config, s: State, t: Step)
    requires Inv(g, s) && Enabled(g, s, t)
    ensures Stored(Apply(g, s, t))
  {
    if t.PublishHead? {
      PublishHeadKept(g, s);
    }
  }

  lemma LoadsKept(g: Config, s: State, t: Step)
    requires Inv(g, s) && Enabled(g, s, t)
    ensures Loads(g, Apply(g, s, t))
  {
  }

  lemma ItemsKept(g: Config, s: State, t: Step)
    requires Inv(g, s) && Enabled(g, s, t)
    ensures Items(Apply(g, s, t))
  {
    match t
    case Consume => assert s.slots[|s.consumed| % g.Size()] == s.produced[|s.consumed|];
    case _ =>
  }

  lemma StepKept(g: Config, s: State, t: Step)
    requires Inv(g, s) && Enabled(g, s, t)
    ensures Inv(g, Apply(g, s, t))
  {
    PositionsKept(g, s, t);
    ContentsKept(g, s, t);
    StoredKept(g, s, t);
    LoadsKept(g, s, t);
    ItemsKept(g, s, t);
  }

  lemma {:induction false} ExecutionKept(g: Config, start: State, schedule: seq<Step>)
    requires g.Valid() && g.Ordered() && Init(g, start) && Execute(g, start, schedule).Some?
    ensures Inv(g, Execute(g, start, schedule).value)
  {
    if schedule == [] {
      ExecutionPositions(g, start, schedule);
    } else {
      var init := schedule[..|schedule| - 1];
      ExecutionKept(g, start, init);
      StepKept(g, Execute(g, start, init).value, schedule[|schedule| - 1]);
    }
  }

  // ----- A bounded FIFO -----

  /** What the buffer holds, read from its slots and indices alone. */
  function Queue(g: Config, s: State): seq<Item>
    requires |s.slots| == g.Size()
  {
    seq(Cnt(g.w, s.head, s.tail, g.Size()), i requires 0 <= i => s.slots[(s.tail + i) % g.Size()])
  }

  /** What the consumer has received, and what the slots of its outstanding loads hold. */
  function Delivered(s: State): seq<Item>
    requires forall i :: 0 <= i < |s.late| ==> s.late[i] < |s.slots|
  {
    s.consumed + seq(|s.late|, i requires 0 <= i < |s.late| => s.slots[s.late[i]])
  }

  lemma SlotOf(g: Config, s: State, i: nat)
    requires Indices(g, s) && Contents(g, s) && Removed(s) + i < |s.produced|
    ensures s.slots[(s.tail + i) % g.Size()] == s.produced[Removed(s) + i]
  {
    ModAdd(Removed(s), i, g.Size());
    assert s.slots[(Removed(s) + i) % g.Size()] == s.produced[Removed(s) + i];
  }

  lemma QueueIs(g: Config, s: State)
    requires Inv(g, s)
    ensures Queue(g, s) == s.produced[Removed(s)..] && |Queue(g, s)| <= g.Size() - 1
  {
    var p, r := |s.produced|, Removed(s);
    Measures(p, r, g.k, g.w);
    forall i | 0 <= i < p - r
      ensures Queue(g, s)[i] == s.produced[r + i]
    {
      SlotOf(g, s, i);
    }
  }

  lemma DeliveredIs(g: Config, s: State)
    requires Inv(g, s)
    ensures forall i :: 0 <= i < |s.late| ==> s.late[i] < |s.slots|
    ensures Delivered(s) == s.produced[..Removed(s)]
  {
    forall i | 0 <= i < |s.late|
      ensures s.late[i] < |s.slots| && s.slots[s.late[i]] == s.produced[|s.consumed| + i]
    {
      assert s.slots[(|s.consumed| + i) % g.Size()] == s.produced[|s.consumed| + i];
    }
  }

  /** Main result: in every interleaving, what was produced is what the consumer has received or
      is still to load, followed by what the slots from tail to head hold, and there is always a
      free slot. */
  lemma {:induction false} EveryRunIsFifo(g: Config, start: State, schedule: seq<Step>)
    requires g.Valid() && g.Ordered() && Init(g, start) && Execute(g, start, schedule).Some?
    ensures var s := Execute(g, start, schedule).value;
            && |s.slots| == g.Size() && (forall i :: 0 <= i < |s.late| ==> s.late[i] < |s.slots|)
            && s.produced == Delivered(s) + Queue(g, s) && |Queue(g, s)| <= g.Size() - 1
  {
    ExecutionKept(g, start, schedule);
    var s := Execute(g, start, schedule).value;
    QueueIs(g, s);
    DeliveredIs(g, s);
    assert s.produced == s.produced[..Removed(s)] + s.produced[Removed(s)..];
  }

  lemma LateInside(g: Config, s: State)
    requires Positions(g, s)
    ensures forall i :: 0 <= i < |s.late| ==> s.late[i] < |s.slots|
  {
  }

  /** A step of a FIFO with the given capacity: q is what it holds, d what it has delivered. */
  ghost predicate FifoStep(t: Step, item: Item, capacity: nat,
                           q: seq<Item>, q': seq<Item>, d: seq<Item>, d': seq<Item>) {
    if t.PublishHead? then |q| < capacity && q' == q + [item] && d' == d
    else if t.PublishTail? || t.PublishFirst? then q != [] && q' == q[1..] && d' == d + [q[0]]
    else q' == q && d' == d
  }

  /** What a step does to the items published and to the number removed. */
  lemma StepCounts(g: Config, s: State, t: Step)
    requires Inv(g, s) && Enabled(g, s, t)
    ensures var s' := Apply(g, s, t);
            if t.PublishHead? then s'.produced == s.produced + [s.producer.item] && Removed(s') == Removed(s)
            else if t.PublishTail? || t.PublishFirst? then
              s'.produced == s.produced && Removed(s') == Removed(s) + 1 && Removed(s) < |s.produced|
            else s'.produced == s.produced && Removed(s') == Removed(s)
  {
  }

  lemma CutAppended(p: seq<Item>, r: nat, item: Item)
    requires r <= |p|
    ensures (p + [item])[..r] == p[..r] && (p + [item])[r..] == p[r..] + [item]
  {
  }

  lemma CutFurther(p: seq<Item>, r: nat)
    requires r < |p|
    ensures p[..r + 1] == p[..r] + [p[r]] && p[r + 1..] == p[r..][1..] && p[r..][0] == p[r]
  {
  }

  lemma StepIsFifo(g: Config, s: State, s': State, t: Step, item: Item)
    requires Inv(g, s) && Enabled(g, s, t) && (t.PublishHead? ==> item == s.producer.item)
    requires s' == Apply(g, s, t) && Inv(g, s')
    requires forall i :: 0 <= i < |s.late| ==> s.late[i] < |s.slots|
    requires forall i :: 0 <= i < |s'.late| ==> s'.late[i] < |s'.slots|
    ensures FifoStep(t, item, g.Size() - 1, Queue(g, s), Queue(g, s'), Delivered(s), Delivered(s'))
  {
    QueueIs(g, s);
    QueueIs(g, s');
    DeliveredIs(g, s);
    DeliveredIs(g, s');
    StepCounts(g, s, t);
    if t.PublishHead? {
      CutAppended(s.produced, Removed(s), item);
    } else if t.PublishTail? || t.PublishFirst? {
      CutFurther(s.produced, Removed(s));
    }
  }

  /** Main result: every step of every run is a step of a bounded FIFO. Publishing the head
      appends the item, and there is room for it; publishing the tail removes the first item, and
      that is the item the consumer receives; no other step changes the queue. */
  lemma {:induction false} RefinesFifo(g: Config, start: State, schedule: seq<Step>, t: Step, item: Item)
    requires g.Valid() && g.Ordered() && Init(g, start) && Execute(g, start, schedule).Some?
    requires Enabled(g, Execute(g, start, schedule).value, t)
    requires t.PublishHead? ==> item == Execute(g, start, schedule).value.producer.item
    ensures var s := Execute(g, start, schedule).value;
            var s' := Apply(g, s, t);
            && |s.slots| == |s'.slots| == g.Size()
            && (forall i :: 0 <= i < |s.late| ==> s.late[i] < |s.slots|)
            && (forall i :: 0 <= i < |s'.late| ==> s'.late[i] < |s'.slots|)
            && FifoStep(t, item, g.Size() - 1, Queue(g, s), Queue(g, s'), Delivered(s), Delivered(s'))
  {
    ExecutionKept(g, start, schedule);
    var s := Execute(g, start, schedule).value;
    StepKept(g, s, t);
    LateInside(g, s);
    LateInside(g, Apply(g, s, t));
    StepIsFifo(g, s, Apply(g, s, t), t, item);
  }

  // ----- The slots in use -----

  /** No run leaves the array: the guards on slot indices never hold a step back. */
  lemma {:induction false} InBounds(g: Config, start: State, schedule: seq<Step>)
    requires g.Valid() && Init(g, start) && Execute(g, start, schedule).Some?
    ensures var s := Execute(g, start, schedule).value;
            && (s.producer.PFilling? || s.producer.PStored? ==> s.producer.head < |s.slots|)
            && (s.consumer.CReading? || s.consumer.CRead? ==> s.consumer.tail < |s.slots|)
            && (forall i :: 0 <= i < |s.pending| ==> s.pending[i].slot < |s.slots|)
            && (forall i :: 0 <= i < |s.late| ==> s.late[i] < |s.slots|)
  {
    ExecutionPositions(g, start, schedule);
  }

  /** Main result: in every run, the slot being filled is never the slot being read, and not even
      the slot that was removed last: the producer has to see another removal first. With the
      barriers neither a late store nor an outstanding load meets the other side. */
  lemma {:induction false} NoRace(g: Config, start: State, schedule: seq<Step>)
    requires g.Valid() && Init(g, start) && Execute(g, start, schedule).Some?
    ensures var s := Execute(g, start, schedule).value;
            && (s.producer.PFilling? || s.producer.PStored? ==>
                  && (s.consumer.CReading? || s.consumer.CRead? ==> s.producer.head != s.consumer.tail)
                  && (Removed(s) > 0 ==> s.producer.head != (Removed(s) - 1) % g.Size())
                  && (g.Ordered() ==> s.producer.head !in s.late))
            && (g.Ordered() && (s.consumer.CReading? || s.consumer.CRead?) ==>
                  forall i :: 0 <= i < |s.pending| ==> s.pending[i].slot != s.consumer.tail)
  {
    ExecutionPositions(g, start, schedule);
    var s := Execute(g, start, schedule).value;
    if s.producer.PFilling? || s.producer.PStored? {
      if Removed(s) < |s.produced| {
        HeadIsFree(g, s, Removed(s));
      }
      if Removed(s) > 0 {
        HeadIsFree(g, s, Removed(s) - 1);
      }
    }
    if g.Ordered() {
      ExecutionKept(g, start, schedule);
    }
  }

  // ----- The barriers are needed -----

  function Blank(g: Config): State {
    State(seq(g.Size(), _ => 0), 0, 0, PIdle, CIdle, [], None, [], 0, 0, [], [])
  }

  lemma Extend(g: Config, schedule: seq<Step>, s: State, t: Step) returns (longer: seq<Step>, s': State)
    requires Execute(g, Blank(g), schedule) == Some(s) && Enabled(g, s, t)
    ensures Execute(g, Blank(g), longer) == Some(s') && s' == Apply(g, s, t)
  {
    longer, s' := schedule + [t], Apply(g, s, t);
    assert longer[..|schedule|] == schedule;
  }

  lemma TwoSlots(g: Config)
    requires g.k > 0
    ensures g.Size() >= 2
  {
    assert g.Size() == 2 * Pow2(g.k - 1);
  }

  /** The producer is idle and there is room for another item. */
  ghost predicate Ready(g: Config, s: State) {
    && g.Valid() && s.producer == PIdle && s.pending == [] && s.seenTail <= Removed(s)
    && |s.slots| == g.Size() && s.head == |s.produced| % g.Size()
    && Removed(s) <= |s.produced| && |s.produced| + 1 < Removed(s) + g.Size()
  }

  function Loaded(g: Config, s: State): State {
    s.(producer := PLoaded(s.head, Removed(s) % g.Size()), seenTail := Removed(s))
  }

  function Holding(s: State, item: Item): State {
    s.(producer := PStored(s.head, item), pending := [Store(s.head, item)], seenTail := Removed(s))
  }

  function Inserted(g: Config, s: State, item: Item): State
    requires s.head < |s.slots|
  {
    s.(slots := s.slots[s.head := item], head := (|s.produced| + 1) % g.Size(), seenTail := Removed(s),
       produced := s.produced + [item])
  }

  lemma HoldingSteps(g: Config, s: State, item: Item)
    requires Ready(g, s)
    ensures var a, b := Loaded(g, s), Loaded(g, s).(producer := PFilling(s.head));
            && Enabled(g, s, LoadTail(Removed(s))) && Apply(g, s, LoadTail(Removed(s))) == a
            && Enabled(g, a, CheckSpace) && Apply(g, a, CheckSpace) == b
            && Enabled(g, b, Produce(item)) && Apply(g, b, Produce(item)) == Holding(s, item)
  {
    Measures(|s.produced|, Removed(s), g.k, g.w);
  }

  lemma InsertedSteps(g: Config, s: State, item: Item)
    requires Ready(g, s) && s.head < |s.slots|
    ensures var a, b := Holding(s, item), Holding(s, item).(slots := s.slots[s.head := item], pending := []);
            && Enabled(g, a, Flush) && Apply(g, a, Flush) == b
            && Enabled(g, b, PublishHead) && Apply(g, b, PublishHead) == Inserted(g, s, item)
  {
    NextIndex(|s.produced|, g.k, g.w);
  }

  lemma Hold(g: Config, before: seq<Step>, s: State, item: Item) returns (schedule: seq<Step>)
    requires Ready(g, s) && Execute(g, Blank(g), before) == Some(s)
    ensures Execute(g, Blank(g), schedule) == Some(Holding(s, item))
  {
    HoldingSteps(g, s, item);
    var s': State;
    schedule, s' := Extend(g, before, s, LoadTail(Removed(s)));
    schedule, s' := Extend(g, schedule, s', CheckSpace);
    schedule, s' := Extend(g, schedule, s', Produce(item));
  }

  lemma Insert(g: Config, before: seq<Step>, s: State, item: Item) returns (schedule: seq<Step>)
    requires Ready(g, s) && Execute(g, Blank(g), before) == Some(s)
    ensures s.head < |s.slots| && Execute(g, Blank(g), schedule) == Some(Inserted(g, s, item))
  {
    InsertedSteps(g, s, item);
    schedule := Hold(g, before, s, item);
    var s': State;
    schedule, s' := Extend(g, schedule, Holding(s, item), Flush);
    schedule, s' := Extend(g, schedule, s', PublishHead);
  }

  /** The consumer is idle and there is an item. */
  ghost predicate Waiting(g: Config, s: State) {
    && g.Valid() && s.consumer == CIdle && s.seenHead <= |s.produced| && s.tail == Removed(s) % g.Size()
    && Removed(s) < |s.produced| < Removed(s) + g.Size()
  }

  function Found(s: State): State {
    s.(consumer := CReading(s.tail), seenHead := |s.produced|)
  }

  lemma FoundSteps(g: Config, s: State)
    requires Waiting(g, s)
    ensures var t := LoadHead(|s.produced|);
            && Enabled(g, s, t) && Enabled(g, Apply(g, s, t), CheckCount)
            && Apply(g, Apply(g, s, t), CheckCount) == Found(s)
  {
    Measures(|s.produced|, Removed(s), g.k, g.w);
  }

  lemma Find(g: Config, before: seq<Step>, s: State) returns (schedule: seq<Step>)
    requires Waiting(g, s) && Execute(g, Blank(g), before) == Some(s)
    ensures Execute(g, Blank(g), schedule) == Some(Found(s))
  {
    FoundSteps(g, s);
    var s': State;
    schedule, s' := Extend(g, before, s, LoadHead(|s.produced|));
    schedule, s' := Extend(g, schedule, s', CheckCount);
  }

  /** The consumer has received the first items that were produced, in order. */
  ghost predicate FifoRun(g: Config, start: State, schedule: seq<Step>) {
    Init(g, start) && Execute(g, start, schedule).Some? ==>
      Execute(g, start, schedule).value.consumed <= Execute(g, start, schedule).value.produced
  }

  lemma WrongItem(g: Config, schedule: seq<Step>, s: State)
    requires Execute(g, Blank(g), schedule) == Some(s)
    requires s.consumed != [] && s.produced != [] && s.consumed[0] != s.produced[0]
    ensures !FifoRun(g, Blank(g), schedule)
  {
    assert Init(g, Blank(g));
  }

  lemma BlankReady(g: Config)
    requires g.Valid() && g.k > 0
    ensures Ready(g, Blank(g)) && 0 % g.Size() == 0 && 1 % g.Size() == 1
  {
    TwoSlots(g);
    ModUnique(0, g.Size(), 0, 0);
    ModUnique(1, g.Size(), 0, 1);
  }

  /** Reading with what is at hand, and publishing the tail. */
  lemma Receive(g: Config, before: seq<Step>, s: State, t: Step, item: Item) returns (schedule: seq<Step>)
    requires Execute(g, Blank(g), before) == Some(s) && Enabled(g, s, t) && s.consumed == []
    requires Apply(g, s, t) == s.(consumer := CRead(0, item))
    requires s.produced != [] && item != s.produced[0]
    ensures !FifoRun(g, Blank(g), schedule)
  {
    var s': State;
    schedule, s' := Extend(g, before, s, t);
    schedule, s' := Extend(g, schedule, s', PublishTail);
    WrongItem(g, schedule, s');
  }

  /** The consumer is about to receive a zero where a one was produced. */
  ghost predicate Misled(g: Config, s: State, t: Step) {
    && Waiting(g, s) && s.consumed == [] && s.produced == [1]
    && Enabled(g, Found(s), t) && Apply(g, Found(s), t) == Found(s).(consumer := CRead(0, 0))
  }

  lemma UnflushedMisleads(g: Config)
    requires g.Valid() && g.k > 0 && !g.release
    ensures Enabled(g, Holding(Blank(g), 1), PublishHead)
    ensures Misled(g, Apply(g, Holding(Blank(g), 1), PublishHead), Consume)
  {
    BlankReady(g);
    NextIndex(0, g.k, g.w);
  }

  lemma PrefetchMisleads(g: Config)
    requires g.Valid() && g.k > 0 && !g.acquire
    ensures Enabled(g, Blank(g), Prefetch) && Ready(g, Apply(g, Blank(g), Prefetch))
    ensures Misled(g, Inserted(g, Apply(g, Blank(g), Prefetch), 1), UseEarly)
  {
    BlankReady(g);
    TwoSlots(g);
  }

  lemma Mislead(g: Config, before: seq<Step>, s: State, t: Step) returns (schedule: seq<Step>)
    requires Execute(g, Blank(g), before) == Some(s) && Misled(g, s, t)
    ensures !FifoRun(g, Blank(g), schedule)
  {
    schedule := Find(g, before, s);
    schedule := Receive(g, schedule, Found(s), t, 0);
  }

  /** The head is published while the item's store is invisible: the consumer reads the old slot. */
  lemma PublishedEarly(g: Config) returns (schedule: seq<Step>)
    requires g.Valid() && g.k > 0 && !g.release
    ensures !FifoRun(g, Blank(g), schedule)
  {
    BlankReady(g);
    UnflushedMisleads(g);
    schedule := Hold(g, [], Blank(g), 1);
    var s: State;
    schedule, s := Extend(g, schedule, Holding(Blank(g), 1), PublishHead);
    schedule := Mislead(g, schedule, s, Consume);
  }

  /** The slot is loaded before the head: the consumer takes what was there before the item. */
  lemma LoadedEarly(g: Config) returns (schedule: seq<Step>)
    requires g.Valid() && g.k > 0 && !g.acquire
    ensures !FifoRun(g, Blank(g), schedule)
  {
    PrefetchMisleads(g);
    var s: State;
    schedule, s := Extend(g, [], Blank(g), Prefetch);
    schedule := Insert(g, schedule, s, 1);
    schedule := Mislead(g, schedule, Inserted(g, s, 1), UseEarly);
  }

  /** A buffer of zeros, all items so far zero, and n removed items whose loads are outstanding. */
  ghost predicate Overdue(g: Config, s: State, n: nat) {
    && s.slots == seq(g.Size(), _ => 0) && s.head == |s.produced| % g.Size() && s.tail == n % g.Size()
    && s.producer == PIdle && s.consumer == CIdle && s.pending == [] && s.consumed == []
    && |s.late| == n && (n > 0 ==> s.late[0] == 0)
    && s.seenTail <= n && s.seenHead <= |s.produced| && (forall i :: 0 <= i < |s.produced| ==> s.produced[i] == 0)
  }

  lemma ZeroInserted(g: Config, s: State, n: nat)
    requires g.Valid() && Overdue(g, s, n) && n <= |s.produced| && |s.produced| + 1 < n + g.Size()
    ensures Ready(g, s) && s.head < |s.slots| && Overdue(g, Inserted(g, s, 0), n)
  {
    assert s.slots[s.head := 0] == s.slots;
  }

  lemma TakeSteps(g: Config, s: State, n: nat)
    requires g.Valid() && !g.finish && !g.fence && Overdue(g, s, n) && n < |s.produced| < n + g.Size()
    ensures Waiting(g, s) && Enabled(g, Found(s), PublishFirst)
    ensures Enabled(g, Apply(g, Found(s), PublishFirst), Leave)
    ensures Overdue(g, Apply(g, Apply(g, Found(s), PublishFirst), Leave), n + 1)
  {
    NextIndex(n, g.k, g.w);
    ModUnique(0, g.Size(), 0, 0);
  }

  /** Insert a zero and remove it without reading it. */
  lemma Postpone(g: Config, before: seq<Step>, s: State, n: nat) returns (schedule: seq<Step>, s': State)
    requires g.Valid() && g.k > 0 && !g.finish && !g.fence
    requires Execute(g, Blank(g), before) == Some(s) && Overdue(g, s, n) && |s.produced| == n
    ensures Execute(g, Blank(g), schedule) == Some(s') && Overdue(g, s', n + 1) && |s'.produced| == n + 1
  {
    TwoSlots(g);
    ZeroInserted(g, s, n);
    schedule := Insert(g, before, s, 0);
    s' := Inserted(g, s, 0);
    TakeSteps(g, s', n);
    schedule := Find(g, schedule, s');
    schedule, s' := Extend(g, schedule, Found(s'), PublishFirst);
    schedule, s' := Extend(g, schedule, s', Leave);
  }

  lemma {:induction false} FillUp(g: Config, before: seq<Step>, s: State) returns (schedule: seq<Step>, s': State)
    requires g.Valid() && Execute(g, Blank(g), before) == Some(s) && Overdue(g, s, 2) && 2 <= |s.produced| <= g.Size()
    ensures Execute(g, Blank(g), schedule) == Some(s') && Overdue(g, s', 2) && |s'.produced| == g.Size()
    decreases g.Size() - |s.produced|
  {
    if |s.produced| == g.Size() {
      schedule, s' := before, s;
    } else {
      ZeroInserted(g, s, 2);
      schedule := Insert(g, before, s, 0);
      schedule, s' := FillUp(g, schedule, Inserted(g, s, 0));
    }
  }

  lemma OverwriteSteps(g: Config, s: State)
    requires g.Valid() && g.k > 0 && Overdue(g, s, 2) && |s.produced| == g.Size()
    ensures Enabled(g, s, LoadTail(2)) && Enabled(g, Apply(g, s, LoadTail(2)), CheckSpace)
    ensures var a := Apply(g, Apply(g, s, LoadTail(2)), CheckSpace);
            && Enabled(g, a, Scribble(1)) && Enabled(g, Apply(g, a, Scribble(1)), ReadLate)
            && var b := Apply(g, Apply(g, a, Scribble(1)), ReadLate); b.consumed == [1] && b.produced == s.produced
  {
    TwoSlots(g);
    Measures(g.Size(), 2, g.k, g.w);
    ModUnique(g.Size(), g.Size(), 1, 0);
  }

  lemma BlankOverdue(g: Config)
    ensures Overdue(g, Blank(g), 0)
  {
    ModUnique(0, g.Size(), 0, 0);
  }

  /** Two loads stay outstanding over the lock: the producer comes round and overwrites the first. */
  lemma ReadTooLate(g: Config) returns (schedule: seq<Step>)
    requires g.Valid() && g.k > 0 && !g.finish && !g.fence
    ensures !FifoRun(g, Blank(g), schedule)
  {
    TwoSlots(g);
    BlankOverdue(g);
    var s: State;
    schedule, s := Postpone(g, [], Blank(g), 0);
    schedule, s := Postpone(g, schedule, s, 1);
    schedule, s := FillUp(g, schedule, s);
    OverwriteSteps(g, s);
    schedule, s := Extend(g, schedule, s, LoadTail(2));
    schedule, s := Extend(g, schedule, s, CheckSpace);
    schedule, s := Extend(g, schedule, s, Scribble(1));
    schedule, s := Extend(g, schedule, s, ReadLate);
    WrongItem(g, schedule, s);
  }

  lemma OrderedFifo(g: Config, start: State, schedule: seq<Step>)
    requires g.Valid() && g.Ordered()
    ensures FifoRun(g, start, schedule)
  {
    if Init(g, start) && Execute(g, start, schedule).Some? {
      ExecutionKept(g, start, schedule);
    }
  }

  lemma UnorderedFails(g: Config) returns (schedule: seq<Step>)
    requires g.Valid() && !g.Ordered()
    ensures !FifoRun(g, Blank(g), schedule)
  {
    if !g.release {
      schedule := PublishedEarly(g);
    } else if !g.acquire {
      schedule := LoadedEarly(g);
    } else {
      schedule := ReadTooLate(g);
    }
  }

  /** Main result: the consumer receives what was produced in all runs exactly when publishing the
      head waits for the item's store, the slot is loaded after the head, and the load is done
      before the tail is published or at least before the consumer's next invocation; or when the
      buffer can hold no item. The spare slot makes the last two alternatives. */
  lemma {:induction false} FifoIff(g: Config)
    requires g.Valid()
    ensures (forall start: State, schedule: seq<Step> :: FifoRun(g, start, schedule))
       <==> (g.release && g.acquire && (g.finish || g.fence)) || g.k == 0
  {
    if g.Ordered() {
      forall start: State, schedule: seq<Step>
        ensures FifoRun(g, start, schedule)
      {
        OrderedFifo(g, start, schedule);
      }
    } else {
      var schedule := UnorderedFails(g);
    }
  }
}
