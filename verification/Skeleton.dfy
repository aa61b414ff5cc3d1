/** The V4L2 PCI skeleton driver: format state and DMA buffer queue. */
module Skeleton {
  import opened Common

  // ----- Data -----

  datatype Field = FieldNone | Interlaced | Alternate | Top | Bottom

  datatype Colorspace = Smpte170M | Rec709

  const YUYV: nat := 0x56595559
  const STD_525_60: bv64 := 0xf900
  const STD_625_50: bv64 := 0xff06ff

  datatype Pix = Pix(pixelformat: nat, width: nat, height: nat, field: Field, colorspace: Colorspace,
                     bytesperline: nat, sizeimage: nat, priv: nat)

  /** The fields of struct v4l2_dv_timings that the driver looks at, and the rest. */
  datatype Timings = Timings(width: nat, height: nat, interlaced: bool, rest: nat)

  datatype Errno = Ok | EINVAL | EBUSY | ENODATA

  /** Buffers are numbered in the order the framework allocates them. */
  type Buf = nat

  datatype BufState = Done | Error | Requeued

  /** A call of vb2_buffer_done with what the driver has written into the buffer. */
  datatype Returned = Returned(buf: Buf, state: BufState, sequence: nat, field: Field)

  /** struct skeleton, together with what the vb2 framework knows about its queue. */
  datatype Dev = Dev(
    input: nat,
    std: bv64,
    timings: Timings,
    format: Pix,
    field: Field,
    sequence: nat,
    list: seq<Buf>,           // buf_list
    planes: seq<nat>,         // plane size of each allocated buffer
    streaming: bool)

  /** The range of skel_timings_cap. */
  predicate InCap(t: Timings) {
    720 <= t.width <= 1920 && 480 <= t.height <= 1080
  }

  predicate Is525(std: bv64) {
    std & STD_525_60 != 0
  }

  predicate Busy(d: Dev) {
    d.planes != []
  }

  // ----- Format ioctls -----

  /** skeleton_fill_pix_format. */
  function FillPix(input: nat, std: bv64, t: Timings): Pix {
    var width := if input == 0 then 720 else t.width;
    var height := if input == 0 then (if Is525(std) then 480 else 576)
                  else if t.interlaced then t.height / 2 else t.height;
    var field := if input == 0 then Interlaced else if t.interlaced then Alternate else FieldNone;
    Pix(YUYV, width, height, field, if input == 0 then Smpte170M else Rec709, width * 2, width * 2 * height, 0)
  }

  function Derived(d: Dev): Pix {
    FillPix(d.input, d.std, d.timings)
  }

  /** skeleton_try_fmt_vid_cap: what the request is corrected to. */
  function TryFmt(d: Dev, f: Pix): Option<Pix> {
    if f.pixelformat != YUYV then None else Some(Derived(d))
  }

  function SFmt(d: Dev, f: Pix): (Dev, Errno) {
    var g := TryFmt(d, f);
    if g.None? then (d, EINVAL)
    else if Busy(d) then (d, EBUSY)
    else (d.(format := g.value), Ok)
  }

  function SStd(d: Dev, std: bv64): (Dev, Errno) {
    if d.input != 0 then (d, ENODATA)
    else if std == d.std then (d, Ok)
    else if Busy(d) then (d, EBUSY)
    else (d.(std := std, format := FillPix(d.input, std, d.timings)), Ok)
  }

  /** `listed`: the framework finds the timings among those of CEA-861; `same`: it takes them to be
      the current ones. */
  function SDvTimings(d: Dev, t: Timings, listed: bool, same: bool): (Dev, Errno) {
    if d.input == 0 then (d, ENODATA)
    else if !InCap(t) || !listed then (d, EINVAL)
    else if same then (d, Ok)
    else if Busy(d) then (d, EBUSY)
    else (d.(timings := t, format := FillPix(d.input, d.std, t)), Ok)
  }

  function SInput(d: Dev, i: nat): (Dev, Errno) {
    if i > 1 then (d, EINVAL)
    else if Busy(d) then (d, EBUSY)
    else (d.(input := i, format := FillPix(i, d.std, d.timings)), Ok)
  }

  // ----- Queue operations -----

  /** queue_setup: the error, the number of buffers to allocate and their plane size. */
  datatype Setup = Setup(dev: Dev, err: Errno, count: nat, size: nat)

  function QueueSetup(d: Dev, wanted: Option<nat>, n: nat, fileio: bool): Setup {
    var alternate := d.format.field == Alternate;
    var d' := d.(field := if alternate && !fileio then Top else d.format.field);
    var count := if |d.planes| + n < 3 then 3 - |d.planes| else n;
    if alternate && fileio then Setup(d', EINVAL, n, 0)
    else if wanted.Some? && wanted.value < d.format.sizeimage then Setup(d', EINVAL, count, 0)
    else Setup(d', Ok, count, if wanted.Some? then wanted.value else d.format.sizeimage)
  }

  function BufferPrepare(d: Dev, b: Buf): Errno
    requires b < |d.planes|
  {
    if d.planes[b] < d.format.sizeimage then EINVAL else Ok
  }

  function Flip(f: Field): Field {
    if f == Bottom then Top else if f == Top then Bottom else f
  }

  /** The frame-done step of the interrupt handler, for a buffer on the list. */
  function FrameDone(d: Dev, b: Buf): Dev {
    d.(list := Remove(d.list, b), sequence := d.sequence + 1,
       field := if d.format.field == Alternate then Flip(d.field) else d.field)
  }

  /** All listed buffers handed back in order. */
  function ReturnAll(list: seq<Buf>, state: BufState): (r: seq<Returned>)
    ensures |r| == |list| && forall i :: 0 <= i < |r| ==> r[i].buf == list[i] && r[i].state == state
  {
    seq(|list|, i requires 0 <= i < |list| => Returned(list[i], state, 0, FieldNone))
  }

  // ----- Runs -----

  /** The device with a record of what happened to its buffers. */
  datatype World = World(
    dev: Dev,
    handed: seq<Buf>,            // every call of buffer_queue
    returned: seq<Returned>,     // every call of vb2_buffer_done
    frames: seq<Returned>,       // completed frames since start_streaming
    captured: seq<Returned>,     // completed frames since queue_setup
    setupField: Field)           // the field order of the format at that time

  datatype Event =
    | SetFormat(f: Pix)
    | SetStd(std: bv64)
    | SetTimings(t: Timings, listed: bool, same: bool)
    | SetInput(i: nat)
    | Allocate(wanted: Option<nat>, n: nat, fileio: bool, granted: nat)
    | Release
    | Queue(b: Buf)
    | Start(ok: bool)
    | Stop
    | Frame(b: Buf)

  /** What the vb2 framework guarantees: read() starts only without buffers, at most the agreed
      number of buffers is allocated, buffers are freed only when the driver has none, a buffer is
      queued only when it is prepared and not already with the driver, and frames complete only
      on listed buffers. */
  predicate Enabled(w: World, e: Event) {
    match e
    case Allocate(wanted, n, fileio, granted) =>
      (fileio ==> !Busy(w.dev)) && granted <= QueueSetup(w.dev, wanted, n, fileio).count
    case Release => !w.dev.streaming && w.dev.list == []
    case Queue(b) => b < |w.dev.planes| && b !in w.dev.list && BufferPrepare(w.dev, b) == Ok
    case Start(_) => !w.dev.streaming
    case Stop => w.dev.streaming
    case Frame(b) => w.dev.streaming && b in w.dev.list
    case _ => true
  }

  function Repeat(size: nat, n: nat): (s: seq<nat>)
    ensures |s| == n && forall i :: 0 <= i < n ==> s[i] == size
  {
    seq(n, _ => size)
  }

  function AllocateStep(w: World, wanted: Option<nat>, n: nat, fileio: bool, granted: nat): World {
    var r := QueueSetup(w.dev, wanted, n, fileio);
    var dev := if r.err == Ok then r.dev.(planes := r.dev.planes + Repeat(r.size, granted)) else r.dev;
    w.(dev := dev, captured := [], setupField := w.dev.format.field)
  }

  function StartDev(d: Dev, ok: bool): Dev {
    if ok then d.(sequence := 0, streaming := true) else d.(sequence := 0, list := [])
  }

  function StopDev(d: Dev): Dev {
    d.(list := [], streaming := false)
  }

  function StartStep(w: World, ok: bool): World {
    w.(dev := StartDev(w.dev, ok), frames := [],
       returned := w.returned + (if ok then [] else ReturnAll(w.dev.list, Requeued)))
  }

  function StopStep(w: World): World {
    w.(dev := StopDev(w.dev), returned := w.returned + ReturnAll(w.dev.list, Error))
  }

  function FrameStep(w: World, b: Buf): World {
    var r := Returned(b, Done, w.dev.sequence, w.dev.field);
    w.(dev := FrameDone(w.dev, b), returned := w.returned + [r], frames := w.frames + [r], captured := w.captured + [r])
  }

  function Apply(w: World, e: Event): World {
    match e
    case SetFormat(f) => w.(dev := SFmt(w.dev, f).0)
    case SetStd(std) => w.(dev := SStd(w.dev, std).0)
    case SetTimings(t, listed, same) => w.(dev := SDvTimings(w.dev, t, listed, same).0)
    case SetInput(i) => w.(dev := SInput(w.dev, i).0)
    case Allocate(wanted, n, fileio, granted) => AllocateStep(w, wanted, n, fileio, granted)
    case Release => w.(dev := w.dev.(planes := []))
    case Queue(b) => w.(dev := w.dev.(list := w.dev.list + [b]), handed := w.handed + [b])
    case Start(ok) => StartStep(w, ok)
    case Stop => StopStep(w)
    case Frame(b) => FrameStep(w, b)
  }

  /** skeleton_probe: 625-line S-Video, 720p60 as HDMI timings, no buffers. */
  function Probe(rest: nat): World {
    var t := Timings(1280, 720, false, rest);
    World(Dev(0, STD_625_50, t, FillPix(0, STD_625_50, t), FieldNone, 0, [], [], false), [], [], [], [], FieldNone)
  }

  function Execute(rest: nat, events: seq<Event>): Option<World> {
    if events == [] then Some(Probe(rest))
    else
      var before := Execute(rest, events[..|events| - 1]);
      var e := events[|events| - 1];
      if before.Some? && Enabled(before.value, e) then Some(Apply(before.value, e)) else None
  }

  // ----- The invariant -----

  /** The stored format is the derived one, it fits a 32-bit size, and every buffer holds it. */
  ghost predicate Coherent(d: Dev) {
    && d.format == Derived(d) && d.input <= 1 && InCap(d.timings)
    && forall b :: 0 <= b < |d.planes| ==> d.planes[b] >= d.format.sizeimage
  }

  ghost predicate Listed(d: Dev) {
    (forall i :: 0 <= i < |d.list| ==> d.list[i] < |d.planes|) && Distinct(d.list)
  }

  function Bufs(r: seq<Returned>): (s: seq<Buf>)
    ensures |s| == |r| && forall i :: 0 <= i < |r| ==> s[i] == r[i].buf
  {
    seq(|r|, i requires 0 <= i < |r| => r[i].buf)
  }

  ghost predicate Conserved(w: World) {
    multiset(w.handed) == multiset(w.dev.list) + multiset(Bufs(w.returned))
  }

  /** The field of the i-th frame after queue_setup. */
  function Expected(f: Field, i: nat): Field {
    if f != Alternate then f else if i % 2 == 0 then Top else Bottom
  }

  ghost predicate Numbered(w: World) {
    && w.dev.sequence == |w.frames|
    && (forall i :: 0 <= i < |w.frames| ==> w.frames[i].sequence == i)
  }

  ghost predicate Alternating(w: World) {
    && (forall i :: 0 <= i < |w.captured| ==> w.captured[i].field == Expected(w.setupField, i))
    && (Busy(w.dev) ==> w.setupField == w.dev.format.field && w.dev.field == Expected(w.setupField, |w.captured|))
  }

  ghost predicate Inv(w: World) {
    Coherent(w.dev) && Listed(w.dev) && Conserved(w) && Numbered(w) && Alternating(w)
  }

  lemma CoherentKept(w: World, e: Event)
    requires Coherent(w.dev) && Enabled(w, e)
    ensures Coherent(Apply(w, e).dev)
  {
  }

  lemma RemoveListed(list: seq<Buf>, b: Buf, n: nat)
    requires Distinct(list) && forall i :: 0 <= i < |list| ==> list[i] < n
    ensures Distinct(Remove(list, b)) && b !in Remove(list, b)
    ensures forall i :: 0 <= i < |Remove(list, b)| ==> Remove(list, b)[i] < n
  {
    RemoveDistinct(list, b);
    RemoveMembers(list, b, b);
    forall i | 0 <= i < |Remove(list, b)|
      ensures Remove(list, b)[i] < n
    {
      RemoveMembers(list, b, Remove(list, b)[i]);
    }
  }

  lemma ListedKept(w: World, e: Event)
    requires Listed(w.dev) && Enabled(w, e)
    ensures Listed(Apply(w, e).dev)
  {
    if e.Frame? {
      RemoveListed(w.dev.list, e.b, |w.dev.planes|);
    }
  }

  lemma BufsAppend(a: seq<Returned>, b: seq<Returned>)
    ensures Bufs(a + b) == Bufs(a) + Bufs(b)
  {
  }

  lemma ConservedKept(w: World, e: Event)
    requires Conserved(w) && Enabled(w, e)
    ensures Conserved(Apply(w, e))
  {
    var list := w.dev.list;
    match e
    case Start(ok) =>
      BufsAppend(w.returned, ReturnAll(list, Requeued));
      BufsAppend(w.returned, []);
      assert Bufs(ReturnAll(list, Requeued)) == list;
    case Stop =>
      BufsAppend(w.returned, ReturnAll(list, Error));
      assert Bufs(ReturnAll(list, Error)) == list;
    case Frame(b) =>
      var r := Returned(b, Done, w.dev.sequence, w.dev.field);
      BufsAppend(w.returned, [r]);
      assert Bufs([r]) == [b];
      RemoveOne(list, b);
    case _ =>
  }

  lemma NumberedKept(w: World, e: Event)
    requires Numbered(w) && Enabled(w, e)
    ensures Numbered(Apply(w, e))
  {
  }

  lemma AlternatingKept(w: World, e: Event)
    requires Alternating(w) && Listed(w.dev) && Enabled(w, e)
    ensures Alternating(Apply(w, e))
  {
  }

  lemma {:induction false} ExecutionKept(rest: nat, events: seq<Event>)
    requires Execute(rest, events).Some?
    ensures Inv(Execute(rest, events).value)
  {
    if events != [] {
      var init, e := events[..|events| - 1], events[|events| - 1];
      ExecutionKept(rest, init);
      var w := Execute(rest, init).value;
      CoherentKept(w, e);
      ListedKept(w, e);
      ConservedKept(w, e);
      NumberedKept(w, e);
      AlternatingKept(w, e);
    }
  }

  // ----- What the driver promises -----

  /** What the format must be: for S-Video 720 columns, 480 lines for a 525-line standard and 576 for
      any other, interlaced; for HDMI the size of the timings, halved in lines and alternating fields
      if they are interlaced; two bytes to a pixel. */
  ghost predicate Describes(f: Pix, input: nat, std: bv64, t: Timings) {
    && (input == 0 ==> f.width == 720 && f.field == Interlaced && f.colorspace == Smpte170M)
    && (input == 0 ==> f.height == if std & 0xf900 != 0 then 480 else 576)
    && (input != 0 ==> f.width == t.width && f.colorspace == Rec709)
    && (input != 0 && !t.interlaced ==> f.height == t.height && f.field == FieldNone)
    && (input != 0 && t.interlaced ==> 2 * f.height <= t.height <= 2 * f.height + 1 && f.field == Alternate)
    && f.pixelformat == 0x59 + 0x100 * 0x55 + 0x10000 * 0x59 + 0x1000000 * 0x56    // YUYV
    && f.bytesperline == f.width * 2 && f.sizeimage == f.bytesperline * f.height && f.priv == 0
  }

  lemma FillPixDescribed(input: nat, std: bv64, t: Timings)
    ensures Describes(FillPix(input, std, t), input, std, t)
  {
    LineCount(std);
    HalfHeight(t.height);
  }

  lemma LineCount(std: bv64)
    ensures Is525(std) <==> std & 0xf900 != 0
  {
  }

  lemma HalfHeight(height: nat)
    ensures 2 * (height / 2) <= height <= 2 * (height / 2) + 1
  {
  }

  /** Main result: in every run the stored format is the one described by input, standard and
      timings, which are in range, and its size fits 32 bits. */
  lemma {:induction false} FormatDerived(rest: nat, events: seq<Event>)
    requires Execute(rest, events).Some?
    ensures var d := Execute(rest, events).value.dev;
            && d.format == FillPix(d.input, d.std, d.timings) && Describes(d.format, d.input, d.std, d.timings)
            && d.input <= 1 && 720 <= d.timings.width <= 1920 && 480 <= d.timings.height <= 1080
            && d.format.sizeimage < 0x1_0000_0000
  {
    ExecutionKept(rest, events);
    var d := Execute(rest, events).value.dev;
    FillPixDescribed(d.input, d.std, d.timings);
    SizeBound(if d.input == 0 then 720 else d.timings.width, d.format.height);
  }

  lemma SizeBound(width: nat, height: nat)
    requires width <= 1920 && height <= 1080
    ensures width * 2 * height <= 1920 * 2 * 1080
  {
    assert width * 2 * height <= 1920 * 2 * height;
  }

  /** Input, standard, timings and format are the same. */
  predicate SameFormat(d: Dev, d': Dev) {
    d'.input == d.input && d'.std == d.std && d'.timings == d.timings && d'.format == d.format
  }

  lemma FrozenStep(w: World, e: Event)
    requires Busy(w.dev) && Enabled(w, e)
    ensures SameFormat(w.dev, Apply(w, e).dev)
  {
  }

  /** Buffers are allocated before each event from the i-th on. */
  ghost predicate BusyFrom(rest: nat, events: seq<Event>, i: nat) {
    forall j :: i <= j < |events| ==>
      Execute(rest, events[..j]).Some? && Busy(Execute(rest, events[..j]).value.dev)
  }

  /** Main result: as long as buffers are allocated, whatever is called, the format and what it is
      derived from stay as they were. */
  lemma {:induction false} FrozenWhileBusy(rest: nat, events: seq<Event>, i: nat)
    requires Execute(rest, events).Some? && i <= |events| && BusyFrom(rest, events, i)
    ensures Execute(rest, events[..i]).Some?
    ensures SameFormat(Execute(rest, events[..i]).value.dev, Execute(rest, events).value.dev)
    decreases |events|
  {
    if i == |events| {
      assert events[..i] == events;
    } else {
      var init := events[..|events| - 1];
      assert forall j :: 0 <= j <= |init| ==> init[..j] == events[..j];
      FrozenWhileBusy(rest, init, i);
      FrozenStep(Execute(rest, init).value, events[|events| - 1]);
    }
  }

  /** Main result: buffer_prepare accepts every buffer that any queue_setup of the run has sized. */
  lemma {:induction false} PrepareNeverRejects(rest: nat, events: seq<Event>, b: Buf)
    requires Execute(rest, events).Some? && b < |Execute(rest, events).value.dev.planes|
    ensures BufferPrepare(Execute(rest, events).value.dev, b) == Ok
  {
    ExecutionKept(rest, events);
  }

  /** Main result: each time a buffer was given to the driver it has come back exactly once, or it
      is on the list; once streaming stops, all have come back. */
  lemma {:induction false} BuffersConserved(rest: nat, events: seq<Event>, b: Buf)
    requires Execute(rest, events).Some?
    ensures var w := Execute(rest, events).value;
            && multiset(w.handed)[b] == multiset(Bufs(w.returned))[b] + One(b in w.dev.list)
            && (Enabled(w, Stop) ==>
                  Apply(w, Stop).dev.list == [] && multiset(Apply(w, Stop).handed) == multiset(Bufs(Apply(w, Stop).returned)))
  {
    ExecutionKept(rest, events);
    var w := Execute(rest, events).value;
    CountDistinct(w.dev.list, b);
    if Enabled(w, Stop) {
      ConservedKept(w, Stop);
    }
  }

  lemma {:induction false} CountDistinct(list: seq<Buf>, b: Buf)
    requires Distinct(list)
    ensures multiset(list)[b] == One(b in list)
  {
    if list != [] {
      assert list == [list[0]] + list[1..];
      CountDistinct(list[1..], b);
    }
  }

  lemma FieldExpected(w: World, i: nat)
    requires Alternating(w) && i < |w.captured|
    ensures w.captured[i].field
         == if w.setupField != Alternate then w.setupField else if i % 2 == 0 then Top else Bottom
  {
    assert w.captured[i].field == Expected(w.setupField, i);
  }

  /** Main result: completed frames are numbered from 0 since streaming started, and those since
      queue_setup carry the field of the format, or in alternate mode top and bottom in turn. */
  lemma {:induction false} FramesInOrder(rest: nat, events: seq<Event>, i: nat)
    requires Execute(rest, events).Some?
    ensures var w := Execute(rest, events).value;
            && (i < |w.frames| ==> w.frames[i].sequence == i)
            && (i < |w.captured| && w.setupField != Alternate ==> w.captured[i].field == w.setupField)
            && (i < |w.captured| && w.setupField == Alternate ==>
                  w.captured[i].field == if i % 2 == 0 then Top else Bottom)
  {
    ExecutionKept(rest, events);
    var w := Execute(rest, events).value;
    if i < |w.captured| {
      FieldExpected(w, i);
    }
  }

  // ----- The driver itself -----

  lemma AllReturned(list: seq<Buf>, returned: seq<Returned>, state: BufState)
    ensures multiset(Bufs(returned + ReturnAll(list, state))) == multiset(list) + multiset(Bufs(returned))
  {
    BufsAppend(returned, ReturnAll(list, state));
    assert Bufs(ReturnAll(list, state)) == list;
  }

  lemma FrameHeld(list: seq<Buf>, returned: seq<Returned>, r: Returned, n: nat)
    requires r.buf in list && Distinct(list) && forall i :: 0 <= i < |list| ==> list[i] < n
    ensures var rest := Remove(list, r.buf);
            && r.buf !in rest && Distinct(rest) && (forall i :: 0 <= i < |rest| ==> rest[i] < n)
            && multiset(rest) + multiset(Bufs(returned + [r])) == multiset(list) + multiset(Bufs(returned))
  {
    RemoveListed(list, r.buf, n);
    RemoveOne(list, r.buf);
    BufsAppend(returned, [r]);
    assert Bufs([r]) == [r.buf];
  }

  /** struct skeleton with its handlers; vb2_buffer_done appends to `returned`. */
  class Driver {
    var input: nat
    var std: bv64
    var timings: Timings
    var format: Pix
    var field: Field
    var sequence: nat
    var bufList: seq<Buf>
    var planes: seq<nat>
    var streaming: bool
    var returned: seq<Returned>

    ghost function State(): Dev
      reads this
    {
      Dev(input, std, timings, format, field, sequence, bufList, planes, streaming)
    }

    /** The stored format is the derived one, every buffer can hold it, and the list has only
        allocated buffers, each once. */
    ghost predicate Valid()
      reads this
    {
      Coherent(State()) && Listed(State())
    }

    /** Every buffer that was queued: those on the list and those returned. */
    ghost function Held(): multiset<Buf>
      reads this
    {
      multiset(bufList) + multiset(Bufs(returned))
    }

    constructor (rest: nat)
      ensures Valid() && State() == Probe(rest).dev && returned == []
      ensures input == 0 && format.width == 720 && format.height == 576
      ensures timings == Timings(1280, 720, false, rest) && planes == [] && bufList == [] && !streaming
    {
      timings := Timings(1280, 720, false, rest);
      std := STD_625_50;
      input, field, sequence, bufList, planes, streaming, returned := 0, FieldNone, 0, [], [], false, [];
      format := FillPix(0, STD_625_50, Timings(1280, 720, false, rest));
    }

    method FillPixFormat() returns (pix: Pix)
      ensures pix == Derived(State()) && Describes(pix, input, std, timings)
    {
      var width, height, fld, colorspace := 720, 576, Interlaced, Smpte170M;
      if input == 0 {
        if Is525(std) {
          height := 480;
        }
      } else {
        width, height := timings.width, timings.height;
        if timings.interlaced {
          fld, height := Alternate, height / 2;
        } else {
          fld := FieldNone;
        }
        colorspace := Rec709;
      }
      var bytesperline := width * 2;
      pix := Pix(YUYV, width, height, fld, colorspace, bytesperline, bytesperline * height, 0);
    }

    /** Setting the format never changes anything: there is only one. */
    method SetFmt(f: Pix) returns (err: Errno)
      requires Valid()
      modifies this
      ensures Valid() && State() == old(State()) && returned == old(returned)
      ensures (State(), err) == SFmt(old(State()), f)
      ensures err == Ok <==> f.pixelformat == YUYV && planes == []
      ensures err != Ok ==> err == if f.pixelformat != YUYV then EINVAL else EBUSY
    {
      if f.pixelformat != YUYV {
        return EINVAL;
      }
      var pix := FillPixFormat();
      if planes != [] {
        return EBUSY;
      }
      format := pix;
      return Ok;
    }

    /** Success means that the standard is s and the format its own, changed or not; anything else
        changes nothing. */
    method SetStd(s: bv64) returns (err: Errno)
      requires Valid()
      modifies this
      ensures Valid() && returned == old(returned) && (State(), err) == SStd(old(State()), s)
      ensures err == Ok <==> old(input) == 0 && (s == old(std) || planes == [])
      ensures err == Ok ==> State() == old(State()).(std := s, format := FillPix(input, s, timings))
      ensures old(input) != 0 ==> err == ENODATA
      ensures old(input) == 0 && err != Ok ==> err == EBUSY
      ensures err != Ok ==> State() == old(State())
      ensures planes != [] ==> State() == old(State())
    {
      if input != 0 {
        return ENODATA;
      }
      if s == std {
        return Ok;
      }
      if planes != [] {
        return EBUSY;
      }
      std := s;
      format := FillPixFormat();
      return Ok;
    }

    method SetDvTimings(t: Timings, listed: bool, same: bool) returns (err: Errno)
      requires Valid()
      modifies this
      ensures Valid() && returned == old(returned) && (State(), err) == SDvTimings(old(State()), t, listed, same)
      ensures err == Ok <==>
                input == 1 && 720 <= t.width <= 1920 && 480 <= t.height <= 1080 && listed && (same || planes == [])
      ensures err == Ok && !same ==> State() == old(State()).(timings := t, format := FillPix(1, std, t))
      ensures old(input) == 0 ==> err == ENODATA
      ensures old(input) != 0 && err != Ok ==> err == if InCap(t) && listed then EBUSY else EINVAL
      ensures err != Ok || same ==> State() == old(State())
      ensures planes != [] ==> State() == old(State())
    {
      if input == 0 {
        return ENODATA;
      }
      if !InCap(t) {
        return EINVAL;
      }
      if !listed {
        return EINVAL;
      }
      if same {
        return Ok;
      }
      if planes != [] {
        return EBUSY;
      }
      timings := t;
      format := FillPixFormat();
      return Ok;
    }

    method SetInput(i: nat) returns (err: Errno)
      requires Valid()
      modifies this
      ensures Valid() && returned == old(returned) && (State(), err) == SInput(old(State()), i)
      ensures err == Ok <==> i <= 1 && planes == []
      ensures err != Ok ==> err == if i <= 1 then EBUSY else EINVAL
      ensures err == Ok ==> State() == old(State()).(input := i, format := FillPix(i, std, timings))
      ensures err != Ok ==> State() == old(State())
    {
      if i > 1 {
        return EINVAL;
      }
      if planes != [] {
        return EBUSY;
      }
      input := i;
      format := FillPixFormat();
      return Ok;
    }

    /** On success there will be at least three buffers, and each can hold an image. */
    method SetupQueue(wanted: Option<nat>, n: nat, fileio: bool) returns (err: Errno, count: nat, size: nat)
      requires Valid()
      modifies this
      ensures Valid() && Setup(State(), err, count, size) == QueueSetup(old(State()), wanted, n, fileio)
      ensures returned == old(returned) && State() == old(State()).(field := field)
      ensures err == Ok <==> !(format.field == Alternate && fileio) && (wanted.Some? ==> wanted.value >= format.sizeimage)
      ensures err == Ok ==> size == (if wanted.Some? then wanted.value else format.sizeimage) && size >= format.sizeimage
      ensures err == Ok && |planes| + n >= 3 ==> count == n
      ensures err == Ok && |planes| + n < 3 ==> |planes| + count == 3
      ensures err == Ok ==> field == (if format.field == Alternate then Top else format.field)
    {
      err, count, size := Ok, n, 0;
      field := format.field;
      if field == Alternate {
        if fileio {
          return EINVAL, n, 0;
        }
        field := Top;
      }
      if |planes| + n < 3 {
        count := 3 - |planes|;
      }
      if wanted.Some? && wanted.value < format.sizeimage {
        return EINVAL, count, 0;
      }
      size := if wanted.Some? then wanted.value else format.sizeimage;
    }

    /** The framework asks for buffers and allocates up to the agreed number. */
    method AllocateBuffers(wanted: Option<nat>, n: nat, fileio: bool, most: nat) returns (err: Errno, granted: nat)
      requires Valid()
      modifies this
      ensures Valid() && returned == old(returned) && granted <= most
      ensures SameFormat(old(State()), State()) && bufList == old(bufList)
      ensures |planes| == |old(planes)| + granted
    {
      var count, size;
      err, count, size := SetupQueue(wanted, n, fileio);
      granted := if err != Ok then 0 else if most < count then most else count;
      planes := planes + Repeat(size, granted);
    }

    /** The framework frees all buffers. */
    method ReleaseBuffers()
      requires Valid() && !streaming && bufList == []
      modifies this
      ensures Valid() && returned == old(returned) && State() == old(State()).(planes := [])
    {
      planes := [];
    }

    /** Accepts exactly the buffers that can hold an image, and so every buffer that the framework
        has allocated. */
    method PrepareBuffer(b: Buf) returns (err: Errno, payload: Option<nat>)
      requires b < |planes|
      ensures err == BufferPrepare(State(), b)
      ensures Valid() ==> err == Ok
      ensures if err == Ok then payload == Some(format.sizeimage) && payload.value <= planes[b] else payload == None
    {
      if planes[b] < format.sizeimage {
        return EINVAL, None;
      }
      return Ok, Some(format.sizeimage);
    }

    method QueueBuffer(b: Buf)
      requires Valid() && b < |planes| && b !in bufList
      modifies this
      ensures Valid() && State() == old(State()).(list := old(bufList) + [b]) && returned == old(returned)
      ensures Held() == old(Held()) + multiset{b}
    {
      bufList := bufList + [b];
    }

    method ReturnAllBuffers(state: BufState)
      requires Valid()
      modifies `bufList, `returned
      ensures Valid() && State() == old(State()).(list := [])
      ensures returned == old(returned) + ReturnAll(old(bufList), state)
      ensures Held() == old(Held()) == multiset(Bufs(returned))
    {
      ghost var all := bufList;
      ghost var done := 0;
      while bufList != []
        invariant done <= |all| && bufList == all[done..]
        invariant returned == old(returned) + ReturnAll(all, state)[..done]
        decreases |bufList|
      {
        returned := returned + [Returned(bufList[0], state, 0, FieldNone)];
        bufList := bufList[1..];
        done := done + 1;
      }
      assert ReturnAll(all, state)[..done] == ReturnAll(all, state);
      AllReturned(all, old(returned), state);
    }

    method StartStreaming(ok: bool) returns (started: bool)
      requires Valid() && !streaming
      modifies this
      ensures Valid() && started == ok
      ensures State() == StartDev(old(State()), ok)
      ensures returned == old(returned) + (if ok then [] else ReturnAll(old(bufList), Requeued))
      ensures Held() == old(Held())
    {
      sequence := 0;
      if !ok {
        ReturnAllBuffers(Requeued);
      } else {
        streaming := true;
      }
      return ok;
    }

    method StopStreaming()
      requires Valid() && streaming
      modifies this
      ensures Valid() && State() == StopDev(old(State()))
      ensures returned == old(returned) + ReturnAll(old(bufList), Error)
      ensures multiset(Bufs(returned)) == old(Held())
    {
      ReturnAllBuffers(Error);
      streaming := false;
    }

    /** The buffer leaves the list for good, and no buffer is lost or returned twice. */
    method CompleteFrame(b: Buf)
      requires Valid() && streaming && b in bufList
      modifies this
      ensures Valid() && State() == FrameDone(old(State()), b)
      ensures returned == old(returned) + [Returned(b, Done, old(sequence), old(field))]
      ensures b !in bufList && Held() == old(Held()) && SameFormat(old(State()), State())
    {
      FrameHeld(bufList, returned, Returned(b, Done, sequence, field), |planes|);
      bufList := Remove(bufList, b);
      returned := returned + [Returned(b, Done, sequence, field)];
      sequence := sequence + 1;
      if format.field == Alternate {
        if field == Bottom {
          field := Top;
        } else if field == Top {
          field := Bottom;
        }
      }
    }
  }
}
