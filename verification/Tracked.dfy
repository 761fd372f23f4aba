/**
 Tracked requests of qemu/block.c: the protocol by which overlapping requests
 wait for one another, and the read-modify-write cycle of unaligned writes under
 any interleaving.

 Coroutines yield only while waiting for another request and while the driver
 works.  A step of the machine is what happens between two yields; the driver
 moves one byte per step, in any order.
 */
module Tracked {
  import opened Align
  import opened Basics
  import opened BlockIo

  type Id = nat

  /** `waiting_for`: null, a request, or a request that has ended and has put us on the run queue. */
  datatype Wait = Running | Waiting(on: Id) | Woken

  /** What the request does once it has passed its wait. */
  datatype Stage = HeadRead | TailRead | Writing | Reading

  /** `serialising`, `overlap_offset`, `overlap_bytes` */
  datatype Window = Window(serialising: bool, offset: nat, bytes: nat)

  /** The bytes of the first and last block read so far, and the addresses written so far. */
  datatype Io = Io(head: map<nat, byte>, tail: map<nat, byte>, done: set<nat>)

  const NoIo := Io(map[], map[], {})

  /** What was asked for. */
  datatype Span = Span(offset: nat, bytes: nat, align: nat, isWrite: bool)

  datatype Request = Request(span: Span, data: seq<byte>, win: Window, wait: Wait, stage: Stage, io: Io)

  datatype State = State(
    order: seq<Id>, req: map<Id, Request>, inFlight: int, disk: nat -> byte)

  // ---------- The parts of a request ----------

  function End(p: Span): nat {
    p.offset + p.bytes
  }

  predicate NeedHead(p: Span)
    requires p.align > 0
  {
    p.isWrite && p.offset % p.align != 0
  }

  predicate NeedTail(p: Span)
    requires p.align > 0
  {
    p.isWrite && End(p) % p.align != 0
  }

  /** The bytes the driver is asked to write. */
  predicate InWrite(p: Span, a: nat)
    requires p.align > 0
  {
    p.isWrite && Down(p.offset, p.align) <= a < RoundUp(End(p), p.align)
  }

  predicate InHead(p: Span, a: nat)
    requires p.align > 0
  {
    Down(p.offset, p.align) <= a < Down(p.offset, p.align) + p.align
  }

  predicate InTail(p: Span, a: nat)
    requires p.align > 0
  {
    Down(End(p), p.align) <= a < Down(End(p), p.align) + p.align
  }

  predicate Requested(p: Span, a: nat) {
    p.offset <= a < End(p)
  }

  /** The byte of the padded vector that goes to address a. */
  function WriteVal(r: Request, a: nat): byte
    requires |r.data| == r.span.bytes
    requires a < r.span.offset ==> a in r.io.head
    requires a >= End(r.span) ==> a in r.io.tail
  {
    if a < r.span.offset then r.io.head[a] else if a < End(r.span) then r.data[a - r.span.offset] else r.io.tail[a]
  }

  // ---------- The functions of block.c ----------

  /** `tracked_request_overlaps` */
  predicate Overlaps(w: Window, offset: nat, bytes: nat) {
    !(offset >= w.offset + w.bytes) && !(w.offset >= offset + bytes)
  }

  predicate Conflict(w: Window, v: Window) {
    (w.serialising || v.serialising) && Overlaps(w, v.offset, v.bytes)
  }

  /** `tracked_request_begin` */
  function Begin(s: State, id: Id, p: Span, data: seq<byte>, stage: Stage): State {
    s.(order := [id] + s.order,
       req := s.req[id := Request(p, data, Window(false, p.offset, p.bytes), Running, stage, NoIo)])
  }

  /** `mark_request_serialising` */
  function Mark(s: State, id: Id, align: nat): State
    requires id in s.req && align > 0
  {
    var r := s.req[id];
    var off := Down(r.span.offset, align);
    var len := RoundUp(End(r.span), align) - off;
    s.(inFlight := if r.win.serialising then s.inFlight else s.inFlight + 1,
       req := s.req[id := r.(win := Window(true, Min(r.win.offset, off), Max(r.win.bytes, len)))])
  }

  /** The request that `self` would wait for when the list scan reaches it. */
  predicate Blocks(s: State, self: Id, id: Id)
    requires self in s.req
  {
    && id in s.req && id != self
    && Conflict(s.req[id].win, s.req[self].win)
    && s.req[id].wait.Running?
  }

  function FirstBlocker(s: State, order: seq<Id>, self: Id): (b: Option<Id>)
    requires self in s.req
    ensures b.Some? ==> b.value in order && Blocks(s, self, b.value)
    ensures b.None? ==> forall id :: id in order ==> !Blocks(s, self, id)
  {
    if order == [] then None
    else if Blocks(s, self, order[0]) then Some(order[0])
    else FirstBlocker(s, order[1..], self)
  }

  /** The walk of the list, one request on. */
  lemma FirstBlockerStep(s: State, order: seq<Id>, i: nat, self: Id)
    requires self in s.req && i < |order|
    ensures FirstBlocker(s, order[i..], self) ==
            if Blocks(s, self, order[i]) then Some(order[i]) else FirstBlocker(s, order[i + 1..], self)
  {
    hide Blocks;
    assert order[i..][0] == order[i] && order[i..][1..] == order[i + 1..];
  }

  lemma FirstBlockerEnds(s: State, order: seq<Id>, self: Id)
    requires self in s.req
    ensures FirstBlocker(s, order[|order|..], self) == None && order[0..] == order
  {
  }

  lemma FirstBlockerMeans(s: State, self: Id)
    requires self in s.req && ListOk(s)
    ensures var b := FirstBlocker(s, s.order, self);
            (b.Some? ==> Blocks(s, self, b.value)) && (b.None? ==> forall q :: !Blocks(s, self, q))
  {
    assert forall q :: Blocks(s, self, q) ==> q in s.order;
  }

  /** One round of `wait_serialising_requests`, entering `stage` when nothing blocks. */
  function Scan(s: State, id: Id, stage: Stage): State
    requires id in s.req
  {
    var b := if s.inFlight == 0 then None else FirstBlocker(s, s.order, id);
    s.(req := s.req[id := s.req[id].(stage := stage, wait := if b.Some? then Waiting(b.value) else Running)])
  }

  /** `tracked_request_end` */
  function Finish(s: State, id: Id): State
    requires id in s.req
  {
    s.(inFlight := if s.req[id].win.serialising then s.inFlight - 1 else s.inFlight,
       order := Without(s.order, id),
       req := map q | q in s.req && q != id :: if s.req[q].wait == Waiting(id) then s.req[q].(wait := Woken)
           else s.req[q])
  }

  function Without(order: seq<Id>, id: Id): (r: seq<Id>)
    ensures forall x :: x in r <==> x in order && x != id
  {
    if order == [] then []
    else if order[0] == id then Without(order[1..], id)
    else [order[0]] + Without(order[1..], id)
  }

  // ---------- The machine ----------

  datatype Step =
    | StartWrite(id: Id, offset: nat, data: seq<byte>, align: nat)
    | StartRead(id: Id, offset: nat, bytes: nat, align: nat, copyOnRead: bool, cluster: nat)
    | Resume(id: Id)
    | ReadByte(id: Id, a: nat)
    | HeadDone(id: Id)
    | TailDone(id: Id)
    | WriteByte(id: Id, a: nat)
    | WriteDone(id: Id)
    | ReadDone(id: Id)
    | Fail(id: Id)

  predicate Active(s: State, id: Id, stage: Stage) {
    id in s.req && s.req[id].wait.Running? && s.req[id].stage == stage
  }

  ghost predicate HasHead(p: Span, head: map<nat, byte>)
    requires p.align > 0
  {
    forall a: nat :: InHead(p, a) ==> a in head
  }

  ghost predicate HasTail(p: Span, tail: map<nat, byte>)
    requires p.align > 0
  {
    forall a: nat :: InTail(p, a) ==> a in tail
  }

  ghost predicate Enabled(s: State, step: Step) {
    match step
    case StartWrite(id, offset, data, align) => id !in s.req && align > 0
    case StartRead(id, offset, bytes, align, copyOnRead, cluster) =>
      id !in s.req && align > 0 && offset % align == 0 && bytes % align == 0 && (copyOnRead ==> cluster > 0)
    case Resume(id) => id in s.req && s.req[id].wait == Woken
    case ReadByte(id, a) =>
      id in s.req && s.req[id].span.align > 0 &&
      ((Active(s, id, HeadRead) && InHead(s.req[id].span, a)) || (Active(s, id, TailRead) && InTail(s.req[id].span, a)))
    case HeadDone(id) =>
        Active(s, id, HeadRead) && s.req[id].span.align > 0 && HasHead(s.req[id].span, s.req[id].io.head)
    case TailDone(id) =>
        Active(s, id, TailRead) && s.req[id].span.align > 0 && HasTail(s.req[id].span, s.req[id].io.tail)
    case WriteByte(id, a) => Active(s, id, Writing) && CanWrite(s.req[id], a)
    case WriteDone(id) =>
      && Active(s, id, Writing) && s.req[id].span.align > 0
      && forall a: nat :: InWrite(s.req[id].span, a) ==> a in s.req[id].io.done
    case ReadDone(id) => Active(s, id, Reading)
    case Fail(id) => id in s.req && s.req[id].wait.Running?
  }

  predicate CanWrite(r: Request, a: nat) {
    && r.span.align > 0 && InWrite(r.span, a) && |r.data| == r.span.bytes
    && (a < r.span.offset ==> a in r.io.head) && (a >= End(r.span) ==> a in r.io.tail)
  }

  function Set(disk: nat -> byte, a: nat, v: byte): nat -> byte {
    (x: nat) => if x == a then v else disk(x)
  }

  function StartedWrite(s: State, id: Id, offset: nat, data: seq<byte>, align: nat): State
    requires align > 0
  {
    var p := Span(offset, |data|, align, true);
    if NeedHead(p) then Scan(Mark(Begin(s, id, p, data, HeadRead), id, align), id, HeadRead)
    else if NeedTail(p) then Scan(Mark(Begin(s, id, p, data, TailRead), id, align), id, TailRead)
    else Scan(Begin(s, id, p, data, Writing), id, Writing)
  }

  function StartedRead(s: State, id: Id, offset: nat, bytes: nat, align: nat, copyOnRead: bool, cluster: nat): State
    requires copyOnRead ==> cluster > 0
  {
    var s1 := Begin(s, id, Span(offset, bytes, align, false), [], Reading);
    Scan(if copyOnRead then Mark(s1, id, cluster) else s1, id, Reading)
  }

  function Resumed(s: State, id: Id): State
    requires id in s.req
  {
    Scan(s.(req := s.req[id := s.req[id].(wait := Running)]), id, s.req[id].stage)
  }

  function GotByte(r: Request, a: nat, v: byte): Request {
    if r.stage == HeadRead then r.(io := r.io.(head := r.io.head[a := v]))
        else r.(io := r.io.(tail := r.io.tail[a := v]))
  }

  function ReadHead(s: State, id: Id): State
    requires id in s.req && s.req[id].span.align > 0
  {
    if NeedTail(s.req[id].span) then Scan(Mark(s, id, s.req[id].span.align), id, TailRead) else Scan(s, id, Writing)
  }

  function Wrote(r: Request, a: nat): Request {
    r.(io := r.io.(done := r.io.done + {a}))
  }

  ghost function Next(s: State, step: Step): State
    requires Enabled(s, step)
  {
    match step
    case StartWrite(id, offset, data, align) => StartedWrite(s, id, offset, data, align)
    case StartRead(id, offset, bytes, align, copyOnRead, cluster) =>
        StartedRead(s, id, offset, bytes, align, copyOnRead, cluster)
    case Resume(id) => Resumed(s, id)
    case ReadByte(id, a) => s.(req := s.req[id := GotByte(s.req[id], a, s.disk(a))])
    case HeadDone(id) => ReadHead(s, id)
    case TailDone(id) => Scan(s, id, Writing)
    case WriteByte(id, a) => s.(disk := Set(s.disk, a, WriteVal(s.req[id], a)), req := s.req[id := Wrote(s.req[id], a)])
    case WriteDone(id) => Finish(s, id)
    case ReadDone(id) => Finish(s, id)
    case Fail(id) => Finish(s, id)
  }

  // ---------- The invariant ----------

  ghost predicate ListOk(s: State) {
    forall id :: id in s.order <==> id in s.req
  }

  function Serialising(s: State): set<Id> {
    set id | id in s.req && s.req[id].win.serialising
  }

  /** `serialising_in_flight` counts the serialising requests. */
  ghost predicate CountOk(s: State) {
    s.inFlight == |Serialising(s)|
  }

  /** No two requests that do not wait are in conflict. */
  ghost predicate Exclusive(s: State) {
    forall p, q :: p in s.req && q in s.req && p != q && s.req[p].wait.Running? && s.req[q].wait.Running? ==>
      !Conflict(s.req[p].win, s.req[q].win)
  }

  /** Whoever waits, waits for a request that does not wait itself. */
  ghost predicate WaitsOk(s: State) {
    forall p :: p in s.req && s.req[p].wait.Waiting? ==>
      s.req[p].wait.on in s.req && s.req[s.req[p].wait.on].wait.Running?
  }

  /** The window covers what the driver will be asked to write, and padded writes serialise. */
  ghost predicate WindowOk(p: Span, w: Window)
    requires p.align > 0
  {
    && w.offset <= p.offset && End(p) <= w.offset + w.bytes
    && (NeedHead(p) || NeedTail(p) ==>
          w.serialising && w.offset == Down(p.offset, p.align) && w.offset + w.bytes == RoundUp(End(p), p.align))
    && forall a: nat :: InWrite(p, a) ==> w.offset <= a < w.offset + w.bytes
  }

  /** Padding that has been read is still what the disk holds. */
  ghost predicate PaddingOk(p: Span, io: Io, disk: nat -> byte)
    requires p.align > 0
  {
    && (forall a :: a in io.head ==> NeedHead(p) && InWrite(p, a) && (a < p.offset ==> io.head[a] == disk(a)))
    && (forall a :: a in io.tail ==> NeedTail(p) && InWrite(p, a) && (a >= End(p) ==> io.tail[a] == disk(a)))
    && (forall a :: a in io.done ==> InWrite(p, a))
  }

  /** Where the request is in its program. */
  ghost predicate StageOk(p: Span, stage: Stage, io: Io)
    requires p.align > 0
  {
    && (p.isWrite <==> stage != Reading)
    && (stage == HeadRead ==> NeedHead(p)) && (stage == TailRead ==> NeedTail(p))
    && ((stage == TailRead || stage == Writing) && NeedHead(p) ==> HasHead(p, io.head))
    && (stage == Writing && NeedTail(p) ==> HasTail(p, io.tail))
  }

  ghost predicate RequestOk(r: Request, disk: nat -> byte) {
    && r.span.align > 0 && WindowOk(r.span, r.win) && PaddingOk(r.span, r.io, disk) && StageOk(r.span, r.stage, r.io)
    && (r.span.isWrite ==> |r.data| == r.span.bytes)
    && (!r.wait.Running? ==> r.io == NoIo)
  }

  ghost predicate RequestsOk(s: State) {
    forall id :: id in s.req ==> RequestOk(s.req[id], s.disk)
  }

  ghost predicate Inv(s: State) {
    ListOk(s) && CountOk(s) && Exclusive(s) && WaitsOk(s) && RequestsOk(s)
  }

  // ---------- The scan ----------

  /** With no serialising request nothing can block: the early return is sound. */
  lemma NoneInFlight(s: State, id: Id)
    requires ListOk(s) && CountOk(s) && id in s.req && s.inFlight == 0
    ensures forall q :: !Blocks(s, id, q)
  {
    assert Serialising(s) == {};
    assert forall q :: q in s.req ==> q !in Serialising(s);
  }

  /** No two requests that run are in conflict, `id` left aside. */
  ghost predicate ExclusiveBut(s: State, id: Id) {
    forall p, q ::
      p in s.req && q in s.req && p != q && p != id && q != id && s.req[p].wait.Running? && s.req[q].wait.Running? ==>
      !Conflict(s.req[p].win, s.req[q].win)
  }

  /** Whoever waits, waits for a request that runs and is not `id`. */
  ghost predicate NobodyWaitsFor(s: State, id: Id) {
    forall p :: p in s.req && s.req[p].wait.Waiting? ==>
      s.req[p].wait.on in s.req && s.req[p].wait.on != id && s.req[s.req[p].wait.on].wait.Running?
  }

  /** Everybody but `id`, which enters, already satisfies the protocol, and nobody waits for `id`. */
  ghost predicate Entering(s: State, id: Id) {
    ListOk(s) && CountOk(s) && id in s.req && s.req[id].wait.Running? && ExclusiveBut(s, id) && NobodyWaitsFor(s, id)
  }

  lemma ConflictSym(w: Window, v: Window)
    ensures Conflict(w, v) == Conflict(v, w)
  {
  }

  lemma SameSerialising(s: State, s': State)
    requires s.req.Keys == s'.req.Keys && s.inFlight == s'.inFlight && CountOk(s)
    requires forall id :: id in s.req ==> s.req[id].win.serialising == s'.req[id].win.serialising
    ensures CountOk(s')
  {
    assert Serialising(s) == Serialising(s');
  }

  /** The outcome of a scan: either nobody blocks, or `id` waits for a running request that does. */
  lemma ScanOutcome(s: State, id: Id, stage: Stage)
    requires ListOk(s) && CountOk(s) && id in s.req
    ensures var w := Scan(s, id, stage).req[id].wait;
            (w.Running? && forall q :: !Blocks(s, id, q)) || (w.Waiting? && Blocks(s, id, w.on))
  {
    if s.inFlight == 0 {
      NoneInFlight(s, id);
    }
  }

  lemma ScanExclusive(s: State, id: Id, stage: Stage)
    requires ListOk(s) && CountOk(s) && id in s.req && ExclusiveBut(s, id)
    ensures Exclusive(Scan(s, id, stage))
  {
    hide Conflict, FirstBlocker, ListOk, CountOk;
    var s' := Scan(s, id, stage);
    ScanOutcome(s, id, stage);
    forall p, q | p in s'.req && q in s'.req && p != q && s'.req[p].wait.Running? && s'.req[q].wait.Running?
      ensures !Conflict(s'.req[p].win, s'.req[q].win)
    {
      ConflictSym(s.req[p].win, s.req[q].win);
      assert p == id ==> !Blocks(s, id, q);
      assert q == id ==> !Blocks(s, id, p);
    }
  }

  lemma ScanWaits(s: State, id: Id, stage: Stage)
    requires ListOk(s) && CountOk(s) && id in s.req && s.req[id].wait.Running? && NobodyWaitsFor(s, id)
    ensures WaitsOk(Scan(s, id, stage))
  {
    hide Conflict, FirstBlocker, ListOk, CountOk;
    ScanOutcome(s, id, stage);
  }

  lemma ScanCounts(s: State, id: Id, stage: Stage)
    requires ListOk(s) && CountOk(s) && id in s.req
    ensures ListOk(Scan(s, id, stage)) && CountOk(Scan(s, id, stage))
  {
    hide FirstBlocker, CountOk;
    SameSerialising(s, Scan(s, id, stage));
  }

  /** A request that scans keeps the requests that run free of conflicts. */
  lemma ScanEnters(s: State, id: Id, stage: Stage)
    requires Entering(s, id)
    ensures var s' := Scan(s, id, stage); ListOk(s') && CountOk(s') && Exclusive(s') && WaitsOk(s')
  {
    hide Scan, ListOk, CountOk, Exclusive, WaitsOk, ExclusiveBut, NobodyWaitsFor;
    ScanCounts(s, id, stage);
    ScanExclusive(s, id, stage);
    ScanWaits(s, id, stage);
  }

  /** A serialising or other request that runs finds nobody to wait for: it never waits again. */
  lemma NeverWaitsAgain(s: State, id: Id, stage: Stage)
    requires ListOk(s) && CountOk(s) && Exclusive(s) && id in s.req && s.req[id].wait.Running?
    ensures Scan(s, id, stage) == s.(req := s.req[id := s.req[id].(stage := stage)])
  {
    ScanOutcome(s, id, stage);
    var w := Scan(s, id, stage).req[id].wait;
    assert w.Waiting? ==> Blocks(s, id, w.on);
  }

  // ---------- Every step keeps the invariant ----------

  lemma BeginEnters(s: State, id: Id, p: Span, data: seq<byte>, stage: Stage)
    requires Inv(s) && id !in s.req
    ensures Entering(Begin(s, id, p, data, stage), id)
  {
    hide Conflict, RequestOk;
    assert Serialising(Begin(s, id, p, data, stage)) == Serialising(s);
  }

  lemma MarkCounts(s: State, id: Id, align: nat)
    requires ListOk(s) && CountOk(s) && id in s.req && align > 0
    ensures ListOk(Mark(s, id, align)) && CountOk(Mark(s, id, align))
  {
    var s' := Mark(s, id, align);
    if s.req[id].win.serialising {
      assert Serialising(s') == Serialising(s);
    } else {
      assert Serialising(s') == Serialising(s) + {id};
    }
  }

  lemma MarkEnters(s: State, id: Id, align: nat)
    requires Entering(s, id) && align > 0
    ensures Entering(Mark(s, id, align), id)
  {
    hide ListOk, CountOk, Conflict;
    MarkCounts(s, id, align);
  }

  /** The window of a marked request reaches from block to block. */
  lemma MarkedWindow(s: State, id: Id, align: nat)
    requires id in s.req && align > 0
    requires s.req[id].win.offset == s.req[id].span.offset && s.req[id].win.bytes == s.req[id].span.bytes
    ensures var r := Mark(s, id, align).req[id];
            r.win.offset == Down(r.span.offset, align) && r.win.offset + r.win.bytes == RoundUp(End(r.span), align)
  {
  }

  /** All requests but `id` are as before, and `id` is fine: then all are fine. */
  lemma OthersOk(s: State, s': State, id: Id)
    requires RequestsOk(s) && s'.disk == s.disk
    requires forall q :: q in s'.req && q != id ==> q in s.req && s'.req[q] == s.req[q]
    requires id in s'.req ==> RequestOk(s'.req[id], s.disk)
    ensures RequestsOk(s')
  {
  }

  lemma AlignedEnds(x: nat, a: nat)
    requires a > 0 && x % a == 0
    ensures Down(x, a) == x && RoundUp(x, a) == x
  {
    RoundUpIs(x, a);
  }

  function FirstStage(p: Span): Stage
    requires p.align > 0
  {
    if NeedHead(p) then HeadRead else if NeedTail(p) then TailRead else Writing
  }

  /** A write that has just begun is fine, in whatever stage its alignment makes it enter. */
  lemma FreshWriteOk(r: Request, disk: nat -> byte)
    requires r.span.align > 0 && r.span.isWrite && |r.data| == r.span.bytes && r.io == NoIo
    requires r.stage == FirstStage(r.span)
    requires if r.stage == Writing then r.win.offset == r.span.offset && r.win.bytes == r.span.bytes
             else r.win.serialising && r.win.offset == Down(r.span.offset, r.span.align) &&
                  r.win.offset + r.win.bytes == RoundUp(End(r.span), r.span.align)
    ensures RequestOk(r, disk)
  {
    if r.stage == Writing {
      AlignedEnds(r.span.offset, r.span.align);
      AlignedEnds(End(r.span), r.span.align);
    }
  }

  lemma FreshReadOk(r: Request, disk: nat -> byte)
    requires r.span.align > 0 && r.io == NoIo && r.stage == Reading && !r.span.isWrite
    requires r.win.offset <= r.span.offset && End(r.span) <= r.win.offset + r.win.bytes
    ensures RequestOk(r, disk)
  {
  }

  lemma WaitChanges(r: Request, w: Wait, disk: nat -> byte)
    requires RequestOk(r, disk) && r.io == NoIo
    ensures RequestOk(r.(wait := w), disk)
  {
    hide WindowOk, PaddingOk, StageOk;
  }

  lemma StartWriteOk(s: State, id: Id, offset: nat, data: seq<byte>, align: nat)
    requires Inv(s) && id !in s.req && align > 0
    ensures Inv(StartedWrite(s, id, offset, data, align))
  {
    hide Exclusive, WaitsOk, ListOk, CountOk, Entering, Conflict, FirstBlocker, RequestsOk, RequestOk, Down, RoundUp;
    var s' := StartedWrite(s, id, offset, data, align);
    var p := Span(offset, |data|, align, true);
    var stage := FirstStage(p);
    var s1 := Begin(s, id, p, data, stage);
    BeginEnters(s, id, p, data, stage);
    if stage == Writing {
      ScanEnters(s1, id, Writing);
    } else {
      MarkEnters(s1, id, align);
      ScanEnters(Mark(s1, id, align), id, stage);
      MarkedWindow(s1, id, align);
    }
    FreshWriteOk(s'.req[id], s.disk);
    OthersOk(s, s', id);
  }

  lemma StartReadOk(s: State, id: Id, offset: nat, bytes: nat, align: nat, copyOnRead: bool, cluster: nat)
    requires Inv(s) && id !in s.req && align > 0 && (copyOnRead ==> cluster > 0)
    ensures Inv(StartedRead(s, id, offset, bytes, align, copyOnRead, cluster))
  {
    hide Exclusive, WaitsOk, ListOk, CountOk, Entering, Conflict, FirstBlocker, RequestsOk, RequestOk, Down, RoundUp;
    var s' := StartedRead(s, id, offset, bytes, align, copyOnRead, cluster);
    var p := Span(offset, bytes, align, false);
    var s1 := Begin(s, id, p, [], Reading);
    BeginEnters(s, id, p, [], Reading);
    if copyOnRead {
      MarkEnters(s1, id, cluster);
      ScanEnters(Mark(s1, id, cluster), id, Reading);
      MarkedWindow(s1, id, cluster);
    } else {
      ScanEnters(s1, id, Reading);
    }
    FreshReadOk(s'.req[id], s.disk);
    OthersOk(s, s', id);
  }

  lemma WokenEnters(s: State, id: Id)
    requires Inv(s) && id in s.req && s.req[id].wait == Woken
    ensures Entering(s.(req := s.req[id := s.req[id].(wait := Running)]), id)
  {
    hide Conflict, RequestOk, CountOk;
    SameSerialising(s, s.(req := s.req[id := s.req[id].(wait := Running)]));
  }

  lemma WokenIdle(s: State, id: Id)
    requires Inv(s) && id in s.req && s.req[id].wait == Woken
    ensures RequestOk(s.req[id], s.disk) && s.req[id].io == NoIo
  {
    hide Exclusive, ListOk, CountOk, Conflict;
  }

  lemma ResumeOk(s: State, id: Id)
    requires Inv(s) && id in s.req && s.req[id].wait == Woken
    ensures Inv(Resumed(s, id))
  {
    hide Exclusive, WaitsOk, ListOk, CountOk, Entering, Conflict, FirstBlocker, RequestOk;
    var s1 := s.(req := s.req[id := s.req[id].(wait := Running)]);
    WokenEnters(s, id);
    ScanEnters(s1, id, s.req[id].stage);
    var s' := Resumed(s, id);
    WokenIdle(s, id);
    WaitChanges(s.req[id], s'.req[id].wait, s.disk);
    OthersOk(s, s', id);
  }

  /** Blocks of the head and the tail lie in what will be written. */
  lemma BlocksInWrite(p: Span, a: nat)
    requires p.align > 0
    ensures NeedHead(p) && InHead(p, a) ==> InWrite(p, a)
    ensures NeedTail(p) && InTail(p, a) ==> InWrite(p, a)
  {
    if NeedHead(p) {
      HeadFits(p.offset, p.bytes, p.align);
    }
    if NeedTail(p) {
      RoundUpIs(End(p), p.align);
      DownMono(p.offset, End(p), p.align);
    }
  }

  lemma DownMono(x: nat, y: nat, a: nat)
    requires a > 0 && x <= y
    ensures Down(x, a) <= Down(y, a)
  {
    DownAligned(x, a);
    DownAligned(y, a);
    if Down(y, a) < Down(x, a) {
      AlignedClose(Down(y, a), Down(x, a), a);
    }
  }

  /** A step that changes no wait, no window and no list keeps the protocol. */
  lemma ProtocolSame(s: State, s': State)
    requires ListOk(s) && CountOk(s) && Exclusive(s) && WaitsOk(s)
    requires s'.order == s.order && s'.inFlight == s.inFlight && s'.req.Keys == s.req.Keys
    requires forall q :: q in s.req ==> s'.req[q].wait == s.req[q].wait && s'.req[q].win == s.req[q].win
    ensures ListOk(s') && CountOk(s') && Exclusive(s') && WaitsOk(s')
  {
    hide Conflict;
    SameSerialising(s, s');
    forall p, q | p in s'.req && q in s'.req && p != q && s'.req[p].wait.Running? && s'.req[q].wait.Running?
      ensures !Conflict(s'.req[p].win, s'.req[q].win)
    {
      assert !Conflict(s.req[p].win, s.req[q].win);
    }
  }

  /** One request changed without a change of its wait, its window or the disk. */
  lemma PrivateStep(s: State, id: Id, r: Request)
    requires Inv(s) && id in s.req && r.wait == s.req[id].wait && r.win == s.req[id].win && RequestOk(r, s.disk)
    ensures Inv(s.(req := s.req[id := r]))
  {
    hide RequestOk, ListOk, CountOk, Exclusive, WaitsOk;
    ProtocolSame(s, s.(req := s.req[id := r]));
    OthersOk(s, s.(req := s.req[id := r]), id);
  }

  lemma ReadByteOk(s: State, id: Id, a: nat)
    requires Inv(s) && Enabled(s, ReadByte(id, a))
    ensures Inv(Next(s, ReadByte(id, a)))
  {
    assert RequestOk(s.req[id], s.disk);
    GotByteOk(s.req[id], a, s.disk);
    hide Inv, RequestOk;
    PrivateStep(s, id, GotByte(s.req[id], a, s.disk(a)));
  }

  lemma GotByteOk(r: Request, a: nat, disk: nat -> byte)
    requires RequestOk(r, disk) && r.wait.Running?
    requires (r.stage == HeadRead && InHead(r.span, a)) || (r.stage == TailRead && InTail(r.span, a))
    ensures RequestOk(GotByte(r, a, disk(a)), disk)
  {
    BlocksInWrite(r.span, a);
    hide WindowOk, InWrite, NeedHead, NeedTail;
  }

  /** Marking a padded write again changes nothing. */
  lemma MarkAgain(s: State, id: Id)
    requires id in s.req && RequestOk(s.req[id], s.disk) && NeedTail(s.req[id].span)
    ensures Mark(s, id, s.req[id].span.align) == s
  {
    assert s.req[id := s.req[id]] == s.req;
  }

  lemma StageMoves(r: Request, disk: nat -> byte, stage: Stage)
    requires RequestOk(r, disk) && r.wait.Running?
    requires (r.stage == HeadRead && HasHead(r.span, r.io.head)) || (r.stage == TailRead && HasTail(r.span, r.io.tail))
    requires stage == if r.stage == HeadRead && NeedTail(r.span) then TailRead else Writing
    ensures RequestOk(r.(stage := stage), disk)
  {
    hide WindowOk, PaddingOk, HasHead, HasTail, NeedHead, NeedTail;
  }

  /**
   After the first block has been read the request goes on at once: the scan that
   follows, and the one before the write, find nothing.
   */
  lemma HeadDoneOk(s: State, id: Id)
    requires Inv(s) && Enabled(s, HeadDone(id))
    ensures Inv(ReadHead(s, id)) && ReadHead(s, id).req[id].wait.Running?
  {
    assert RequestOk(s.req[id], s.disk);
    var stage := if NeedTail(s.req[id].span) then TailRead else Writing;
    if NeedTail(s.req[id].span) {
      MarkAgain(s, id);
    }
    NeverWaitsAgain(s, id, stage);
    StageMoves(s.req[id], s.disk, stage);
    hide Inv, RequestOk, Scan, Mark;
    PrivateStep(s, id, s.req[id].(stage := stage));
  }

  lemma TailDoneOk(s: State, id: Id)
    requires Inv(s) && Enabled(s, TailDone(id))
    ensures Inv(Scan(s, id, Writing)) && Scan(s, id, Writing).req[id].wait.Running?
  {
    assert RequestOk(s.req[id], s.disk);
    NeverWaitsAgain(s, id, Writing);
    StageMoves(s.req[id], s.disk, Writing);
    hide Inv, RequestOk, Scan;
    PrivateStep(s, id, s.req[id].(stage := Writing));
  }

  lemma FinishCounts(s: State, id: Id)
    requires ListOk(s) && CountOk(s) && id in s.req
    ensures ListOk(Finish(s, id)) && CountOk(Finish(s, id))
  {
    var s' := Finish(s, id);
    forall q ensures q in Serialising(s') <==> q in Serialising(s) && q != id {
    }
    assert Serialising(s') == Serialising(s) - {id};
  }

  lemma FinishProtocol(s: State, id: Id)
    requires Exclusive(s) && WaitsOk(s) && id in s.req
    ensures Exclusive(Finish(s, id)) && WaitsOk(Finish(s, id))
  {
    hide Conflict, Without;
    var s' := Finish(s, id);
    forall p, q | p in s'.req && q in s'.req && p != q && s'.req[p].wait.Running? && s'.req[q].wait.Running?
      ensures !Conflict(s'.req[p].win, s'.req[q].win)
    {
      assert s'.req[p] == s.req[p] && s'.req[q] == s.req[q];
    }
  }

  lemma FinishOk(s: State, id: Id)
    requires Inv(s) && id in s.req && s.req[id].wait.Running?
    ensures Inv(Finish(s, id))
  {
    hide ListOk, CountOk, Exclusive, WaitsOk, RequestOk, Without;
    FinishCounts(s, id);
    FinishProtocol(s, id);
    var s' := Finish(s, id);
    forall q | q in s'.req ensures RequestOk(s'.req[q], s.disk) {
      assert RequestOk(s.req[q], s.disk);
      if s.req[q].wait == Waiting(id) {
        WokenOk(s.req[q], s.disk);
      }
    }
  }

  lemma WokenOk(r: Request, disk: nat -> byte)
    requires RequestOk(r, disk) && r.wait.Waiting?
    ensures RequestOk(r.(wait := Woken), disk)
  {
    WaitChanges(r, Woken, disk);
  }

  // ---------- Read-modify-write under interleaving ----------

  /** Two windows that share an address overlap. */
  lemma SharedAddress(w: Window, v: Window, a: nat)
    ensures w.offset <= a < w.offset + w.bytes && v.offset <= a < v.offset + v.bytes ==> Overlaps(w, v.offset, v.bytes)
  {
  }

  /** Padding that another request has read is not touched: their windows would overlap. */
  lemma OthersPadding(s: State, id: Id, a: nat, q: Id)
    requires Inv(s) && Active(s, id, Writing) && s.req[id].span.align > 0 && InWrite(s.req[id].span, a)
    requires q in s.req && q != id
    ensures a !in s.req[q].io.head && a !in s.req[q].io.tail
  {
    assert RequestOk(s.req[id], s.disk) && RequestOk(s.req[q], s.disk);
    SharedAddress(s.req[id].win, s.req[q].win, a);
    var hit := a in s.req[q].io.head || a in s.req[q].io.tail;
    assert hit ==> s.req[q].wait.Running? && s.req[q].win.serialising && InWrite(s.req[q].span, a);
    assert hit ==> Conflict(s.req[id].win, s.req[q].win);
  }

  /** The padding a request writes back is what the disk holds. */
  lemma OwnPadding(s: State, id: Id, a: nat)
    requires Inv(s) && Enabled(s, WriteByte(id, a)) && !Requested(s.req[id].span, a)
    ensures WriteVal(s.req[id], a) == s.disk(a)
  {
    assert RequestOk(s.req[id], s.disk);
  }

  lemma PaddingKept(r: Request, disk: nat -> byte, a: nat, v: byte)
    requires RequestOk(r, disk) && (disk(a) == v || (a !in r.io.head && a !in r.io.tail))
    ensures RequestOk(r, Set(disk, a, v))
  {
    hide WindowOk, StageOk, InWrite, NeedHead, NeedTail;
  }

  lemma WriteByteRequests(s: State, id: Id, a: nat)
    requires Inv(s) && Enabled(s, WriteByte(id, a))
    ensures RequestsOk(Next(s, WriteByte(id, a)))
  {
    var r, v := s.req[id], WriteVal(s.req[id], a);
    var s' := Next(s, WriteByte(id, a));
    forall q | q in s'.req ensures RequestOk(s'.req[q], s'.disk) {
      assert RequestOk(s.req[q], s.disk);
      hide RequestOk, Inv;
      if q == id {
        if !Requested(r.span, a) {
          OwnPadding(s, id, a);
        }
        WroteOk(r, s.disk, a, v);
      } else {
        OthersPadding(s, id, a, q);
        PaddingKept(s.req[q], s.disk, a, v);
      }
    }
  }

  lemma WriteByteOk(s: State, id: Id, a: nat)
    requires Inv(s) && Enabled(s, WriteByte(id, a))
    ensures Inv(Next(s, WriteByte(id, a)))
  {
    hide ListOk, CountOk, Exclusive, WaitsOk, RequestsOk, WriteVal, Set, InWrite, Requested, RequestOk;
    WriteByteRequests(s, id, a);
    ProtocolSame(s, Next(s, WriteByte(id, a)));
  }

  lemma WroteOk(r: Request, disk: nat -> byte, a: nat, v: byte)
    requires RequestOk(r, disk) && r.wait.Running? && InWrite(r.span, a)
    requires !Requested(r.span, a) ==> disk(a) == v
    ensures RequestOk(Wrote(r, a), Set(disk, a, v))
  {
    hide WindowOk, InWrite, NeedHead, NeedTail, HasHead, HasTail;
  }

  /** Every step of every request keeps the invariant. */
  lemma StepOk(s: State, step: Step)
    requires Inv(s) && Enabled(s, step)
    ensures Inv(Next(s, step))
  {
    hide Inv, Scan, Finish, StartedWrite, StartedRead, Resumed, ReadHead;
    match step
    case StartWrite(id, offset, data, align) => StartWriteOk(s, id, offset, data, align);
    case StartRead(id, offset, bytes, align, copyOnRead, cluster) =>
        StartReadOk(s, id, offset, bytes, align, copyOnRead, cluster);
    case Resume(id) => ResumeOk(s, id);
    case ReadByte(id, a) => ReadByteOk(s, id, a);
    case HeadDone(id) => HeadDoneOk(s, id);
    case TailDone(id) => TailDoneOk(s, id);
    case WriteByte(id, a) => WriteByteOk(s, id, a);
    case WriteDone(id) => FinishOk(s, id);
    case ReadDone(id) => FinishOk(s, id);
    case Fail(id) => FinishOk(s, id);
  }

  // ---------- Whole runs ----------

  ghost predicate Init(s: State) {
    s.order == [] && s.req == map[] && s.inFlight == 0
  }

  /** The state after some steps, each enabled when taken. */
  ghost predicate Reaches(s: State, steps: seq<Step>, s': State)
    decreases steps
  {
    if steps == [] then s == s'
    else Enabled(s, steps[0]) && Reaches(Next(s, steps[0]), steps[1..], s')
  }

  lemma InitOk(s: State)
    requires Init(s)
    ensures Inv(s)
  {
    assert Serialising(s) == {};
  }

  lemma InvIs(s: State)
    requires Inv(s)
    ensures WaitsOk(s) && forall id :: id in s.req ==> RequestOk(s.req[id], s.disk)
  {
  }

  lemma {:induction false} RunsKeepInv(s: State, steps: seq<Step>, s': State)
    requires Inv(s) && Reaches(s, steps, s')
    ensures Inv(s')
    decreases steps
  {
    if steps != [] {
      StepOk(s, steps[0]);
      RunsKeepInv(Next(s, steps[0]), steps[1..], s');
    }
  }

  /**
   Safety of every run: running requests never conflict, the counter is exact,
   waiting requests wait for running ones, and a running request that scans
   again passes.
   */
  lemma RunsAreSafe(s0: State, steps: seq<Step>, s: State)
    requires Init(s0) && Reaches(s0, steps, s)
    ensures Exclusive(s) && WaitsOk(s) && s.inFlight == |Serialising(s)|
    ensures forall id, stage :: id in s.req && s.req[id].wait.Running? ==> Scan(s, id, stage).req[id].wait.Running?
  {
    InitOk(s0);
    RunsKeepInv(s0, steps, s);
    forall id, stage | id in s.req && s.req[id].wait.Running? ensures Scan(s, id, stage).req[id].wait.Running? {
      NeverWaitsAgain(s, id, stage);
    }
  }

  /** Padding is there when it is needed. */
  lemma PaddingThere(r: Request, disk: nat -> byte, a: nat)
    requires RequestOk(r, disk) && r.stage == Writing && InWrite(r.span, a)
    ensures CanWrite(r, a)
  {
    var p := r.span;
    if p.offset % p.align == 0 {
      AlignedEnds(p.offset, p.align);
    }
    RoundUpIs(End(p), p.align);
    assert a < p.offset ==> NeedHead(p) && InHead(p, a);
    assert a >= End(p) ==> NeedTail(p) && InTail(p, a);
  }

  /** A running request always has a next step of its own, other than failing. */
  lemma RunningProceeds(s: State, id: Id)
    requires id in s.req && RequestOk(s.req[id], s.disk) && s.req[id].wait.Running?
    ensures exists step :: Enabled(s, step) && step.id == id && !step.Fail?
  {
    var r := s.req[id];
    var p := r.span;
    if r.stage == HeadRead && !HasHead(p, r.io.head) {
      var a: nat :| InHead(p, a) && a !in r.io.head;
      assert Enabled(s, ReadByte(id, a));
    } else if r.stage == HeadRead {
      assert Enabled(s, HeadDone(id));
    } else if r.stage == TailRead && !HasTail(p, r.io.tail) {
      var a: nat :| InTail(p, a) && a !in r.io.tail;
      assert Enabled(s, ReadByte(id, a));
    } else if r.stage == TailRead {
      assert Enabled(s, TailDone(id));
    } else if r.stage == Reading {
      assert Enabled(s, ReadDone(id));
    } else if a: nat :| InWrite(p, a) && a !in r.io.done {
      PaddingThere(r, s.disk, a);
      assert Enabled(s, WriteByte(id, a));
    } else {
      assert Enabled(s, WriteDone(id));
    }
  }

  /** Who waits, waits for a running request or has been woken: chains of waits have length one. */
  lemma SomebodyRuns(s: State)
    requires WaitsOk(s) && s.req != map[]
    ensures exists id :: id in s.req && !s.req[id].wait.Waiting?
  {
    var id :| id in s.req;
    if s.req[id].wait.Waiting? {
      assert s.req[id].wait.on in s.req;
    }
  }

  /** No deadlock: in every run, while there are requests one of them has a step to take. */
  lemma NoDeadlock(s0: State, steps: seq<Step>, s: State)
    requires Init(s0) && Reaches(s0, steps, s) && s.req != map[]
    ensures exists step :: Enabled(s, step) && step.id in s.req && !step.Fail?
  {
    hide RequestOk, Inv, Reaches, WaitsOk, RequestsOk;
    InitOk(s0);
    RunsKeepInv(s0, steps, s);
    InvIs(s);
    SomebodyRuns(s);
    var id :| id in s.req && !s.req[id].wait.Waiting?;
    if s.req[id].wait.Running? {
      RunningProceeds(s, id);
    } else {
      assert Enabled(s, Resume(id));
    }
  }

  /** The plain overwrite machine: only requested bytes are ever written. */
  ghost function PlainNext(disk: nat -> byte, s: State, step: Step): nat -> byte
    requires Enabled(s, step)
  {
    if step.WriteByte? && Requested(s.req[step.id].span, step.a)
    then Set(disk, step.a, s.req[step.id].data[step.a - s.req[step.id].span.offset])
    else disk
  }

  ghost predicate SameBytes(d: nat -> byte, e: nat -> byte) {
    forall a: nat :: d(a) == e(a)
  }

  /** The disk after a run of the plain overwrite machine alongside the requests. */
  ghost function PlainRun(disk: nat -> byte, s: State, steps: seq<Step>, s': State): nat -> byte
    requires Reaches(s, steps, s')
    decreases steps
  {
    if steps == [] then disk
    else PlainRun(PlainNext(disk, s, steps[0]), Next(s, steps[0]), steps[1..], s')
  }

  /** One step writes what the plain machine writes; padding that is written back changes nothing. */
  lemma StepRefines(disk: nat -> byte, s: State, step: Step)
    requires Inv(s) && Enabled(s, step) && SameBytes(disk, s.disk)
    ensures SameBytes(PlainNext(disk, s, step), Next(s, step).disk)
  {
    hide Inv, Scan, Finish, StartedWrite, StartedRead, Resumed, ReadHead, WriteVal, HasHead, HasTail, InWrite, NeedHead;
    hide NeedTail;
    if step.WriteByte? {
      if !Requested(s.req[step.id].span, step.a) {
        OwnPadding(s, step.id, step.a);
      } else {
        WriteData(s.req[step.id], step.a);
      }
    } else {
      DiskSame(s, step);
    }
  }

  lemma WriteData(r: Request, a: nat)
    requires CanWrite(r, a) && Requested(r.span, a)
    ensures WriteVal(r, a) == r.data[a - r.span.offset]
  {
  }

  lemma DiskSame(s: State, step: Step)
    requires Enabled(s, step) && !step.WriteByte?
    ensures Next(s, step).disk == s.disk
  {
    hide FirstBlocker, Without, Down, RoundUp, HasHead, HasTail, InWrite;
  }

  /** No update is lost: in every interleaving the disk is what the requested bytes alone make it. */
  lemma {:induction false} RunRefines(disk: nat -> byte, s: State, steps: seq<Step>, s': State)
    requires Inv(s) && Reaches(s, steps, s') && SameBytes(disk, s.disk)
    ensures SameBytes(PlainRun(disk, s, steps, s'), s'.disk)
    decreases steps
  {
    if steps != [] {
      StepOk(s, steps[0]);
      StepRefines(disk, s, steps[0]);
      RunRefines(PlainNext(disk, s, steps[0]), Next(s, steps[0]), steps[1..], s');
    }
  }

  lemma DoneGrows(s: State, step: Step, id: Id, a: nat)
    requires Enabled(s, step) && id in Next(s, step).req && a in Next(s, step).req[id].io.done
    ensures step == WriteByte(id, a) || (id in s.req && a in s.req[id].io.done)
  {
    hide FirstBlocker, Without;
  }

  /** What a request counts as written, it has written in this run. */
  lemma {:induction false} WrittenInRun(s: State, steps: seq<Step>, s': State, id: Id, a: nat)
    requires Reaches(s, steps, s') && id in s'.req && a in s'.req[id].io.done
    ensures WriteByte(id, a) in steps || (id in s.req && a in s.req[id].io.done)
    decreases steps
  {
    if steps != [] {
      WrittenInRun(Next(s, steps[0]), steps[1..], s', id, a);
      if WriteByte(id, a) !in steps[1..] {
        DoneGrows(s, steps[0], id, a);
      }
    }
  }

  /** A write that completes has written every requested byte, in every run. */
  lemma CompletedWrite(s0: State, steps: seq<Step>, s: State, id: Id, a: nat)
    requires Init(s0) && Reaches(s0, steps, s) && Enabled(s, WriteDone(id)) && Requested(s.req[id].span, a)
    ensures WriteByte(id, a) in steps
  {
    assert Serialising(s0) == {};
    RunsKeepInv(s0, steps, s);
    assert RequestOk(s.req[id], s.disk) && InWrite(s.req[id].span, a);
    WrittenInRun(s0, steps, s, id, a);
  }

  // ---------- The list of tracked requests in place ----------

  /**
   The code of the original, call by call.  Its own functions come first; the
   methods after them are the stretches between two yields of a coroutine, and
   each is one step of the machine.
   */
  class Tracker {
    var order: seq<Id>
    var req: map<Id, Request>
    var inFlight: int
    var disk: nat -> byte

    ghost function St(): State
      reads this
    {
      State(order, req, inFlight, disk)
    }

    ghost predicate Valid()
      reads this
    {
      Inv(St())
    }

    constructor (disk: nat -> byte)
      ensures Valid() && Init(St()) && this.disk == disk
    {
      order, req, inFlight := [], map[], 0;
      this.disk := disk;
      new;
      InitOk(St());
    }

    /** `tracked_request_begin`: a request that is not serialising enters, and nobody knows it yet. */
    method TrackedRequestBegin(id: Id, p: Span, data: seq<byte>, stage: Stage)
      requires Valid() && id !in req
      modifies `order, `req
      ensures Entering(St(), id) && inFlight == |Serialising(St())|
      ensures forall q :: q in old(req) ==> q in req && req[q] == old(req)[q]
      ensures St() == Begin(old(St()), id, p, data, stage)
    {
      hide Entering, Serialising;
      BeginEnters(St(), id, p, data, stage);
      EnteringIs(Begin(St(), id, p, data, stage), id);
      req := req[id := Request(p, data, Window(false, p.offset, p.bytes), Running, stage, NoIo)];
      order := [id] + order;
    }

    /**
     `mark_request_serialising`: the request is counted once, and a window that is
     still the request's own then reaches from block to block.
     */
    method MarkRequestSerialising(id: Id, align: nat)
      requires id in req && align > 0 && ListOk(St()) && CountOk(St())
      modifies `req, `inFlight
      ensures ListOk(St()) && inFlight == |Serialising(St())|
      ensures Serialising(St()) == old(Serialising(St())) + {id}
      ensures old(Entering(St(), id)) ==> Entering(St(), id)
      ensures old(req)[id].win.offset == req[id].span.offset && old(req)[id].win.bytes == req[id].span.bytes ==>
                && req[id].win.offset % align == 0 && (req[id].win.offset + req[id].win.bytes) % align == 0
                && req[id].win.offset <= req[id].span.offset
                && End(req[id].span) <= req[id].win.offset + req[id].win.bytes
      ensures St() == Mark(old(St()), id, align)
    {
      hide ListOk, CountOk, Entering, Serialising, Down, RoundUp;
      ghost var s := St();
      MarkMeans(s, id, align);
      var r := req[id];
      var overlapOffset := Down(r.span.offset, align);
      var overlapBytes := RoundUp(r.span.offset + r.span.bytes, align) - overlapOffset;
      if !r.win.serialising {
        inFlight := inFlight + 1;
      }
      req := req[id := r.(win := Window(true, Min(r.win.offset, overlapOffset), Max(r.win.bytes, overlapBytes)))];
      assert St() == Mark(s, id, align);
    }

    /** The list walk of `wait_serialising_requests` up to the first request to wait for. */
    method FindBlocker(self: Id) returns (b: Option<Id>)
      requires self in req && ListOk(St())
      ensures b == FirstBlocker(St(), order, self)
      ensures b.Some? ==> Blocks(St(), self, b.value)
      ensures b.None? ==> forall q :: !Blocks(St(), self, q)
    {
      hide Overlaps, FirstBlocker;
      FirstBlockerMeans(St(), self);
      FirstBlockerEnds(St(), order, self);
      var i := 0;
      while i < |order|
        invariant 0 <= i <= |order|
        invariant FirstBlocker(St(), order, self) == FirstBlocker(St(), order[i..], self)
        decreases |order| - i
      {
        var id := order[i];
        FirstBlockerStep(St(), order, i, self);
        if id != self && (req[id].win.serialising || req[self].win.serialising) &&
           Overlaps(req[id].win, req[self].win.offset, req[self].win.bytes) && req[id].wait.Running? {
          return Some(id);
        }
        i := i + 1;
      }
      return None;
    }

    /**
     One round of `wait_serialising_requests`: it ends in a wait for a running
     request in conflict, or there is none.  A request that has just entered takes
     its place in the protocol; one that ran before goes through.
     */
    method WaitSerialisingRequests(self: Id, stage: Stage) returns (waits: bool)
      requires self in req && ListOk(St()) && CountOk(St())
      modifies `req
      ensures self in req && (waits <==> req[self].wait.Waiting?)
      ensures waits ==> Blocks(old(St()), self, req[self].wait.on)
      ensures !waits ==> forall q :: !Blocks(old(St()), self, q)
      ensures ListOk(St()) && CountOk(St())
      ensures old(Entering(St(), self)) ==> Exclusive(St()) && WaitsOk(St())
      ensures old(Exclusive(St()) && req[self].wait.Running?) ==> !waits
      ensures St() == Scan(old(St()), self, stage)
    {
      hide ListOk, CountOk, Entering, Exclusive, WaitsOk, Blocks, FirstBlocker;
      ghost var s := St();
      ScanMeans(s, self, stage);
      var b := None;
      if inFlight != 0 {
        b := FindBlocker(self);
      }
      waits := b.Some?;
      req := req[self := req[self].(stage := stage, wait := if waits then Waiting(b.value) else Running)];
      assert St() == Scan(s, self, stage);
    }

    /** `tracked_request_end`: the request is gone, uncounted, and exactly those who waited for it are woken. */
    method TrackedRequestEnd(id: Id)
      requires Valid() && id in req && req[id].wait.Running?
      modifies `order, `req, `inFlight
      ensures Valid() && req.Keys == old(req).Keys - {id} && inFlight == |Serialising(St())|
      ensures forall q :: q in req ==>
                req[q] == if old(req)[q].wait == Waiting(id) then old(req)[q].(wait := Woken) else old(req)[q]
      ensures St() == Finish(old(St()), id)
    {
      hide Inv, Serialising, Without;
      ghost var s := St();
      FinishOk(s, id);
      CountIs(Finish(s, id));
      if req[id].win.serialising {
        inFlight := inFlight - 1;
      }
      order := Without(order, id);
      req := map q | q in req && q != id :: if req[q].wait == Waiting(id) then req[q].(wait := Woken) else req[q];
      assert St() == Finish(s, id);
    }

    /** `bdrv_co_do_pwritev` from its start to its first driver request or wait. */
    method StartWrite(id: Id, offset: nat, data: seq<byte>, align: nat) returns (waits: bool)
      requires Valid() && id !in req && align > 0
      modifies this
      ensures Valid() && St() == Next(old(St()), Step.StartWrite(id, offset, data, align))
      ensures id in req && (waits <==> req[id].wait.Waiting?)
    {
      hide Inv, Begin, Mark, Scan, Entering, ListOk, CountOk, Exclusive, WaitsOk;
      StepOk(St(), Step.StartWrite(id, offset, data, align));
      var p := Span(offset, |data|, align, true);
      var stage := FirstStage(p);
      TrackedRequestBegin(id, p, data, stage);
      EnteringIs(St(), id);
      if NeedHead(p) || NeedTail(p) {
        MarkRequestSerialising(id, align);
        EnteringIs(St(), id);
      }
      waits := WaitSerialisingRequests(id, stage);
    }

    /** `bdrv_aligned_preadv` from its start to its driver request or wait. */
    method StartRead(id: Id, offset: nat, bytes: nat, align: nat, copyOnRead: bool, cluster: nat) returns (waits: bool)
      requires Valid() && Enabled(St(), Step.StartRead(id, offset, bytes, align, copyOnRead, cluster))
      modifies this
      ensures Valid() && St() == Next(old(St()), Step.StartRead(id, offset, bytes, align, copyOnRead, cluster))
      ensures id in req && (waits <==> req[id].wait.Waiting?)
    {
      hide Inv, Begin, Mark, Scan, Entering, ListOk, CountOk, Exclusive, WaitsOk;
      StepOk(St(), Step.StartRead(id, offset, bytes, align, copyOnRead, cluster));
      TrackedRequestBegin(id, Span(offset, bytes, align, false), [], Reading);
      EnteringIs(St(), id);
      if copyOnRead {
        MarkRequestSerialising(id, cluster);
        EnteringIs(St(), id);
      }
      waits := WaitSerialisingRequests(id, Reading);
    }

    /** A request whose wait is over tries again. */
    method Resume(id: Id) returns (waits: bool)
      requires Valid() && Enabled(St(), Step.Resume(id))
      modifies this
      ensures Valid() && St() == Next(old(St()), Step.Resume(id))
      ensures id in req && (waits <==> req[id].wait.Waiting?)
    {
      hide Inv, Scan, Entering, ListOk, CountOk, Exclusive, WaitsOk;
      StepOk(St(), Step.Resume(id));
      WokenEnters(St(), id);
      req := req[id := req[id].(wait := Running)];
      EnteringIs(St(), id);
      waits := WaitSerialisingRequests(id, req[id].stage);
    }

    /** The first block has been read: on to the last block, or to the write, without a wait. */
    method HeadDone(id: Id)
      requires Valid() && Enabled(St(), Step.HeadDone(id))
      modifies this
      ensures Valid() && St() == Next(old(St()), Step.HeadDone(id)) && req[id].wait.Running?
    {
      hide Inv, Mark, Scan, ListOk, CountOk, Exclusive, WaitsOk, RequestOk, HasHead, HasTail;
      ghost var s := St();
      HeadDoneOk(s, id);
      InvIs(s);
      InvProtocol(s);
      var waited;
      if NeedTail(req[id].span) {
        MarkAgain(s, id);
        MarkRequestSerialising(id, req[id].span.align);
        waited := WaitSerialisingRequests(id, TailRead);
      } else {
        waited := WaitSerialisingRequests(id, Writing);
      }
      assert !waited;
    }

    /** The last block has been read: on to the write, without a wait. */
    method TailDone(id: Id)
      requires Valid() && Enabled(St(), Step.TailDone(id))
      modifies this
      ensures Valid() && St() == Next(old(St()), Step.TailDone(id)) && req[id].wait.Running?
    {
      hide Inv, Scan, ListOk, CountOk, Exclusive, WaitsOk, RequestOk, HasHead, HasTail;
      TailDoneOk(St(), id);
      InvProtocol(St());
      var waited := WaitSerialisingRequests(id, Writing);
      assert !waited;
    }
  }

  lemma EnteringIs(s: State, id: Id)
    requires Entering(s, id)
    ensures id in s.req && ListOk(s) && CountOk(s) && s.inFlight == |Serialising(s)|
  {
  }

  lemma InvProtocol(s: State)
    requires Inv(s)
    ensures ListOk(s) && CountOk(s) && Exclusive(s) && WaitsOk(s)
  {
  }

  lemma CountIs(s: State)
    requires Inv(s)
    ensures s.inFlight == |Serialising(s)|
  {
  }

  lemma MarkMeans(s: State, id: Id, align: nat)
    requires id in s.req && align > 0 && ListOk(s) && CountOk(s)
    ensures var s' := Mark(s, id, align);
            && ListOk(s') && s'.inFlight == |Serialising(s')| && Serialising(s') == Serialising(s) + {id}
            && (Entering(s, id) ==> Entering(s', id))
    ensures s.req[id].win.offset == s.req[id].span.offset && s.req[id].win.bytes == s.req[id].span.bytes ==>
              var r := Mark(s, id, align).req[id];
              && r.win.offset % align == 0 && (r.win.offset + r.win.bytes) % align == 0
              && r.win.offset <= r.span.offset && End(r.span) <= r.win.offset + r.win.bytes
  {
    hide Entering, ListOk, Down, RoundUp;
    var s' := Mark(s, id, align);
    assert Serialising(s') == Serialising(s) + {id};
    MarkCounts(s, id, align);
    if Entering(s, id) {
      MarkEnters(s, id, align);
    }
    if s.req[id].win.offset == s.req[id].span.offset && s.req[id].win.bytes == s.req[id].span.bytes {
      MarkedWindow(s, id, align);
      DownAligned(s.req[id].span.offset, align);
      RoundUpAligned(End(s.req[id].span), align);
    }
  }

  lemma ScanMeans(s: State, id: Id, stage: Stage)
    requires id in s.req && ListOk(s) && CountOk(s)
    ensures var s' := Scan(s, id, stage);
            && ListOk(s') && CountOk(s')
            && (s'.req[id].wait.Waiting? ==> Blocks(s, id, s'.req[id].wait.on))
            && (!s'.req[id].wait.Waiting? ==> forall q :: !Blocks(s, id, q))
            && (Entering(s, id) ==> Exclusive(s') && WaitsOk(s'))
            && (Exclusive(s) && s.req[id].wait.Running? ==> !s'.req[id].wait.Waiting?)
  {
    hide ListOk, CountOk, Entering, Exclusive, WaitsOk, Blocks, FirstBlocker;
    ScanOutcome(s, id, stage);
    ScanCounts(s, id, stage);
    if Entering(s, id) {
      ScanEnters(s, id, stage);
    }
    if Exclusive(s) && s.req[id].wait.Running? {
      NeverWaitsAgain(s, id, stage);
    }
  }
}
