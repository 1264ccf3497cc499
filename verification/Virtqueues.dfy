/**
 The split virtqueue between the block driver and the device. Driver and device each take one small step at a time, in
 any order. The driver steps are the statements of `read_write_disk` and `virtq_kick`; the device follows sections 2.7
 and 5.2.6 of the VirtIO 1.2 standard, moves one byte at a time, and may fail any request.
 */
module Virtqueues {
  import opened Arithmetic
  import opened Memories

  const ENTRIES: nat := 16      // VIRTQ_ENTRY_NUM
  const SECTOR: nat := 512
  const F_NEXT: nat := 1        // VIRTQ_DESC_F_NEXT
  const F_WRITE: nat := 2       // VIRTQ_DESC_F_WRITE
  const T_IN: nat := 0
  const T_OUT: nat := 1
  const HEADER_LEN: nat := 16   // type, reserved and sector
  const DATA_AT: nat := 16      // offsets in struct virtio_blk_req
  const STATUS_AT: nat := 528

  type Disk = seq<seq<Byte>>

  datatype Desc = Desc(addr: nat, len: nat, flags: nat, next: nat)
  datatype UsedElem = UsedElem(id: nat, len: nat)

  datatype Queue = Queue(descs: seq<Desc>, ring: seq<nat>, availIdx: nat, usedRing: seq<UsedElem>, usedIdx: nat,
                         lastUsed: nat)
  datatype Request = Request(kind: nat, sector: nat, data: seq<Byte>, status: nat)

  /** The index arithmetic of the ring: 16 bits, wrapping. */
  function Next16(i: nat): nat {
    (i + 1) % 0x1_0000
  }

  // ----- The device, by the numbers of the standard -----

  /** Where the device is in serving the request whose chain starts at `head`. */
  datatype Phase =
    | Waiting
    | Fetched(head: nat)
    | Moving(head: nat, kind: nat, sector: nat, done: nat)
    | Moved(head: nat, result: nat)
    | Ended(head: nat)
    | Posted
    | Broken    // it met a chain it cannot make sense of

  /** `notified` says that the queue notification was written since the device last looked at the ring. */
  datatype Device = Device(phase: Phase, avail: nat, disk: Disk, notified: bool)

  /**
   `Go` is the normal next step, for which an idle device waits to be notified, and `Peek` a look at the ring before
   that. `Fail` gives the request up, leaving anything in the bytes the device was to write.
   */
  datatype Choice = Go | Peek | Fail(status: nat, garbage: seq<Byte>)

  predicate CanNext(d: Desc) { d.flags % 2 == 1 && d.next < 16 }
  predicate CanWrite(d: Desc) { d.flags / 2 % 2 == 1 }

  /**
   The chain from `head` is a block request at `at`: a header of 16 bytes, then 512 bytes of data, then a status byte
   that the device may write.
   */
  predicate ChainOk(descs: seq<Desc>, head: nat, at: nat)
    requires |descs| == 16
  {
    && head < 16 && CanNext(descs[head]) && !CanWrite(descs[head])
    && descs[head].addr == at && descs[head].len == 16
    && (var data := descs[descs[head].next];
        && CanNext(data) && data.addr == at + 16 && data.len == 512
        && (var status := descs[data.next];
            !CanNext(status) && CanWrite(status) && status.addr == at + 528 && status.len == 1))
  }

  predicate DataWritable(descs: seq<Desc>, head: nat)
    requires |descs| == 16 && head < 16 && descs[head].next < 16
  {
    CanWrite(descs[descs[head].next])
  }

  // ----- The driver -----

  /** The statement the driver is about to run. */
  datatype Pc = Ready | SetSector | SetType | CopyIn | Desc0 | Desc1 | Desc2 | PutRing | BumpAvail | Notify | BumpLast
              | Spin | Finish | Panicked

  /** One call of `read_write_disk`, with the contents of its buffer. */
  datatype Call = Call(sector: nat, isWrite: bool, buf: seq<Byte>)

  /** A call that returned: the status, the buffer then, and the disk when it was called and when it returned. */
  datatype Done = Done(call: Call, status: nat, buf: seq<Byte>, before: Disk, after: Disk)

  /**
   `before`, `sent`, `start` and `log` are history: the disk at the call, the index it was sent at, the first disk.
   */
  datatype Driver = Driver(pc: Pc, call: Call, before: Disk, sent: nat, start: Disk, log: seq<Done>)

  /** `capacity` is `blk_capacity` and `at` the address of the shared request. */
  datatype State = State(q: Queue, req: Request, dev: Device, drv: Driver, capacity: nat, at: nat)

  /** `blk_capacity` for a device of `n` sectors: 64 bits. */
  function Capacity(n: nat): nat {
    n * SECTOR % TWO64
  }

  predicate Shaped(s: State) {
    && |s.q.descs| == 16 && |s.q.ring| == 16 && |s.q.usedRing| == 16
    && s.q.availIdx < 0x1_0000 && s.q.usedIdx < 0x1_0000 && s.q.lastUsed < 0x1_0000 && s.dev.avail < 0x1_0000
    && |s.req.data| == 512 && s.capacity / SECTOR <= |s.dev.disk|
    && forall x :: 0 <= x < |s.dev.disk| ==> |s.dev.disk[x]| == 512
  }

  // ----- Steps -----

  datatype Event = Invoke(call: Call) | Drive | Serve(choice: Choice)

  predicate Enabled(s: State, e: Event)
    requires Shaped(s)
  {
    match e
    case Invoke(call) => s.drv.pc == Ready && |call.buf| == 512
    case Drive => s.drv.pc != Ready && s.drv.pc != Panicked
    case Serve(c) => ServeEnabled(s, c)
  }

  predicate ServeEnabled(s: State, c: Choice)
    requires Shaped(s)
  {
    && (if s.dev.phase == Waiting then s.dev.avail != s.q.availIdx && (c.Peek? || s.dev.notified) else !c.Peek?)
    && (s.dev.phase.Moving? ==> s.dev.phase.sector < |s.dev.disk| && s.dev.phase.done <= 512)
    && s.dev.phase != Broken
    && (c.Fail? ==> s.dev.phase.Moving? && 0 < c.status < 256 && |c.garbage| == 512)
  }

  function Step(s: State, e: Event): (t: State)
    requires Shaped(s) && Enabled(s, e)
    ensures Shaped(t)
  {
    match e
    case Invoke(call) =>
      if call.sector >= s.capacity / SECTOR then s.(drv := s.drv.(pc := Panicked))
      else s.(drv := s.drv.(pc := SetSector, call := call, before := s.dev.disk))
    case Drive => DriveStep(s)
    case Serve(c) => ServeStep(s, c)
  }

  function HeadDesc(at: nat): Desc {
    Desc(at, HEADER_LEN, F_NEXT, 1)
  }

  function DataDesc(at: nat, isWrite: bool): Desc {
    Desc(at + DATA_AT, SECTOR, if isWrite then F_NEXT else F_NEXT + F_WRITE, 2)
  }

  /** The last descriptor keeps the `next` it has. */
  function StatusDesc(at: nat, was: Desc): Desc {
    Desc(at + STATUS_AT, 1, F_WRITE, was.next)
  }

  function DriveStep(s: State): (t: State)
    requires Shaped(s) && s.drv.pc != Ready && s.drv.pc != Panicked
    ensures Shaped(t)
  {
    var drv, q, call := s.drv, s.q, s.drv.call;
    match drv.pc
    case SetSector => s.(req := s.req.(sector := call.sector), drv := drv.(pc := SetType))
    case SetType => s.(req := s.req.(kind := if call.isWrite then T_OUT else T_IN), drv := drv.(pc := CopyIn))
    case CopyIn =>
      s.(req := if call.isWrite && |call.buf| == SECTOR then s.req.(data := call.buf) else s.req,
         drv := drv.(pc := Desc0))
    case Desc0 => s.(q := q.(descs := q.descs[0 := HeadDesc(s.at)]), drv := drv.(pc := Desc1))
    case Desc1 => s.(q := q.(descs := q.descs[1 := DataDesc(s.at, call.isWrite)]), drv := drv.(pc := Desc2))
    case Desc2 => s.(q := q.(descs := q.descs[2 := StatusDesc(s.at, q.descs[2])]), drv := drv.(pc := PutRing))
    case PutRing => s.(q := q.(ring := q.ring[q.availIdx % ENTRIES := 0]), drv := drv.(pc := BumpAvail))
    case BumpAvail => s.(q := q.(availIdx := Next16(q.availIdx)), drv := drv.(pc := Notify, sent := q.availIdx))
    case Notify => s.(dev := s.dev.(notified := true), drv := drv.(pc := BumpLast))
    case BumpLast => s.(q := q.(lastUsed := Next16(q.lastUsed)), drv := drv.(pc := Spin))
    case Spin => if Busy(s) then s else s.(drv := drv.(pc := Finish))
    case Finish =>
      var buf := if s.req.status != 0 || call.isWrite then call.buf else s.req.data;
      s.(drv := drv.(pc := Ready, log := drv.log + [Done(call, s.req.status, buf, drv.before, s.dev.disk)]))
    case _ => s
  }

  /** `virtq_is_busy`. */
  predicate Busy(s: State) {
    s.q.lastUsed != s.q.usedIdx
  }

  function ServeStep(s: State, c: Choice): (t: State)
    requires Shaped(s) && ServeEnabled(s, c)
    ensures Shaped(t)
  {
    var dev, q := s.dev, s.q;
    match dev.phase
    case Waiting => s.(dev := dev.(phase := Fetched(q.ring[dev.avail % 16]), notified := false))
    case Fetched(head) => s.(dev := dev.(phase := Begin(s, head)))
    case Moving(head, kind, sector, done) =>
      if c.Fail? then
        if kind == 1 then s.(dev := dev.(phase := Moved(head, c.status), disk := dev.disk[sector := c.garbage]))
        else s.(dev := dev.(phase := Moved(head, c.status)), req := s.req.(data := c.garbage))
      else if done == 512 then s.(dev := dev.(phase := Moved(head, 0)))
      else if kind == 1 then
        s.(dev := dev.(phase := Moving(head, kind, sector, done + 1),
                       disk := dev.disk[sector := dev.disk[sector][done := s.req.data[done]]]))
      else
        s.(dev := dev.(phase := Moving(head, kind, sector, done + 1)),
           req := s.req.(data := s.req.data[done := dev.disk[sector][done]]))
    case Moved(head, result) => s.(dev := dev.(phase := Ended(head)), req := s.req.(status := result))
    case Ended(head) =>
      s.(dev := dev.(phase := Posted), q := q.(usedRing := q.usedRing[q.usedIdx % 16 := UsedElem(head, Written(s))]))
    case Posted => s.(dev := dev.(phase := Waiting, avail := Next16(dev.avail)), q := q.(usedIdx := Next16(q.usedIdx)))
    case Broken => s
  }

  /** The bytes the device reports as written: the status, and for a read (type 0) the data. */
  function Written(s: State): nat {
    if s.req.kind == 0 then 513 else 1
  }

  /**
   What the device makes of the chain at `head`. A read is of type 0 and gives it a data buffer to write to, a write is
   of type 1 and gives it one to read; anything else, or a sector it does not have, it refuses with status 1.
   */
  function Begin(s: State, head: nat): Phase
    requires Shaped(s)
  {
    if !ChainOk(s.q.descs, head, s.at) then Broken
    else if s.req.sector < |s.dev.disk| && s.req.kind == (if DataWritable(s.q.descs, head) then 0 else 1) then
      Moving(head, s.req.kind, s.req.sector, 0)
    else Moved(head, 1)
  }

  ghost predicate Legal(s: State, es: seq<Event>)
    requires Shaped(s)
    decreases es
  {
    es == [] || (Enabled(s, es[0]) && Legal(Step(s, es[0]), es[1..]))
  }

  function Exec(s: State, es: seq<Event>): (t: State)
    requires Shaped(s) && Legal(s, es)
    ensures Shaped(t)
    decreases es
  {
    if es == [] then s else Exec(Step(s, es[0]), es[1..])
  }

  // ----- What a call must do to the disk -----

  /** An atomic read or write of one sector; a failed call leaves every other sector and the buffer alone. */
  ghost predicate Atomic(before: Disk, call: Call, status: nat, buf: seq<Byte>, after: Disk) {
    && call.sector < |before| && Served(before, call, status, after)
    && buf == if status == 0 && !call.isWrite then before[call.sector] else call.buf
  }

  ghost predicate Served(before: Disk, call: Call, status: nat, after: Disk)
    requires call.sector < |before|
  {
    if !call.isWrite then after == before
    else if status == 0 then after == before[call.sector := call.buf]
    else |after| == |before| && after == before[call.sector := after[call.sector]]
  }

  function LastDisk(drv: Driver): Disk {
    if drv.log == [] then drv.start else drv.log[|drv.log| - 1].after
  }

  /** The finished calls are a history of atomic operations on an array of sectors that was first `start`. */
  ghost predicate History(start: Disk, log: seq<Done>) {
    forall i :: 0 <= i < |log| ==>
      && log[i].before == (if i == 0 then start else log[i - 1].after)
      && Atomic(log[i].before, log[i].call, log[i].status, log[i].buf, log[i].after)
  }

  // ----- The invariant -----

  function Rank(pc: Pc): nat {
    match pc
    case Ready => 0 case Panicked => 0
    case SetSector => 1 case SetType => 2 case CopyIn => 3 case Desc0 => 4 case Desc1 => 5 case Desc2 => 6
    case PutRing => 7 case BumpAvail => 8 case Notify => 9 case BumpLast => 10 case Spin => 11 case Finish => 12
  }

  /** The device has nothing to do and all indices agree. */
  ghost predicate Quiet(s: State) {
    s.dev.phase == Waiting && s.dev.avail == s.q.usedIdx == s.q.availIdx
  }

  ghost predicate CallOk(s: State) {
    s.drv.call.sector < |s.drv.before| && |s.drv.call.buf| == SECTOR && |s.drv.before[s.drv.call.sector]| == SECTOR
  }

  /** As much of the request as the driver has built when it is at a statement of rank `r`. */
  ghost predicate BuiltTo(s: State, r: nat)
    requires Shaped(s)
  {
    && CallOk(s)
    && (r > 1 ==> s.req.sector == s.drv.call.sector)
    && (r > 2 ==> s.req.kind == if s.drv.call.isWrite then T_OUT else T_IN)
    && (r > 3 && s.drv.call.isWrite ==> s.req.data == s.drv.call.buf)
    && (r > 4 ==> s.q.descs[0] == HeadDesc(s.at))
    && (r > 5 ==> s.q.descs[1] == DataDesc(s.at, s.drv.call.isWrite))
    && (r > 6 ==> var d := s.q.descs[2]; d.addr == s.at + STATUS_AT && d.len == 1 && d.flags == F_WRITE)
  }

  /** The bytes moved so far: those before `done`, and no others on the disk. */
  ghost predicate MovedTo(s: State, done: nat)
    requires Shaped(s) && CallOk(s) && done <= SECTOR
  {
    var call, sector := s.drv.call, s.drv.before[s.drv.call.sector];
    if call.isWrite then s.dev.disk == s.drv.before[call.sector := call.buf[..done] + sector[done..]]
    else s.dev.disk == s.drv.before && s.req.data[..done] == sector[..done]
  }

  /** The transfer is over with this status. */
  ghost predicate Over(s: State, status: nat)
    requires Shaped(s) && CallOk(s)
  {
    && Served(s.drv.before, s.drv.call, status, s.dev.disk)
    && (status == 0 && !s.drv.call.isWrite ==> s.req.data == s.drv.before[s.drv.call.sector])
  }

  ghost predicate PhaseOk(s: State)
    requires Shaped(s) && CallOk(s)
  {
    match s.dev.phase
    case Waiting => s.dev.disk == s.drv.before
    case Fetched(head) => head == 0 && s.dev.disk == s.drv.before
    case Moving(head, kind, sector, done) =>
      head == 0 && kind == s.req.kind && sector == s.drv.call.sector && done <= SECTOR && MovedTo(s, done)
    case Moved(head, result) => head == 0 && Over(s, result)
    case Ended(head) => head == 0 && Over(s, s.req.status)
    case Posted => s.q.usedRing[s.drv.sent % ENTRIES].id == 0 && Over(s, s.req.status)
    case Broken => false
  }

  /** The one request sent is with the device. */
  ghost predicate Pending(s: State)
    requires Shaped(s)
  {
    && BuiltTo(s, 8) && PhaseOk(s)
    && s.dev.avail == s.q.usedIdx == s.drv.sent && s.q.availIdx == Next16(s.drv.sent)
    && s.q.ring[s.drv.sent % ENTRIES] == 0
  }

  /** The device has completed the one request sent. */
  ghost predicate Completed(s: State)
    requires Shaped(s)
  {
    && Quiet(s) && CallOk(s) && Over(s, s.req.status)
    && s.q.availIdx == Next16(s.drv.sent) && s.q.usedRing[s.drv.sent % ENTRIES].id == 0
  }

  /** Between calls, and after a panic. */
  ghost predicate Resting(s: State) {
    Quiet(s) && s.q.availIdx == s.q.lastUsed == |s.drv.log| % 0x1_0000 && s.dev.disk == LastDisk(s.drv)
  }

  /** In a call, before the request is in the ring. */
  ghost predicate Building(s: State)
    requires Shaped(s)
  {
    && Resting(s) && s.drv.before == s.dev.disk && BuiltTo(s, Rank(s.drv.pc))
    && (s.drv.pc == BumpAvail ==> s.q.ring[s.q.availIdx % ENTRIES] == 0)
  }

  /** In a call, once the request is in the ring. */
  ghost predicate Sent(s: State)
    requires Shaped(s)
  {
    && s.drv.before == LastDisk(s.drv) && s.drv.sent == |s.drv.log| % 0x1_0000
    && s.q.lastUsed == (if Rank(s.drv.pc) < 11 then s.drv.sent else Next16(s.drv.sent))
    && (if s.drv.pc == Finish then Completed(s) else Pending(s) || Completed(s))
  }

  /** Past the notification, a device that has still to look at the ring knows it. */
  predicate Rung(s: State) {
    Rank(s.drv.pc) >= 10 && s.dev.phase == Waiting && s.dev.avail != s.q.availIdx ==> s.dev.notified
  }

  ghost predicate Inv(s: State)
    requires Shaped(s)
  {
    && History(s.drv.start, s.drv.log) && Rung(s)
    && (if Rank(s.drv.pc) == 0 then Resting(s) else if Rank(s.drv.pc) < 9 then Building(s) else Sent(s))
  }

  // ----- Every step keeps it -----

  lemma InvokeInv(s: State, call: Call)
    requires Shaped(s) && Inv(s) && Enabled(s, Invoke(call))
    ensures Inv(Step(s, Invoke(call)))
  {
  }

  lemma FillInv(s: State)
    requires Shaped(s) && Inv(s) && 0 < Rank(s.drv.pc) < 4
    ensures Inv(DriveStep(s))
  {
  }

  /** Filling in descriptor `i` and going on to the next statement. */
  function Described(s: State, i: nat, d: Desc, pc: Pc): State
    requires i < |s.q.descs|
  {
    s.(q := s.q.(descs := s.q.descs[i := d]), drv := s.drv.(pc := pc))
  }

  lemma HeadInv(s: State)
    requires Shaped(s) && Inv(s) && s.drv.pc == Desc0
    ensures Inv(DriveStep(s))
  {
    var t := Described(s, 0, HeadDesc(s.at), Desc1);
    assert DriveStep(s) == t && Building(t);
  }

  lemma DataInv(s: State)
    requires Shaped(s) && Inv(s) && s.drv.pc == Desc1
    ensures Inv(DriveStep(s))
  {
    var t := Described(s, 1, DataDesc(s.at, s.drv.call.isWrite), Desc2);
    assert DriveStep(s) == t && Building(t);
  }

  lemma StatusInv(s: State)
    requires Shaped(s) && Inv(s) && s.drv.pc == Desc2
    ensures Inv(DriveStep(s))
  {
    var t := Described(s, 2, StatusDesc(s.at, s.q.descs[2]), PutRing);
    assert DriveStep(s) == t && Building(t);
  }

  lemma DescribeInv(s: State)
    requires Shaped(s) && Inv(s) && 4 <= Rank(s.drv.pc) < 7
    ensures Inv(DriveStep(s))
  {
    match s.drv.pc {
      case Desc0 => HeadInv(s);
      case Desc1 => DataInv(s);
      case _ => StatusInv(s);
    }
  }

  lemma PutInv(s: State)
    requires Shaped(s) && Inv(s) && s.drv.pc == PutRing
    ensures Inv(DriveStep(s))
  {
  }

  lemma SendInv(s: State)
    requires Shaped(s) && Inv(s) && s.drv.pc == BumpAvail
    ensures Inv(DriveStep(s))
  {
  }

  /** `last_used_index` and the statement the driver is at are its own business. */
  lemma SentKept(s: State, pc: Pc, lastUsed: nat)
    requires Shaped(s) && (Pending(s) || Completed(s)) && lastUsed < 0x1_0000
    ensures var t := s.(q := s.q.(lastUsed := lastUsed), drv := s.drv.(pc := pc));
      Shaped(t) && (Pending(s) ==> Pending(t)) && (Completed(s) ==> Completed(t))
  {
  }

  lemma SentStays(s: State, pc: Pc, lastUsed: nat)
    requires Shaped(s) && Sent(s) && s.drv.pc != Finish && 9 <= Rank(pc) < 12
    requires lastUsed == if Rank(pc) < 11 then s.drv.sent else Next16(s.drv.sent)
    ensures var t := s.(q := s.q.(lastUsed := lastUsed), drv := s.drv.(pc := pc)); Shaped(t) && Sent(t)
  {
    SentKept(s, pc, lastUsed);
  }

  lemma NotifyInv(s: State)
    requires Shaped(s) && Inv(s) && s.drv.pc == Notify
    ensures Inv(DriveStep(s))
  {
    var r := s.(dev := s.dev.(notified := true));
    assert Pending(s) ==> Pending(r);
    assert Completed(s) ==> Completed(r);
    SentStays(r, BumpLast, s.q.lastUsed);
  }

  lemma CountInv(s: State)
    requires Shaped(s) && Inv(s) && s.drv.pc == BumpLast
    ensures Inv(DriveStep(s))
  {
    SentStays(s, Spin, Next16(s.q.lastUsed));
  }

  lemma PollInv(s: State)
    requires Shaped(s) && Inv(s) && s.drv.pc == Spin
    ensures Inv(DriveStep(s))
  {
    if !Busy(s) {
      SpinIsExact(s);
      SentKept(s, Finish, s.q.lastUsed);
    }
  }

  lemma HistoryGrows(start: Disk, log: seq<Done>, d: Done)
    requires History(start, log) && Atomic(d.before, d.call, d.status, d.buf, d.after)
    requires d.before == if log == [] then start else log[|log| - 1].after
    ensures History(start, log + [d])
  {
  }

  lemma NextCount(n: nat)
    ensures Next16(n % 0x1_0000) == (n + 1) % 0x1_0000
  {
  }

  lemma FinishInv(s: State)
    requires Shaped(s) && Inv(s) && s.drv.pc == Finish
    ensures Inv(DriveStep(s))
  {
    var buf := if s.req.status != 0 || s.drv.call.isWrite then s.drv.call.buf else s.req.data;
    NextCount(|s.drv.log|);
    HistoryGrows(s.drv.start, s.drv.log, Done(s.drv.call, s.req.status, buf, s.drv.before, s.dev.disk));
  }

  /**
   What the driver wrote is a chain the device accepts, with the data buffer writable exactly for a read; the request is
   of type 0 for a read and 1 for a write.
   */
  lemma ChainBuilt(s: State)
    requires Shaped(s) && BuiltTo(s, 8)
    ensures ChainOk(s.q.descs, 0, s.at) && (DataWritable(s.q.descs, 0) <==> !s.drv.call.isWrite)
    ensures s.q.descs[0] == Desc(s.at, 16, 1, 1)
    ensures s.q.descs[1] == Desc(s.at + 16, 512, if s.drv.call.isWrite then 1 else 3, 2)
    ensures s.req.kind == (if s.drv.call.isWrite then 1 else 0) && s.req.sector == s.drv.call.sector
  {
  }

  lemma BeginServes(s: State)
    requires Shaped(s) && Pending(s) && s.dev.phase.Fetched?
    ensures PhaseOk(ServeStep(s, Go))
  {
    ChainBuilt(s);
    var sector := s.drv.before[s.drv.call.sector];
    assert s.drv.call.buf[..0] + sector[0..] == sector;
    assert s.drv.before[s.drv.call.sector := sector] == s.drv.before;
  }

  lemma MoveServes(s: State)
    requires Shaped(s) && Pending(s) && s.dev.phase.Moving? && s.dev.phase.done < SECTOR
    ensures PhaseOk(ServeStep(s, Go))
  {
    var i, x, t := s.dev.phase.done, s.drv.call.sector, ServeStep(s, Go);
    var sector, buf := s.drv.before[x], s.drv.call.buf;
    if s.drv.call.isWrite {
      assert (buf[..i] + sector[i..])[i := buf[i]] == buf[..i + 1] + sector[i + 1..];
      assert t.dev.disk == s.drv.before[x := buf[..i + 1] + sector[i + 1..]];
    } else {
      assert t.req.data[..i + 1] == s.req.data[..i] + [sector[i]];
    }
  }

  lemma MoveEnds(s: State)
    requires Shaped(s) && Pending(s) && s.dev.phase.Moving? && s.dev.phase.done == SECTOR
    ensures PhaseOk(ServeStep(s, Go))
  {
    var sector, buf := s.drv.before[s.drv.call.sector], s.drv.call.buf;
    assert buf[..SECTOR] + sector[SECTOR..] == buf;
    assert sector[..SECTOR] == sector && s.req.data[..SECTOR] == s.req.data;
  }

  lemma FailServes(s: State, c: Choice)
    requires Shaped(s) && Pending(s) && ServeEnabled(s, c) && c.Fail?
    ensures PhaseOk(ServeStep(s, c))
  {
    var x, t := s.drv.call.sector, ServeStep(s, c);
    if s.drv.call.isWrite {
      assert t.dev.disk == s.drv.before[x := c.garbage];
    }
  }

  lemma MovingServes(s: State, c: Choice)
    requires Shaped(s) && Pending(s) && ServeEnabled(s, c) && s.dev.phase.Moving?
    ensures Pending(ServeStep(s, c))
  {
    if c.Fail? {
      FailServes(s, c);
    } else if s.dev.phase.done == SECTOR {
      MoveEnds(s);
    } else {
      MoveServes(s);
    }
  }

  lemma OtherServes(s: State, c: Choice)
    requires Shaped(s) && Pending(s) && ServeEnabled(s, c) && !s.dev.phase.Moving?
    ensures var t := ServeStep(s, c); if s.dev.phase == Posted then Completed(t) else Pending(t)
  {
    if s.dev.phase.Fetched? {
      BeginServes(s);
    }
  }

  lemma ServeInv(s: State, c: Choice)
    requires Shaped(s) && Inv(s) && ServeEnabled(s, c)
    ensures Inv(ServeStep(s, c))
  {
    assert Pending(s);
    if s.dev.phase.Moving? {
      MovingServes(s, c);
    } else {
      OtherServes(s, c);
    }
  }

  lemma StepInv(s: State, e: Event)
    requires Shaped(s) && Inv(s) && Enabled(s, e)
    ensures Inv(Step(s, e))
  {
    match e
    case Invoke(call) => InvokeInv(s, call);
    case Serve(c) => ServeInv(s, c);
    case Drive =>
      if Rank(s.drv.pc) < 4 {
        FillInv(s);
      } else if Rank(s.drv.pc) < 7 {
        DescribeInv(s);
      } else if s.drv.pc == PutRing {
        PutInv(s);
      } else if s.drv.pc == BumpAvail {
        SendInv(s);
      } else if s.drv.pc == Finish {
        FinishInv(s);
      } else if s.drv.pc == Notify {
        NotifyInv(s);
      } else if s.drv.pc == BumpLast {
        CountInv(s);
      } else {
        PollInv(s);
      }
  }

  lemma {:induction false} ExecInv(s: State, es: seq<Event>)
    requires Shaped(s) && Inv(s) && Legal(s, es)
    ensures Inv(Exec(s, es))
    decreases es
  {
    if es != [] {
      StepInv(s, es[0]);
      ExecInv(Step(s, es[0]), es[1..]);
    }
  }

  /** After `virtio_blk_init`: a zeroed queue and request, a waiting device, no call yet. */
  ghost predicate Fresh(s: State)
    requires Shaped(s)
  {
    && s.q.availIdx == s.q.usedIdx == s.q.lastUsed == s.dev.avail == 0 && s.dev.phase == Waiting && !s.dev.notified
    && s.drv.pc == Ready && s.drv.log == [] && s.drv.start == s.dev.disk
  }

  lemma FreshInv(s: State)
    requires Shaped(s) && Fresh(s)
    ensures Inv(s)
  {
  }

  lemma StepKeepsStart(s: State, e: Event)
    requires Shaped(s) && Enabled(s, e)
    ensures Step(s, e).drv.start == s.drv.start && s.drv.log <= Step(s, e).drv.log
  {
  }

  lemma {:induction false} ExecKeepsStart(s: State, es: seq<Event>)
    requires Shaped(s) && Legal(s, es)
    ensures Exec(s, es).drv.start == s.drv.start && s.drv.log <= Exec(s, es).drv.log
    decreases es
  {
    if es != [] {
      StepKeepsStart(s, es[0]);
      ExecKeepsStart(Step(s, es[0]), es[1..]);
    }
  }

  /**
   The disk seen through `read_write_disk` is an array of sectors: whatever the order of driver and device steps, the
   calls that returned are a history of atomic reads and writes that begins with the first disk, and between calls the
   disk is as the last of them left it.
   */
  lemma AtomicDisk(s: State, es: seq<Event>)
    requires Shaped(s) && Fresh(s) && Legal(s, es)
    ensures var t := Exec(s, es);
      && History(s.dev.disk, t.drv.log)
      && (t.drv.pc == Ready ==> t.dev.disk == LastDisk(t.drv) && t.drv.start == s.dev.disk)
  {
    FreshInv(s);
    ExecInv(s, es);
    ExecKeepsStart(s, es);
  }

  /**
   The indices in any run: the used index is never ahead of and at most one behind the available index, so at most one
   request is out; between calls both, and `last_used_index`, are the number of calls made modulo 65536, and the device
   is idle. The device never meets a chain it cannot make sense of.
   */
  lemma IndicesAgree(s: State, es: seq<Event>)
    requires Shaped(s) && Fresh(s) && Legal(s, es)
    ensures var t := Exec(s, es);
      && (t.q.availIdx == t.q.usedIdx || t.q.availIdx == Next16(t.q.usedIdx))
      && (Rank(t.drv.pc) < 9 ==>
            t.q.availIdx == t.q.usedIdx == t.q.lastUsed == |t.drv.log| % 0x1_0000 && t.dev.phase == Waiting)
      && (Rank(t.drv.pc) >= 11 ==> t.q.lastUsed == t.q.availIdx)
      && t.dev.phase != Broken
  {
    FreshInv(s);
    ExecInv(s, es);
  }

  /**
   While request number `n` (counting from 0, without wrapping) is with the device, the slot it was put in and that the
   device reads is `n` modulo the ring size, and holds the head of the chain, across every wrap of the 16-bit indices.
   Once the device has completed it, that slot of the used ring names the chain.
   */
  lemma RingSlot(s: State, es: seq<Event>)
    requires Shaped(s) && Fresh(s) && Legal(s, es)
    ensures var t := Exec(s, es);
      var n := |t.drv.log|;
      && (t.q.availIdx != t.q.usedIdx ==> t.dev.avail % ENTRIES == n % ENTRIES && t.q.ring[n % ENTRIES] == 0)
      && (t.drv.pc == Finish ==> t.q.usedRing[n % ENTRIES].id == 0)
  {
    FreshInv(s);
    ExecInv(s, es);
    SlotIsCount(|Exec(s, es).drv.log|);
  }

  lemma SlotIsCount(n: nat)
    ensures n % 0x1_0000 % ENTRIES == n % ENTRIES
  {
    ModParts(n, ENTRIES, 4096);
  }

  // ----- The spin -----

  /** The spin loop of a reachable state ends exactly when the device has completed the request that was sent. */
  lemma SpinIsExact(s: State)
    requires Shaped(s) && Inv(s) && s.drv.pc == Spin
    ensures !Busy(s) <==> Completed(s)
    ensures Busy(s) <==> Pending(s)
  {
  }

  /** How many normal steps the device still needs for the request it has. */
  function Work(s: State): nat {
    match s.dev.phase
    case Waiting => if s.dev.avail == s.q.availIdx then 0 else SECTOR + 6
    case Fetched(_) => SECTOR + 5
    case Moving(_, _, _, done) => if done <= SECTOR then SECTOR - done + 4 else 4
    case Moved(_, _) => 3
    case Ended(_) => 2
    case Posted => 1
    case Broken => 0
  }

  /**
   While a request is out the device can go on, once it is notified or has begun, and whatever step it takes brings the
   end nearer.
   */
  lemma ServeProgress(s: State)
    requires Shaped(s) && Inv(s) && s.q.availIdx != s.q.usedIdx
    ensures Work(s) > 0 && (Rank(s.drv.pc) >= 10 || s.dev.phase != Waiting ==> ServeEnabled(s, Go))
    ensures forall c :: ServeEnabled(s, c) ==> Work(ServeStep(s, c)) < Work(s)
  {
    if s.dev.phase.Fetched? {
      ChainBuilt(s);
    }
  }

  /** The device steps in a run. */
  function Serves(es: seq<Event>): nat
    decreases es
  {
    if es == [] then 0 else (if es[0].Serve? then 1 else 0) + Serves(es[1..])
  }

  /** The driver takes nothing back: until the request is completed its statements leave the device's work alone. */
  lemma DriverWaits(s: State)
    requires Shaped(s) && Inv(s) && Pending(s) && 9 <= Rank(s.drv.pc) < 12
    ensures Rank(DriveStep(s).drv.pc) >= 9 && Work(DriveStep(s)) == Work(s)
  {
    if s.drv.pc == Spin {
      SpinIsExact(s);
    }
  }

  /** The last statement comes only when the request is completed. */
  lemma PendingWaits(s: State)
    requires Shaped(s) && Inv(s) && Pending(s) && Rank(s.drv.pc) >= 9
    ensures Rank(s.drv.pc) < 12
  {
  }

  /** One step of a run while a request is out: whatever it is, the end is no further away. */
  lemma StepCloser(s: State, e: Event)
    requires Shaped(s) && Inv(s) && Pending(s) && Rank(s.drv.pc) >= 9 && Enabled(s, e)
    ensures Rank(Step(s, e).drv.pc) >= 9 && Work(Step(s, e)) + (if e.Serve? then 1 else 0) <= Work(s)
  {
    if e.Serve? {
      ServeProgress(s);
    } else {
      PendingWaits(s);
      DriverWaits(s);
    }
  }

  /** A request that is sent is completed by the time the device has taken as many steps as it needs at most. */
  lemma {:induction false} SpinEnds(s: State, es: seq<Event>) returns (i: nat)
    requires Shaped(s) && Inv(s) && Rank(s.drv.pc) >= 9 && Legal(s, es) && Serves(es) >= Work(s)
    ensures i <= |es| && Legal(s, es[..i]) && Completed(Exec(s, es[..i]))
    decreases es
  {
    if Completed(s) {
      i := 0;
      assert es[..0] == [];
    } else {
      StepInv(s, es[0]);
      StepCloser(s, es[0]);
      var k := SpinEnds(Step(s, es[0]), es[1..]);
      i := k + 1;
      assert es[..i][1..] == es[1..][..k];
    }
  }

  // ----- Success -----

  /** How many of the finished calls failed. */
  function Failed(log: seq<Done>): nat {
    if log == [] then 0 else Failed(log[..|log| - 1]) + (if log[|log| - 1].status == 0 then 0 else 1)
  }

  /** How many times the device gave a request up. */
  function GivenUp(es: seq<Event>): nat
    decreases es
  {
    if es == [] then 0 else (if es[0].Serve? && es[0].choice.Fail? then 1 else 0) + GivenUp(es[1..])
  }

  /** The call under way is going to fail. */
  predicate Doomed(s: State) {
    || (s.dev.phase.Moved? && s.dev.phase.result != 0)
    || ((s.dev.phase.Ended? || s.dev.phase == Posted) && s.req.status != 0)
    || (Rank(s.drv.pc) >= 9 && s.q.usedIdx == s.q.availIdx && s.req.status != 0)
  }

  function Failures(s: State): nat {
    Failed(s.drv.log) + if Doomed(s) then 1 else 0
  }

  lemma FailedNext(log: seq<Done>, d: Done)
    ensures Failed(log + [d]) == Failed(log) + if d.status == 0 then 0 else 1
  {
    assert (log + [d])[..|log|] == log;
  }

  /** The device accepts every request as the driver builds it: a read or write of the sector asked for. */
  lemma Accepted(s: State)
    requires Shaped(s) && Pending(s) && s.dev.phase.Fetched?
    ensures ServeStep(s, Go).dev.phase == Moving(0, if s.drv.call.isWrite then 1 else 0, s.drv.call.sector, 0)
  {
    ChainBuilt(s);
  }

  lemma FinishCounts(s: State)
    requires Shaped(s) && Inv(s) && s.drv.pc == Finish
    ensures Failures(DriveStep(s)) == Failures(s)
  {
    var t := DriveStep(s);
    FailedNext(s.drv.log, t.drv.log[|s.drv.log|]);
    assert Completed(s);
  }

  lemma BuildingDecidesNothing(s: State)
    requires Shaped(s) && Building(s) && 0 < Rank(s.drv.pc) < 9
    ensures DriveStep(s).drv.log == s.drv.log && !Doomed(DriveStep(s)) && !Doomed(s)
  {
  }

  lemma WaitingDecidesNothing(s: State)
    requires Shaped(s) && Sent(s) && 9 <= Rank(s.drv.pc) < 12
    ensures DriveStep(s).drv.log == s.drv.log && (Doomed(DriveStep(s)) <==> Doomed(s))
  {
  }

  lemma DriverFailsNone(s: State)
    requires Shaped(s) && Inv(s) && Enabled(s, Drive)
    ensures Failures(DriveStep(s)) == Failures(s)
  {
    if s.drv.pc == Finish {
      FinishCounts(s);
    } else if Rank(s.drv.pc) < 9 {
      BuildingDecidesNothing(s);
    } else {
      WaitingDecidesNothing(s);
    }
  }

  lemma ServeDooms(s: State, c: Choice)
    requires Shaped(s) && Pending(s) && Rank(s.drv.pc) >= 9 && ServeEnabled(s, c) && !s.dev.phase.Fetched?
    ensures Doomed(ServeStep(s, c)) <==> Doomed(s) || c.Fail?
    ensures c.Fail? ==> !Doomed(s)
  {
  }

  lemma DeviceFails(s: State, c: Choice)
    requires Shaped(s) && Inv(s) && ServeEnabled(s, c)
    ensures Failures(ServeStep(s, c)) == Failures(s) + if c.Fail? then 1 else 0
  {
    assert Pending(s);
    if s.dev.phase.Fetched? {
      Accepted(s);
    } else {
      ServeDooms(s, c);
    }
  }

  lemma InvokeFailsNone(s: State, call: Call)
    requires Shaped(s) && Inv(s) && Enabled(s, Invoke(call))
    ensures Failures(Step(s, Invoke(call))) == Failures(s)
  {
    assert Resting(s);
  }

  lemma StepFailures(s: State, e: Event)
    requires Shaped(s) && Inv(s) && Enabled(s, e)
    ensures Failures(Step(s, e)) == Failures(s) + if e.Serve? && e.choice.Fail? then 1 else 0
  {
    match e
    case Invoke(call) => InvokeFailsNone(s, call);
    case Drive => DriverFailsNone(s);
    case Serve(c) => DeviceFails(s, c);
  }

  lemma {:induction false} ExecFailures(s: State, es: seq<Event>)
    requires Shaped(s) && Inv(s) && Legal(s, es)
    ensures Failures(Exec(s, es)) == Failures(s) + GivenUp(es)
    decreases es
  {
    if es != [] {
      StepInv(s, es[0]);
      StepFailures(s, es[0]);
      ExecFailures(Step(s, es[0]), es[1..]);
    }
  }

  /** No request fails but by the device: between calls, as many have failed as the device gave up. */
  lemma FailuresAreTheDevices(s: State, es: seq<Event>)
    requires Shaped(s) && Fresh(s) && Legal(s, es)
    ensures var t := Exec(s, es); t.drv.pc == Ready ==> Failed(t.drv.log) == GivenUp(es)
  {
    FreshInv(s);
    ExecInv(s, es);
    ExecFailures(s, es);
  }

  lemma {:induction false} NoneFailed(log: seq<Done>, i: nat)
    requires Failed(log) == 0 && i < |log|
    ensures log[i].status == 0
  {
    if i < |log| - 1 {
      NoneFailed(log[..|log| - 1], i);
    }
  }

  /** What a call does when it succeeds. */
  predicate Succeeded(d: Done) {
    && d.status == 0 && d.call.sector < |d.before|
    && if d.call.isWrite then d.after == d.before[d.call.sector := d.call.buf] && d.buf == d.call.buf
       else d.after == d.before && d.buf == d.before[d.call.sector]
  }

  /** On a device that gives nothing up every call succeeds: a read returns the sector, and a write stores it. */
  lemma HealthyDisk(s: State, es: seq<Event>, i: nat)
    requires Shaped(s) && Fresh(s) && Legal(s, es) && GivenUp(es) == 0
    requires i < |Exec(s, es).drv.log|
    ensures Succeeded(Exec(s, es).drv.log[i])
  {
    FreshInv(s);
    ExecInv(s, es);
    ExecFailures(s, es);
    NoneFailed(Exec(s, es).drv.log, i);
  }

  // ----- The capacity -----

  /** The driver panics on exactly the sectors the device does not have, unless the capacity in bytes passes 64 bits. */
  lemma CapacityExact(n: nat)
    ensures Capacity(n) / SECTOR <= n
    ensures Capacity(n) / SECTOR == n <==> n < TWO64 / SECTOR
  {
    var m := TWO64 / SECTOR;
    ModScale(n, m, SECTOR);
    DivModUnique(n % m * SECTOR, SECTOR, n % m, 0);
    if n < m {
      DivModUnique(n, m, 0, n);
    }
  }
}
