/** `read_write_disk` as it runs: the driver's statements on the shared queue and request, beside a running device. */
module BlockDrivers {
  import opened Memories
  import opened Virtqueues

  /** The device looks at the shared memory only, never at where the driver is. */
  lemma ServeIgnoresDriver(s: State, drv: Driver, c: Choice)
    requires Shaped(s) && ServeEnabled(s, c)
    ensures var r := s.(drv := drv); Shaped(r) && ServeEnabled(r, c) && ServeStep(r, c) == ServeStep(s, c).(drv := drv)
  {
  }

  /** The device steps only when a request is out, and then it can, once it is notified. */
  lemma ServesWhenOut(s: State, c: Choice)
    requires Shaped(s) && Inv(s)
    ensures s.q.availIdx != s.q.usedIdx && Rank(s.drv.pc) >= 10 ==> ServeEnabled(s, Go)
    ensures ServeEnabled(s, c) ==> s.q.availIdx != s.q.usedIdx
  {
    if s.q.availIdx != s.q.usedIdx {
      ServeProgress(s);
    }
  }

  lemma ServeKeeps(s: State, c: Choice)
    requires Shaped(s) && Inv(s) && ServeEnabled(s, c)
    ensures var t := ServeStep(s, c);
      Inv(t) && t.q.lastUsed == s.q.lastUsed && t.q.availIdx == s.q.availIdx && Work(t) < Work(s)
    ensures !c.Fail? && !Doomed(s) ==> !Doomed(ServeStep(s, c))
  {
    DeviceFails(s, c);
    ServesWhenOut(s, c);
    ServeInv(s, c);
    ServeProgress(s);
  }

  /** A turn of the device: the step it chose if that is possible, else its normal one, if it has one to take. */
  function Turn(s: State, c: Choice): (t: State)
    requires Shaped(s)
    ensures Shaped(t) && t.drv == s.drv && t.capacity == s.capacity && t.at == s.at
  {
    if ServeEnabled(s, c) then ServeStep(s, c) else if ServeEnabled(s, Go) then ServeStep(s, Go) else s
  }

  lemma TurnIgnoresDriver(s: State, drv: Driver, c: Choice)
    requires Shaped(s)
    ensures Shaped(s.(drv := drv)) && Turn(s.(drv := drv), c) == Turn(s, c).(drv := drv)
  {
    if ServeEnabled(s, c) {
      ServeIgnoresDriver(s, drv, c);
    } else if ServeEnabled(s, Go) {
      ServeIgnoresDriver(s, drv, Go);
    }
  }

  /** A turn never goes back, and once the device is notified it gets nearer to the end. */
  lemma TurnKeeps(s: State, c: Choice)
    requires Shaped(s) && Inv(s)
    ensures var t := Turn(s, c); Inv(t) && t.q.lastUsed == s.q.lastUsed && t.q.availIdx == s.q.availIdx
    ensures s.q.availIdx != s.q.usedIdx && Rank(s.drv.pc) >= 10 ==> Work(Turn(s, c)) < Work(s)
    ensures s.q.availIdx == s.q.usedIdx ==> Turn(s, c) == s
    ensures !c.Fail? && !Doomed(s) ==> !Doomed(Turn(s, c))
  {
    ServesWhenOut(s, c);
    ServesWhenOut(s, Go);
    if ServeEnabled(s, c) {
      ServeKeeps(s, c);
    } else if ServeEnabled(s, Go) {
      ServeKeeps(s, Go);
    }
  }

  /** A device that gives no request up while the driver goes on, or while it spins. */
  ghost predicate Steady(turns: nat -> seq<Choice>) {
    forall n, i :: 0 <= i < |turns(n)| ==> !turns(n)[i].Fail?
  }

  ghost predicate SteadySpin(spin: nat -> Choice) {
    forall n :: !spin(n).Fail?
  }

  lemma LastIsAtomic(s: State, log: seq<Done>, d: Done)
    requires Shaped(s) && Inv(s) && s.drv.pc == Ready && s.drv.log == log + [d]
    ensures Atomic(d.before, d.call, d.status, d.buf, d.after)
    ensures s.q.availIdx == s.q.usedIdx == s.q.lastUsed
  {
    assert s.drv.log[|log|] == d;
  }

  const NO_DRIVER := Driver(Ready, Call(0, false, []), [], 0, [], [])

  class BlockDriver {
    var q: Queue          // *blk_request_vq
    var req: Request      // *blk_req
    var dev: Device
    const capacity: nat   // blk_capacity
    const at: nat         // blk_req_paddr
    ghost var drv: Driver

    ghost function Abs(): State
      reads this
    {
      State(q, req, dev, drv, capacity, at)
    }

    ghost predicate Valid()
      reads this
    {
      Shaped(Abs()) && Inv(Abs())
    }

    /** A zeroed queue and request over a device with these sectors. */
    constructor (disk: Disk, reqAt: nat)
      requires forall x :: 0 <= x < |disk| ==> |disk[x]| == 512
      ensures Valid() && Fresh(Abs()) && dev.disk == disk && at == reqAt
      ensures |disk| < 0x80_0000_0000_0000 ==> capacity / 512 == |disk|
      ensures fresh(this)
    {
      var none, unused := Desc(0, 0, 0, 0), UsedElem(0, 0);
      q := Queue(seq(ENTRIES, _ => none), seq(ENTRIES, _ => 0), 0, seq(ENTRIES, _ => unused), 0, 0);
      req := Request(0, 0, seq(SECTOR, _ => 0), 0);
      dev := Device(Waiting, 0, disk, false);
      capacity, at := Capacity(|disk|), reqAt;
      drv := Driver(Ready, Call(0, false, []), [], 0, disk, []);
      new;
      CapacityExact(|disk|);
      FreshInv(Abs());
    }

    /** A turn of the device, on the shared memory alone. */
    method Serve(c: Choice)
      requires Valid()
      modifies this`q, this`req, this`dev
      ensures Valid() && Abs() == Turn(old(Abs()), c)
      ensures q.lastUsed == old(q.lastUsed) && q.availIdx == old(q.availIdx)
      ensures old(q.availIdx != q.usedIdx) && Rank(drv.pc) >= 10 ==> Work(Abs()) < Work(old(Abs()))
      ensures old(q.availIdx == q.usedIdx) ==> Abs() == old(Abs())
      ensures !c.Fail? && !old(Doomed(Abs())) ==> !Doomed(Abs())
    {
      TurnKeeps(Abs(), c);
      TurnIgnoresDriver(Abs(), NO_DRIVER, c);
      var t := Turn(State(q, req, dev, NO_DRIVER, capacity, at), c);
      q, req, dev := t.q, t.req, t.dev;
    }

    /** The device takes some steps between two statements of the driver. */
    method Turns(cs: seq<Choice>)
      requires Valid()
      modifies this`q, this`req, this`dev
      ensures Valid() && q.lastUsed == old(q.lastUsed) && q.availIdx == old(q.availIdx)
      ensures old(q.availIdx == q.usedIdx) ==> Abs() == old(Abs())
      ensures !old(Doomed(Abs())) && (forall i :: 0 <= i < |cs| ==> !cs[i].Fail?) ==> !Doomed(Abs())
    {
      for i := 0 to |cs|
        invariant Valid() && q.lastUsed == old(q.lastUsed) && q.availIdx == old(q.availIdx)
        invariant !old(Doomed(Abs())) && (forall j :: 0 <= j < i ==> !cs[j].Fail?) ==> !Doomed(Abs())
        invariant old(q.availIdx == q.usedIdx) ==> Abs() == old(Abs())
      {
        Serve(cs[i]);
      }
    }

    /** "Build request". */
    method BuildRequest(sector: nat, isWrite: bool, buf: seq<Byte>)
      requires Valid() && drv.pc == SetSector && drv.call == Call(sector, isWrite, buf) && |buf| == SECTOR
      modifies this`req, this`drv
      ensures Valid() && drv == old(drv).(pc := Desc0)
    {
      FillInv(Abs());
      req := req.(sector := sector);
      drv := drv.(pc := SetType);
      FillInv(Abs());
      req := req.(kind := if isWrite then T_OUT else T_IN);
      drv := drv.(pc := CopyIn);
      FillInv(Abs());
      if isWrite {
        req := req.(data := buf);
      }
      drv := drv.(pc := Desc0);
    }

    /** "Build virtqueue descriptors". */
    method BuildDescriptors(isWrite: bool)
      requires Valid() && drv.pc == Desc0 && drv.call.isWrite == isWrite
      modifies this`q, this`drv
      ensures Valid() && drv == old(drv).(pc := PutRing) && q.availIdx == old(q.availIdx)
    {
      SetDesc(0, Desc(at, HEADER_LEN, F_NEXT, 1));
      SetDesc(1, Desc(at + DATA_AT, SECTOR, if isWrite then F_NEXT else F_NEXT + F_WRITE, 2));
      SetDesc(2, Desc(at + STATUS_AT, 1, F_WRITE, q.descs[2].next));
    }

    /** `vq->buffers[i] = d`, at the statement that is to do it. */
    method SetDesc(i: nat, d: Desc)
      requires Valid() && 4 <= Rank(drv.pc) < 7 && i == Rank(drv.pc) - 4
      requires DriveStep(Abs()).q.descs[i] == d
      modifies this`q, this`drv
      ensures Valid() && Abs() == DriveStep(old(Abs()))
    {
      DescribeInv(Abs());
      q := q.(descs := q.descs[i := d]);
      drv := drv.(pc := match drv.pc case Desc0 => Desc1 case Desc1 => Desc2 case _ => PutRing);
    }

    /** `virtq_kick(0)`, with the device at work as soon as the available index has moved. */
    method VirtqKick(turns: nat -> seq<Choice>)
      requires Valid() && drv.pc == PutRing
      modifies this`q, this`req, this`dev, this`drv
      ensures Valid() && drv == old(drv).(pc := Spin, sent := old(q.availIdx))
      ensures q.availIdx == q.lastUsed == Next16(old(q.availIdx)) && (Steady(turns) ==> !Doomed(Abs()))
    {
      Publish();
      Turns(turns(0));
      RingBell();
      Turns(turns(1));
      CountSent();
    }

    /** The write to the notification register. */
    method RingBell()
      requires Valid() && drv.pc == Notify
      modifies this`dev, this`drv
      ensures Valid() && drv == old(drv).(pc := BumpLast) && dev == old(dev).(notified := true)
      ensures Doomed(Abs()) <==> old(Doomed(Abs()))
    {
      NotifyInv(Abs());
      dev := dev.(notified := true);
      drv := drv.(pc := BumpLast);
    }

    method CountSent()
      requires Valid() && drv.pc == BumpLast
      modifies this`q, this`drv
      ensures Valid() && drv == old(drv).(pc := Spin) && q == old(q).(lastUsed := Next16(old(q.lastUsed)))
      ensures Doomed(Abs()) <==> old(Doomed(Abs()))
    {
      CountInv(Abs());
      q := q.(lastUsed := Next16(q.lastUsed));
      drv := drv.(pc := Spin);
    }

    method Publish()
      requires Valid() && drv.pc == PutRing
      modifies this`q, this`drv
      ensures Valid() && drv == old(drv).(pc := Notify, sent := old(q.availIdx))
      ensures q.availIdx == Next16(old(q.availIdx)) && q.lastUsed == old(q.availIdx) && !Doomed(Abs())
    {
      PutInv(Abs());
      q := q.(ring := q.ring[q.availIdx % ENTRIES := 0]);
      drv := drv.(pc := BumpAvail);
      SendInv(Abs());
      drv := drv.(pc := Notify, sent := q.availIdx);
      q := q.(availIdx := Next16(q.availIdx));
    }

    /** `virtq_is_busy`. */
    method VirtqIsBusy() returns (busy: bool)
      requires Valid() && drv.pc == Spin
      ensures busy <==> !Completed(Abs())
    {
      SpinIsExact(Abs());
      busy := q.lastUsed != q.usedIdx;
    }

    /** The spin loop. The device takes at least one step for each time round. */
    method Wait(turns: nat -> Choice)
      requires Valid() && drv.pc == Spin
      modifies this`q, this`req, this`dev, this`drv
      ensures Valid() && drv == old(drv).(pc := Finish) && q.availIdx == old(q.availIdx)
      ensures SteadySpin(turns) && !old(Doomed(Abs())) ==> req.status == 0
    {
      var busy := VirtqIsBusy();
      var round := 0;
      while busy
        invariant Valid() && drv == old(drv) && q.availIdx == old(q.availIdx)
        invariant busy <==> !Completed(Abs())
        invariant SteadySpin(turns) && !old(Doomed(Abs())) ==> !Doomed(Abs())
        decreases busy, Work(Abs())
      {
        Serve(turns(round));
        round := round + 1;
        busy := VirtqIsBusy();
      }
      Leave();
    }

    /** The end of the spin loop. */
    ghost method Leave()
      requires Valid() && drv.pc == Spin && Completed(Abs())
      modifies this`drv
      ensures Valid() && drv == old(drv).(pc := Finish) && (req.status == 0 <==> !old(Doomed(Abs())))
    {
      SpinIsExact(Abs());
      PollInv(Abs());
      drv := drv.(pc := Finish);
    }

    /** What follows the spin: a failed request leaves the buffer alone, a read fills it. */
    method Collect(buf: array<Byte>, isWrite: bool)
      requires Valid() && drv.pc == Finish && buf.Length == SECTOR
      requires drv.call.isWrite == isWrite && drv.call.buf == buf[..]
      modifies buf, this`drv
      ensures Valid() && drv.pc == Ready
      ensures Atomic(old(drv.before), old(drv.call), req.status, buf[..], dev.disk)
      ensures q == old(q) && q.availIdx == q.usedIdx == q.lastUsed
    {
      ghost var log := drv.log;
      FinishInv(Abs());
      if req.status == 0 && !isWrite {
        CopyOut(buf);
      }
      ghost var done := Done(drv.call, req.status, buf[..], drv.before, dev.disk);
      drv := drv.(pc := Ready, log := log + [done]);
      LastIsAtomic(Abs(), log, done);
    }

    /** `memcpy(buf, blk_req->data, SECTOR_SIZE)`. */
    method CopyOut(buf: array<Byte>)
      requires buf.Length == SECTOR && |req.data| == SECTOR
      modifies buf
      ensures buf[..] == req.data
    {
      for i := 0 to SECTOR
        invariant buf[..i] == req.data[..i]
      {
        buf[i] := req.data[i];
      }
    }

    /**
     `read_write_disk`: an atomic read or write of one sector, whatever the device does meanwhile, with the queue left
     idle and its indices one further. It panics, with nothing changed, on a sector beyond the capacity. On a device
     that gives nothing up it succeeds.
     */
    method ReadWriteDisk(buf: array<Byte>, sector: nat, isWrite: bool, turns: nat -> seq<Choice>, spin: nat -> Choice)
      returns (panicked: bool)
      requires Valid() && drv.pc == Ready && buf.Length == SECTOR
      modifies this, buf
      ensures Valid() && (panicked <==> sector >= capacity / 512)
      ensures panicked ==> Abs() == old(Abs()).(drv := drv) && buf[..] == old(buf[..])
      ensures !panicked ==> drv.pc == Ready && sector < |old(dev.disk)|
      ensures !panicked ==> Atomic(old(dev.disk), Call(sector, isWrite, old(buf[..])), req.status, buf[..], dev.disk)
      ensures !panicked ==> q.availIdx == q.usedIdx == q.lastUsed == Next16(old(q.availIdx))
      ensures !panicked && Steady(turns) && SteadySpin(spin) ==> req.status == 0
    {
      Begin(Call(sector, isWrite, buf[..]));
      if sector >= capacity / SECTOR {
        return true;
      }
      panicked := false;
      Transfer(buf, sector, isWrite, turns, spin);
    }

    /** `read_write_disk` once the sector is known to exist. */
    method Transfer(buf: array<Byte>, sector: nat, isWrite: bool, turns: nat -> seq<Choice>, spin: nat -> Choice)
      requires Valid() && drv.pc == SetSector && buf.Length == SECTOR && drv.call == Call(sector, isWrite, buf[..])
      modifies this, buf
      ensures Valid() && drv.pc == Ready
      ensures Atomic(old(drv.before), old(drv.call), req.status, buf[..], dev.disk)
      ensures q.availIdx == q.usedIdx == q.lastUsed == Next16(old(q.availIdx))
      ensures Steady(turns) && SteadySpin(spin) ==> req.status == 0
    {
      Send(sector, isWrite, buf[..], turns);
      Wait(spin);
      Collect(buf, isWrite);
    }

    /** The request is built and kicked. */
    method Send(sector: nat, isWrite: bool, buf: seq<Byte>, turns: nat -> seq<Choice>)
      requires Valid() && drv.pc == SetSector && |buf| == SECTOR && drv.call == Call(sector, isWrite, buf)
      modifies this`q, this`req, this`dev, this`drv
      ensures Valid() && drv == old(drv).(pc := Spin, sent := old(q.availIdx))
      ensures q.availIdx == Next16(old(q.availIdx)) && (Steady(turns) ==> !Doomed(Abs()))
    {
      Build(sector, isWrite, buf);
      VirtqKick(turns);
    }

    /** The request is built, and its chain. */
    method Build(sector: nat, isWrite: bool, buf: seq<Byte>)
      requires Valid() && drv.pc == SetSector && drv.call == Call(sector, isWrite, buf) && |buf| == SECTOR
      modifies this`q, this`req, this`drv
      ensures Valid() && drv == old(drv).(pc := PutRing) && q.availIdx == old(q.availIdx)
    {
      BuildRequest(sector, isWrite, buf);
      BuildDescriptors(isWrite);
    }

    /** The call itself: from here on the driver is at its first statement, or has panicked. */
    ghost method Begin(call: Call)
      requires Valid() && drv.pc == Ready && |call.buf| == SECTOR
      modifies this`drv
      ensures Valid()
      ensures call.sector >= capacity / SECTOR ==> drv == old(drv).(pc := Panicked)
      ensures call.sector < capacity / SECTOR ==> drv == old(drv).(pc := SetSector, call := call, before := dev.disk)
    {
      InvokeInv(Abs(), call);
      drv := Step(Abs(), Invoke(call)).drv;
    }
  }
}
