/** The dmaengine driver's channel (`drivers/dma/avalon/avalon-core.c`):
    slave-sg descriptors over an indexed segment array, the virt-dma queues
    they pass through, the active descriptor, the two direction markers, and
    the start, interrupt and issue steps run under the channel lock. The
    virt-dma lists are FIFOs of descriptors; a descriptor is the head of
    `issued` while the controller works on it. */
module DmaEngine {
  import opened Common
  import opened HwDesc
  import opened Encoder
  import opened SgList
  import opened EnginePacker

  /** `enum dma_transfer_direction`, as a slave-sg client passes it. */
  datatype TransferDirection = MemToMem | MemToDev | DevToMem | DevToDev

  /** `prep_slave_sg` stores the transfer direction in an
      `enum dma_data_direction` field. The two enumerations share their
      values, so MEM_TO_DEV reads as DMA_TO_DEVICE and DEV_TO_MEM as
      DMA_FROM_DEVICE. */
  function DataDirection(t: TransferDirection): (d: Direction)
    ensures ValidDirection(d) <==> t == MemToDev || t == DevToMem
    ensures d == ToDevice <==> t == MemToDev
    ensures d == FromDevice <==> t == DevToMem
  {
    match t
    case MemToMem => Bidirectional
    case MemToDev => ToDevice
    case DevToMem => FromDevice
    case DevToDev => NoDirection
  }

  /** `struct avalon_dma_desc`: direction, device address, the segment
      array and the resumption cursor (segment index, offset). */
  datatype Desc = Desc(dir: Direction, dev: u64, segs: seq<Segment>, cur: nat, off: nat)

  /** `struct avalon_dma_hw`: the `rd` table (to-device transfers) and the
      `wr` table (from-device ones) with their bus addresses, the end-point
      addresses of both directions (build-time configuration values), and
      the log of MMIO writes to the control blocks at `ctrlBase`. */
  datatype ChanHw = ChanHw(rd: Table, wr: Table, rdBus: u64, wrBus: u64, ctrlBase: nat,
                           rdEpHi: u32, rdEpLo: u32, wrEpHi: u32, wrEpLo: u32,
                           regs: seq<RegWrite>)

  /** `struct avalon_dma_chan`: the slave configuration, the virt-dma
      submitted, issued and completed lists, whether `active_desc` is set
      (it is then the head of `issued`), the markers `h2d_last_id` and
      `d2h_last_id` (-1 is idle), and the hardware. */
  datatype Chan = Chan(srcAddr: u64, dstAddr: u64,
                       submitted: seq<Desc>, issued: seq<Desc>, completed: seq<Desc>,
                       active: bool, h2d: int, d2h: int, hw: ChanHw)

  /** The active descriptor, when set, is the head of `issued`. */
  predicate ActiveHead(c: Chan)
  {
    c.active ==> |c.issued| > 0
  }

  /** The markers: each is -1 or a table slot, at most one is armed, and an
      armed marker belongs to the active descriptor of its direction, whose
      cursor is in range. */
  predicate Markers(c: Chan)
    requires ActiveHead(c)
  {
    && -1 <= c.h2d < DescNum && -1 <= c.d2h < DescNum
    && (c.h2d < 0 || c.d2h < 0)
    && (c.h2d >= 0 ==> c.active && c.issued[0].dir == ToDevice)
    && (c.d2h >= 0 ==> c.active && c.issued[0].dir == FromDevice)
    && (c.h2d >= 0 || c.d2h >= 0 ==> ValidCursor(c.issued[0].segs, c.issued[0].cur, c.issued[0].off))
  }

  /** The channel invariant. */
  predicate Inv(c: Chan)
  {
    ActiveHead(c) && Markers(c)
  }

  /** A descriptor the controller can start: a programmable direction,
      positive segments and an unfinished, in-range cursor. */
  predicate Pending(d: Desc)
  {
    && ValidDirection(d.dir) && AllPositive(d.segs)
    && ValidCursor(d.segs, d.cur, d.off) && !Complete(d.segs, d.cur, d.off)
  }

  /** A descriptor the controller works on: its cursor may be at the end. */
  predicate InFlight(d: Desc)
  {
    ValidDirection(d.dir) && AllPositive(d.segs) && ValidCursor(d.segs, d.cur, d.off)
  }

  /** The channel invariant for well-behaved clients: everything waiting is
      startable, the channel is busy exactly when something was issued, and
      busy means armed. */
  predicate Sound(c: Chan)
  {
    && Inv(c)
    && (forall k :: 0 <= k < |c.submitted| ==> Pending(c.submitted[k]))
    && (forall k :: 1 <= k < |c.issued| ==> Pending(c.issued[k]))
    && (c.active <==> c.issued != [])
    && (c.active ==> InFlight(c.issued[0]) && (c.h2d >= 0 || c.d2h >= 0))
  }

  /** The bytes of a descriptor not yet handed to the controller. */
  function Remaining(d: Desc): int
    requires d.cur <= |d.segs|
  {
    SumLens(d.segs) - Pos(d.segs, d.cur, d.off)
  }

  /** `avalon_dma_init` on success: nothing active, both markers idle, and
      `vchan_init` leaves the lists empty. */
  function Init(hw: ChanHw): (c: Chan)
    ensures Sound(c)
    ensures c.submitted == [] && c.issued == [] && c.completed == []
    ensures !c.active && c.h2d == -1 && c.d2h == -1
  {
    Chan(0, 0, [], [], [], false, -1, -1, hw)
  }

  /** `avalon_dma_device_config`: the slave addresses for later preps. */
  function Config(c: Chan, src: u64, dst: u64): (t: Chan)
    ensures t.srcAddr == src && t.dstAddr == dst
    ensures t == c.(srcAddr := t.srcAddr, dstAddr := t.dstAddr)
  {
    c.(srcAddr := src, dstAddr := dst)
  }

  /** `avalon_dma_prep_slave_sg`: a memory-to-device transfer targets the
      configured destination, a device-to-memory one the configured source;
      any other direction, and a failed allocation (`allocOk` false), give
      no descriptor. The cursor starts at the first segment, offset 0. */
  function PrepSlaveSg(c: Chan, segs: seq<Segment>, dir: TransferDirection,
                       allocOk: bool): (r: Option<Desc>)
    ensures r.Some? <==> (dir == MemToDev || dir == DevToMem) && allocOk
    ensures r.Some? ==>
              && r.value.segs == segs && ValidDirection(r.value.dir)
              && (r.value.dir == ToDevice <==> dir == MemToDev)
              && (dir == MemToDev ==> r.value.dev == c.dstAddr)
              && (dir == DevToMem ==> r.value.dev == c.srcAddr)
              && r.value.cur == 0 && r.value.off == 0
  {
    if dir == MemToDev || dir == DevToMem then
      var dev := if dir == MemToDev then c.dstAddr else c.srcAddr;
      if !allocOk then None
      else Some(Desc(DataDirection(dir), dev, segs, 0, 0))
    else None
  }

  /** A prepared descriptor over a non-empty array of positive segments is
      startable, with every byte of the array still to send. */
  lemma PrepPending(c: Chan, segs: seq<Segment>, dir: TransferDirection, allocOk: bool)
    requires PrepSlaveSg(c, segs, dir, allocOk).Some?
    requires |segs| > 0 && AllPositive(segs)
    ensures Pending(PrepSlaveSg(c, segs, dir, allocOk).value)
    ensures Remaining(PrepSlaveSg(c, segs, dir, allocOk).value) == SumLens(segs)
  {
    assert segs[..0] == [];
  }

  /** `vchan_tx_submit`: the descriptor joins the tail of the submitted
      list. */
  function Submit(c: Chan, d: Desc): (t: Chan)
    ensures t.submitted == c.submitted + [d]
    ensures t == c.(submitted := t.submitted)
  {
    c.(submitted := c.submitted + [d])
  }

  /** Submitting keeps the invariant, and a startable descriptor keeps a
      sound channel sound. */
  lemma SubmitSound(c: Chan, d: Desc)
    ensures Inv(c) ==> Inv(Submit(c, d))
    ensures Sound(c) && Pending(d) ==> Sound(Submit(c, d))
  {
  }

  /** What `setup_dma_descs` leaves behind: the chunks written from slot 0
      on, and the descriptor with its cursor moved past them. */
  datatype Packed = Packed(chunks: seq<Extent>, desc: Desc)

  /** `setup_dma_descs`: packs the table from the descriptor's cursor; a
      pack that wrote nothing is a BUG_ON, an error is returned with the
      cursor unchanged, and otherwise the cursor moves to where packing
      stopped. */
  function SetupDmaDescs(d: Desc): (r: Result<Packed>)
    ensures r.Err? && r.error != Inval ==> r.error == Fatal
    ensures !ValidDirection(d.dir) || !ValidCursor(d.segs, d.cur, d.off) ==> r == Err(Inval)
    ensures ValidDirection(d.dir) && ValidCursor(d.segs, d.cur, d.off) && Complete(d.segs, d.cur, d.off)
            ==> r == Err(Fatal)
    ensures Pending(d) ==> r.Ok?
    ensures r.Ok? ==>
              var (cs, e) := (r.value.chunks, r.value.desc);
              && e == d.(cur := e.cur, off := e.off)
              && ValidCursor(d.segs, e.cur, e.off)
              && Pos(d.segs, e.cur, e.off) == Pos(d.segs, d.cur, d.off) + Bytes(cs)
              && 1 <= |cs| <= DescNum && FromSlotZero(cs)
              && (|cs| < DescNum ==> Complete(d.segs, e.cur, e.off))
  {
    var o :- EngineSetupDescsSg(d.segs, 0, d.dir, d.dev, d.cur, d.off);
    if o.nr == 0 then Err(Fatal)
    else
      EnginePackAdvances(d.segs, 0, d.dir, d.dev, d.cur, d.off);
      var c := Advance(d.cur, d.off, o.stop, o.done);
      Ok(Packed(Flatten(o.pieces), d.(cur := c.0, off := c.1)))
  }

  /** Packing a startable descriptor hands the controller at least one more
      byte and never overshoots: the bytes left strictly decrease, so a
      transfer completes after finitely many interrupts. */
  lemma {:induction false} SetupProgress(d: Desc)
    requires Pending(d)
    ensures SetupDmaDescs(d).Ok?
    ensures var e := SetupDmaDescs(d).value.desc;
            InFlight(e) && 0 <= Remaining(e) < Remaining(d)
  {
    EnginePackProgress(d.segs, 0, d.dir, d.dev, d.cur, d.off);
    var e := SetupDmaDescs(d).value.desc;
    PosCompleteIff(d.segs, e.cur, e.off);
  }

  /** What one start leaves behind: the channel, and the error
      `start_dma_xfer` returned, if any. */
  datatype Outcome = Outcome(chan: Chan, ret: Option<Error>)

  /** The table of a direction with its done flags cleared, as the start
      path does before packing, even when packing then fails. */
  function ClearFlags(c: Chan, dir: Direction): (t: Chan)
    ensures t == c.(hw := t.hw)
    ensures t.hw.regs == c.hw.regs
    ensures dir == ToDevice ==> t.hw.rd.flags == {} && t.hw.wr == c.hw.wr
    ensures dir != ToDevice ==> t.hw.wr.flags == {} && t.hw.rd == c.hw.rd
  {
    if dir == ToDevice then c.(hw := c.hw.(rd := c.hw.rd.(flags := {})))
    else c.(hw := c.hw.(wr := c.hw.wr.(flags := {})))
  }

  /** `start_dma_xfer` after `setup_dma_descs` succeeded: the head of
      `issued` takes its moved cursor, the marker of its direction is armed
      with the last slot, and the control block of that direction is given
      the table. To-device transfers use the `rd` table, control block,
      end point and `h2d_last_id`; from-device ones the `wr` ones and
      `d2h_last_id`. */
  function Arm(c: Chan, p: Packed): (t: Chan)
    requires |c.issued| > 0 && |p.chunks| >= 1
    ensures t.issued == [p.desc] + c.issued[1..]
    ensures t.submitted == c.submitted && t.completed == c.completed && t.active == c.active
    ensures t.srcAddr == c.srcAddr && t.dstAddr == c.dstAddr
    ensures if c.issued[0].dir == ToDevice then t.h2d == |p.chunks| - 1 && t.d2h == c.d2h
            else t.d2h == |p.chunks| - 1 && t.h2d == c.h2d
  {
    var last := |p.chunks| - 1;
    var hw := c.hw;
    var u := c.(issued := [p.desc] + c.issued[1..]);
    if c.issued[0].dir == ToDevice then
      u.(h2d := last, hw := hw.(rd := Reload(hw.rd, p.chunks),
                                regs := hw.regs + StartXfer(hw.ctrlBase, RdCtrlOffset, hw.rdBus,
                                                            hw.rdEpHi, hw.rdEpLo, last)))
    else
      u.(d2h := last, hw := hw.(wr := Reload(hw.wr, p.chunks),
                                regs := hw.regs + StartXfer(hw.ctrlBase, WrCtrlOffset, hw.wrBus,
                                                            hw.wrEpHi, hw.wrEpLo, last)))
  }

  /** What `Arm` tells the controller: the table of the descriptor's
      direction has its done flags cleared and holds the chunks from slot 0
      on, the other table is untouched, and the six writes of `start_xfer`
      give the control block of that direction the table's bus address, the
      configured end point and the last slot. */
  lemma ArmHw(c: Chan, p: Packed)
    requires |c.issued| > 0 && |p.chunks| >= 1
    ensures var (t, last) := (Arm(c, p), |p.chunks| - 1);
            if c.issued[0].dir == ToDevice
            then && t.hw.wr == c.hw.wr
                 && t.hw.rd.flags == {} && t.hw.rd.descs == Store(c.hw.rd.descs, p.chunks)
                 && t.hw.regs == c.hw.regs + StartXfer(c.hw.ctrlBase, RdCtrlOffset, c.hw.rdBus,
                                                       c.hw.rdEpHi, c.hw.rdEpLo, last)
            else && t.hw.rd == c.hw.rd
                 && t.hw.wr.flags == {} && t.hw.wr.descs == Store(c.hw.wr.descs, p.chunks)
                 && t.hw.regs == c.hw.regs + StartXfer(c.hw.ctrlBase, WrCtrlOffset, c.hw.wrBus,
                                                       c.hw.wrEpHi, c.hw.wrEpLo, last)
  {
  }

  /** `start_dma_xfer` on the head of `issued`. A direction other than
      to/from the device is a BUG(), as is a pack that wrote nothing; a
      packing error is returned with only the flags cleared; otherwise the
      table is armed. */
  function Start(c: Chan): (r: Result<Outcome>)
    requires |c.issued| > 0
    ensures r.Err? ==> r.error == Fatal
    ensures r.Err? <==> !ValidDirection(c.issued[0].dir) || SetupDmaDescs(c.issued[0]) == Err(Fatal)
    ensures Pending(c.issued[0]) ==> r.Ok? && r.value.ret.None?
    ensures r.Ok? && r.value.ret.Some? ==>
              && r.value.ret.value == Inval
              && r.value.chan == ClearFlags(c, c.issued[0].dir)
    ensures r.Ok? && r.value.ret.None? ==>
              && SetupDmaDescs(c.issued[0]).Ok?
              && r.value.chan == Arm(ClearFlags(c, c.issued[0].dir), SetupDmaDescs(c.issued[0]).value)
  {
    var d := c.issued[0];
    if !ValidDirection(d.dir) then Err(Fatal)
    else
      var u := ClearFlags(c, d.dir);
      match SetupDmaDescs(d)
      case Err(e) =>
        if e == Fatal then Err(Fatal) else Ok(Outcome(u, Some(e)))
      case Ok(p) =>
        Ok(Outcome(Arm(u, p), None))
  }

  /** Starting a startable head succeeds: the head is then in flight, the
      marker of its direction is armed, and nothing else in the queues
      changes. */
  lemma StartPending(c: Chan) returns (t: Chan)
    requires |c.issued| > 0 && Pending(c.issued[0])
    ensures Start(c) == Ok(Outcome(t, None))
    ensures && |t.issued| == |c.issued| && t.issued[1..] == c.issued[1..]
            && InFlight(t.issued[0]) && t.issued[0].dir == c.issued[0].dir
            && Remaining(t.issued[0]) < Remaining(c.issued[0])
            && t.submitted == c.submitted && t.completed == c.completed && t.active == c.active
            && (if c.issued[0].dir == ToDevice then t.h2d >= 0 && t.d2h == c.d2h
                else t.d2h >= 0 && t.h2d == c.h2d)
  {
    SetupProgress(c.issued[0]);
    t := Start(c).value.chan;
    var p := SetupDmaDescs(c.issued[0]).value;
    assert t == Arm(ClearFlags(c, c.issued[0].dir), p);
    assert t.issued == [p.desc] + c.issued[1..];
  }

  /** A start of the head of an idle channel keeps the invariant: when it
      fails nothing is armed, and when it succeeds the armed marker belongs
      to the head, whose cursor stays in range. */
  lemma StartInv(c: Chan)
    requires Inv(c) && |c.issued| > 0 && c.h2d < 0 && c.d2h < 0 && Start(c).Ok?
    ensures var o := Start(c).value;
            && (o.ret.Some? ==> Inv(o.chan))
            && (o.ret.None? ==> Inv(o.chan.(active := true)))
            && o.chan.submitted == c.submitted && o.chan.completed == c.completed
            && |o.chan.issued| == |c.issued| && o.chan.issued[1..] == c.issued[1..]
            && o.chan.active == c.active
  {
    var o := Start(c).value;
    if o.ret.None? {
      var p := SetupDmaDescs(c.issued[0]).value;
      assert o.chan.issued == [p.desc] + c.issued[1..];
    }
  }

  /** `is_desc_complete` on the active descriptor. */
  function IsDescComplete(d: Desc): (r: Result<bool>)
    requires d.cur < |d.segs|
    ensures r.Err? ==> r.error == Fatal
    ensures r == Ok(true) <==> Complete(d.segs, d.cur, d.off)
  {
    SgDone(d.segs, d.cur, d.off)
  }

  /** For a descriptor the controller works on, `is_desc_complete` never
      hits its BUG_ON, and reports done exactly when no byte is left. */
  lemma CompleteIffNothingLeft(d: Desc)
    requires InFlight(d)
    ensures IsDescComplete(d).Ok?
    ensures IsDescComplete(d).value <==> Remaining(d) == 0
    ensures Remaining(d) >= 0
  {
    PosCompleteIff(d.segs, d.cur, d.off);
  }

  /** The polling loop of the handler has ended: the controller set the
      done flag of the last slot of every armed table. */
  predicate Polled(c: Chan)
  {
    && (c.h2d >= 0 ==> c.h2d in c.hw.rd.flags)
    && (c.d2h >= 0 ==> c.d2h in c.hw.wr.flags)
  }

  /** The completed active descriptor leaves `issued` with direction NONE
      for the tail of the completed list (`list_del` and
      `vchan_cookie_complete`); the next issued one, if any, is active. */
  function Retire(c: Chan): (t: Chan)
    requires |c.issued| > 0
    ensures t.issued == c.issued[1..]
    ensures t.completed == c.completed + [c.issued[0].(dir := NoDirection)]
    ensures t.active <==> |c.issued| > 1
    ensures t == c.(issued := t.issued, completed := t.completed, active := t.active)
  {
    var d := c.issued[0];
    c.(issued := c.issued[1..], completed := c.completed + [d.(dir := NoDirection)],
       active := |c.issued| > 1)
  }

  /** What the handler did: the channel and whether it returned
      IRQ_HANDLED. */
  datatype Irq = Irq(chan: Chan, handled: bool)

  /** `avalon_dma_interrupt` after its polling loop. With both markers idle
      the interrupt is not the channel's (IRQ_NONE). Otherwise both markers
      are reset; the active descriptor (a BUG_ON if there is none) is
      retired when complete, and whichever descriptor is then active is
      started again, the start's error being ignored. */
  function Interrupt(c: Chan): (r: Result<Irq>)
    requires Inv(c) && Polled(c)
    ensures r.Err? ==> r.error == Fatal
    ensures c.h2d < 0 && c.d2h < 0 ==> r == Ok(Irq(c, false))
    ensures (c.h2d >= 0 || c.d2h >= 0) && r.Ok? ==> r.value.handled && c.active
  {
    if c.h2d < 0 && c.d2h < 0 then Ok(Irq(c, false))
    else
      var c1 := c.(h2d := -1, d2h := -1);
      if !c.active then Err(Fatal)
      else
        var d := c.issued[0];
        match IsDescComplete(d)
        case Err(e) => Err(e)
        case Ok(done) =>
          var c2 := if done then Retire(c1) else c1;
          if c2.active then
            var o :- Start(c2);
            Ok(Irq(o.chan, true))
          else
            Ok(Irq(c2, true))
  }

  /** The queues after a handled interrupt: a complete active descriptor
      reaches the completed list exactly once, with direction NONE, and
      leaves `issued`; an incomplete one stays at the head of `issued`. The
      submitted list is untouched and no marker stays armed unless the
      restart armed it. */
  lemma IrqQueues(c: Chan)
    requires Inv(c) && Polled(c) && (c.h2d >= 0 || c.d2h >= 0) && Interrupt(c).Ok?
    ensures var (t, d) := (Interrupt(c).value.chan, c.issued[0]);
            && t.submitted == c.submitted
            && (Complete(d.segs, d.cur, d.off) ==>
                  && t.completed == c.completed + [d.(dir := NoDirection)]
                  && |t.issued| == |c.issued| - 1
                  && (|c.issued| > 1 ==> t.issued[1..] == c.issued[2..])
                  && (t.active <==> |c.issued| > 1))
            && (!Complete(d.segs, d.cur, d.off) ==>
                  && t.completed == c.completed && t.active
                  && |t.issued| == |c.issued| && t.issued[1..] == c.issued[1..])
  {
    var c1 := c.(h2d := -1, d2h := -1);
    var d := c.issued[0];
    var done := IsDescComplete(d).value;
    var c2 := if done then Retire(c1) else c1;
    if c2.active {
      StartInv(c2);
    }
  }

  /** `avalon_dma_interrupt` keeps the channel invariant, also when the
      restart whose result it ignores fails. */
  lemma IrqInv(c: Chan)
    requires Inv(c) && Polled(c) && Interrupt(c).Ok?
    ensures Inv(Interrupt(c).value.chan)
  {
    if c.h2d >= 0 || c.d2h >= 0 {
      var c1 := c.(h2d := -1, d2h := -1);
      var done := IsDescComplete(c.issued[0]).value;
      var c2 := if done then Retire(c1) else c1;
      if c2.active {
        StartInv(c2);
        var o := Start(c2).value;
        if o.ret.None? {
          assert o.chan.(active := true) == o.chan;
        }
      }
    }
  }

  /** On a sound channel whose armed table completed, the handler never hits
      a BUG and its ignored restart never fails: the active descriptor is
      retired or restarted, whichever descriptor is then active is armed
      again, and the channel stays sound. */
  lemma IrqSound(c: Chan)
    requires Sound(c) && Polled(c) && (c.h2d >= 0 || c.d2h >= 0)
    ensures Interrupt(c).Ok? && Interrupt(c).value.handled
    ensures Sound(Interrupt(c).value.chan)
  {
    var d := c.issued[0];
    CompleteIffNothingLeft(d);
    if IsDescComplete(d).value {
      IrqSoundRetire(c);
    } else {
      var t := StartPending(c.(h2d := -1, d2h := -1));
      assert Interrupt(c) == Ok(Irq(t, true));
    }
  }

  /** The retiring half of `IrqSound`: the next issued descriptor, if any,
      is started and armed. */
  lemma IrqSoundRetire(c: Chan)
    requires Sound(c) && Polled(c) && (c.h2d >= 0 || c.d2h >= 0)
    requires IsDescComplete(c.issued[0]) == Ok(true)
    ensures Interrupt(c).Ok? && Interrupt(c).value.handled
    ensures Sound(Interrupt(c).value.chan)
  {
    var c2 := Retire(c.(h2d := -1, d2h := -1));
    if |c.issued| > 1 {
      var t := StartPending(c2);
      assert Interrupt(c) == Ok(Irq(t, true));
      assert forall k :: 1 <= k < |t.issued| ==> t.issued[k] == c.issued[k + 1];
    } else {
      assert Interrupt(c) == Ok(Irq(c2, true));
    }
  }

  /** `avalon_dma_issue_pending`: `vchan_issue_pending` appends the
      submitted list to `issued` and reports whether `issued` is non-empty;
      when it is empty nothing happens. When both markers are idle the head
      of `issued` is started, and becomes active only if the start
      succeeded; an active descriptor then is a BUG_ON. When a marker is
      armed the channel is busy, and a missing active descriptor is a
      BUG_ON. */
  function IssuePending(c: Chan): (r: Result<Chan>)
    requires Inv(c)
    ensures r.Err? ==> r.error == Fatal
    ensures |c.issued + c.submitted| == 0 ==> r == Ok(c)
    ensures r.Err? <==>
              && |c.issued + c.submitted| > 0 && c.h2d < 0 && c.d2h < 0
              && (c.active || Start(c.(issued := c.issued + c.submitted, submitted := [])).Err?)
    ensures r.Ok? && |c.issued + c.submitted| > 0 ==>
              && r.value.submitted == [] && |r.value.issued| == |c.issued| + |c.submitted|
              && r.value.issued[1..] == (c.issued + c.submitted)[1..]
              && r.value.completed == c.completed
  {
    var u := c.(issued := c.issued + c.submitted, submitted := []);
    if |u.issued| == 0 then
      assert u == c;
      Ok(c)
    else if c.h2d < 0 && c.d2h < 0 then
      if c.active then Err(Fatal)
      else
        match Start(u)
        case Err(e) => Err(e)
        case Ok(o) =>
          StartInv(u);
          if o.ret.Some? then Ok(o.chan) else Ok(o.chan.(active := true))
    else if !c.active then Err(Fatal)
    else Ok(u)
  }

  /** A client may prepare a slave-sg transfer over one segment of length 0:
      `prep_slave_sg` accepts it, but packing it writes no descriptor, so
      issuing it on an idle channel is the BUG_ON(!ret) of
      `setup_dma_descs`. */
  lemma ZeroLengthIssueBugs(c: Chan, addr: u64, dir: TransferDirection)
    requires Inv(c) && !c.active && c.h2d < 0 && c.d2h < 0 && c.issued == [] && c.submitted == []
    requires dir == MemToDev || dir == DevToMem
    ensures var d := PrepSlaveSg(c, [Segment(addr, 0)], dir, true).value;
            && IssuePending(Submit(c, d)) == Err(Fatal)
            && !Pending(d)
  {
  }

  /** `avalon_dma_issue_pending` keeps the invariant, and on an idle channel
      a successful start is what makes the head active. */
  lemma IssueInv(c: Chan)
    requires Inv(c) && IssuePending(c).Ok?
    ensures Inv(IssuePending(c).value)
    ensures var t := IssuePending(c).value;
            |c.issued + c.submitted| > 0 && c.h2d < 0 && c.d2h < 0 ==>
              (t.active <==> Start(c.(issued := c.issued + c.submitted, submitted := [])).value.ret.None?)
  {
    var u := c.(issued := c.issued + c.submitted, submitted := []);
    if |u.issued| > 0 && c.h2d < 0 && c.d2h < 0 {
      StartInv(u);
    }
  }

  /** On a sound channel `avalon_dma_issue_pending` never hits a BUG: an
      idle channel starts the head of `issued` and makes it active, a busy
      one only queues, and the channel stays sound. */
  lemma IssueSound(c: Chan)
    requires Sound(c)
    ensures IssuePending(c).Ok? && Sound(IssuePending(c).value)
  {
    var u := c.(issued := c.issued + c.submitted, submitted := []);
    if |u.issued| > 0 {
      forall k | 1 <= k < |u.issued|
        ensures Pending(u.issued[k])
      {
        if k >= |c.issued| {
          assert u.issued[k] == c.submitted[k - |c.issued|];
        }
      }
      if c.h2d < 0 && c.d2h < 0 {
        assert c.issued == [] && u.issued == c.submitted;
        var t := StartPending(u);
        assert IssuePending(c) == Ok(t.(active := true));
      }
    }
  }
}
