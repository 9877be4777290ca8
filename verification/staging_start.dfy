/** Starting transfers in the staging driver: `setup_dma_descs` fills a
    descriptor table from the current cursor of a transfer descriptor,
    `avalon_dma_start_xfer` programs the controller with it, and
    `avalon_dma_issue_pending` and `avalon_dma_sync` move descriptors
    between the queues around it. */
module StagingStart {
  import opened Common
  import opened HwDesc
  import opened Encoder
  import opened SgList
  import opened StagingPacker
  import opened StagingCore

  /** What `setup_dma_descs` leaves behind: the chunks written to the table
      from slot 0 on (their count is `nr_descs`), and the payload with its
      cursor moved past them. */
  datatype Packed = Packed(chunks: seq<Extent>, payload: Payload)

  /** `setup_dma_descs_buf`: encodes what is left of a buffer from its
      offset. An offset past the size wraps the unsigned remainder and hits
      the BUG_ON; an invalid direction is a BUG() in the encoder; nothing
      left is -EINVAL. Otherwise the offset advances by the bytes encoded:
      to the end of the buffer unless the table filled up. */
  function SetupBuf(dir: Direction, b: Payload): (r: Result<Packed>)
    requires b.Buffer?
    ensures r == Err(Fatal) <==> b.offset > b.size || !ValidDirection(dir)
    ensures r == Err(Inval) <==> b.offset == b.size && ValidDirection(dir)
    ensures r.Ok? ==>
              var (cs, p) := (r.value.chunks, r.value.payload);
              && p.Buffer? && p == b.(offset := p.offset)
              && b.offset < p.offset <= b.size
              && p.offset - b.offset == Bytes(cs)
              && 1 <= |cs| <= DescNum && FromSlotZero(cs)
              && (|cs| < DescNum ==> p.offset == b.size)
              && EncodesExtent(Encoded(cs, Bytes(cs)), 0, dir, AddrAdd(b.dev, b.offset),
                               AddrAdd(b.host, b.offset), b.size - b.offset)
  {
    if b.offset > b.size then Err(Fatal)
    else
      var e :- StagingSetupDescs(0, dir, AddrAdd(b.dev, b.offset), AddrAdd(b.host, b.offset),
                                 b.size - b.offset);
      Ok(Packed(e.chunks, b.(offset := b.offset + e.setBytes)))
  }

  /** `setup_dma_descs_sg`: packs the table from the cursor `(cur, off)`
      and moves the cursor to where packing stopped: the offset grows when
      packing stopped in the start segment, and otherwise becomes the stop
      segment with the bytes written from it. */
  function SetupSg(dir: Direction, b: Payload): (r: Result<Packed>)
    requires b.SgTable?
    ensures r.Err? && r.error != Inval ==> r.error == Fatal
    ensures !ValidCursor(b.segs, b.cur, b.off) || Complete(b.segs, b.cur, b.off) ==> r == Err(Inval)
    ensures r == Err(Fatal) <==>
              ValidCursor(b.segs, b.cur, b.off) && !Complete(b.segs, b.cur, b.off) && !ValidDirection(dir)
    ensures && ValidCursor(b.segs, b.cur, b.off) && !Complete(b.segs, b.cur, b.off)
            && ValidDirection(dir) && AllPositive(b.segs)
            ==> r.Ok?
    ensures r.Ok? ==>
              var (cs, p) := (r.value.chunks, r.value.payload);
              && p.SgTable? && p == b.(cur := p.cur, off := p.off)
              && ValidCursor(b.segs, p.cur, p.off)
              && Pos(b.segs, p.cur, p.off) == Pos(b.segs, b.cur, b.off) + Bytes(cs)
              && Pos(b.segs, p.cur, p.off) > Pos(b.segs, b.cur, b.off)
              && 1 <= |cs| <= DescNum && FromSlotZero(cs)
              && (|cs| < DescNum ==> Complete(b.segs, p.cur, p.off))
  {
    var o :- StagingSetupDescsSg(b.segs, 0, dir, b.dev, b.cur, b.off);
    StagingPackAdvances(b.segs, 0, dir, b.dev, b.cur, b.off);
    var c := Advance(b.cur, b.off, o.stop, o.done);
    Ok(Packed(Flatten(o.pieces), b.(cur := c.0, off := c.1)))
  }

  /** `setup_dma_descs`: dispatch on the kind of transfer. */
  function SetupDmaDescs(d: TxDesc): (r: Result<Packed>)
    ensures r.Err? && r.error != Fatal ==> r.error == Inval
    ensures r.Ok? ==> && r.value.payload.Buffer? == d.payload.Buffer?
                      && 1 <= |r.value.chunks| <= DescNum && FromSlotZero(r.value.chunks)
  {
    match d.payload
    case Buffer(_, _, _, _) => SetupBuf(d.dir, d.payload)
    case SgTable(_, _, _, _) => SetupSg(d.dir, d.payload)
  }

  /** A startable descriptor always packs: at least one chunk, from slot 0,
      and the payload moves strictly forward to a cursor that is still in
      range. This is why the BUG_ON(!ret) and WARN_ON(nr_descs < 1) of the
      start path never fire for well-behaved clients. */
  lemma SetupPending(d: TxDesc)
    requires Pending(d)
    ensures SetupDmaDescs(d).Ok?
    ensures var p := SetupDmaDescs(d).value;
            && 1 <= |p.chunks| <= DescNum && FromSlotZero(p.chunks)
            && InFlight(d.(payload := p.payload))
  {
  }

  /** A descriptor with a programmable direction and an in-range cursor
      never hits a BUG() while packing. */
  lemma SetupNoBug(d: TxDesc)
    requires ValidDirection(d.dir) && CursorOk(d.payload)
    ensures SetupDmaDescs(d) != Err(Fatal)
  {
  }

  /** What one start leaves behind: the engine and the error
      `avalon_dma_start_xfer` returned, if any. */
  datatype Outcome = Outcome(engine: Engine, ret: Option<Error>)

  /** `avalon_dma_start_write_xfer` / `avalon_dma_start_read_xfer` after
      `setup_dma_descs` succeeded: the descriptor's cursor moves, the marker
      of its direction is armed with the last slot, and the controller block
      of that direction is given the table. To-device transfers use the
      `rd` table and control block, from-device ones the `wr` ones. */
  function Arm(s: Engine, id: nat, p: Packed): (t: Engine)
    requires id in s.pool && ValidDirection(s.pool[id].dir) && |p.chunks| >= 1
    ensures t.pool.Keys == s.pool.Keys && t.pool[id].payload == p.payload
    ensures t.pool[id].dir == s.pool[id].dir && t.pool[id].callback == s.pool[id].callback
    ensures forall j :: j in s.pool && j != id ==> t.pool[j] == s.pool[j]
    ensures Queues(t) == Queues(s) && t.free == s.free && t.submitted == s.submitted
    ensures t.issued == s.issued && t.completed == s.completed
    ensures t.active == s.active && t.nextId == s.nextId
    ensures if s.pool[id].dir == ToDevice then t.h2d == |p.chunks| - 1 && t.d2h == s.d2h
            else t.d2h == |p.chunks| - 1 && t.h2d == s.h2d
  {
    var d := s.pool[id];
    var last := |p.chunks| - 1;
    var hw := s.hw;
    var u := s.(pool := s.pool[id := d.(payload := p.payload)]);
    if d.dir == ToDevice then
      u.(h2d := last, hw := hw.(rd := Reload(hw.rd, p.chunks),
                                regs := hw.regs + StartXfer(hw.ctrlBase, RdCtrlOffset, hw.rdBus, RdEpHi, RdEpLo, last)))
    else
      u.(d2h := last, hw := hw.(wr := Reload(hw.wr, p.chunks),
                                regs := hw.regs + StartXfer(hw.ctrlBase, WrCtrlOffset, hw.wrBus, WrEpHi, WrEpLo, last)))
  }

  /** What `Arm` tells the controller: the table of the descriptor's
      direction has its done flags cleared and holds the chunks from slot 0
      on, the other table is untouched, and the six register writes of
      `start_read_xfer` (to device) or `start_write_xfer` (from device) give
      the control block of that direction the table's bus address, the
      end-point buffer and the last slot. */
  lemma ArmHw(s: Engine, id: nat, p: Packed)
    requires id in s.pool && ValidDirection(s.pool[id].dir) && |p.chunks| >= 1
    ensures var (t, last) := (Arm(s, id, p), |p.chunks| - 1);
            if s.pool[id].dir == ToDevice
            then && t.hw.wr == s.hw.wr
                 && t.hw.rd.flags == {} && t.hw.rd.descs == Store(s.hw.rd.descs, p.chunks)
                 && t.hw.regs == s.hw.regs + StartXfer(s.hw.ctrlBase, RdCtrlOffset, s.hw.rdBus, RdEpHi, RdEpLo, last)
            else && t.hw.rd == s.hw.rd
                 && t.hw.wr.flags == {} && t.hw.wr.descs == Store(s.hw.wr.descs, p.chunks)
                 && t.hw.regs == s.hw.regs + StartXfer(s.hw.ctrlBase, WrCtrlOffset, s.hw.wrBus, WrEpHi, WrEpLo, last)
  {
  }

  /** The chunks `setup_dma_descs` has written into the table when it
      returns, whatever it returns. A buffer writes only when it packs:
      `setup_descs` refuses an empty remainder before touching the table. A
      scatter-gather table writes what `setup_descs_sg` wrote, which on
      -EINVAL is the segments before the empty one it stopped at. */
  function Written(d: TxDesc): (cs: seq<Extent>)
    ensures SetupDmaDescs(d).Ok? ==> cs == SetupDmaDescs(d).value.chunks
    ensures SetupDmaDescs(d).Err? ==> FromSlotZero(cs) && (cs == [] || |cs| < DescNum)
    ensures d.payload.Buffer? && SetupDmaDescs(d).Err? ==> cs == []
  {
    match d.payload
    case Buffer(_, _, _, _) =>
      var r := SetupBuf(d.dir, d.payload);
      if r.Ok? then r.value.chunks else []
    case SgTable(dev, segs, cur, off) =>
      SgWrittenSlots(segs, 0, d.dir, dev, cur, off);
      SgWritten(segs, 0, d.dir, dev, cur, off)
  }

  /** The engine after a start that did not arm the controller: the table
      of the direction has its done flags cleared, as the start path does
      before packing, and holds the chunks packing wrote before it failed;
      nothing else changes. */
  function Load(s: Engine, dir: Direction, cs: seq<Extent>): (t: Engine)
    ensures t == s.(hw := t.hw)
    ensures t.hw.rdBus == s.hw.rdBus && t.hw.wrBus == s.hw.wrBus && t.hw.regs == s.hw.regs
    ensures var (mine, other) := if dir == ToDevice then (t.hw.rd, t.hw.wr) else (t.hw.wr, t.hw.rd);
            var (was, otherWas) := if dir == ToDevice then (s.hw.rd, s.hw.wr) else (s.hw.wr, s.hw.rd);
            && other == otherWas && mine.flags == {}
            && (forall k :: 0 <= k < |cs| ==> k in mine.descs && mine.descs[k] == cs[k])
            && (forall j :: j in was.descs && j >= |cs| ==> j in mine.descs && mine.descs[j] == was.descs[j])
            && (forall j :: j in mine.descs ==> j in was.descs || j < |cs|)
  {
    if dir == ToDevice then s.(hw := s.hw.(rd := Reload(s.hw.rd, cs)))
    else s.(hw := s.hw.(wr := Reload(s.hw.wr, cs)))
  }

  /** A descriptor whose start is a BUG(): its direction is neither to nor
      from the device, or it is a buffer whose offset is past its size. A
      table with an unusable cursor is not one: packing it gives -EINVAL. */
  predicate StartBugs(d: TxDesc)
  {
    || !ValidDirection(d.dir)
    || (d.payload.Buffer? && d.payload.offset > d.payload.size)
  }

  /** `avalon_dma_start_xfer` on the descriptor `id`. A direction other than
      to/from the device is a BUG(), as is a BUG inside packing; a packing
      error is returned with the flags cleared and whatever packing wrote
      before it failed left in the table; otherwise the table is armed. */
  function Start(s: Engine, id: nat): (r: Result<Outcome>)
    requires id in s.pool
    ensures r.Err? ==> r.error == Fatal
    ensures r.Err? <==> StartBugs(s.pool[id])
    ensures ValidDirection(s.pool[id].dir) && CursorOk(s.pool[id].payload) ==> r.Ok?
    ensures r.Ok? ==> (r.value.ret.None? <==> SetupDmaDescs(s.pool[id]).Ok?)
    ensures r.Ok? && r.value.ret.Some? ==>
              && r.value.ret.value == Inval
              && r.value.engine == Load(s, s.pool[id].dir, Written(s.pool[id]))
    ensures r.Ok? && r.value.ret.None? ==>
              var t := r.value.engine;
              && ValidDirection(s.pool[id].dir)
              && SetupDmaDescs(s.pool[id]).Ok?
              && t == Arm(s, id, SetupDmaDescs(s.pool[id]).value)
  {
    var d := s.pool[id];
    if !ValidDirection(d.dir) then Err(Fatal)
    else
      match SetupDmaDescs(d)
      case Err(e) =>
        if e == Fatal then Err(Fatal) else Ok(Outcome(Load(s, d.dir, Written(d)), Some(e)))
      case Ok(p) =>
        Ok(Outcome(Arm(s, id, p), None))
  }

  /** A to-device table of an 8-byte segment followed by an empty one: the
      start returns -EINVAL, yet the first segment's descriptor is already in
      slot 0 of the table, and the other slots are as they were. */
  lemma PartialWriteOnInval(s: Engine, id: nat, dev: u64, callback: Option<nat>)
    requires id in s.pool
    requires s.pool[id] == TxDesc(ToDevice, SgTable(dev, [Segment(0x1000, 8), Segment(0x2000, 0)], 0, 0),
                                  callback)
    ensures Start(s, id).Ok? && Start(s, id).value.ret == Some(Inval)
    ensures var rd := Start(s, id).value.engine.hw.rd;
            && rd.flags == {} && 0 in rd.descs && rd.descs[0] == Extent(0, dev, 0x1000, 8)
            && forall j :: j in s.hw.rd.descs && j != 0 ==> j in rd.descs && rd.descs[j] == s.hw.rd.descs[j]
  {
    var segs := [Segment(0x1000, 8), Segment(0x2000, 0)];
    EmptyAfterFullRun(dev);
    assert ResumeDev(segs, dev, 0, 0) == dev;
    assert Written(s.pool[id]) == [Extent(0, dev, 0x1000, 8)];
    assert SetupDmaDescs(s.pool[id]) == Err(Inval);
  }

  /** Starting a startable descriptor succeeds: it is then in flight, the
      marker of its direction is armed, and no other descriptor and no
      queue changes. */
  lemma StartPending(u: Engine, id: nat) returns (t: Engine)
    requires id in u.pool && Pending(u.pool[id])
    ensures Start(u, id) == Ok(Outcome(t, None))
    ensures && t.pool.Keys == u.pool.Keys && InFlight(t.pool[id])
            && (forall j :: j in u.pool && j != id ==> t.pool[j] == u.pool[j])
            && (t.h2d >= 0 || t.d2h >= 0)
            && t.free == u.free && t.submitted == u.submitted && t.issued == u.issued
            && t.completed == u.completed && t.active == u.active
  {
    SetupPending(u.pool[id]);
    t := Start(u, id).value.engine;
  }

  /** A start, failed or not, moves no descriptor between queues and
      changes no descriptor but the started one, whose direction it keeps. */
  lemma StartKeeps(u: Engine, id: nat)
    requires id in u.pool && Start(u, id).Ok?
    ensures var t := Start(u, id).value.engine;
            && t.pool.Keys == u.pool.Keys && t.pool[id].dir == u.pool[id].dir
            && t.pool[id].callback == u.pool[id].callback
            && (forall j :: j in u.pool && j != id ==> t.pool[j] == u.pool[j])
            && t.free == u.free && t.submitted == u.submitted && t.issued == u.issued
            && t.completed == u.completed && t.active == u.active
  {
  }

  /** `avalon_dma_issue_pending`: -ENOENT with nothing changed when nothing
      was submitted; otherwise the submitted queue is appended to `issued`.
      When both markers are idle the head of `issued` is started, and
      becomes active only if the start succeeded; an active descriptor then
      is a BUG_ON. When a marker is armed the engine is busy, and a missing
      active descriptor is a BUG_ON. */
  function IssuePending(s: Engine): (r: Result<Outcome>)
    requires Inv(s)
    ensures r.Err? ==> r.error == Fatal
    ensures r.Err? <==>
              && |s.submitted| > 0 && s.h2d < 0 && s.d2h < 0
              && (s.active.Some? || StartBugs(s.pool[Splice(s).issued[0]]))
    ensures |s.submitted| == 0 ==> r == Ok(Outcome(s, Some(NoEnt)))
    ensures r.Ok? && |s.submitted| > 0 ==>
              var t := r.value.engine;
              && t.submitted == [] && t.issued == s.issued + s.submitted
              && t.free == s.free && t.completed == s.completed
              && (r.value.ret.None? <==> t.active.Some?)
              && (r.value.ret.Some? ==> r.value.ret.value == Inval && t.h2d < 0 && t.d2h < 0)
              && (s.h2d >= 0 || s.d2h >= 0 ==> t.active == s.active && r.value.ret.None?)
  {
    if |s.submitted| == 0 then Ok(Outcome(s, Some(NoEnt)))
    else
      var u := Splice(s);
      if s.d2h < 0 && s.h2d < 0 then
        if s.active.Some? then Err(Fatal)
        else
          var head := u.issued[0];
          var o :- Start(u, head);
          if o.ret.Some? then Ok(o)
          else Ok(Outcome(o.engine.(active := Some(head)), None))
      else
        Ok(Outcome(u, None))
  }

  /** `avalon_dma_submit_xfer` accepts any direction, so a client can queue
      a descriptor whose start is a BUG(): issuing it on an idle engine with
      nothing else queued hits that BUG() although nothing is active. */
  lemma BadDirectionIssueBugs(s: Engine, dir: Direction, payload: Payload, callback: Option<nat>)
    requires Inv(s) && s.active.None? && s.h2d < 0 && s.d2h < 0
    requires s.submitted == [] && s.issued == []
    requires !ValidDirection(dir)
    ensures SubmitXfer(s, dir, payload, callback, true).Ok?
    ensures IssuePending(SubmitXfer(s, dir, payload, callback, true).value) == Err(Fatal)
  {
    var t := SubmitXfer(s, dir, payload, callback, true).value;
    assert Splice(t).issued[0] == t.submitted[0];
  }

  /** `list_splice_tail_init(submitted, issued)`: the submitted queue goes
      to the tail of `issued`, which keeps the invariant. */
  function Splice(s: Engine): (u: Engine)
    requires Inv(s)
    ensures Inv(u) && u == s.(submitted := [], issued := s.issued + s.submitted)
    ensures |u.issued| > 0 ==> u.issued[0] in u.pool
  {
    var u := s.(submitted := [], issued := s.issued + s.submitted);
    assert multiset(Queues(u)) == multiset(Queues(s));
    if |u.issued| > 0 then Queued(u, u.issued[0]); u else u
  }

  /** Starting the head of `issued` on an idle engine keeps the invariant,
      whether the start succeeded (and the head is or becomes active) or
      not. */
  lemma StartInv(u: Engine)
    requires Inv(u) && |u.issued| > 0 && u.h2d < 0 && u.d2h < 0
    requires u.active.None? || u.active == Some(u.issued[0])
    requires u.issued[0] in u.pool && Start(u, u.issued[0]).Ok?
    ensures var o := Start(u, u.issued[0]).value;
            o.ret.Some? ==> Inv(o.engine)
    ensures var o := Start(u, u.issued[0]).value;
            o.ret.None? ==> Inv(o.engine.(active := Some(u.issued[0])))
  {
    var head := u.issued[0];
    var o := Start(u, head).value;
    if o.ret.None? {
      var p := SetupDmaDescs(u.pool[head]).value;
      var t := o.engine.(active := Some(head));
      assert multiset(Queues(t)) == multiset(Queues(u));
      assert CursorOk(t.pool[head].payload);
    }
  }

  /** `avalon_dma_issue_pending` keeps the engine invariant. */
  lemma IssueInv(s: Engine)
    requires Inv(s) && IssuePending(s).Ok?
    ensures Inv(IssuePending(s).value.engine)
  {
    if |s.submitted| > 0 && s.d2h < 0 && s.h2d < 0 {
      StartInv(Splice(s));
    }
  }

  /** `avalon_dma_issue_pending` on a sound engine with work submitted never
      fails: the engine ends up busy with the head of `issued` in flight, and
      stays sound. */
  lemma IssueSound(s: Engine)
    requires Sound(s) && |s.submitted| > 0
    ensures IssuePending(s).Ok? && IssuePending(s).value.ret.None?
    ensures var t := IssuePending(s).value.engine;
            && Sound(t) && t.active == Some(t.issued[0])
            && (s.active.Some? ==> t.active == s.active)
  {
    IssueInv(s);
    if s.d2h < 0 && s.h2d < 0 {
      IssueSoundIdle(s);
    } else {
      IssueSoundBusy(s);
    }
  }

  /** On an idle engine the head of `submitted` is started; the rest stays
      pending. */
  lemma IssueSoundIdle(s: Engine)
    requires Sound(s) && |s.submitted| > 0 && s.d2h < 0 && s.h2d < 0
    requires IssuePending(s).Ok? ==> Inv(IssuePending(s).value.engine)
    ensures IssuePending(s).Ok? && IssuePending(s).value.ret.None?
    ensures var t := IssuePending(s).value.engine;
            Sound(t) && t.active == Some(t.issued[0])
  {
    var u := Splice(s);
    var head := u.issued[0];
    assert head in s.submitted;
    SetupPending(u.pool[head]);
    var o := Start(u, head).value;
    var t := o.engine.(active := Some(head));
    assert IssuePending(s) == Ok(Outcome(t, None));
    assert s.issued == [];
    assert t.issued == u.issued == s.submitted;
    forall k | 1 <= k < |t.issued|
      ensures t.issued[k] in t.pool && Pending(t.pool[t.issued[k]])
    {
      IssuedOnce(u, 0, k);
    }
    assert InFlight(t.pool[head]);
  }

  /** On a busy engine nothing starts: the submitted descriptors queue up
      behind the active one and stay pending. */
  lemma IssueSoundBusy(s: Engine)
    requires Sound(s) && |s.submitted| > 0 && (s.d2h >= 0 || s.h2d >= 0)
    requires IssuePending(s).Ok? ==> Inv(IssuePending(s).value.engine)
    ensures IssuePending(s).Ok? && IssuePending(s).value.ret.None?
    ensures var t := IssuePending(s).value.engine;
            Sound(t) && t.active == s.active && t.active == Some(t.issued[0])
  {
    var t := IssuePending(s).value.engine;
    forall k | 1 <= k < |t.issued|
      ensures t.issued[k] in t.pool && Pending(t.pool[t.issued[k]])
    {
      if k >= |s.issued| {
        assert t.issued[k] == s.submitted[k - |s.issued|];
      }
    }
  }

  /** `avalon_dma_sync`, one attempt: while any descriptor is submitted,
      issued or completed the driver sleeps and retries (here: -EBUSY); an
      active descriptor is then a BUG_ON; otherwise every descriptor of the
      free queue is reset to direction NONE. */
  function Sync(s: Engine): (r: Result<Engine>)
    ensures r == Err(Busy) <==> |s.submitted| + |s.issued| + |s.completed| > 0
    ensures r == Err(Fatal) <==> |s.submitted| + |s.issued| + |s.completed| == 0 && s.active.Some?
    ensures r.Ok? ==>
              var t := r.value;
              && t == s.(pool := t.pool)
              && t.pool.Keys == s.pool.Keys
              && (forall id :: id in s.pool && id in s.free ==> t.pool[id] == s.pool[id].(dir := NoDirection))
              && (forall id :: id in s.pool && id !in s.free ==> t.pool[id] == s.pool[id])
  {
    if |s.submitted| + |s.issued| + |s.completed| > 0 then Err(Busy)
    else if s.active.Some? then Err(Fatal)
    else Ok(s.(pool := map id | id in s.pool :: if id in s.free then s.pool[id].(dir := NoDirection) else s.pool[id]))
  }

  /** Once the queues drained, `avalon_dma_sync` on an engine that keeps its
      invariant never hits its BUG_ON: nothing is active, both markers are
      idle, and every descriptor is free with direction NONE. */
  lemma SyncQuiesced(s: Engine)
    requires Inv(s) && s.submitted == [] && s.issued == [] && s.completed == []
    ensures Sync(s).Ok?
    ensures var t := Sync(s).value;
            && Inv(t) && t.active.None? && t.h2d < 0 && t.d2h < 0
            && (forall id :: id in t.pool ==> id in t.free && t.pool[id].dir == NoDirection)
  {
    var t := Sync(s).value;
    assert Queues(s) == s.free;
    forall id | id in t.pool
      ensures id in t.free
    {
      assert id in multiset(s.pool.Keys);
    }
  }
}
