/** The staging driver's transfer engine (`struct avalon_dma`): descriptor
    queues, the active descriptor, the two direction markers, the two
    descriptor tables, and the steps run under its lock: submit, issue and
    start. Descriptors are kept in a pool by identity and the queues hold
    identities, as the kernel lists hold pointers. */
module StagingCore {
  import opened Common
  import opened HwDesc
  import opened Encoder
  import opened SgList
  import opened StagingPacker

  /** `RD_CTRL_BUF_BASE_*` / `WR_CTRL_BUF_BASE_*`: the end-point addresses of
      the read and write descriptor buffers. */
  const RdEpHi: u32 := 0
  const RdEpLo: u32 := 0x8000_0000
  const WrEpHi: u32 := 0
  const WrEpLo: u32 := 0x8000_2000

  /** `union avalon_dma_xfer_info`: a contiguous buffer with the bytes sent
      so far, or a scatter-gather table with its resumption cursor
      (`sg_curr` as a segment index, `sg_offset`). */
  datatype Payload =
    | Buffer(dev: u64, host: u64, size: u32, offset: nat)
    | SgTable(dev: u64, segs: seq<Segment>, cur: nat, off: nat)

  /** `struct avalon_dma_tx_descriptor`; the callback with its parameter is
      an opaque token. */
  datatype TxDesc = TxDesc(dir: Direction, payload: Payload, callback: Option<nat>)

  /** What `__alloc_desc` returns: zero-filled, direction NONE. */
  const FreshDesc: TxDesc := TxDesc(NoDirection, Buffer(0, 0, 0, 0), None)

  /** The controller side of `struct avalon_dma`: `rd` is the table of
      to-device transfers, `wr` the table of from-device ones, at bus
      addresses `rdBus` and `wrBus`; `regs` logs the MMIO writes to the
      control blocks at `ctrlBase`. */
  datatype Hw = Hw(rd: Table, wr: Table, rdBus: u64, wrBus: u64, ctrlBase: nat,
                   regs: seq<RegWrite>)

  /** `struct avalon_dma`: the descriptor pool with the next unused
      identity, the free (`desc_allocated`), submitted, issued and completed
      queues, the active descriptor, and the markers `h2d_last_id` (armed
      with the `rd` table) and `d2h_last_id` (armed with `wr`); -1 means
      idle. */
  datatype Engine = Engine(
    pool: map<nat, TxDesc>, nextId: nat,
    free: seq<nat>, submitted: seq<nat>, issued: seq<nat>, completed: seq<nat>,
    active: Option<nat>, h2d: int, d2h: int, hw: Hw)

  /** The four queues end to end. */
  function Queues(s: Engine): seq<nat>
  {
    s.free + s.submitted + s.issued + s.completed
  }

  /** Representation well-formedness and the first half of the engine
      invariant: every descriptor of the pool sits in exactly one queue and
      nothing else is queued, and identities from `nextId` on are unused. */
  predicate Wf(s: Engine)
  {
    && multiset(Queues(s)) == multiset(s.pool.Keys)
    && (forall id :: id in s.pool ==> id < s.nextId)
  }

  /** A queued identity names a descriptor of the pool, and occurs in no
      other queue. */
  lemma Queued(s: Engine, x: nat)
    requires Wf(s) && x in Queues(s)
    ensures x in s.pool
    ensures x in s.free ==> x !in s.submitted + s.issued + s.completed
    ensures x in s.submitted ==> x !in s.free + s.issued + s.completed
    ensures x in s.issued ==> x !in s.free + s.submitted + s.completed
    ensures x in s.completed ==> x !in s.free + s.submitted + s.issued
  {
    assert multiset(Queues(s))[x] > 0;
    assert multiset(s.pool.Keys)[x] <= 1;
    var (a, b, c, d) := (multiset(s.free), multiset(s.submitted), multiset(s.issued), multiset(s.completed));
    assert multiset(Queues(s)) == a + b + c + d;
    assert multiset(s.submitted + s.issued + s.completed) == b + c + d;
    assert multiset(s.free + s.issued + s.completed) == a + c + d;
    assert multiset(s.free + s.submitted + s.completed) == a + b + d;
    assert multiset(s.free + s.submitted + s.issued) == a + b + c;
  }

  /** No identity is queued twice. */
  lemma QueuedOnce(s: Engine, i: nat, j: nat)
    requires Wf(s) && i < j < |Queues(s)|
    ensures Queues(s)[i] != Queues(s)[j]
  {
    var q := Queues(s);
    Repeated(q, i, j);
    assert multiset(s.pool.Keys)[q[i]] <= 1;
  }

  /** An element found at two positions occurs at least twice. */
  lemma Repeated(q: seq<nat>, i: nat, j: nat)
    requires i < j < |q|
    ensures q[i] == q[j] ==> multiset(q)[q[i]] >= 2
  {
    assert q == q[..i] + [q[i]] + q[i + 1..j] + [q[j]] + q[j + 1..];
  }

  /** In particular, `issued` holds no identity twice. */
  lemma IssuedOnce(s: Engine, i: nat, j: nat)
    requires Wf(s) && i < j < |s.issued|
    ensures s.issued[i] != s.issued[j]
  {
    var b := |s.free| + |s.submitted|;
    assert Queues(s)[b + i] == s.issued[i] && Queues(s)[b + j] == s.issued[j];
    QueuedOnce(s, b + i, b + j);
  }

  /** The active descriptor, when there is one, is the head of `issued`. */
  predicate ActiveHead(s: Engine)
  {
    s.active.Some? ==> |s.issued| > 0 && s.active.value == s.issued[0] && s.active.value in s.pool
  }

  /** The position a descriptor's cursor denotes is inside its payload. */
  predicate CursorOk(p: Payload)
  {
    match p
    case Buffer(_, _, size, offset) => offset <= size
    case SgTable(_, segs, cur, off) => ValidCursor(segs, cur, off)
  }

  /** The markers: each is -1 or a table slot, at most one is armed, and an
      armed marker belongs to an active descriptor of its direction whose
      cursor is in range. */
  predicate Markers(s: Engine)
    requires ActiveHead(s)
  {
    && -1 <= s.h2d < DescNum && -1 <= s.d2h < DescNum
    && (s.h2d < 0 || s.d2h < 0)
    && (s.h2d >= 0 ==> s.active.Some? && s.pool[s.active.value].dir == ToDevice)
    && (s.d2h >= 0 ==> s.active.Some? && s.pool[s.active.value].dir == FromDevice)
    && (s.h2d >= 0 || s.d2h >= 0 ==> CursorOk(s.pool[s.active.value].payload))
  }

  /** The engine invariant: `Wf`, the active descriptor heads `issued`, and
      the markers are consistent. An active descriptor whose start failed in
      the interrupt handler is never armed, so only an armed one is known to
      have its cursor in range. */
  predicate Inv(s: Engine)
  {
    && Wf(s)
    && ActiveHead(s)
    && Markers(s)
  }

  /** A descriptor the controller can start: a programmable direction and
      bytes left, in positive segments for a table. */
  predicate Pending(d: TxDesc)
  {
    && ValidDirection(d.dir)
    && match d.payload
       case Buffer(_, _, size, offset) => offset < size
       case SgTable(_, segs, cur, off) =>
         AllPositive(segs) && ValidCursor(segs, cur, off) && !Complete(segs, cur, off)
  }

  /** A descriptor the controller is working on: like `Pending`, except that
      its last start may already have covered every byte. */
  predicate InFlight(d: TxDesc)
  {
    && ValidDirection(d.dir) && CursorOk(d.payload)
    && (d.payload.SgTable? ==> AllPositive(d.payload.segs))
  }

  /** The engine invariant for well-behaved clients, who submit only
      startable descriptors: everything waiting is `Pending`, the engine is
      busy exactly when something was issued, and busy means armed. */
  predicate Sound(s: Engine)
  {
    && Inv(s)
    && (forall id :: id in s.submitted ==> id in s.pool && Pending(s.pool[id]))
    && (forall k :: 1 <= k < |s.issued| ==> s.issued[k] in s.pool && Pending(s.pool[s.issued[k]]))
    && (s.active.None? <==> s.issued == [])
    && (s.active.Some? ==> InFlight(s.pool[s.active.value]) && (s.h2d >= 0 || s.d2h >= 0))
  }

  /** `avalon_dma_init` on success: no descriptor, empty queues, nothing
      active and both markers idle. */
  function Init(rdBus: u64, wrBus: u64, ctrlBase: nat): (s: Engine)
    ensures Sound(s)
    ensures Queues(s) == [] && s.active.None? && s.h2d == -1 && s.d2h == -1
  {
    Engine(map[], 0, [], [], [], [], None, -1, -1,
           Hw(Table({}, map[]), Table({}, map[]), rdBus, wrBus, ctrlBase, []))
  }

  /** `get_desc_locked`: the head of the free queue, or, when that is empty,
      a freshly allocated descriptor put on it; only a failed allocation
      (`allocOk` false) yields nothing. */
  function GetDesc(s: Engine, allocOk: bool): (r: Option<(nat, Engine)>)
    requires Wf(s)
    ensures r.None? <==> |s.free| == 0 && !allocOk
    ensures r.Some? ==> Wf(r.value.1) && |r.value.1.free| > 0 && r.value.1.free[0] == r.value.0
    ensures r.Some? && |s.free| > 0 ==> r.value == (s.free[0], s)
    ensures r.Some? && |s.free| == 0 ==>
              var (id, t) := r.value;
              && id !in s.pool && t.pool == s.pool[id := FreshDesc]
              && t.free == [id] && t.submitted == s.submitted && t.issued == s.issued
              && t.completed == s.completed && t.active == s.active
  {
    if |s.free| > 0 then Some((s.free[0], s))
    else if !allocOk then None
    else
      var id := s.nextId;
      FreshFree(s);
      Some((id, s.(pool := s.pool[id := FreshDesc], nextId := id + 1, free := [id])))
  }

  /** A freshly allocated descriptor put on the empty free queue keeps the
      queues well formed. */
  lemma FreshFree(s: Engine)
    requires Wf(s) && |s.free| == 0
    ensures s.nextId !in s.pool
    ensures Wf(s.(pool := s.pool[s.nextId := FreshDesc], nextId := s.nextId + 1, free := [s.nextId]))
  {
    var u := s.(pool := s.pool[s.nextId := FreshDesc], nextId := s.nextId + 1, free := [s.nextId]);
    AddFresh(s, FreshDesc);
    assert Queues(u) == [s.nextId] + Queues(s);
    FreshWf(s, u, FreshDesc);
  }

  /** Entering the identity `nextId` in the pool and in one queue keeps the
      queues well formed. */
  lemma FreshWf(s: Engine, u: Engine, d: TxDesc)
    requires Wf(s)
    requires u.pool == s.pool[s.nextId := d] && u.nextId == s.nextId + 1
    requires multiset(Queues(u)) == multiset(Queues(s)) + multiset{s.nextId}
    ensures Wf(u)
  {
    AddFresh(s, d);
  }

  /** Entering a new identity in the pool adds exactly that identity to the
      multiset of identities. */
  lemma AddFresh(s: Engine, d: TxDesc)
    requires Wf(s)
    ensures s.nextId !in s.pool
    ensures multiset(s.pool[s.nextId := d].Keys) == multiset(s.pool.Keys) + multiset{s.nextId}
  {
    assert s.pool[s.nextId := d].Keys == s.pool.Keys + {s.nextId};
  }

  /** `submit_xfer`: one descriptor leaves the free queue for the tail of
      `submitted`, carrying direction, payload and callback; -EBUSY when
      none can be had, with nothing changed. The engine invariant is kept. */
  function SubmitXfer(s: Engine, dir: Direction, payload: Payload, callback: Option<nat>,
                      allocOk: bool): (r: Result<Engine>)
    requires Inv(s)
    ensures r.Err? <==> |s.free| == 0 && !allocOk
    ensures r.Err? ==> r.error == Busy
    ensures r.Ok? ==>
              var t := r.value;
              && Inv(t)
              && |t.submitted| == |s.submitted| + 1
              && t.submitted[..|s.submitted|] == s.submitted
              && var id := t.submitted[|s.submitted|];
              && id in t.pool && t.pool[id] == TxDesc(dir, payload, callback)
              && (|s.free| > 0 ==> id == s.free[0] && t.free == s.free[1..])
              && (|s.free| == 0 ==> id !in s.pool && t.free == [])
              && t.issued == s.issued && t.completed == s.completed
              && t.active == s.active && t.h2d == s.h2d && t.d2h == s.d2h
              && t.hw == s.hw
              && (forall other :: other in s.pool && other != id ==>
                    other in t.pool && t.pool[other] == s.pool[other])
  {
    var d := TxDesc(dir, payload, callback);
    if |s.free| > 0 then
      var id := s.free[0];
      SubmitHead(s, d);
      Ok(s.(pool := s.pool[id := d], free := s.free[1..], submitted := s.submitted + [id]))
    else if !allocOk then Err(Busy)
    else
      var id := s.nextId;
      SubmitFresh(s, d);
      AddFresh(s, d);
      Ok(s.(pool := s.pool[id := d], nextId := id + 1, submitted := s.submitted + [id]))
  }

  /** `submit_xfer` is `get_desc_locked` followed by filling the descriptor
      and moving it from the head of the free queue to the tail of
      `submitted`. */
  lemma SubmitViaGetDesc(s: Engine, dir: Direction, payload: Payload, callback: Option<nat>,
                         allocOk: bool)
    requires Inv(s)
    ensures var r := SubmitXfer(s, dir, payload, callback, allocOk);
            match GetDesc(s, allocOk)
            case None => r == Err(Busy)
            case Some((id, t)) =>
              r == Ok(t.(pool := t.pool[id := TxDesc(dir, payload, callback)], free := t.free[1..],
                         submitted := t.submitted + [id]))
  {
    if |s.free| == 0 && allocOk {
      var d := TxDesc(dir, payload, callback);
      assert [s.nextId][1..] == [];
      assert s.pool[s.nextId := FreshDesc][s.nextId := d] == s.pool[s.nextId := d];
    }
  }

  /** The invariant across `submit_xfer` when the free queue has a head: it
      was in no other queue, so moving it to the tail of `submitted` keeps
      every descriptor in one queue and leaves the active one untouched. */
  lemma SubmitHead(s: Engine, d: TxDesc)
    requires Inv(s) && |s.free| > 0
    ensures var id := s.free[0];
            Inv(s.(pool := s.pool[id := d], free := s.free[1..], submitted := s.submitted + [id]))
  {
    var id := s.free[0];
    var u := s.(pool := s.pool[id := d], free := s.free[1..], submitted := s.submitted + [id]);
    assert s.free == [id] + u.free;
    Queued(s, id);
    assert multiset(Queues(u)) == multiset(Queues(s));
    assert u.pool.Keys == s.pool.Keys;
  }

  /** The invariant across `submit_xfer` when a descriptor is allocated: its
      identity is new, so it is queued once and nothing else moves. */
  lemma SubmitFresh(s: Engine, d: TxDesc)
    requires Inv(s) && |s.free| == 0
    ensures var id := s.nextId;
            Inv(s.(pool := s.pool[id := d], nextId := id + 1, submitted := s.submitted + [id]))
  {
    var id := s.nextId;
    var u := s.(pool := s.pool[id := d], nextId := id + 1, submitted := s.submitted + [id]);
    assert multiset(Queues(u)) == multiset(Queues(s)) + multiset{id};
    FreshWf(s, u, d);
    AddFresh(s, d);
    InvFrom(s, u);
  }

  /** The invariant of an engine whose queues are well formed again, and
      whose active descriptor and markers are those of an engine that kept
      the invariant. */
  lemma InvFrom(s: Engine, u: Engine)
    requires Inv(s) && Wf(u)
    requires u.active == s.active && u.h2d == s.h2d && u.d2h == s.d2h
    requires s.active.Some? ==> && |u.issued| > 0 && u.issued[0] == s.issued[0]
                                && s.active.value in u.pool
                                && u.pool[s.active.value] == s.pool[s.active.value]
    ensures Inv(u)
  {
  }

  /** Submitting a startable descriptor keeps a sound engine sound. */
  lemma SubmitSound(s: Engine, dir: Direction, payload: Payload, callback: Option<nat>,
                    allocOk: bool)
    requires Sound(s) && Pending(TxDesc(dir, payload, callback))
    requires SubmitXfer(s, dir, payload, callback, allocOk).Ok?
    ensures Sound(SubmitXfer(s, dir, payload, callback, allocOk).value)
  {
    var t := SubmitXfer(s, dir, payload, callback, allocOk).value;
    var id := t.submitted[|s.submitted|];
    if |s.free| > 0 {
      Queued(s, id);
    }
    assert id !in s.issued;
    forall x | x in t.submitted
      ensures x in t.pool && Pending(t.pool[x])
    {
      if x != id {
        assert x in s.submitted;
      }
    }
  }

  /** `avalon_dma_submit_xfer`: a buffer transfer starting at offset 0. */
  function SubmitBuffer(s: Engine, dir: Direction, dev: u64, host: u64, size: u32,
                        callback: Option<nat>, allocOk: bool): (r: Result<Engine>)
    requires Inv(s)
    ensures r.Err? <==> |s.free| == 0 && !allocOk
    ensures r.Ok? ==>
              && Inv(r.value) && |r.value.submitted| == |s.submitted| + 1
              && r.value.submitted[|s.submitted|] in r.value.pool
              && r.value.pool[r.value.submitted[|s.submitted|]]
                 == TxDesc(dir, Buffer(dev, host, size, 0), callback)
  {
    SubmitXfer(s, dir, Buffer(dev, host, size, 0), callback, allocOk)
  }

  /** `avalon_dma_submit_xfer_sg`: a table transfer starting at the first
      segment, offset 0. */
  function SubmitSg(s: Engine, dir: Direction, dev: u64, segs: seq<Segment>,
                    callback: Option<nat>, allocOk: bool): (r: Result<Engine>)
    requires Inv(s)
    ensures r.Err? <==> |s.free| == 0 && !allocOk
    ensures r.Ok? ==>
              && Inv(r.value) && |r.value.submitted| == |s.submitted| + 1
              && r.value.submitted[|s.submitted|] in r.value.pool
              && r.value.pool[r.value.submitted[|s.submitted|]]
                 == TxDesc(dir, SgTable(dev, segs, 0, 0), callback)
  {
    SubmitXfer(s, dir, SgTable(dev, segs, 0, 0), callback, allocOk)
  }
}
