/** Completion in the staging driver: `avalon_dma_interrupt` retires or
    restarts the active descriptor once the controller has set the done
    flag of its last table slot, and `avalon_dma_tasklet` runs the callbacks
    of completed descriptors and returns them to the free queue. */
module StagingIrq {
  import opened Common
  import opened HwDesc
  import opened SgList
  import opened StagingCore
  import opened StagingStart

  /** `dma_desc_done`: a buffer is done when its offset reached its size; a
      table when its cursor is at the end of its last segment. An offset
      past the end is a BUG_ON. */
  function DescDone(p: Payload): (r: Result<bool>)
    requires p.SgTable? ==> p.cur < |p.segs|
    ensures r.Err? ==> r.error == Fatal
    ensures r.Err? <==> match p
                        case Buffer(_, _, size, offset) => offset > size
                        case SgTable(_, segs, cur, off) => cur == |segs| - 1 && off > segs[cur].len
    ensures r == Ok(true) <==> match p
                               case Buffer(_, _, size, offset) => offset == size
                               case SgTable(_, segs, cur, off) => Complete(segs, cur, off)
  {
    match p
    case Buffer(_, _, size, offset) =>
      if offset > size then Err(Fatal) else Ok(offset == size)
    case SgTable(_, segs, cur, off) => SgDone(segs, cur, off)
  }

  /** The bytes of a transfer not yet handed to the controller. */
  function Remaining(p: Payload): int
    requires p.SgTable? ==> p.cur <= |p.segs|
  {
    match p
    case Buffer(_, _, size, offset) => size - offset
    case SgTable(_, segs, cur, off) => SumLens(segs) - Pos(segs, cur, off)
  }

  /** For a descriptor the controller is working on, `dma_desc_done` never
      hits its BUG_ON, and reports done exactly when no byte is left. */
  lemma DoneIffNothingLeft(d: TxDesc)
    requires InFlight(d)
    ensures DescDone(d.payload).Ok?
    ensures DescDone(d.payload).value <==> Remaining(d.payload) == 0
    ensures Remaining(d.payload) >= 0
  {
    if d.payload.SgTable? {
      PosCompleteIff(d.payload.segs, d.payload.cur, d.payload.off);
    }
  }

  /** Every restart of a startable descriptor hands the controller at least
      one more byte: the bytes left strictly decrease, so a transfer is
      retired after finitely many interrupts. */
  lemma {:induction false} RestartProgress(d: TxDesc)
    requires Pending(d)
    ensures SetupDmaDescs(d).Ok?
    ensures var p := SetupDmaDescs(d).value.payload;
            0 <= Remaining(p) < Remaining(d.payload)
  {
    SetupPending(d);
    var p := SetupDmaDescs(d).value.payload;
    if p.SgTable? {
      PosCompleteIff(p.segs, p.cur, p.off);
    }
  }

  /** The polling loop of the handler has ended: the controller set the
      done flag of the last slot of every armed table. */
  predicate Polled(s: Engine)
  {
    && (s.h2d >= 0 ==> s.h2d in s.hw.rd.flags)
    && (s.d2h >= 0 ==> s.d2h in s.hw.wr.flags)
  }

  /** The active descriptor is done: direction NONE, moved from the head of
      `issued` to the tail of `completed`; the next issued one, if any,
      becomes active. */
  function Retire(s: Engine): (t: Engine)
    requires Inv(s) && s.active.Some?
    ensures t.completed == s.completed + [s.issued[0]] && t.issued == s.issued[1..]
    ensures t.free == s.free && t.submitted == s.submitted && t.nextId == s.nextId
    ensures t.pool == s.pool[s.issued[0] := s.pool[s.issued[0]].(dir := NoDirection)]
    ensures t.active == if |s.issued| > 1 then Some(s.issued[1]) else None
    ensures t.hw == s.hw && t.h2d == s.h2d && t.d2h == s.d2h
  {
    var id := s.issued[0];
    var rest := s.issued[1..];
    s.(pool := s.pool[id := s.pool[id].(dir := NoDirection)], issued := rest,
       completed := s.completed + [id], active := if rest == [] then None else Some(rest[0]))
  }

  /** Retiring the active descriptor of an idle engine keeps the invariant:
      it moves between queues, and the next issued one heads `issued`. */
  lemma RetireInv(s: Engine)
    requires Inv(s) && s.active.Some? && s.h2d < 0 && s.d2h < 0
    ensures Inv(Retire(s))
  {
    var t := Retire(s);
    var id := s.issued[0];
    assert s.issued == [id] + t.issued;
    assert t.pool.Keys == s.pool.Keys;
    assert multiset(Queues(t)) == multiset(Queues(s));
    if t.active.Some? {
      Queued(t, t.issued[0]);
    }
  }

  /** What the handler did: the engine, whether it returned IRQ_HANDLED,
      and whether it scheduled the tasklet. */
  datatype Irq = Irq(engine: Engine, handled: bool, schedule: bool)

  /** `avalon_dma_interrupt` after its polling loop. With both markers idle
      the interrupt is not the engine's (IRQ_NONE). Otherwise both markers
      are reset; the active descriptor (a BUG_ON if there is none) is
      retired when done, and whichever descriptor is then active is started
      again, the start's error being ignored. The tasklet is scheduled
      exactly when a descriptor was retired. */
  function Interrupt(s: Engine): (r: Result<Irq>)
    requires Inv(s) && Polled(s)
    ensures r.Err? ==> r.error == Fatal
    ensures s.h2d < 0 && s.d2h < 0 ==> r == Ok(Irq(s, false, false))
    ensures (s.h2d >= 0 || s.d2h >= 0) && r.Ok? ==>
              && r.value.handled && s.active.Some?
              && (r.value.schedule <==> DescDone(s.pool[s.active.value].payload) == Ok(true))
  {
    if s.h2d < 0 && s.d2h < 0 then Ok(Irq(s, false, false))
    else
      var s1 := s.(h2d := -1, d2h := -1);
      if s.active.None? then Err(Fatal)
      else
        var id := s.active.value;
        match DescDone(s.pool[id].payload)
        case Err(e) => Err(e)
        case Ok(done) =>
          var s2 := if done then RetireInv(s1); Retire(s1) else s1;
          if s2.active.Some? then
            var o :- Start(s2, s2.active.value);
            Ok(Irq(o.engine, true, done))
          else
            Ok(Irq(s2, true, done))
  }

  /** The queues after a handled interrupt that retired the active
      descriptor: it moves from the head of `issued` to the tail of
      `completed` with direction NONE, and the next issued one becomes
      active. The free and submitted queues are untouched. */
  lemma IrqRetires(s: Engine)
    requires Inv(s) && Polled(s) && (s.h2d >= 0 || s.d2h >= 0) && Interrupt(s).Ok?
    requires Interrupt(s).value.schedule
    ensures var (t, id) := (Interrupt(s).value.engine, s.issued[0]);
            && t.free == s.free && t.submitted == s.submitted && t.pool.Keys == s.pool.Keys
            && t.completed == s.completed + [id] && t.issued == s.issued[1..]
            && t.pool[id].dir == NoDirection
            && t.active == if |s.issued| > 1 then Some(s.issued[1]) else None
  {
    var s1 := s.(h2d := -1, d2h := -1);
    RetireInv(s1);
    var s2 := Retire(s1);
    if |s.issued| > 1 {
      IrqRetiresNext(s, s2);
    } else {
      assert Interrupt(s).value == Irq(s2, true, true);
    }
  }

  /** The engine after retiring the head of a longer `issued` queue is the
      start of the next one. */
  lemma IrqRetiresNext(s: Engine, s2: Engine)
    requires Inv(s) && Polled(s) && (s.h2d >= 0 || s.d2h >= 0) && Interrupt(s).Ok?
    requires Interrupt(s).value.schedule && |s.issued| > 1
    requires Inv(s.(h2d := -1, d2h := -1)) && s2 == Retire(s.(h2d := -1, d2h := -1))
    ensures s.issued[1] in s2.pool && Start(s2, s.issued[1]).Ok?
    ensures Interrupt(s).value.engine == Start(s2, s.issued[1]).value.engine
    ensures s.issued[0] != s.issued[1]
  {
    IssuedOnce(s, 0, 1);
    Queued(s, s.issued[1]);
    assert DescDone(s.pool[s.issued[0]].payload) == Ok(true);
    StartKeeps(s2, s.issued[1]);
  }

  /** A handled interrupt that did not retire the active descriptor moves
      no descriptor between queues and keeps it active. */
  lemma IrqKeeps(s: Engine)
    requires Inv(s) && Polled(s) && (s.h2d >= 0 || s.d2h >= 0) && Interrupt(s).Ok?
    requires !Interrupt(s).value.schedule
    ensures var t := Interrupt(s).value.engine;
            && t.free == s.free && t.submitted == s.submitted && t.pool.Keys == s.pool.Keys
            && t.completed == s.completed && t.issued == s.issued && t.active == s.active
  {
    var s1 := s.(h2d := -1, d2h := -1);
    var o := Start(s1, s.issued[0]).value;
    assert Interrupt(s).value == Irq(o.engine, true, false);
  }

  /** `avalon_dma_interrupt` keeps the engine invariant, also when the
      restart it ignores the result of fails. */
  lemma IrqInv(s: Engine)
    requires Inv(s) && Polled(s) && Interrupt(s).Ok?
    ensures Inv(Interrupt(s).value.engine)
  {
    hide Start;
    if s.h2d >= 0 || s.d2h >= 0 {
      var s1 := s.(h2d := -1, d2h := -1);
      var done := DescDone(s.pool[s.issued[0]].payload).value;
      if done {
        RetireInv(s1);
      }
      var s2 := if done then Retire(s1) else s1;
      if s2.active.Some? {
        StartInv(s2);
      }
    }
  }

  /** A descriptor in flight that is not done is startable again. */
  lemma NotDonePending(d: TxDesc)
    requires InFlight(d) && DescDone(d.payload) == Ok(false)
    ensures Pending(d)
  {
  }

  /** On a sound engine whose armed table completed, the handler never hits
      a BUG: the active descriptor is retired or restarted, whichever
      descriptor is then active is armed again, and the engine stays sound. */
  lemma IrqSound(s: Engine)
    requires Sound(s) && Polled(s) && (s.h2d >= 0 || s.d2h >= 0)
    ensures Interrupt(s).Ok? && Interrupt(s).value.handled
    ensures Sound(Interrupt(s).value.engine)
  {
    DoneIffNothingLeft(s.pool[s.issued[0]]);
    if DescDone(s.pool[s.issued[0]].payload).value {
      IrqSoundRetire(s);
    } else {
      IrqSoundRestart(s);
    }
  }

  /** The active descriptor is not done: it is restarted from its cursor. */
  lemma IrqSoundRestart(s: Engine)
    requires Sound(s) && Polled(s) && (s.h2d >= 0 || s.d2h >= 0)
    requires DescDone(s.pool[s.issued[0]].payload) == Ok(false)
    ensures Interrupt(s).Ok? && Sound(Interrupt(s).value.engine)
  {
    var id := s.issued[0];
    var s1 := s.(h2d := -1, d2h := -1);
    NotDonePending(s.pool[id]);
    var t := StartPending(s1, id);
    assert Interrupt(s) == Ok(Irq(t, true, false));
    IrqInv(s);
    forall j | j in t.submitted
      ensures j in t.pool && Pending(t.pool[j])
    {
      Queued(s, j);
    }
    forall k | 1 <= k < |t.issued|
      ensures t.issued[k] in t.pool && Pending(t.pool[t.issued[k]])
    {
      IssuedOnce(s, 0, k);
    }
  }

  /** The active descriptor is done: it is retired and the next issued one,
      if any, is started. */
  lemma IrqSoundRetire(s: Engine)
    requires Sound(s) && Polled(s) && (s.h2d >= 0 || s.d2h >= 0)
    requires DescDone(s.pool[s.issued[0]].payload) == Ok(true)
    ensures Interrupt(s).Ok? && Sound(Interrupt(s).value.engine)
  {
    if |s.issued| > 1 {
      IrqSoundRetireNext(s);
    } else {
      IrqSoundRetireLast(s);
    }
  }

  /** Retiring the last issued descriptor leaves the engine idle. */
  lemma IrqSoundRetireLast(s: Engine)
    requires Sound(s) && Polled(s) && (s.h2d >= 0 || s.d2h >= 0) && |s.issued| == 1
    requires DescDone(s.pool[s.issued[0]].payload) == Ok(true)
    ensures Interrupt(s).Ok? && Sound(Interrupt(s).value.engine)
  {
    var s1 := s.(h2d := -1, d2h := -1);
    RetireInv(s1);
    var s2 := Retire(s1);
    IrqInv(s);
    assert Interrupt(s) == Ok(Irq(s2, true, true));
    SubmittedPending(s, s2, s.issued[0], s.issued[0]);
  }

  /** Retiring the head of a longer `issued` queue starts the next one. */
  lemma IrqSoundRetireNext(s: Engine)
    requires Sound(s) && Polled(s) && (s.h2d >= 0 || s.d2h >= 0) && |s.issued| > 1
    requires DescDone(s.pool[s.issued[0]].payload) == Ok(true)
    ensures Interrupt(s).Ok? && Sound(Interrupt(s).value.engine)
  {
    IrqInv(s);
    var s2 := IrqRetiresFirst(s);
    var t := StartPending(s2, s.issued[1]);
    assert Interrupt(s) == Ok(Irq(t, true, true));
    RetireNextSound(s, t);
  }

  /** The engine invariant and the two changed descriptors of a retire
      followed by the start of the next issued one make the engine sound. */
  lemma RetireNextSound(s: Engine, t: Engine)
    requires Sound(s) && |s.issued| > 1 && Inv(t)
    requires t.submitted == s.submitted && t.pool.Keys == s.pool.Keys && t.issued == s.issued[1..]
    requires forall j :: j in s.pool && j != s.issued[0] && j != s.issued[1] ==> t.pool[j] == s.pool[j]
    requires t.active == Some(s.issued[1]) && InFlight(t.pool[s.issued[1]]) && (t.h2d >= 0 || t.d2h >= 0)
    ensures Sound(t)
  {
    SubmittedPending(s, t, s.issued[0], s.issued[1]);
    IssuedTailPending(s, t);
  }

  /** The engine between retiring the head of a longer `issued` queue and
      starting the next one, which is still pending. */
  lemma IrqRetiresFirst(s: Engine) returns (s2: Engine)
    requires Inv(s) && Polled(s) && (s.h2d >= 0 || s.d2h >= 0) && |s.issued| > 1
    requires DescDone(s.pool[s.issued[0]].payload) == Ok(true)
    requires s.issued[1] in s.pool && Pending(s.pool[s.issued[1]])
    ensures s2.active == Some(s.issued[1])
    ensures s2.submitted == s.submitted && s2.issued == s.issued[1..] && s2.pool.Keys == s.pool.Keys
    ensures forall j :: j in s.pool && j != s.issued[0] ==> s2.pool[j] == s.pool[j]
    ensures s.issued[1] in s2.pool && Pending(s2.pool[s.issued[1]])
    ensures Start(s2, s.issued[1]).Ok?
    ensures Interrupt(s) == Ok(Irq(Start(s2, s.issued[1]).value.engine, true, true))
  {
    s2 := RetireHead(s);
    var t := StartPending(s2, s.issued[1]);
  }

  /** Retiring the head of a longer `issued` queue with both markers reset
      leaves the next descriptor pending and every other one unchanged. */
  lemma RetireHead(s: Engine) returns (s2: Engine)
    requires Inv(s) && s.active.Some? && |s.issued| > 1
    requires s.issued[1] in s.pool && Pending(s.pool[s.issued[1]])
    ensures Inv(s.(h2d := -1, d2h := -1)) && s2 == Retire(s.(h2d := -1, d2h := -1))
    ensures s2.active == Some(s.issued[1])
    ensures s2.submitted == s.submitted && s2.issued == s.issued[1..] && s2.pool.Keys == s.pool.Keys
    ensures forall j :: j in s.pool && j != s.issued[0] ==> s2.pool[j] == s.pool[j]
    ensures s.issued[1] in s2.pool && Pending(s2.pool[s.issued[1]])
  {
    var s1 := s.(h2d := -1, d2h := -1);
    RetireInv(s1);
    s2 := Retire(s1);
    IssuedOnce(s, 0, 1);
  }

  /** Submitted descriptors stay pending when only issued ones change. */
  lemma SubmittedPending(s: Engine, t: Engine, a: nat, b: nat)
    requires Sound(s) && a in s.issued && b in s.issued
    requires t.submitted == s.submitted && t.pool.Keys == s.pool.Keys
    requires forall j :: j in s.pool && j != a && j != b ==> t.pool[j] == s.pool[j]
    ensures forall j :: j in t.submitted ==> j in t.pool && Pending(t.pool[j])
  {
    forall j | j in t.submitted
      ensures j in t.pool && Pending(t.pool[j])
    {
      Queued(s, j);
    }
  }

  /** After the head of `issued` is retired and the next one restarted,
      the descriptors queued behind it are still pending: they are neither
      of the two that changed. */
  lemma IssuedTailPending(s: Engine, t: Engine)
    requires Sound(s) && |s.issued| > 1
    requires t.issued == s.issued[1..] && t.pool.Keys == s.pool.Keys
    requires forall j :: j in s.pool && j != s.issued[0] && j != s.issued[1] ==> t.pool[j] == s.pool[j]
    ensures forall k :: 1 <= k < |t.issued| ==> t.issued[k] in t.pool && Pending(t.pool[t.issued[k]])
  {
    forall k | 1 <= k < |t.issued|
      ensures t.issued[k] in t.pool && Pending(t.pool[t.issued[k]])
    {
      IssuedOnce(s, 0, k + 1);
      IssuedOnce(s, 1, k + 1);
    }
  }

  /** Every queued identity names a descriptor of the pool. */
  lemma QueuedInPool(s: Engine)
    requires Wf(s)
    ensures forall id :: id in s.completed ==> id in s.pool
  {
    forall id | id in s.completed
      ensures id in s.pool
    {
      Queued(s, id);
    }
  }

  /** The callback token a descriptor's completion hands to its owner, if
      it has one. */
  function Called(d: TxDesc): seq<nat>
  {
    match d.callback
    case Some(c) => [c]
    case None => []
  }

  /** The callbacks the tasklet runs for the descriptors `ids`, in order. */
  function Callbacks(pool: map<nat, TxDesc>, ids: seq<nat>): (cs: seq<nat>)
    requires forall id :: id in ids ==> id in pool
    ensures |cs| <= |ids|
    ensures forall c :: c in cs ==> exists id :: id in ids && pool[id].callback == Some(c)
  {
    if ids == [] then [] else Called(pool[ids[0]]) + Callbacks(pool, ids[1..])
  }

  /** The callbacks of two runs of descriptors are the callbacks of each
      run, in order. */
  lemma {:induction false} CallbacksAppend(pool: map<nat, TxDesc>, a: seq<nat>, b: seq<nat>)
    requires forall id :: id in a + b ==> id in pool
    ensures Callbacks(pool, a + b) == Callbacks(pool, a) + Callbacks(pool, b)
  {
    if a != [] {
      assert (a + b)[0] == a[0] && (a + b)[1..] == a[1..] + b;
      CallbacksAppend(pool, a[1..], b);
    } else {
      assert a + b == b;
    }
  }

  /** Only the callback fields of the descriptors decide the callbacks. */
  lemma {:induction false} CallbacksFrame(p: map<nat, TxDesc>, q: map<nat, TxDesc>, ids: seq<nat>)
    requires forall id :: id in ids ==> id in p && id in q && p[id].callback == q[id].callback
    ensures Callbacks(p, ids) == Callbacks(q, ids)
  {
    if ids != [] {
      CallbacksFrame(p, q, ids[1..]);
    }
  }

  /** A run of the tasklet: the engine afterwards and the callback tokens it
      invoked, in order. */
  datatype TaskletRun = TaskletRun(engine: Engine, calls: seq<nat>)

  /** `avalon_dma_tasklet`: the completed queue is taken, the callback of
      each of its descriptors that has one is run in order, and the
      descriptors go to the tail of the free queue. */
  function Tasklet(s: Engine): (r: TaskletRun)
    requires Wf(s)
    ensures r.engine.free == s.free + s.completed && r.engine.completed == []
    ensures r.engine == s.(free := r.engine.free, completed := [])
    ensures |r.calls| <= |s.completed|
    ensures forall c :: c in r.calls ==>
              exists id :: id in s.completed && id in s.pool && s.pool[id].callback == Some(c)
  {
    QueuedInPool(s);
    TaskletRun(s.(free := s.free + s.completed, completed := []), Callbacks(s.pool, s.completed))
  }

  /** Every completed descriptor with a callback has it run by the tasklet:
      the calls are the completed queue's callbacks, one per descriptor. */
  lemma {:induction false} TaskletCallsAll(s: Engine, i: nat)
    requires Wf(s) && i < |s.completed|
    requires s.completed[i] in s.pool && s.pool[s.completed[i]].callback.Some?
    ensures s.pool[s.completed[i]].callback.value in Tasklet(s).calls
  {
    QueuedInPool(s);
    var c := s.completed;
    assert c == c[..i] + [c[i]] + c[i + 1..];
    CallbacksAppend(s.pool, c[..i] + [c[i]], c[i + 1..]);
    CallbacksAppend(s.pool, c[..i], [c[i]]);
    assert Callbacks(s.pool, [c[i]]) == Called(s.pool[c[i]]) + Callbacks(s.pool, []);
  }

  /** The tasklet keeps the engine invariant and soundness: the completed
      descriptors join the free queue and nothing else changes. */
  lemma TaskletSound(s: Engine)
    requires Inv(s)
    ensures Inv(Tasklet(s).engine)
    ensures Sound(s) ==> Sound(Tasklet(s).engine)
  {
    var t := Tasklet(s).engine;
    assert multiset(Queues(t)) == multiset(Queues(s));
    InvFrom(s, t);
  }

  /** A second tasklet run finds nothing completed: it runs no callback and
      changes nothing. */
  lemma TaskletDrains(s: Engine)
    requires Wf(s)
    ensures var t := Tasklet(s).engine;
            Tasklet(s).engine.completed == [] && Tasklet(t) == TaskletRun(t, [])
  {
    var t := Tasklet(s).engine;
    assert multiset(Queues(t)) == multiset(Queues(s));
    assert t.free + [] == t.free;
  }

  /** An interrupt that retired its active descriptor leaves that
      descriptor's callback to run in the next tasklet, after the callbacks
      of the descriptors completed before it. */
  lemma IrqThenTasklet(s: Engine)
    requires Inv(s) && Polled(s) && (s.h2d >= 0 || s.d2h >= 0) && Interrupt(s).Ok?
    requires Interrupt(s).value.schedule
    ensures Wf(Interrupt(s).value.engine)
    ensures forall id :: id in s.completed ==> id in s.pool
    ensures Tasklet(Interrupt(s).value.engine).calls
            == Callbacks(s.pool, s.completed) + Called(s.pool[s.issued[0]])
  {
    var t := Interrupt(s).value.engine;
    IrqRetires(s);
    IrqInv(s);
    IrqCallbacks(s);
    TaskletAfterRetire(s, t, s.issued[0]);
  }

  /** The tasklet's calls on an engine whose completed queue gained `id`
      and whose callbacks did not change. */
  lemma TaskletAfterRetire(s: Engine, t: Engine, id: nat)
    requires Wf(s) && Wf(t) && id in s.pool
    requires t.completed == s.completed + [id] && t.pool.Keys == s.pool.Keys
    requires forall j :: j in s.pool ==> t.pool[j].callback == s.pool[j].callback
    ensures forall j :: j in s.completed ==> j in s.pool
    ensures Tasklet(t).calls == Callbacks(s.pool, s.completed) + Called(s.pool[id])
  {
    QueuedInPool(s);
    QueuedInPool(t);
    CallbacksFrame(t.pool, s.pool, s.completed + [id]);
    CallbacksAppend(s.pool, s.completed, [id]);
    assert Callbacks(s.pool, [id]) == Called(s.pool[id]) + Callbacks(s.pool, []);
  }

  /** An interrupt changes no descriptor's callback. */
  lemma IrqCallbacks(s: Engine)
    requires Inv(s) && Polled(s) && Interrupt(s).Ok?
    ensures var t := Interrupt(s).value.engine;
            && t.pool.Keys == s.pool.Keys
            && forall id :: id in s.pool ==> t.pool[id].callback == s.pool[id].callback
  {
    if s.h2d >= 0 || s.d2h >= 0 {
      if Interrupt(s).value.schedule {
        IrqCallbacksRetire(s);
      } else {
        var s1 := s.(h2d := -1, d2h := -1);
        StartKeeps(s1, s.issued[0]);
        assert Interrupt(s).value.engine == Start(s1, s.issued[0]).value.engine;
      }
    }
  }

  /** The callbacks across an interrupt that retired its descriptor. */
  lemma IrqCallbacksRetire(s: Engine)
    requires Inv(s) && Polled(s) && (s.h2d >= 0 || s.d2h >= 0) && Interrupt(s).Ok?
    requires Interrupt(s).value.schedule
    ensures var t := Interrupt(s).value.engine;
            && t.pool.Keys == s.pool.Keys
            && forall id :: id in s.pool ==> t.pool[id].callback == s.pool[id].callback
  {
    var s1 := s.(h2d := -1, d2h := -1);
    RetireInv(s1);
    var s2 := Retire(s1);
    if |s.issued| > 1 {
      IrqRetiresNext(s, s2);
      StartKeeps(s2, s.issued[1]);
    } else {
      assert Interrupt(s).value.engine == s2;
    }
  }
}
