/** `setup_descs_sg` of the dmaengine driver: packs an indexed segment array
    into the descriptor table from a resumption cursor. */
module EnginePacker {
  import opened Common
  import opened HwDesc
  import opened Encoder
  import opened SgList

  /** One iteration of the loop on segment `i` from offset `off`, at table
      slot `slot` after `nr` descriptors; `dev` is the device address of the
      start of segment `i`. The offset is applied to both addresses, the rest
      of the segment is encoded, the loop breaks when the table is full or
      the segment is the last, and an encoding that left bytes behind with
      room in the table is an error. */
  function EngineStep(segs: seq<Segment>, dir: Direction, dev: u64,
                      i: nat, off: nat, slot: nat, nr: nat): (s: Step)
    requires i < |segs| && nr <= slot
    ensures s.Fail? <==> segs[i].len < off || slot >= DescNum
    ensures s.Fail? ==> s.error == Inval
    ensures !s.Fail? ==>
              && s.p == Piece(i, off, slot, s.p.enc)
              && PieceEncodes(segs, dev, dir, s.p)
    ensures s.Stop? ==> Fills(s.p) || (i == |segs| - 1 && Whole(segs, s.p))
    ensures s.Go? ==>
              && Whole(segs, s.p) && !Fills(s.p) && i + 1 < |segs|
              && s.next == NextDev(segs, dev, i, off)
  {
    var len := segs[i].len;
    if len < off then Fail(Inval)
    else
      var devAt := AddrAdd(dev, off);
      match EngineSetupDescs(slot, dir, devAt, AddrAdd(segs[i].addr, off), len - off)
      case Err(err) => Fail(err)
      case Ok(e) =>
        Settle(segs, nr, len - off, Piece(i, off, slot, e), AddrAdd(devAt, len - off), Inval)
  }

  /** The packing loop from segment `i`, intra-segment offset `off`, table
      slot `slot` and `nr` descriptors so far; `dev` is the device address of
      the start of segment `i`. Its only failures are an offset past the
      segment and a start slot past the table; what it writes is a chain
      from its cursor. */
  function EngineLoop(segs: seq<Segment>, dir: Direction, dev: u64,
                      i: nat, off: nat, slot: nat, nr: nat): (r: Result<Pieces>)
    requires i < |segs| && nr <= slot
    ensures r.Ok? <==> off <= segs[i].len && slot < DescNum
    ensures r.Err? ==> r.error == Inval
    ensures r.Ok? ==> Chain(segs, dev, dir, i, off, slot, r.value)
    decreases |segs| - i
  {
    match EngineStep(segs, dir, dev, i, off, slot, nr)
    case Fail(err) => Err(err)
    case Stop(p) =>
      ChainOne(segs, dev, dir, i, off, slot, p);
      Ok(Cons(p, Nil))
    case Go(p, next) =>
      var n := |p.enc.chunks|;
      var rest := EngineLoop(segs, dir, next, i + 1, 0, slot + n, nr + n).value;
      ChainCons(segs, dev, dir, i, off, slot, p, rest);
      Ok(Cons(p, rest))
  }

  /** The reported stop cursor: the last piece's segment and the bytes its
      `setup_descs` reported when any descriptor was written; otherwise the
      start segment with the loop's offset variable, which by then has been
      reset to 0. */
  function Finish(segStart: nat, ps: Pieces): (o: SgOut)
    ensures o.pieces == ps && o.nr == PieceCount(ps)
    ensures o.nr > 0 ==> ps.Cons? && o.stop == Last(ps).seg && o.done == Last(ps).enc.setBytes
    ensures o.nr == 0 ==> o.stop == segStart && o.done == 0
  {
    var n := PieceCount(ps);
    if n > 0 && ps.Cons? then SgOut(ps, n, Last(ps).seg, Last(ps).enc.setBytes)
    else SgOut(ps, 0, segStart, 0)
  }

  /** `setup_descs_sg`: a start segment past the array or a direction other
      than to/from the device is -EINVAL; the device address skips every
      earlier segment; a start segment already fully sent is skipped, and
      when it is the last one nothing is written. When nothing is written the
      stop cursor is the start segment with 0 bytes set. */
  function EngineSetupDescsSg(segs: seq<Segment>, start: nat, dir: Direction, dev: u64,
                              segStart: nat, segOff: nat): (r: Result<SgOut>)
    ensures r.Err? ==> r.error == Inval
    ensures r.Ok? <==>
              && ValidDirection(dir) && ValidCursor(segs, segStart, segOff)
              && (start < DescNum || Complete(segs, segStart, segOff))
    ensures r.Ok? && Complete(segs, segStart, segOff) ==>
              r.value == SgOut(Nil, 0, segStart, 0)
    ensures r.Ok? && !Complete(segs, segStart, segOff) ==>
              var skip := segOff == segs[segStart].len;
              Chain(segs, ResumeDev(segs, dev, segStart, segOff), dir,
                    if skip then segStart + 1 else segStart, if skip then 0 else segOff,
                    start, r.value.pieces)
    ensures r.Ok? && r.value.nr == 0 ==> r.value.stop == segStart && r.value.done == 0
    ensures r.Ok? && r.value.nr > 0 ==>
              && r.value.pieces.Cons?
              && r.value.stop == Last(r.value.pieces).seg
              && r.value.done == Last(r.value.pieces).enc.setBytes
    ensures r.Ok? ==> r.value.nr == PieceCount(r.value.pieces) == |Flatten(r.value.pieces)|
  {
    if segStart >= |segs| then Err(Inval)
    else if !ValidDirection(dir) then Err(Inval)
    else
      var d := ResumeDev(segs, dev, segStart, segOff);
      if segs[segStart].len == segOff then
        if segStart + 1 < |segs| then
          var ps :- EngineLoop(segs, dir, d, segStart + 1, 0, start, 0);
          Ok(Finish(segStart, ps))
        else
          Ok(SgOut(Nil, 0, segStart, 0))
      else
        var ps :- EngineLoop(segs, dir, d, segStart, segOff, start, 0);
        Ok(Finish(segStart, ps))
  }

  /** Every descriptor of an engine pack moves device memory laid out
      contiguously from `dev`: the piece of a cursor covers the device range
      at `dev` advanced by the cursor's linear position. */
  lemma EnginePackPlaced(segs: seq<Segment>, start: nat, dir: Direction, dev: u64,
                         segStart: nat, segOff: nat)
    requires EngineSetupDescsSg(segs, start, dir, dev, segStart, segOff).Ok?
    ensures PiecesAt(segs, dev, dir, EngineSetupDescsSg(segs, start, dir, dev, segStart, segOff).value.pieces)
  {
    var o := EngineSetupDescsSg(segs, start, dir, dev, segStart, segOff).value;
    if !Complete(segs, segStart, segOff) {
      ResumePlaced(segs, dev, dir, segStart, segOff, start, o.pieces);
    }
  }

  /** The resumption theorem: after a pack that wrote descriptors, the
      caller's cursor update moves the linear position forward by exactly
      the bytes the descriptors carry, lands on a valid cursor, and either
      the table is full or the list is finished; the descriptors occupy the
      slots from `start` on. */
  lemma EnginePackAdvances(segs: seq<Segment>, start: nat, dir: Direction, dev: u64,
                           segStart: nat, segOff: nat)
    requires EngineSetupDescsSg(segs, start, dir, dev, segStart, segOff).Ok?
    requires EngineSetupDescsSg(segs, start, dir, dev, segStart, segOff).value.nr > 0
    ensures var o := EngineSetupDescsSg(segs, start, dir, dev, segStart, segOff).value;
            var c := Advance(segStart, segOff, o.stop, o.done);
            && ValidCursor(segs, c.0, c.1)
            && Pos(segs, c.0, c.1) == Pos(segs, segStart, segOff) + Bytes(Flatten(o.pieces))
            && start + o.nr <= DescNum
            && (forall k :: 0 <= k < o.nr ==> Flatten(o.pieces)[k].id == start + k)
            && (start + o.nr == DescNum || Complete(segs, c.0, c.1))
  {
    var o := EngineSetupDescsSg(segs, start, dir, dev, segStart, segOff).value;
    var d := ResumeDev(segs, dev, segStart, segOff);
    var skip := segOff == segs[segStart].len;
    var i := if skip then segStart + 1 else segStart;
    var off := if skip then 0 else segOff;
    if skip {
      SumLensStep(segs, segStart);
    }
    assert Pos(segs, i, off) == Pos(segs, segStart, segOff);
    ChainResume(segs, d, dir, i, off, start, o.pieces);
    ChainLast(segs, d, dir, i, off, start, o.pieces);
    assert Advance(segStart, segOff, o.stop, o.done) == Advance(i, off, o.stop, o.done);
  }

  /** With positive segments and room in the table, an incomplete cursor
      always yields at least one descriptor and a strictly larger position:
      repeated packs finish the list. */
  lemma EnginePackProgress(segs: seq<Segment>, start: nat, dir: Direction, dev: u64,
                           segStart: nat, segOff: nat)
    requires AllPositive(segs) && ValidDirection(dir) && start < DescNum
    requires ValidCursor(segs, segStart, segOff) && !Complete(segs, segStart, segOff)
    ensures EngineSetupDescsSg(segs, start, dir, dev, segStart, segOff).Ok?
    ensures var o := EngineSetupDescsSg(segs, start, dir, dev, segStart, segOff).value;
            && o.nr > 0
            && ValidCursor(segs, Advance(segStart, segOff, o.stop, o.done).0,
                           Advance(segStart, segOff, o.stop, o.done).1)
            && Pos(segs, Advance(segStart, segOff, o.stop, o.done).0,
                   Advance(segStart, segOff, o.stop, o.done).1) > Pos(segs, segStart, segOff)
  {
    var o := EngineSetupDescsSg(segs, start, dir, dev, segStart, segOff).value;
    var d := ResumeDev(segs, dev, segStart, segOff);
    var skip := segOff == segs[segStart].len;
    var i := if skip then segStart + 1 else segStart;
    var off := if skip then 0 else segOff;
    ChainFirstNonEmpty(segs, d, dir, i, off, start, o.pieces);
    EnginePackAdvances(segs, start, dir, dev, segStart, segOff);
  }
}
