/** `setup_descs_sg` of the staging driver: packs a scatter-gather table
    into the descriptor table from a resumption cursor. Broken invariants are
    BUG()s here, so they surface as `Fatal` rather than as error codes. */
module StagingPacker {
  import opened Common
  import opened HwDesc
  import opened Encoder
  import opened SgList

  /** Every segment from `i` on carries at least one byte. */
  predicate PositiveFrom(segs: seq<Segment>, i: nat)
  {
    forall k :: i <= k < |segs| ==> segs[k].len > 0
  }

  /** One iteration of the loop on segment `i` from offset `off`, at table
      slot `slot` after `nr` descriptors; `dev` is the device address of the
      start of segment `i`. An offset that does not leave a byte in the
      segment is a BUG(); `setup_descs` refuses a bad direction or a full
      table as a BUG() and an empty remainder with -EINVAL. */
  function StagingStep(segs: seq<Segment>, dir: Direction, dev: u64,
                       i: nat, off: nat, slot: nat, nr: nat): (s: Step)
    requires i < |segs| && nr <= slot
    ensures s.Fail? <==> !ValidDirection(dir) || slot >= DescNum || segs[i].len <= off
    ensures s == Fail(Inval) <==>
              ValidDirection(dir) && slot < DescNum && off == 0 && segs[i].len == 0
    ensures s.Fail? && s.error != Inval ==> s.error == Fatal
    ensures !s.Fail? ==>
              && s.p == Piece(i, off, slot, s.p.enc)
              && |s.p.enc.chunks| >= 1
              && PieceEncodes(segs, dev, dir, s.p)
    ensures s.Stop? ==> Fills(s.p) || (i == |segs| - 1 && Whole(segs, s.p))
    ensures s.Go? ==>
              && Whole(segs, s.p) && !Fills(s.p) && i + 1 < |segs|
              && s.next == NextDev(segs, dev, i, off)
  {
    var len := segs[i].len;
    if off != 0 && len <= off then Fail(Fatal)
    else
      var devAt := AddrAdd(dev, off);
      match StagingSetupDescs(slot, dir, devAt, AddrAdd(segs[i].addr, off), len - off)
      case Err(err) => Fail(err)
      case Ok(e) =>
        Settle(segs, nr, len - off, Piece(i, off, slot, e), AddrAdd(devAt, len - off), Fatal)
  }

  /** What the packing loop leaves behind: the pieces it wrote into the
      table, and the error it gave up with, if any. Every step that got past
      `setup_descs` wrote its piece before the next step was tried, so an
      error does not take back the pieces already written. */
  datatype Pass = Pass(written: Pieces, error: Option<Error>)

  /** The packing loop from segment `i`, offset `off`, table slot `slot` and
      `nr` descriptors so far; `dev` is the device address of the start of
      segment `i`. It is a BUG() exactly when the first step is handed a bad
      direction, a full table or an offset past the last byte; -EINVAL comes
      only from an empty segment on the way, and then the pieces written are
      whole encodings of the segments before that one; with non-empty
      segments and none of those, it succeeds, and what it writes is a
      chain. */
  function StagingRun(segs: seq<Segment>, dir: Direction, dev: u64,
                      i: nat, off: nat, slot: nat, nr: nat): (r: Pass)
    requires i < |segs| && nr <= slot
    ensures r.error == Some(Fatal) <==>
              !ValidDirection(dir) || slot >= DescNum || (off != 0 && segs[i].len <= off)
    ensures r.error.Some? && r.error.value != Fatal ==> r.error == Some(Inval) && !PositiveFrom(segs, i)
    ensures ValidDirection(dir) && slot < DescNum && off < segs[i].len && PositiveFrom(segs, i)
            ==> r.error.None?
    ensures r.error.None? ==> off < segs[i].len && Chain(segs, dev, dir, i, off, slot, r.written)
    decreases |segs| - i
  {
    match StagingStep(segs, dir, dev, i, off, slot, nr)
    case Fail(err) => Pass(Nil, Some(err))
    case Stop(p) =>
      ChainOne(segs, dev, dir, i, off, slot, p);
      Pass(Cons(p, Nil), None)
    case Go(p, next) =>
      var n := |p.enc.chunks|;
      var rest := StagingRun(segs, dir, next, i + 1, 0, slot + n, nr + n);
      if rest.error.Some? then Pass(Cons(p, rest.written), rest.error)
      else
        ChainCons(segs, dev, dir, i, off, slot, p, rest.written);
        Pass(Cons(p, rest.written), None)
  }

  /** A turn of the loop that goes on leaves its piece in front of what the
      rest of the loop leaves, and the rest's error. */
  lemma RunGoes(segs: seq<Segment>, dir: Direction, dev: u64,
                i: nat, off: nat, slot: nat, nr: nat)
    requires i < |segs| && nr <= slot && StagingStep(segs, dir, dev, i, off, slot, nr).Go?
    ensures var st := StagingStep(segs, dir, dev, i, off, slot, nr);
            var n := |st.p.enc.chunks|;
            && i + 1 < |segs|
            && var rest := StagingRun(segs, dir, st.next, i + 1, 0, slot + n, nr + n);
               StagingRun(segs, dir, dev, i, off, slot, nr) == Pass(Cons(st.p, rest.written), rest.error)
  {
  }

  /** A turn of the loop that does not go on: on -EINVAL it wrote nothing,
      and the segment it stopped at is empty. */
  lemma RunStops(segs: seq<Segment>, dir: Direction, dev: u64,
                 i: nat, off: nat, slot: nat, nr: nat)
    requires i < |segs| && nr <= slot && !StagingStep(segs, dir, dev, i, off, slot, nr).Go?
    requires StagingRun(segs, dir, dev, i, off, slot, nr).error == Some(Inval)
    ensures var ps := StagingRun(segs, dir, dev, i, off, slot, nr).written;
            && Run(segs, dev, dir, i, off, slot, ps)
            && i + Count(ps) < |segs| && segs[i + Count(ps)].len == 0
  {
  }

  /** A turn of the loop that goes on puts its whole piece in front of a run
      the rest wrote before an empty segment: together they are a run from
      this turn's cursor, stopped by the same segment. */
  lemma RunStepsBack(segs: seq<Segment>, dir: Direction, dev: u64,
                     i: nat, off: nat, slot: nat, nr: nat, here: Pieces, rest: Pieces)
    requires i < |segs| && nr <= slot && StagingStep(segs, dir, dev, i, off, slot, nr).Go?
    requires var st := StagingStep(segs, dir, dev, i, off, slot, nr);
             && here == Cons(st.p, rest)
             && Run(segs, st.next, dir, i + 1, 0, slot + |st.p.enc.chunks|, rest)
             && i + 1 + Count(rest) < |segs| && segs[i + 1 + Count(rest)].len == 0
    ensures Run(segs, dev, dir, i, off, slot, here)
    ensures i + Count(here) < |segs| && segs[i + Count(here)].len == 0
  {
    var st := StagingStep(segs, dir, dev, i, off, slot, nr);
    RunGrows(segs, dev, dir, i, off, slot, st.p, rest);
  }

  /** When the loop gives up with -EINVAL, what it wrote is a run of whole
      encodings of the segments before the empty one it stopped at. The
      proof works from the contracts of the turn lemmas alone. */
  lemma {:induction false} StagingRunInval(segs: seq<Segment>, dir: Direction, dev: u64,
                                           i: nat, off: nat, slot: nat, nr: nat)
    requires i < |segs| && nr <= slot
    requires StagingRun(segs, dir, dev, i, off, slot, nr).error == Some(Inval)
    ensures var ps := StagingRun(segs, dir, dev, i, off, slot, nr).written;
            && Run(segs, dev, dir, i, off, slot, ps)
            && i + Count(ps) < |segs| && segs[i + Count(ps)].len == 0
    decreases |segs| - i
  {
    hide *;
    var st := StagingStep(segs, dir, dev, i, off, slot, nr);
    if st.Go? {
      var n := |st.p.enc.chunks|;
      RunGoes(segs, dir, dev, i, off, slot, nr);
      StagingRunInval(segs, dir, st.next, i + 1, 0, slot + n, nr + n);
      RunStepsBack(segs, dir, dev, i, off, slot, nr, StagingRun(segs, dir, dev, i, off, slot, nr).written,
                   StagingRun(segs, dir, st.next, i + 1, 0, slot + n, nr + n).written);
    } else {
      RunStops(segs, dir, dev, i, off, slot, nr);
    }
  }

  /** An 8-byte segment followed by an empty one, packed to the device at
      `dev`: the first turn writes one descriptor for the whole segment into
      slot 0 and goes on, and the second gives up with -EINVAL. */
  lemma EmptyAfterFullRun(dev: u64)
    ensures var segs := [Segment(0x1000, 8), Segment(0x2000, 0)];
            var r := StagingRun(segs, ToDevice, dev, 0, 0, 0, 0);
            && r.error == Some(Inval)
            && Flatten(r.written) == [Extent(0, dev, 0x1000, 8)]
  {
    var segs := [Segment(0x1000, 8), Segment(0x2000, 0)];
    var st := StagingStep(segs, ToDevice, dev, 0, 0, 0, 0);
    EmptyAfterFullFirst(dev);
    RunGoes(segs, ToDevice, dev, 0, 0, 0, 0);
    EmptyAfterFullSecond(st.next);
  }

  /** The first turn of `EmptyAfterFullRun`. */
  lemma EmptyAfterFullFirst(dev: u64)
    ensures var st := StagingStep([Segment(0x1000, 8), Segment(0x2000, 0)], ToDevice, dev, 0, 0, 0, 0);
            st.Go? && st.p.enc.chunks == [Extent(0, dev, 0x1000, 8)]
  {
    var st := StagingStep([Segment(0x1000, 8), Segment(0x2000, 0)], ToDevice, dev, 0, 0, 0, 0);
    assert CeilDiv(8, MaxXfer) == 1;
    assert st.p.enc.chunks[0].dest == AddrAdd(dev, 0) == dev;
  }

  /** The second turn of `EmptyAfterFullRun`. */
  lemma EmptyAfterFullSecond(dev: u64)
    ensures StagingRun([Segment(0x1000, 8), Segment(0x2000, 0)], ToDevice, dev, 1, 0, 1, 1)
            == Pass(Nil, Some(Inval))
  {
  }

  /** The loop's outcome as `setup_descs_sg` sees it: the pieces when it got
      through, the error otherwise. */
  function StagingLoop(segs: seq<Segment>, dir: Direction, dev: u64,
                       i: nat, off: nat, slot: nat, nr: nat): (r: Result<Pieces>)
    requires i < |segs| && nr <= slot
    ensures r == Err(Fatal) <==>
              !ValidDirection(dir) || slot >= DescNum || (off != 0 && segs[i].len <= off)
    ensures r.Err? && r.error != Fatal ==> r.error == Inval && !PositiveFrom(segs, i)
    ensures ValidDirection(dir) && slot < DescNum && off < segs[i].len && PositiveFrom(segs, i)
            ==> r.Ok?
    ensures r.Ok? ==> off < segs[i].len && Chain(segs, dev, dir, i, off, slot, r.value)
  {
    var pass := StagingRun(segs, dir, dev, i, off, slot, nr);
    if pass.error.None? then Ok(pass.written) else Err(pass.error.value)
  }

  /** `setup_descs_sg`: a start segment outside the table, an offset past
      its end, or a start cursor with nothing left is -EINVAL; the device
      address skips every earlier segment and a fully sent start segment;
      the stop cursor is the last segment written and the bytes its
      `setup_descs` reported. */
  function StagingSetupDescsSg(segs: seq<Segment>, start: nat, dir: Direction, dev: u64,
                               sgStart: nat, sgOff: nat): (r: Result<SgOut>)
    ensures r.Err? && r.error != Inval ==> r.error == Fatal
    ensures !ValidCursor(segs, sgStart, sgOff) || Complete(segs, sgStart, sgOff) ==> r == Err(Inval)
    ensures r == Err(Fatal) <==>
              && ValidCursor(segs, sgStart, sgOff) && !Complete(segs, sgStart, sgOff)
              && (!ValidDirection(dir) || start >= DescNum)
    ensures && ValidCursor(segs, sgStart, sgOff) && !Complete(segs, sgStart, sgOff)
            && ValidDirection(dir) && start < DescNum && AllPositive(segs)
            ==> r.Ok?
    ensures r.Ok? ==>
              var skip := sgOff == segs[sgStart].len;
              && r.value.pieces.Cons?
              && r.value.nr == PieceCount(r.value.pieces) == |Flatten(r.value.pieces)|
              && r.value.stop == Last(r.value.pieces).seg
              && r.value.done == Last(r.value.pieces).enc.setBytes
              && Chain(segs, ResumeDev(segs, dev, sgStart, sgOff), dir,
                       if skip then sgStart + 1 else sgStart, if skip then 0 else sgOff,
                       start, r.value.pieces)
  {
    if sgStart >= |segs| then Err(Inval)
    else
      var len := segs[sgStart].len;
      if len < sgOff then Err(Inval)
      else if sgOff == len && sgStart == |segs| - 1 then Err(Inval)
      else
        var d := ResumeDev(segs, dev, sgStart, sgOff);
        var i := if sgOff == len then sgStart + 1 else sgStart;
        var off := if sgOff == len then 0 else sgOff;
        var ps :- StagingLoop(segs, dir, d, i, off, start, 0);
        Ok(SgOut(ps, PieceCount(ps), Last(ps).seg, Last(ps).enc.setBytes))
  }

  /** The descriptors `setup_descs_sg` has written into the table when it
      returns: none when the cursor is refused up front, and otherwise what
      the loop wrote from the resumed cursor. */
  function SgWritten(segs: seq<Segment>, start: nat, dir: Direction, dev: u64,
                     sgStart: nat, sgOff: nat): (cs: seq<Extent>)
    ensures !ValidCursor(segs, sgStart, sgOff) || Complete(segs, sgStart, sgOff) ==> cs == []
  {
    if !ValidCursor(segs, sgStart, sgOff) || Complete(segs, sgStart, sgOff) then []
    else
      var skip := sgOff == segs[sgStart].len;
      Flatten(StagingRun(segs, dir, ResumeDev(segs, dev, sgStart, sgOff),
                         if skip then sgStart + 1 else sgStart, if skip then 0 else sgOff,
                         start, 0).written)
  }

  /** What `setup_descs_sg` wrote is its pack on success; on -EINVAL it is
      the descriptors of whole segments, in consecutive slots from `start`
      that leave the last slot of the table free. */
  lemma SgWrittenSlots(segs: seq<Segment>, start: nat, dir: Direction, dev: u64,
                       sgStart: nat, sgOff: nat)
    ensures var (r, cs) := (StagingSetupDescsSg(segs, start, dir, dev, sgStart, sgOff),
                            SgWritten(segs, start, dir, dev, sgStart, sgOff));
            && (r.Ok? ==> cs == Flatten(r.value.pieces))
            && (r == Err(Inval) ==>
                  && (cs == [] || start + |cs| < DescNum)
                  && forall k :: 0 <= k < |cs| ==> cs[k].id == start + k)
  {
    hide StagingRun;
    if ValidCursor(segs, sgStart, sgOff) && !Complete(segs, sgStart, sgOff) {
      var skip := sgOff == segs[sgStart].len;
      var d := ResumeDev(segs, dev, sgStart, sgOff);
      var i := if skip then sgStart + 1 else sgStart;
      var off := if skip then 0 else sgOff;
      var pass := StagingRun(segs, dir, d, i, off, start, 0);
      if pass.error == Some(Inval) {
        StagingRunInval(segs, dir, d, i, off, start, 0);
        RunIds(segs, d, dir, i, off, start, pass.written);
      }
    }
  }

  /** Every descriptor of a staging pack moves device memory laid out
      contiguously from `dev`: the piece of a cursor covers the device range
      at `dev` advanced by the cursor's linear position. */
  lemma StagingPackPlaced(segs: seq<Segment>, start: nat, dir: Direction, dev: u64,
                          sgStart: nat, sgOff: nat)
    requires StagingSetupDescsSg(segs, start, dir, dev, sgStart, sgOff).Ok?
    ensures PiecesAt(segs, dev, dir, StagingSetupDescsSg(segs, start, dir, dev, sgStart, sgOff).value.pieces)
  {
    var o := StagingSetupDescsSg(segs, start, dir, dev, sgStart, sgOff).value;
    ResumePlaced(segs, dev, dir, sgStart, sgOff, start, o.pieces);
  }

  /** The resumption theorem for `setup_dma_descs_sg`: a successful pack
      wrote at least one descriptor (so its BUG_ON(!ret) never fires), and
      the cursor update moves the linear position forward by exactly the
      bytes the descriptors carry, lands on a valid cursor, and leaves either
      a full table or a finished list; the descriptors occupy the slots from
      `start` on. */
  lemma StagingPackAdvances(segs: seq<Segment>, start: nat, dir: Direction, dev: u64,
                            sgStart: nat, sgOff: nat)
    requires StagingSetupDescsSg(segs, start, dir, dev, sgStart, sgOff).Ok?
    ensures var o := StagingSetupDescsSg(segs, start, dir, dev, sgStart, sgOff).value;
            var c := Advance(sgStart, sgOff, o.stop, o.done);
            && o.nr > 0
            && ValidCursor(segs, c.0, c.1)
            && Pos(segs, c.0, c.1) == Pos(segs, sgStart, sgOff) + Bytes(Flatten(o.pieces))
            && Pos(segs, c.0, c.1) > Pos(segs, sgStart, sgOff)
            && start + o.nr <= DescNum
            && (forall k :: 0 <= k < o.nr ==> Flatten(o.pieces)[k].id == start + k)
            && (start + o.nr == DescNum || Complete(segs, c.0, c.1))
  {
    var o := StagingSetupDescsSg(segs, start, dir, dev, sgStart, sgOff).value;
    var d := ResumeDev(segs, dev, sgStart, sgOff);
    var skip := sgOff == segs[sgStart].len;
    var i := if skip then sgStart + 1 else sgStart;
    var off := if skip then 0 else sgOff;
    if skip {
      SumLensStep(segs, sgStart);
    }
    assert Pos(segs, i, off) == Pos(segs, sgStart, sgOff);
    ChainFirstNonEmpty(segs, d, dir, i, off, start, o.pieces);
    ChainResume(segs, d, dir, i, off, start, o.pieces);
    ChainLast(segs, d, dir, i, off, start, o.pieces);
    ChainSums(segs, d, dir, i, off, start, o.pieces);
    assert Advance(sgStart, sgOff, o.stop, o.done) == Advance(i, off, o.stop, o.done);
  }
}
