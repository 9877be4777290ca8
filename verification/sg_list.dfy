/** Scatter-gather lists as the packers see them: a sequence of bus-address
    segments, a resumption cursor (segment index, offset inside it), and the
    linear byte position such a cursor denotes. Also the per-segment pieces
    a packer writes into the descriptor table. */
module SgList {
  import opened Common
  import opened HwDesc
  import opened Encoder

  /** One mapped segment (`struct dma_segment`, or a mapped `scatterlist`
      entry): its bus address and its DMA length. */
  datatype Segment = Segment(addr: u64, len: u32)

  /** Total length of a run of segments. */
  function SumLens(segs: seq<Segment>): nat
    decreases |segs|
  {
    if |segs| == 0 then 0 else SumLens(segs[..|segs| - 1]) + segs[|segs| - 1].len
  }

  lemma SumLensStep(segs: seq<Segment>, i: nat)
    requires i < |segs|
    ensures SumLens(segs[..i + 1]) == SumLens(segs[..i]) + segs[i].len
  {
    assert segs[..i + 1][..i] == segs[..i];
  }

  /** Prefix sums never decrease, and grow strictly over a positive segment. */
  lemma {:induction false} SumLensMono(segs: seq<Segment>, i: nat, j: nat)
    requires i <= j <= |segs|
    ensures SumLens(segs[..i]) <= SumLens(segs[..j])
    ensures AllPositive(segs) && i < j ==> SumLens(segs[..i]) + segs[i].len <= SumLens(segs[..j])
    decreases j - i
  {
    if i < j {
      SumLensStep(segs, i);
      SumLensMono(segs, i + 1, j);
    }
  }

  /** Every segment carries at least one byte. */
  predicate AllPositive(segs: seq<Segment>)
  {
    forall k :: 0 <= k < |segs| ==> segs[k].len > 0
  }

  /** A cursor that points into the list, at most one past the last byte of
      its segment. */
  predicate ValidCursor(segs: seq<Segment>, cur: nat, off: nat)
  {
    cur < |segs| && off <= segs[cur].len
  }

  /** The linear byte position a cursor denotes: the lengths of the segments
      before it plus the offset inside its own segment. */
  function Pos(segs: seq<Segment>, cur: nat, off: nat): nat
    requires cur <= |segs|
  {
    SumLens(segs[..cur]) + off
  }

  /** `sg_is_last(sg_curr) && sg_offset == sg_len`: nothing is left. */
  predicate Complete(segs: seq<Segment>, cur: nat, off: nat)
  {
    |segs| > 0 && cur == |segs| - 1 && off == segs[cur].len
  }

  /** The done test on a cursor (`dma_desc_done` for tables, and
      `is_desc_complete`): not done before the last segment; on the last
      one, an offset past its length is a BUG_ON, and done means the offset
      reached its length. */
  function SgDone(segs: seq<Segment>, cur: nat, off: nat): (r: Result<bool>)
    requires cur < |segs|
    ensures r.Err? ==> r.error == Fatal
    ensures r.Err? <==> cur == |segs| - 1 && off > segs[cur].len
    ensures r == Ok(true) <==> Complete(segs, cur, off)
  {
    if cur != |segs| - 1 then Ok(false)
    else if off > segs[cur].len then Err(Fatal)
    else Ok(off == segs[cur].len)
  }

  /** With positive segments, a valid cursor lies inside the list, and it is
      at the very end exactly when it is complete. */
  lemma PosCompleteIff(segs: seq<Segment>, cur: nat, off: nat)
    requires AllPositive(segs) && ValidCursor(segs, cur, off)
    ensures Pos(segs, cur, off) <= SumLens(segs)
    ensures Pos(segs, cur, off) == SumLens(segs) <==> Complete(segs, cur, off)
  {
    assert segs[..|segs|] == segs;
    SumLensStep(segs, cur);
    SumLensMono(segs, cur + 1, |segs|);
    if cur + 1 < |segs| {
      SumLensMono(segs, cur + 1, |segs|);
    }
  }

  /** The cursor update after a successful pack (`setup_dma_descs_sg` and
      the dmaengine `setup_dma_descs`): stopping on the same segment adds
      the bytes set to the offset, stopping on a later one restarts the
      offset there. */
  function Advance(cur: nat, off: nat, stop: nat, done: nat): (nat, nat)
  {
    if stop == cur then (cur, off + done) else (stop, done)
  }

  /** What one packer iteration wrote: the segment it encoded, the offset it
      started at, the first table slot it used, and the encoding. */
  datatype Piece = Piece(seg: nat, off: nat, slot: nat, enc: Encoded)

  /** The pieces of one pack, in the order they were written. */
  datatype Pieces = Nil | Cons(head: Piece, tail: Pieces)

  /** Bytes reported by a run of pieces. */
  function PieceBytes(ps: Pieces): nat
  {
    if ps.Nil? then 0 else ps.head.enc.setBytes + PieceBytes(ps.tail)
  }

  /** Number of descriptors a run of pieces wrote. */
  function PieceCount(ps: Pieces): nat
  {
    if ps.Nil? then 0 else |ps.head.enc.chunks| + PieceCount(ps.tail)
  }

  /** The descriptor table contents, in slot order. */
  function Flatten(ps: Pieces): (cs: seq<Extent>)
    ensures |cs| == PieceCount(ps)
  {
    if ps.Nil? then [] else ps.head.enc.chunks + Flatten(ps.tail)
  }

  function Last(ps: Pieces): Piece
    requires ps.Cons?
  {
    if ps.tail.Nil? then ps.head else Last(ps.tail)
  }

  /** Bytes reported by every piece but the last. */
  function InitBytes(ps: Pieces): nat
    requires ps.Cons?
  {
    if ps.tail.Nil? then 0 else ps.head.enc.setBytes + InitBytes(ps.tail)
  }

  /** Descriptors written by every piece but the last. */
  function InitCount(ps: Pieces): nat
    requires ps.Cons?
  {
    if ps.tail.Nil? then 0 else |ps.head.enc.chunks| + InitCount(ps.tail)
  }

  /** The device address after segment `i`, for a pack that reached the
      segment's start at `dev` and began it at offset `off`: the offset is
      added first and the bytes after it next, as the packers do. */
  function NextDev(segs: seq<Segment>, dev: u64, i: nat, off: nat): u64
    requires ValidCursor(segs, i, off)
  {
    AddrAdd(AddrAdd(dev, off), segs[i].len - off)
  }

  /** The piece encodes the rest of its segment from its offset, with the
      segment's start at device address `dev`: both addresses are advanced
      by the offset. */
  ghost predicate PieceEncodes(segs: seq<Segment>, dev: u64, dir: Direction, p: Piece)
  {
    && ValidCursor(segs, p.seg, p.off)
    && EncodesExtent(p.enc, p.slot, dir, AddrAdd(dev, p.off),
                     AddrAdd(segs[p.seg].addr, p.off), segs[p.seg].len - p.off)
  }

  /** The piece reports every remaining byte of its segment. */
  predicate Whole(segs: seq<Segment>, p: Piece)
    requires p.seg < |segs|
  {
    p.off + p.enc.setBytes == segs[p.seg].len
  }

  /** The piece used the table up to its last slot. */
  predicate Fills(p: Piece)
  {
    p.slot + |p.enc.chunks| == DescNum
  }

  /** The device address a packer's loop starts with: `dev` advanced over
      every segment before the start one, and over the start one as well
      when it was already fully sent. */
  function ResumeDev(segs: seq<Segment>, dev: u64, segStart: nat, segOff: nat): u64
    requires segStart < |segs|
  {
    var d := AddrAdd(dev, SumLens(segs[..segStart]));
    if segs[segStart].len == segOff then AddrAdd(d, segOff) else d
  }

  /** The outcome of one iteration of a packing loop: an error, the piece
      it wrote followed by a break, or the piece and the device address of
      the next segment to continue with. */
  datatype Step = Fail(error: Error) | Stop(p: Piece) | Go(p: Piece, next: u64)

  /** The checks both packers make after `setup_descs` wrote piece `p` with
      `len` bytes of its segment left, `nr` descriptors before it: the
      capacity check, the break on a full table, the bytes-left check and the
      break on the last segment; `next` is where the loop would continue and
      `bug` the error a failed check reports. Given what an encoding
      guarantees, neither check can fail. */
  function Settle(segs: seq<Segment>, nr: nat, len: nat, p: Piece, next: u64, bug: Error): (s: Step)
    requires p.seg < |segs| && nr <= p.slot && p.off + len == segs[p.seg].len
    requires p.slot + |p.enc.chunks| <= DescNum
    requires p.slot + |p.enc.chunks| < DescNum ==> p.enc.setBytes == len
    ensures !s.Fail? && s.p == p
    ensures s.Stop? ==> Fills(p) || (p.seg == |segs| - 1 && Whole(segs, p))
    ensures s.Go? ==> Whole(segs, p) && !Fills(p) && p.seg + 1 < |segs| && s.next == next
  {
    var ret := |p.enc.chunks|;
    if p.slot + ret > DescNum || nr + ret > DescNum then Fail(bug)
    else if p.slot + ret == DescNum then Stop(p)
    else if len != p.enc.setBytes then Fail(bug)
    else if p.seg >= |segs| - 1 then Stop(p)
    else Go(p, next)
  }

  /** The shape of a packer's output from cursor `(i, off)`, table slot
      `slot` and device address `dev` at the start of segment `i`:
      consecutive segments, the first from `off` and the rest from their
      start, slots allocated back to back, each piece encoding its segment at
      the running device address, every piece but the last complete without
      filling the table, and the last one either filling the table or
      finishing the list. */
  ghost predicate Chain(segs: seq<Segment>, dev: u64, dir: Direction,
                        i: nat, off: nat, slot: nat, ps: Pieces)
    decreases ps
  {
    && ps.Cons?
    && ps.head == Piece(i, off, slot, ps.head.enc)
    && PieceEncodes(segs, dev, dir, ps.head)
    && if ps.tail.Nil? then Fills(ps.head) || (i == |segs| - 1 && Whole(segs, ps.head))
       else
         && Whole(segs, ps.head) && !Fills(ps.head) && i + 1 < |segs|
         && Chain(segs, NextDev(segs, dev, i, off), dir, i + 1, 0,
                  slot + |ps.head.enc.chunks|, ps.tail)
  }

  /** A single piece from cursor `(i, off)` at slot `slot` that fills the
      table or finishes the list is a chain. */
  lemma ChainOne(segs: seq<Segment>, dev: u64, dir: Direction,
                 i: nat, off: nat, slot: nat, p: Piece)
    requires p == Piece(i, off, slot, p.enc)
    requires PieceEncodes(segs, dev, dir, p)
    requires Fills(p) || (i == |segs| - 1 && Whole(segs, p))
    ensures Chain(segs, dev, dir, i, off, slot, Cons(p, Nil))
  {
  }

  /** A whole piece from cursor `(i, off)` that leaves room in the table,
      followed by a chain from the start of the next segment, is a chain. */
  lemma ChainCons(segs: seq<Segment>, dev: u64, dir: Direction,
                  i: nat, off: nat, slot: nat, p: Piece, rest: Pieces)
    requires p == Piece(i, off, slot, p.enc)
    requires PieceEncodes(segs, dev, dir, p) && Whole(segs, p) && !Fills(p)
    requires i + 1 < |segs|
    requires Chain(segs, NextDev(segs, dev, i, off), dir, i + 1, 0, slot + |p.enc.chunks|, rest)
    ensures Chain(segs, dev, dir, i, off, slot, Cons(p, rest))
  {
  }

  /** The last piece of a chain ends the run: it lies at or after the
      chain's segment, on a later segment only from that segment's start,
      inside its segment and the table, and it fills the table or finishes
      the list. */
  lemma {:induction false} ChainLast(segs: seq<Segment>, dev: u64, dir: Direction,
                                     i: nat, off: nat, slot: nat, ps: Pieces)
    requires Chain(segs, dev, dir, i, off, slot, ps)
    ensures ValidCursor(segs, Last(ps).seg, Last(ps).off)
    ensures Last(ps).off + Last(ps).enc.setBytes <= segs[Last(ps).seg].len
    ensures Last(ps).slot + |Last(ps).enc.chunks| <= DescNum
    ensures Fills(Last(ps)) || (Last(ps).seg == |segs| - 1 && Whole(segs, Last(ps)))
    ensures Last(ps).seg >= i
    ensures Last(ps).seg == i ==> ps.tail.Nil? && Last(ps).off == off
    ensures Last(ps).seg != i ==> Last(ps).off == 0
    decreases ps
  {
    if ps.tail.Cons? {
      ChainLast(segs, NextDev(segs, dev, i, off), dir, i + 1, 0, slot + |ps.head.enc.chunks|, ps.tail);
    }
  }

  /** What a chain adds up to: the linear position and the slot telescope
      from its cursor to its last piece, and the descriptors carry exactly
      the bytes the pieces report. */
  lemma {:induction false} ChainSums(segs: seq<Segment>, dev: u64, dir: Direction,
                                     i: nat, off: nat, slot: nat, ps: Pieces)
    requires Chain(segs, dev, dir, i, off, slot, ps)
    ensures Last(ps).seg < |segs|
    ensures Pos(segs, i, off) + InitBytes(ps) == Pos(segs, Last(ps).seg, Last(ps).off)
    ensures PieceBytes(ps) == InitBytes(ps) + Last(ps).enc.setBytes
    ensures slot + InitCount(ps) == Last(ps).slot
    ensures PieceCount(ps) == InitCount(ps) + |Last(ps).enc.chunks|
    ensures Bytes(Flatten(ps)) == PieceBytes(ps)
    decreases ps
  {
    BytesAppend(ps.head.enc.chunks, Flatten(ps.tail));
    if ps.tail.Cons? {
      ChainSums(segs, NextDev(segs, dev, i, off), dir, i + 1, 0, slot + |ps.head.enc.chunks|, ps.tail);
      SumLensStep(segs, i);
    }
  }

  /** The descriptors of a chain sit in consecutive table slots from its
      first slot on. */
  lemma {:induction false} ChainIds(segs: seq<Segment>, dev: u64, dir: Direction,
                                    i: nat, off: nat, slot: nat, ps: Pieces)
    requires Chain(segs, dev, dir, i, off, slot, ps)
    ensures forall k :: 0 <= k < |Flatten(ps)| ==> Flatten(ps)[k].id == slot + k
    decreases ps
  {
    var h := ps.head.enc.chunks;
    if ps.tail.Cons? {
      ChainIds(segs, NextDev(segs, dev, i, off), dir, i + 1, 0, slot + |h|, ps.tail);
    }
    forall k | 0 <= k < |Flatten(ps)|
      ensures Flatten(ps)[k].id == slot + k
    {
      if k >= |h| {
        assert Flatten(ps)[k] == Flatten(ps.tail)[k - |h|];
      }
    }
  }

  /** The number of pieces of a run; the segment after a run of whole
      pieces from segment `i` is `i + Count(ps)`. */
  function Count(ps: Pieces): nat
  {
    if ps.Nil? then 0 else 1 + Count(ps.tail)
  }

  /** Whole pieces of consecutive segments from cursor `(i, off)` and slot
      `slot` on, each leaving room in the table: what a packing loop has
      written when it gives up on the segment after them. */
  ghost predicate Run(segs: seq<Segment>, dev: u64, dir: Direction,
                      i: nat, off: nat, slot: nat, ps: Pieces)
    decreases ps
  {
    ps.Cons? ==>
      && ps.head == Piece(i, off, slot, ps.head.enc)
      && PieceEncodes(segs, dev, dir, ps.head)
      && Whole(segs, ps.head) && !Fills(ps.head) && i + 1 < |segs|
      && Run(segs, NextDev(segs, dev, i, off), dir, i + 1, 0, slot + |ps.head.enc.chunks|, ps.tail)
  }

  /** A run stopped by an empty segment grows at its front by a whole piece
      of the segment before. */
  lemma RunGrows(segs: seq<Segment>, dev: u64, dir: Direction, i: nat, off: nat, slot: nat,
                 p: Piece, tail: Pieces)
    requires && p == Piece(i, off, slot, p.enc) && PieceEncodes(segs, dev, dir, p)
             && Whole(segs, p) && !Fills(p) && i + 1 < |segs|
    requires Run(segs, NextDev(segs, dev, i, off), dir, i + 1, 0, slot + |p.enc.chunks|, tail)
    requires i + 1 + Count(tail) < |segs| && segs[i + 1 + Count(tail)].len == 0
    ensures Run(segs, dev, dir, i, off, slot, Cons(p, tail))
    ensures i + Count(Cons(p, tail)) < |segs| && segs[i + Count(Cons(p, tail))].len == 0
  {
    assert Count(Cons(p, tail)) == 1 + Count(tail);
  }

  /** The descriptors of a run sit in consecutive table slots from its first
      slot on, and leave the last slot of the table free. */
  lemma {:induction false} RunIds(segs: seq<Segment>, dev: u64, dir: Direction,
                                  i: nat, off: nat, slot: nat, ps: Pieces)
    requires Run(segs, dev, dir, i, off, slot, ps) && slot < DescNum
    ensures forall k :: 0 <= k < |Flatten(ps)| ==> Flatten(ps)[k].id == slot + k
    ensures slot + |Flatten(ps)| < DescNum
    decreases ps
  {
    if ps.Cons? {
      var h := ps.head.enc.chunks;
      RunIds(segs, NextDev(segs, dev, i, off), dir, i + 1, 0, slot + |h|, ps.tail);
      forall k | 0 <= k < |Flatten(ps)|
        ensures Flatten(ps)[k].id == slot + k
      {
        if k >= |h| {
          assert Flatten(ps)[k] == Flatten(ps.tail)[k - |h|];
        }
      }
    }
  }

  /** The linear position after the last piece of a chain is where the
      cursor update lands, and it advanced by exactly the bytes reported. */
  lemma ChainAdvance(segs: seq<Segment>, dev: u64, dir: Direction,
                     i: nat, off: nat, slot: nat, ps: Pieces)
    requires Chain(segs, dev, dir, i, off, slot, ps)
    ensures var c := Advance(i, off, Last(ps).seg, Last(ps).enc.setBytes);
            && ValidCursor(segs, c.0, c.1)
            && Pos(segs, c.0, c.1) == Pos(segs, i, off) + Bytes(Flatten(ps))
  {
    ChainLast(segs, dev, dir, i, off, slot, ps);
    ChainSums(segs, dev, dir, i, off, slot, ps);
  }

  /** Everything a resuming caller relies on, from a chain written at cursor
      `(i, off)`: the cursor update lands on a valid cursor whose position
      advanced by exactly the bytes of the descriptors, the descriptors sit
      in consecutive slots from `slot` within the table, and either the
      table is full or the list is finished. */
  lemma ChainResume(segs: seq<Segment>, dev: u64, dir: Direction,
                    i: nat, off: nat, slot: nat, ps: Pieces)
    requires Chain(segs, dev, dir, i, off, slot, ps)
    ensures var c := Advance(i, off, Last(ps).seg, Last(ps).enc.setBytes);
            && ValidCursor(segs, c.0, c.1)
            && Pos(segs, c.0, c.1) == Pos(segs, i, off) + Bytes(Flatten(ps))
            && slot + PieceCount(ps) <= DescNum
            && (forall k :: 0 <= k < |Flatten(ps)| ==> Flatten(ps)[k].id == slot + k)
            && (slot + PieceCount(ps) == DescNum || Complete(segs, c.0, c.1))
  {
    ChainLast(segs, dev, dir, i, off, slot, ps);
    ChainSums(segs, dev, dir, i, off, slot, ps);
    ChainAdvance(segs, dev, dir, i, off, slot, ps);
    ChainIds(segs, dev, dir, i, off, slot, ps);
  }

  /** What `setup_descs_sg` hands back: the pieces it wrote, the number of
      descriptors (its return value), and the stop segment and the bytes set
      inside it (`*seg_stop`, `*seg_set`). */
  datatype SgOut = SgOut(pieces: Pieces, nr: nat, stop: nat, done: nat)

  /** A chain has at least one descriptor when its first piece starts with
      bytes left in a positive segment and the table has room. */
  lemma ChainFirstNonEmpty(segs: seq<Segment>, dev: u64, dir: Direction,
                           i: nat, off: nat, slot: nat, ps: Pieces)
    requires Chain(segs, dev, dir, i, off, slot, ps)
    requires off < segs[i].len && slot < DescNum
    ensures PieceCount(ps) > 0 && PieceBytes(ps) > 0
  {
    var e := ps.head.enc;
    var l := segs[i].len - off;
    assert CeilDiv(l, MaxXfer) >= 1;
    assert e.chunks[0].len > 0;
    assert Bytes(e.chunks) >= e.chunks[0].len;
  }

  /** The device address of a position inside segment `i`, and of the
      start of the next one, measured from `base`. */
  lemma DevAddrStep(segs: seq<Segment>, base: u64, dev: u64, i: nat, off: nat)
    requires ValidCursor(segs, i, off)
    requires dev == AddrAdd(base, SumLens(segs[..i]))
    ensures AddrAdd(dev, off) == AddrAdd(base, Pos(segs, i, off))
    ensures NextDev(segs, dev, i, off) == AddrAdd(base, SumLens(segs[..i + 1]))
  {
    AddrAddAssoc(base, SumLens(segs[..i]), off);
    AddrAddAssoc(base, SumLens(segs[..i]) + off, segs[i].len - off);
    SumLensStep(segs, i);
  }

  /** Every piece's device range starts at `base` advanced by the linear
      position of its cursor: the device side of the transfer is the list
      laid out contiguously from `base`. */
  ghost predicate PiecesAt(segs: seq<Segment>, base: u64, dir: Direction, ps: Pieces)
    decreases ps
  {
    ps.Cons? ==>
      && ValidCursor(segs, ps.head.seg, ps.head.off)
      && EncodesExtent(ps.head.enc, ps.head.slot, dir,
                       AddrAdd(base, Pos(segs, ps.head.seg, ps.head.off)),
                       AddrAdd(segs[ps.head.seg].addr, ps.head.off),
                       segs[ps.head.seg].len - ps.head.off)
      && PiecesAt(segs, base, dir, ps.tail)
  }

  /** A chain resumed from a cursor, past its segment when that is used up,
      lays every piece out from `base`. */
  lemma ResumePlaced(segs: seq<Segment>, base: u64, dir: Direction, cur: nat, off: nat,
                     slot: nat, ps: Pieces)
    requires ValidCursor(segs, cur, off)
    requires var skip := off == segs[cur].len;
             Chain(segs, ResumeDev(segs, base, cur, off), dir,
                   if skip then cur + 1 else cur, if skip then 0 else off, slot, ps)
    ensures PiecesAt(segs, base, dir, ps)
  {
    var d := AddrAdd(base, SumLens(segs[..cur]));
    if off == segs[cur].len {
      SumLensStep(segs, cur);
      AddrAddAssoc(base, SumLens(segs[..cur]), off);
      ChainPlaced(segs, base, AddrAdd(d, off), dir, cur + 1, 0, slot, ps);
    } else {
      ChainPlaced(segs, base, d, dir, cur, off, slot, ps);
    }
  }

  /** A chain that reached segment `i` at `base` advanced by the segments
      before it lays every piece out from `base`. */
  lemma {:induction false} ChainPlaced(segs: seq<Segment>, base: u64, dev: u64, dir: Direction,
                                       i: nat, off: nat, slot: nat, ps: Pieces)
    requires Chain(segs, dev, dir, i, off, slot, ps)
    requires dev == AddrAdd(base, SumLens(segs[..i]))
    ensures PiecesAt(segs, base, dir, ps)
    decreases ps
  {
    DevAddrStep(segs, base, dev, i, off);
    if ps.tail.Cons? {
      ChainPlaced(segs, base, NextDev(segs, dev, i, off), dir, i + 1, 0,
                  slot + |ps.head.enc.chunks|, ps.tail);
    }
  }
}
