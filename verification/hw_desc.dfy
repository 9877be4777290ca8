/** Hardware layout of the Avalon-MM DMA controller: the fixed-size descriptor
    that the encoder writes into a descriptor table, its packed length/id
    control word, and the register writes that start a table. */
module HwDesc {
  import opened Common

  /** `ALTERA_DMA_DESCRIPTOR_NUM` / `AVALON_DMA_DESC_NUM`: table capacity. */
  const DescNum: nat := 128

  /** `AVALON_MM_DMA_MAX_TANSFER_SIZE` / `AVALON_DMA_MAX_TANSFER_SIZE`:
      the largest chunk one descriptor may carry. */
  const MaxXfer: nat := 0x100000 - 0x100

  /** Offsets of the read (to device) and write (from device) control blocks. */
  const RdCtrlOffset: nat := 0x0
  const WrCtrlOffset: nat := 0x100

  /** Register offsets inside one control block (`struct dma_ctrl`). */
  const RegSrcLo: nat := 0x0
  const RegSrcHi: nat := 0x4
  const RegDstLo: nat := 0x8
  const RegDstHi: nat := 0xC
  const RegLastPtr: nat := 0x10
  const RegTableSize: nat := 0x14

  /** Bit position of the descriptor id inside the control word. */
  const IdShift: nat := 0x4_0000  // 1 << 18

  /** One logical chunk: the table slot it goes to, the destination and source
      bus addresses, and its exact length in bytes. */
  datatype Extent = Extent(id: nat, dest: u64, src: u64, len: nat)

  /** `struct dma_desc`: 64-bit addresses as lo/hi words, the packed
      length/id word and three reserved words. */
  datatype HwDescriptor = HwDescriptor(
    srcLo: u32, srcHi: u32, dstLo: u32, dstHi: u32,
    ctlDmaLen: u32, reserved: seq<u32>)

  /** `a & 0xffffffff` */
  function Lo(a: u64): u32 { a % U32 }

  /** `a >> 32` */
  function Hi(a: u64): u32 { a / U32 }

  /** Reassembles a 64-bit value from its halves. */
  function Join(hi: u32, lo: u32): int { hi * U32 + lo }

  /** Length recovered from a control word: the low 18 bits count dwords. */
  function CtlLen(ctl: u32): nat { (ctl % IdShift) * 4 }

  /** Descriptor id recovered from a control word. */
  function CtlId(ctl: u32): nat { ctl / IdShift }

  lemma Pow2Constants()
    ensures Pow2(18) == IdShift && Pow2(32) == U32
  {
    assert Pow2(2) == 4;
    Pow2Add(2, 2);
    Pow2Add(4, 4);
    Pow2Add(8, 8);
    Pow2Add(16, 16);
    Pow2Add(16, 2);
  }

  /** Bitwise OR of two naturals, bit by bit from the least significant. */
  function BitOr(a: nat, b: nat): nat
    decreases a + b
  {
    if a == 0 && b == 0 then 0
    else 2 * BitOr(a / 2, b / 2) + (if a % 2 == 1 || b % 2 == 1 then 1 else 0)
  }

  lemma {:induction false} BitOrZero(b: nat)
    ensures BitOr(0, b) == b
    decreases b
  {
    if b != 0 {
      BitOrZero(b / 2);
    }
  }

  /** OR never sets a bit above the width of both operands. */
  lemma {:induction false} BitOrBound(a: nat, b: nat, n: nat)
    requires a < Pow2(n) && b < Pow2(n)
    ensures BitOr(a, b) < Pow2(n)
    decreases n
  {
    if a == 0 && b == 0 {
    } else if n == 0 {
      assert false;
    } else {
      BitOrBound(a / 2, b / 2, n - 1);
    }
  }

  /** OR of a value below `2^k` with a multiple of `2^k` is their sum: the
      fields do not overlap. */
  lemma {:induction false} BitOrDisjoint(a: nat, b: nat, k: nat)
    requires a < Pow2(k)
    ensures BitOr(a, b * Pow2(k)) == a + b * Pow2(k)
    decreases k
  {
    if k == 0 {
      BitOrZero(b);
    } else {
      var m := b * Pow2(k - 1);
      assert b * Pow2(k) == 2 * m;
      if a == 0 && m == 0 {
      } else {
        BitOrDisjoint(a / 2, b, k - 1);
        assert (2 * m) / 2 == m && (2 * m) % 2 == 0;
      }
    }
  }

  /** `(size >> 2) | (desc_id << 18)` evaluated in 32-bit arithmetic: the
      right shift is a division by 4 and the left shift of a `u32` drops the
      bits above bit 31. */
  function CtlWord(size: u32, id: u32): u32
  {
    Pow2Constants();
    BitOrBound(size / 4, (id * IdShift) % U32, 32);
    BitOr(size / 4, (id * IdShift) % U32)
  }

  /** For an in-range length and id the two fields of the control word do not
      overlap, so the OR is an addition. */
  lemma CtlWordFields(size: u32, id: u32)
    requires size <= MaxXfer && id < DescNum
    ensures CtlWord(size, id) == size / 4 + id * IdShift
  {
    Pow2Constants();
    assert (id * IdShift) % U32 == id * IdShift;
    BitOrDisjoint(size / 4, id, 18);
  }

  /** `setup_desc`: fills one hardware descriptor. */
  function SetupDesc(id: u32, dest: u64, src: u64, size: u32): (d: HwDescriptor)
    ensures Join(d.srcHi, d.srcLo) == src && Join(d.dstHi, d.dstLo) == dest
    ensures d.reserved == [0, 0, 0]
    ensures size <= MaxXfer && id < DescNum ==> CtlId(d.ctlDmaLen) == id
    ensures size <= MaxXfer && id < DescNum && size % 4 == 0 ==>
              CtlLen(d.ctlDmaLen) == size
  {
    var d := HwDescriptor(Lo(src), Hi(src), Lo(dest), Hi(dest), CtlWord(size, id), [0, 0, 0]);
    assert size <= MaxXfer && id < DescNum ==> d.ctlDmaLen == size / 4 + id * IdShift by {
      if size <= MaxXfer && id < DescNum {
        CtlWordFields(size, id);
      }
    }
    d
  }

  /** One 32-bit MMIO write: register offset from the MMIO base, and value. */
  datatype RegWrite = RegWrite(offset: nat, value: u32)

  /** The value the last write to `offset` left in that register, if any. */
  function LastWrite(ws: seq<RegWrite>, offset: nat): Option<u32>
    decreases |ws|
  {
    if |ws| == 0 then None
    else if ws[|ws| - 1].offset == offset then Some(ws[|ws| - 1].value)
    else LastWrite(ws[..|ws| - 1], offset)
  }

  /** `start_xfer`: the six register writes that hand a descriptor table to
      the controller block at `ctrlBase + ctrlOff`. The table address goes
      high word first, then the end-point address, then `last_id` into both
      `table_size` and `last_ptr`; the write of `last_ptr` comes last. */
  function StartXfer(ctrlBase: nat, ctrlOff: nat, table: u64,
                     epHi: u32, epLo: u32, lastId: int): (ws: seq<RegWrite>)
    ensures |ws| == 6
    ensures forall k :: 0 <= k < |ws| ==>
              ctrlBase + ctrlOff <= ws[k].offset < ctrlBase + ctrlOff + 0x1C
    ensures ws[5].offset == ctrlBase + ctrlOff + RegLastPtr
    ensures var b := ctrlBase + ctrlOff;
            && LastWrite(ws, b + RegSrcHi).Some? && LastWrite(ws, b + RegSrcLo).Some?
            && Join(LastWrite(ws, b + RegSrcHi).value, LastWrite(ws, b + RegSrcLo).value) == table
            && LastWrite(ws, b + RegDstHi) == Some(epHi)
            && LastWrite(ws, b + RegDstLo) == Some(epLo)
            && LastWrite(ws, b + RegTableSize) == Some(lastId % U32)
            && LastWrite(ws, b + RegLastPtr) == Some(lastId % U32)
  {
    var b := ctrlBase + ctrlOff;
    var last: u32 := lastId % U32;
    var ws :=
      [ RegWrite(b + RegSrcHi, Hi(table)),
        RegWrite(b + RegSrcLo, Lo(table)),
        RegWrite(b + RegDstHi, epHi),
        RegWrite(b + RegDstLo, epLo),
        RegWrite(b + RegTableSize, last),
        RegWrite(b + RegLastPtr, last) ];
    assert ws[..5][..4] == ws[..4] && ws[..4][..3] == ws[..3];
    assert ws[..3][..2] == ws[..2] && ws[..2][..1] == ws[..1];
    assert forall off :: off != b + RegLastPtr ==> LastWrite(ws, off) == LastWrite(ws[..5], off);
    assert forall off :: off != b + RegTableSize ==> LastWrite(ws[..5], off) == LastWrite(ws[..4], off);
    assert forall off :: off != b + RegDstLo ==> LastWrite(ws[..4], off) == LastWrite(ws[..3], off);
    assert forall off :: off != b + RegDstHi ==> LastWrite(ws[..3], off) == LastWrite(ws[..2], off);
    assert LastWrite(ws[..2], b + RegSrcHi) == LastWrite(ws[..1], b + RegSrcHi);
    assert Hi(table) * U32 + Lo(table) == table;
    ws
  }

  /** `struct lite_dma_desc_table` (staging) and `struct dma_desc_table`
      (dmaengine): the slots whose done flag is set, and the descriptor
      written at each slot. */
  datatype Table = Table(flags: set<nat>, descs: map<nat, Extent>)

  /** The chunks of one start occupy the table from slot 0 on. */
  predicate FromSlotZero(cs: seq<Extent>)
  {
    forall k :: 0 <= k < |cs| ==> cs[k].id == k
  }

  /** The slots of a table once `cs` is written from slot 0 on. */
  function Store(descs: map<nat, Extent>, cs: seq<Extent>): (r: map<nat, Extent>)
    ensures forall k :: 0 <= k < |cs| ==> k in r && r[k] == cs[k]
    ensures forall j :: j in descs && j >= |cs| ==> j in r && r[j] == descs[j]
    ensures forall j :: j in r ==> j in descs || j < |cs|
    decreases |cs|
  {
    if |cs| == 0 then descs
    else Store(descs, cs[..|cs| - 1])[|cs| - 1 := cs[|cs| - 1]]
  }

  /** The table after one start: done flags cleared, chunks stored. */
  function Reload(t: Table, cs: seq<Extent>): Table
  {
    Table({}, Store(t.descs, cs))
  }
}
