/** The descriptor encoder `setup_descs`: splits one contiguous transfer into
    chunks of at most `MaxXfer` bytes, one hardware descriptor per chunk,
    written at successive table slots until the table is full. */
module Encoder {
  import opened Common
  import opened HwDesc

  /** What `setup_descs` produced: the chunks it wrote (their count is the
      return value `nr_descs`) and the byte count it reports through `*_set`. */
  datatype Encoded = Encoded(chunks: seq<Extent>, setBytes: nat)

  /** Total length of a run of chunks. */
  function Bytes(cs: seq<Extent>): nat
    decreases |cs|
  {
    if |cs| == 0 then 0 else cs[0].len + Bytes(cs[1..])
  }

  lemma {:induction false} BytesAppend(a: seq<Extent>, b: seq<Extent>)
    ensures Bytes(a + b) == Bytes(a) + Bytes(b)
    decreases |a|
  {
    if |a| == 0 {
      assert a + b == b;
    } else {
      assert (a + b)[1..] == a[1..] + b;
      BytesAppend(a[1..], b);
    }
  }

  /** The device-side address of a chunk: the destination when writing to the
      device, the source otherwise. */
  function DevSide(c: Extent, dir: Direction): u64
  {
    if dir == ToDevice then c.dest else c.src
  }

  /** The host-side address of a chunk. */
  function HostSide(c: Extent, dir: Direction): u64
  {
    if dir == ToDevice then c.src else c.dest
  }

  /** The `k`-th chunk of a contiguous transfer of `len` bytes encoded from
      table slot `id`: every chunk but the last is `MaxXfer` long, and both
      addresses advance by the lengths of the chunks before it. */
  function ChunkAt(id: nat, dest: u64, src: u64, len: nat, k: nat): Extent
    requires k * MaxXfer < len
  {
    Extent(id + k, AddrAdd(dest, k * MaxXfer), AddrAdd(src, k * MaxXfer), Min(len - k * MaxXfer, MaxXfer))
  }

  /** Chunk `k - 1` of the remainder after a full first chunk is chunk `k`
      of the whole transfer. */
  lemma ChunkShift(id: nat, dest: u64, src: u64, len: nat, k: nat)
    requires len > MaxXfer && 1 <= k && (k - 1) * MaxXfer < len - MaxXfer
    ensures k * MaxXfer < len
    ensures ChunkAt(id + 1, AddrAdd(dest, MaxXfer), AddrAdd(src, MaxXfer), len - MaxXfer, k - 1)
            == ChunkAt(id, dest, src, len, k)
  {
    assert k * MaxXfer == (k - 1) * MaxXfer + MaxXfer;
    AddrAddAssoc(dest, MaxXfer, (k - 1) * MaxXfer);
    AddrAddAssoc(src, MaxXfer, (k - 1) * MaxXfer);
  }

  /** The loop of `setup_descs`, from table slot `id` after `nr` descriptors,
      with `len` bytes still to encode: it writes one chunk per slot until
      the bytes run out or the table is full. */
  function EncodeLoop(id: nat, nr: nat, dest: u64, src: u64, len: nat): (e: Encoded)
    requires id < DescNum && nr <= id
    ensures id + |e.chunks| <= DescNum
    ensures len > 0 <==> |e.chunks| > 0
    ensures |e.chunks| * MaxXfer < len + MaxXfer
    ensures id + |e.chunks| < DescNum ==> |e.chunks| * MaxXfer >= len
    ensures e.setBytes == Bytes(e.chunks) == Min(len, |e.chunks| * MaxXfer)
    ensures forall k :: 0 <= k < |e.chunks| ==>
              k * MaxXfer < len && e.chunks[k] == ChunkAt(id, dest, src, len, k)
    decreases len
  {
    if len == 0 then Encoded([], 0)
    else
      var x := Min(len, MaxXfer);
      var c := Extent(id, dest, src, x);
      assert c == ChunkAt(id, dest, src, len, 0);
      if nr + 1 >= DescNum || id + 1 >= DescNum || len <= MaxXfer then
        if nr + 1 >= DescNum || id + 1 >= DescNum then
          Encoded([c], x)
        else
          var e := EncodeLoop(id + 1, nr + 1, AddrAdd(dest, x), AddrAdd(src, x), len - x);
          assert e.chunks == [];
          assert Bytes([c]) == x;
          Encoded([c] + e.chunks, x + e.setBytes)
      else
        var rest := EncodeLoop(id + 1, nr + 1, AddrAdd(dest, x), AddrAdd(src, x), len - x);
        var n := |rest.chunks|;
        var e := Encoded([c] + rest.chunks, x + rest.setBytes);
        assert (n + 1) * MaxXfer == n * MaxXfer + MaxXfer;
        assert Bytes(e.chunks) == x + Bytes(rest.chunks) by {
          assert e.chunks[1..] == rest.chunks;
        }
        assert forall k :: 0 <= k < |e.chunks| ==>
                 k * MaxXfer < len && e.chunks[k] == ChunkAt(id, dest, src, len, k) by {
          forall k | 1 <= k < |e.chunks|
            ensures k * MaxXfer < len && e.chunks[k] == ChunkAt(id, dest, src, len, k)
          {
            assert e.chunks[k] == rest.chunks[k - 1];
            ChunkShift(id, dest, src, len, k);
          }
        }
        e
  }

  /** `n` chunks of at most `MaxXfer` bytes, all but the last full, cover
      `len` bytes exactly when `n` is `ceil(len / MaxXfer)`. */
  lemma CeilDivUnique(len: nat, n: nat)
    requires n * MaxXfer < len + MaxXfer && n * MaxXfer >= len
    ensures n == CeilDiv(len, MaxXfer)
  {
  }

  lemma CeilDivAbove(len: nat, n: nat)
    requires n * MaxXfer < len + MaxXfer
    ensures n <= CeilDiv(len, MaxXfer)
  {
  }

  /** The closed-form result of encoding `len` bytes between `dev` and `host`
      from table slot `start`: `min(ceil(len / MaxXfer), DescNum - start)`
      chunks, chunk `k` at slot `start + k` carrying `min(remaining, MaxXfer)`
      bytes at both addresses advanced by `k * MaxXfer`; the reported byte
      count is the sum of the chunk lengths and equals `len` unless the table
      filled up first. */
  ghost predicate EncodesExtent(e: Encoded, start: nat, dir: Direction, dev: u64, host: u64, len: nat)
  {
    && |e.chunks| == Min(CeilDiv(len, MaxXfer), DescNum - start)
    && start + |e.chunks| <= DescNum
    && e.setBytes == Bytes(e.chunks) <= len
    && (start + |e.chunks| < DescNum ==> e.setBytes == len)
    && (forall k :: 0 <= k < |e.chunks| ==>
          && e.chunks[k].id == start + k
          && e.chunks[k].len == Min(len - k * MaxXfer, MaxXfer)
          && 0 < e.chunks[k].len <= MaxXfer
          && DevSide(e.chunks[k], dir) == AddrAdd(dev, k * MaxXfer)
          && HostSide(e.chunks[k], dir) == AddrAdd(host, k * MaxXfer))
  }

  /** The chunk count of the loop is `min(ceil(len / MaxXfer), DescNum - start)`. */
  lemma EncodeLoopCount(start: nat, dest: u64, src: u64, len: nat)
    requires start < DescNum
    ensures |EncodeLoop(start, 0, dest, src, len).chunks| == Min(CeilDiv(len, MaxXfer), DescNum - start)
  {
    var n := |EncodeLoop(start, 0, dest, src, len).chunks|;
    if start + n < DescNum {
      CeilDivUnique(len, n);
    } else {
      CeilDivAbove(len, n);
    }
  }

  /** Per-chunk facts of the loop, stated on device and host sides. */
  lemma EncodeLoopChunks(e: Encoded, start: nat, dir: Direction, dev: u64, host: u64, len: nat)
    requires start < DescNum
    requires e == if dir == ToDevice then EncodeLoop(start, 0, dev, host, len)
                  else EncodeLoop(start, 0, host, dev, len)
    ensures forall k :: 0 <= k < |e.chunks| ==>
              && e.chunks[k].id == start + k
              && e.chunks[k].len == Min(len - k * MaxXfer, MaxXfer)
              && 0 < e.chunks[k].len <= MaxXfer
              && DevSide(e.chunks[k], dir) == AddrAdd(dev, k * MaxXfer)
              && HostSide(e.chunks[k], dir) == AddrAdd(host, k * MaxXfer)
  {
    forall k | 0 <= k < |e.chunks|
      ensures && e.chunks[k].id == start + k
              && e.chunks[k].len == Min(len - k * MaxXfer, MaxXfer)
              && 0 < e.chunks[k].len <= MaxXfer
              && DevSide(e.chunks[k], dir) == AddrAdd(dev, k * MaxXfer)
              && HostSide(e.chunks[k], dir) == AddrAdd(host, k * MaxXfer)
    {
      if dir == ToDevice {
        assert e.chunks[k] == ChunkAt(start, dev, host, len, k);
      } else {
        assert e.chunks[k] == ChunkAt(start, host, dev, len, k);
      }
    }
  }

  lemma EncodeLoopEncodes(start: nat, dir: Direction, dev: u64, host: u64, len: nat)
    requires start < DescNum
    ensures var e := if dir == ToDevice then EncodeLoop(start, 0, dev, host, len)
                     else EncodeLoop(start, 0, host, dev, len);
            EncodesExtent(e, start, dir, dev, host, len)
  {
    var e := if dir == ToDevice then EncodeLoop(start, 0, dev, host, len)
             else EncodeLoop(start, 0, host, dev, len);
    if dir == ToDevice {
      EncodeLoopCount(start, dev, host, len);
    } else {
      EncodeLoopCount(start, host, dev, len);
    }
    EncodeLoopChunks(e, start, dir, dev, host, len);
  }

  /** The loop's result in closed form: `min(ceil(len / MaxXfer), DescNum - start)`
      chunks, chunk `k` being `ChunkAt(.., k)`, reporting the bytes they cover. */
  function Encode(start: nat, dest: u64, src: u64, len: nat): (e: Encoded)
    requires start < DescNum
  {
    var n := Min(CeilDiv(len, MaxXfer), DescNum - start);
    Encoded(seq(n, k requires 0 <= k < n => ChunkAt(start, dest, src, len, k)), Min(len, n * MaxXfer))
  }

  /** The loop of `setup_descs` computes the closed form. */
  lemma EncodeClosed(start: nat, dest: u64, src: u64, len: nat)
    requires start < DescNum
    ensures EncodeLoop(start, 0, dest, src, len) == Encode(start, dest, src, len)
  {
    EncodeLoopCount(start, dest, src, len);
    assert EncodeLoop(start, 0, dest, src, len).chunks == Encode(start, dest, src, len).chunks;
  }

  /** `setup_descs` of the staging driver: a direction other than to/from the
      device or a start slot past the table is a BUG(), a zero length is
      rejected with -EINVAL; nothing is written in any of these cases. */
  function StagingSetupDescs(start: nat, dir: Direction, dev: u64, host: u64, len: u32): (r: Result<Encoded>)
    ensures r == Err(Fatal) <==> !ValidDirection(dir) || start >= DescNum
    ensures r == Err(Inval) <==> ValidDirection(dir) && start < DescNum && len == 0
    ensures r.Ok? <==> ValidDirection(dir) && start < DescNum && len > 0
    ensures r.Ok? ==> EncodesExtent(r.value, start, dir, dev, host, len) && |r.value.chunks| >= 1
  {
    if !ValidDirection(dir) then Err(Fatal)
    else if start > DescNum - 1 then Err(Fatal)
    else if len == 0 then Err(Inval)
    else
      EncodeLoopEncodes(start, dir, dev, host, len);
      EncodeClosed(start, dev, host, len);
      EncodeClosed(start, host, dev, len);
      if dir == ToDevice then Ok(Encode(start, dev, host, len))
      else Ok(Encode(start, host, dev, len))
  }

  /** `setup_descs` of the dmaengine driver: only a start slot past the table
      is rejected; any direction other than to-device copies device to host,
      and a zero length yields no chunk. */
  function EngineSetupDescs(start: nat, dir: Direction, dev: u64, host: u64, len: u32): (r: Result<Encoded>)
    ensures r.Err? <==> start >= DescNum
    ensures r.Err? ==> r.error == Inval
    ensures r.Ok? ==> EncodesExtent(r.value, start, dir, dev, host, len)
    ensures r.Ok? && len == 0 ==> r.value.chunks == [] && r.value.setBytes == 0
  {
    if start >= DescNum then Err(Inval)
    else
      EncodeLoopEncodes(start, dir, dev, host, len);
      EncodeClosed(start, dev, host, len);
      EncodeClosed(start, host, dev, len);
      if dir == ToDevice then Ok(Encode(start, dev, host, len))
      else Ok(Encode(start, host, dev, len))
  }
}
