/** The sparse tag bitmap of `lib/sbitmap.c`: `depth` tags spread over
    words of `2^bitsPerWord` bits, each word with its own depth, searched
    from a per-CPU hint. The model is sequential: an atomic bit operation
    is a plain update, and the wait queues are left out. */
module Sbitmap {
  import opened Common
  import opened Arith

  /** `BITS_PER_LONG` and its logarithm on a 64-bit kernel. */
  const LongBits: nat := 64
  const LongBitsLog: nat := 6

  /** `SBM_WAIT_QUEUES` and `SBM_WAIT_BATCH`. */
  const WaitQueues: nat := 8
  const WaitBatch: nat := 8

  /** `struct sbitmap_aligned`: the set bits of the word and how many of its
      bits are tags. */
  datatype Word = Word(bits: set<nat>, depth: nat)

  /** `struct sbitmap` without its wait queues and per-CPU hints (the hint
      of the calling CPU is passed to `BtGet` and returned by it). */
  datatype Bitmap = Bitmap(depth: nat, wakeCnt: nat, bitsPerWord: nat, maps: seq<Word>)

  /** Every tag of the word is taken. */
  predicate Full(w: Word)
  {
    forall b :: 0 <= b < w.depth ==> b in w.bits
  }

  // ---------------------------------------------------------------------
  // Sizing: sbitmap_alloc and bt_update_count
  // ---------------------------------------------------------------------

  /** The shrinking loop of `sbitmap_alloc`: halve the word while four words
      would hold more than `depth` tags. */
  function Shrink(bits: nat, depth: nat): (r: nat)
    requires depth >= 4
    ensures r <= bits
    ensures 4 * Pow2(r) <= depth
    ensures r == bits || 4 * Pow2(r + 1) > depth
    decreases bits
  {
    if bits > 0 && 4 * Pow2(bits) > depth then Shrink(bits - 1, depth) else bits
  }

  /** `bits_per_word` as `sbitmap_alloc` chooses it: a full long, shrunk
      for four or more tags until four words fit in the depth. */
  function BitsPerWord(depth: nat): (r: nat)
    ensures r <= LongBitsLog
    ensures depth < 4 ==> r == LongBitsLog
    ensures depth >= 4 ==> 4 * Pow2(r) <= depth
  {
    if depth >= 4 then Shrink(LongBitsLog, depth) else LongBitsLog
  }

  /** The chosen word is the widest of at most `BITS_PER_LONG` bits of
      which four fit in the depth, so the tags spread over at least four
      words. */
  lemma BitsPerWordWidest(depth: nat, b: nat)
    requires depth >= 4 && b <= LongBitsLog && 4 * Pow2(b) <= depth
    ensures b <= BitsPerWord(depth)
  {
    var r := BitsPerWord(depth);
    if b > r {
      Pow2Mono(r + 1, b);
    }
  }

  /** `ALIGN(depth, tags_per_word) / tags_per_word`: the number of words. */
  function Words(depth: nat, tpw: nat): (r: nat)
    requires tpw >= 1
    ensures depth <= r * tpw
    ensures r == 0 || (r - 1) * tpw < depth
  {
    DivNat(depth + tpw - 1, tpw);
    DivMod(depth + tpw - 1, tpw);
    (depth + tpw - 1) / tpw
  }

  /** The depth `bt_update_count` gives word `i`: a full word while tags
      remain, then what is left. */
  function WordDepth(depth: nat, tpw: nat, i: nat): nat
  {
    if depth >= (i + 1) * tpw then tpw
    else if depth >= i * tpw then depth - i * tpw
    else 0
  }

  /** The loop of `bt_update_count`: word by word, the smaller of the
      remaining depth and a word, subtracted from the remaining depth. */
  function UpdateCount(n: nat, tpw: nat, remaining: nat): (r: seq<nat>)
    ensures |r| == n
    ensures forall i :: 0 <= i < n ==> r[i] <= tpw
  {
    if n == 0 then []
    else
      var d := Min(remaining, tpw);
      [d] + UpdateCount(n - 1, tpw, remaining - d)
  }

  function Sum(s: seq<nat>): nat
  {
    if s == [] then 0 else s[0] + Sum(s[1..])
  }

  /** The word depths add up to the depth the words can hold, and the
      remaining-depth counter never goes below zero. */
  lemma {:induction false} UpdateCountSum(n: nat, tpw: nat, remaining: nat)
    ensures Sum(UpdateCount(n, tpw, remaining)) == Min(remaining, n * tpw)
  {
    if n > 0 {
      var d := Min(remaining, tpw);
      var r := UpdateCount(n, tpw, remaining);
      assert r[1..] == UpdateCount(n - 1, tpw, remaining - d);
      UpdateCountSum(n - 1, tpw, remaining - d);
      MulSucc(n - 1, tpw);
    }
  }

  /** Word `i` gets the depth `WordDepth` describes. */
  lemma {:induction false} UpdateCountAt(n: nat, tpw: nat, remaining: nat, i: nat)
    requires i < n
    ensures UpdateCount(n, tpw, remaining)[i] == WordDepth(remaining, tpw, i)
  {
    var d := Min(remaining, tpw);
    if i > 0 {
      UpdateCountAt(n - 1, tpw, remaining - d, i - 1);
      MulSucc(i - 1, tpw);
      MulSucc(i, tpw);
      if remaining < tpw {
        MulLe(1, i, tpw);
      }
    }
  }

  /** The wake batch of `bt_update_count`: `SBM_WAIT_BATCH`, cut down to a
      quarter of the depth, but never below one. */
  function WakeCnt(depth: nat): (r: nat)
    ensures 1 <= r <= WaitBatch
    ensures depth / 4 >= WaitBatch ==> r == WaitBatch
    ensures 1 <= depth / 4 < WaitBatch ==> r == depth / 4
    ensures depth / 4 == 0 ==> r == 1
  {
    var w := WaitBatch;
    if w > depth / 4 then Max(1, depth / 4) else w
  }

  /** The shape `sbitmap_alloc` promises: a positive depth, words of
      `2^bitsPerWord` bits with the depths of `WordDepth`, and no bit set
      outside a word's depth. */
  predicate Wf(bt: Bitmap)
  {
    && bt.depth >= 1 && bt.bitsPerWord <= LongBitsLog
    && |bt.maps| == Words(bt.depth, Pow2(bt.bitsPerWord))
    && (forall i :: 0 <= i < |bt.maps| ==>
          bt.maps[i].depth == WordDepth(bt.depth, Pow2(bt.bitsPerWord), i))
    && (forall i, b :: 0 <= i < |bt.maps| && b in bt.maps[i].bits ==> b < bt.maps[i].depth)
  }

  /** `sbitmap_alloc`: depth 0 is a BUG_ON; a failed allocation (`allocOk`
      false) gives NULL; otherwise every tag is free. */
  function Alloc(depth: nat, allocOk: bool): (r: Result<Option<Bitmap>>)
    ensures r.Err? <==> depth == 0
    ensures r.Err? ==> r.error == Fatal
    ensures r.Ok? ==> (r.value.Some? <==> allocOk)
    ensures r.Ok? && r.value.Some? ==>
              var bt := r.value.value;
              && bt.depth == depth && Wf(bt)
              && bt.bitsPerWord == BitsPerWord(depth)
              && |bt.maps| == Words(depth, Pow2(BitsPerWord(depth)))
              && bt.wakeCnt == WakeCnt(depth)
              && (forall i :: 0 <= i < |bt.maps| ==> bt.maps[i].bits == {})
  {
    if depth == 0 then Err(Fatal)
    else if !allocOk then Ok(None)
    else
      var bits := BitsPerWord(depth);
      var tpw := Pow2(bits);
      var nr := Words(depth, tpw);
      var ds := UpdateCount(nr, tpw, depth);
      var bt := Bitmap(depth, WakeCnt(depth), bits, seq(nr, i requires 0 <= i < nr => Word({}, ds[i])));
      assert Wf(bt) by {
        forall i | 0 <= i < nr
          ensures bt.maps[i].depth == WordDepth(depth, tpw, i)
        {
          UpdateCountAt(nr, tpw, depth, i);
        }
      }
      Ok(Some(bt))
  }

  /** The words of a well-formed map hold exactly `depth` tags, and each
      word holds at least one tag and at most `2^bitsPerWord`. */
  lemma WordsHoldDepth(bt: Bitmap)
    requires Wf(bt)
    ensures Sum(UpdateCount(|bt.maps|, Pow2(bt.bitsPerWord), bt.depth)) == bt.depth
    ensures forall i :: 0 <= i < |bt.maps| ==> 1 <= bt.maps[i].depth <= Pow2(bt.bitsPerWord)
  {
    var tpw := Pow2(bt.bitsPerWord);
    var nr := |bt.maps|;
    UpdateCountSum(nr, tpw, bt.depth);
    forall i | 0 <= i < nr
      ensures 1 <= bt.maps[i].depth
    {
      MulLe(i, nr - 1, tpw);
    }
  }

  /** Four or more tags are spread over at least four words. */
  lemma AllocSpread(depth: nat)
    requires depth >= 4
    ensures |Alloc(depth, true).value.value.maps| >= 4
  {
    var bits := BitsPerWord(depth);
    var tpw := Pow2(bits);
    MulLtCancel(3, Words(depth, tpw), tpw);
  }

  // ---------------------------------------------------------------------
  // Tags, words and bits
  // ---------------------------------------------------------------------

  /** `TAG_TO_INDEX`: `tag >> bits_per_word`. */
  function TagIndex(bt: Bitmap, tag: nat): nat
  {
    DivNat(tag, Pow2(bt.bitsPerWord));
    tag / Pow2(bt.bitsPerWord)
  }

  /** `TAG_TO_BIT`: `tag & ((1 << bits_per_word) - 1)`. */
  function TagBit(bt: Bitmap, tag: nat): nat
  {
    DivNat(tag, Pow2(bt.bitsPerWord));
    tag % Pow2(bt.bitsPerWord)
  }

  /** `(index << bits_per_word) + bit`. */
  function TagOf(bt: Bitmap, index: nat, bit: nat): nat
  {
    index * Pow2(bt.bitsPerWord) + bit
  }

  /** Splitting a tag into word and bit and joining them back are inverse. */
  lemma TagRoundTrip(bt: Bitmap, index: nat, bit: nat)
    requires bit < Pow2(bt.bitsPerWord)
    ensures TagIndex(bt, TagOf(bt, index, bit)) == index
    ensures TagBit(bt, TagOf(bt, index, bit)) == bit
  {
    DivModUnique(index, bit, Pow2(bt.bitsPerWord));
  }

  /** The tag is taken. */
  predicate Used(bt: Bitmap, tag: nat)
  {
    TagIndex(bt, tag) < |bt.maps| && TagBit(bt, tag) in bt.maps[TagIndex(bt, tag)].bits
  }

  /** A tag is its word's first tag plus its bit. */
  lemma TagSplit(bt: Bitmap, tag: nat)
    ensures tag == TagOf(bt, TagIndex(bt, tag), TagBit(bt, tag))
    ensures TagBit(bt, tag) < Pow2(bt.bitsPerWord)
  {
    DivMod(tag, Pow2(bt.bitsPerWord));
  }

  /** A bit inside word `index` makes a tag below the depth. */
  lemma TagOfBelowDepth(bt: Bitmap, index: nat, bit: nat)
    requires Wf(bt) && index < |bt.maps| && bit < bt.maps[index].depth
    ensures TagOf(bt, index, bit) < bt.depth
  {
    MulSucc(index, Pow2(bt.bitsPerWord));
  }

  /** Every taken tag is below the depth. */
  lemma UsedBelowDepth(bt: Bitmap, tag: nat)
    requires Wf(bt) && Used(bt, tag)
    ensures tag < bt.depth
  {
    TagSplit(bt, tag);
    TagOfBelowDepth(bt, TagIndex(bt, tag), TagBit(bt, tag));
  }

  /** A tag below the depth names a word of the map and a bit inside the
      word's depth. */
  lemma TagInWord(bt: Bitmap, tag: nat)
    requires Wf(bt) && tag < bt.depth
    ensures TagIndex(bt, tag) < |bt.maps|
    ensures TagBit(bt, tag) < bt.maps[TagIndex(bt, tag)].depth
  {
    var tpw := Pow2(bt.bitsPerWord);
    var i := TagIndex(bt, tag);
    TagSplit(bt, tag);
    MulLtCancel(i, |bt.maps|, tpw);
    MulSucc(i, tpw);
  }

  /** The map with one bit of one word set. */
  function SetBit(bt: Bitmap, index: nat, bit: nat): (r: Bitmap)
    requires index < |bt.maps|
    ensures |r.maps| == |bt.maps| && bit in r.maps[index].bits
  {
    bt.(maps := bt.maps[index := bt.maps[index].(bits := bt.maps[index].bits + {bit})])
  }

  /** The map with the bit of `tag` cleared. */
  function ClearTag(bt: Bitmap, tag: nat): (r: Bitmap)
    requires TagIndex(bt, tag) < |bt.maps|
    ensures |r.maps| == |bt.maps| && !Used(r, tag)
  {
    var i := TagIndex(bt, tag);
    bt.(maps := bt.maps[i := bt.maps[i].(bits := bt.maps[i].bits - {TagBit(bt, tag)})])
  }

  // ---------------------------------------------------------------------
  // Allocation: bt_get_word and bt_get
  // ---------------------------------------------------------------------

  /** `find_next_zero_bit(word, size, offset)`: the lowest clear bit in
      `[offset, size)`, or `size` when there is none. */
  function FindNextZeroBit(bits: set<nat>, size: nat, offset: nat): (r: nat)
    ensures r == size || (offset <= r < size && r !in bits)
    ensures forall k :: offset <= k < r && k < size ==> k in bits
    decreases size - offset
  {
    if offset >= size then size
    else if offset !in bits then offset
    else FindNextZeroBit(bits, size, offset + 1)
  }

  /** `bt_get_word` with no competing setter: the lowest clear bit at or
      after the hint; failing that, and only for a non-zero hint, the
      lowest clear bit before the hint; otherwise nothing (-1). */
  function GetWord(w: Word, hint: nat): (r: Option<nat>)
    ensures r.Some? ==> r.value !in w.bits
    ensures r.Some? && r.value >= hint ==>
              r.value < w.depth && forall k :: hint <= k < r.value ==> k in w.bits
    ensures r.Some? && r.value < hint ==>
              && (forall k :: hint <= k < w.depth ==> k in w.bits)
              && (forall k :: 0 <= k < r.value ==> k in w.bits)
    ensures r.None? <==>
              && (forall k :: hint <= k < w.depth ==> k in w.bits)
              && (forall k :: 0 <= k < hint ==> k in w.bits)
  {
    var tag := FindNextZeroBit(w.bits, w.depth, hint);
    if tag < w.depth then Some(tag)
    else if hint > 0 then
      var tag2 := FindNextZeroBit(w.bits, hint, 0);
      if tag2 < hint then Some(tag2) else None
    else None
  }

  /** With a hint inside the word, `bt_get_word` finds a free tag of the
      word exactly when the word is not full. */
  lemma GetWordInWord(w: Word, hint: nat)
    requires hint <= w.depth
    ensures GetWord(w, hint).None? <==> Full(w)
    ensures GetWord(w, hint).Some? ==> GetWord(w, hint).value < w.depth
  {
  }

  /** `index + 1`, wrapping to word 0 past the last word. */
  function NextIndex(index: nat, n: nat): (r: nat)
    requires index < n
    ensures r < n
  {
    if index + 1 >= n then 0 else index + 1
  }

  /** The word `bt_get` tries `k`-th when it starts at word `start`. */
  function Visit(start: nat, k: nat, n: nat): (r: nat)
    requires n > 0
    ensures r < n
  {
    DivNat(start + k, n);
    DivMod(start + k, n);
    (start + k) % n
  }

  lemma VisitNext(start: nat, k: nat, n: nat)
    requires start < n
    ensures Visit(start, 0, n) == start
    ensures NextIndex(Visit(start, k, n), n) == Visit(start, k + 1, n)
  {
    DivModUnique(0, start, n);
    ModSucc(start + k, n);
    if (start + k) % n + 1 < n {
      DivModUnique(0, (start + k) % n + 1, n);
    } else {
      DivModUnique(1, 0, n);
    }
  }

  /** The words are tried from `start` on, wrapping around: every word is
      tried once among the first `n`. */
  lemma VisitCovers(start: nat, j: nat, n: nat) returns (k: nat)
    requires start < n && j < n
    ensures k < n && Visit(start, k, n) == j
  {
    if j >= start {
      k := j - start;
      DivModUnique(0, j, n);
    } else {
      k := j + n - start;
      DivModUnique(1, j, n);
    }
  }

  /** The word loop of `bt_get`, at its `i`-th word `index`: the first word
      is searched from the hint's bit, every later one from bit 0. Gives the
      word and the bit found. */
  function Search(bt: Bitmap, start: nat, index: nat, bit: nat, i: nat): (r: Option<(nat, nat)>)
    requires Wf(bt) && start < |bt.maps| && i <= |bt.maps| && index == Visit(start, i, |bt.maps|)
    requires i == 0 ==> bit <= bt.maps[index].depth
    requires i > 0 ==> bit == 0
    ensures r.Some? ==>
              var (j, b) := r.value;
              j < |bt.maps| && b < bt.maps[j].depth && b !in bt.maps[j].bits
    ensures r.None? <==> forall k :: i <= k < |bt.maps| ==> Full(bt.maps[Visit(start, k, |bt.maps|)])
    decreases |bt.maps| - i
  {
    var n := |bt.maps|;
    if i >= n then None
    else
      GetWordInWord(bt.maps[index], bit);
      match GetWord(bt.maps[index], bit)
      case Some(b) => Some((index, b))
      case None =>
        VisitNext(start, i, n);
        Search(bt, start, NextIndex(index, n), 0, i + 1)
  }

  /** The word `Search` returns is the first one, in visiting order, with a
      clear bit: every word tried before it is full. Its bit is the one
      `bt_get_word` finds there, searched from `bit` in the first word tried
      and from bit 0 in every later one. */
  lemma {:induction false} SearchFirst(bt: Bitmap, start: nat, index: nat, bit: nat, i: nat)
      returns (K: nat)
    requires Wf(bt) && start < |bt.maps| && i <= |bt.maps| && index == Visit(start, i, |bt.maps|)
    requires i == 0 ==> bit <= bt.maps[index].depth
    requires i > 0 ==> bit == 0
    requires Search(bt, start, index, bit, i).Some?
    ensures var (j, b) := Search(bt, start, index, bit, i).value;
            && i <= K < |bt.maps| && j == Visit(start, K, |bt.maps|)
            && (forall k :: i <= k < K ==> Full(bt.maps[Visit(start, k, |bt.maps|)]))
            && Some(b) == GetWord(bt.maps[j], if K == i then bit else 0)
    decreases |bt.maps| - i
  {
    var n := |bt.maps|;
    GetWordInWord(bt.maps[index], bit);
    if GetWord(bt.maps[index], bit).Some? {
      K := i;
    } else {
      VisitNext(start, i, n);
      K := SearchFirst(bt, start, NextIndex(index, n), 0, i + 1);
    }
  }

  /** What `bt_get` leaves: the map, the tag (None for -1) and the calling
      CPU's new hint. */
  datatype Got = Got(bitmap: Bitmap, tag: Option<nat>, hint: nat)

  /** The hint after allocating `tag`: it moves past the tag only when the
      tag is the hint itself, and wraps to 0 at `depth - 1`. */
  function NextHint(bt: Bitmap, hint: nat, tag: nat): nat
  {
    if tag == hint then (if tag + 1 >= bt.depth - 1 then 0 else tag + 1) else hint
  }

  /** The start of `bt_get`: the hint's word and bit. */
  lemma HintStart(bt: Bitmap, hint: nat)
    requires Wf(bt) && hint < bt.depth
    ensures TagIndex(bt, hint) < |bt.maps|
    ensures TagBit(bt, hint) <= bt.maps[TagIndex(bt, hint)].depth
    ensures Visit(TagIndex(bt, hint), 0, |bt.maps|) == TagIndex(bt, hint)
  {
    TagInWord(bt, hint);
    VisitNext(TagIndex(bt, hint), 0, |bt.maps|);
  }

  /** A free bit inside a word names a free tag below the depth, which
      setting the bit takes. */
  lemma FoundTag(bt: Bitmap, j: nat, b: nat)
    requires Wf(bt) && j < |bt.maps| && b < bt.maps[j].depth && b !in bt.maps[j].bits
    ensures var t := TagOf(bt, j, b);
            && t < bt.depth && TagIndex(bt, t) == j && TagBit(bt, t) == b
            && !Used(bt, t) && Used(SetBit(bt, j, b), t)
  {
    TagRoundTrip(bt, j, b);
    TagOfBelowDepth(bt, j, b);
  }

  /** `bt_get` from the calling CPU's hint: the words are tried from the
      hint's word on, wrapping around, each once; the first free bit found
      is set and its tag returned; when every word is full the hint is reset
      to 0 and -1 returned. */
  function BtGet(bt: Bitmap, hint: nat): (r: Got)
    requires Wf(bt) && hint < bt.depth
    ensures r.hint < bt.depth
    ensures r.tag.None? ==> r.bitmap == bt && r.hint == 0
    ensures r.tag.Some? ==>
              && r.tag.value < bt.depth && !Used(bt, r.tag.value) && Used(r.bitmap, r.tag.value)
              && r.hint == NextHint(bt, hint, r.tag.value)
  {
    HintStart(bt, hint);
    var start := TagIndex(bt, hint);
    match Search(bt, start, start, TagBit(bt, hint), 0)
    case None => Got(bt, None, 0)
    case Some((j, b)) =>
      var tag := TagOf(bt, j, b);
      FoundTag(bt, j, b);
      Got(SetBit(bt, j, b), Some(tag), NextHint(bt, hint, tag))
  }

  /** A tag `bt_get` hands out is taken by setting its bit in its word. */
  lemma BtGetSets(bt: Bitmap, hint: nat)
    requires Wf(bt) && hint < bt.depth && BtGet(bt, hint).tag.Some?
    ensures var t := BtGet(bt, hint).tag.value;
            TagIndex(bt, t) < |bt.maps| && BtGet(bt, hint).bitmap == SetBit(bt, TagIndex(bt, t), TagBit(bt, t))
  {
    HintStart(bt, hint);
    var start := TagIndex(bt, hint);
    var (j, b) := Search(bt, start, start, TagBit(bt, hint), 0).value;
    FoundTag(bt, j, b);
  }

  /** `bt_get` fails exactly when every tag is taken. */
  lemma BtGetFullIff(bt: Bitmap, hint: nat)
    requires Wf(bt) && hint < bt.depth
    ensures BtGet(bt, hint).tag.None? <==> forall t :: 0 <= t < bt.depth ==> Used(bt, t)
  {
    HintStart(bt, hint);
    var n := |bt.maps|;
    var start := TagIndex(bt, hint);
    var s := Search(bt, start, start, TagBit(bt, hint), 0);
    if s.None? {
      forall t | 0 <= t < bt.depth
        ensures Used(bt, t)
      {
        TagInWord(bt, t);
        var k := VisitCovers(start, TagIndex(bt, t), n);
        assert Full(bt.maps[Visit(start, k, n)]);
      }
    } else {
      var (j, b) := s.value;
      TagRoundTrip(bt, j, b);
      TagOfBelowDepth(bt, j, b);
      assert !Used(bt, TagOf(bt, j, b));
    }
  }

  /** Allocating keeps the map's shape, and the tag taken is the only one
      whose state changed. */
  lemma BtGetOnlyTag(bt: Bitmap, hint: nat, u: nat)
    requires Wf(bt) && hint < bt.depth
    requires BtGet(bt, hint).tag.Some? && u != BtGet(bt, hint).tag.value
    ensures Wf(BtGet(bt, hint).bitmap)
    ensures Used(BtGet(bt, hint).bitmap, u) <==> Used(bt, u)
  {
    var t := BtGet(bt, hint).tag.value;
    BtGetSets(bt, hint);
    TagInWord(bt, t);
    TagSplit(bt, t);
    TagSplit(bt, u);
  }

  // ---------------------------------------------------------------------
  // Release: sbitmap_put
  // ---------------------------------------------------------------------

  /** `sbitmap_put` without its wake-up: a tag at or past the depth is a
      BUG_ON (a negative one too, as the comparison is unsigned); otherwise
      the tag's bit is cleared. */
  function Put(bt: Bitmap, tag: int): (r: Result<Bitmap>)
    requires Wf(bt)
    ensures r.Err? <==> tag < 0 || tag >= bt.depth
    ensures r.Err? ==> r.error == Fatal
    ensures r.Ok? ==> Wf(r.value) && !Used(r.value, tag)
  {
    if tag < 0 || tag >= bt.depth then Err(Fatal)
    else
      TagInWord(bt, tag);
      Ok(ClearTag(bt, tag))
  }

  /** `sbitmap_put` frees its tag and no other. */
  lemma PutOnlyTag(bt: Bitmap, tag: nat, u: nat)
    requires Wf(bt) && tag < bt.depth && u != tag
    ensures Used(Put(bt, tag).value, u) <==> Used(bt, u)
  {
    TagSplit(bt, tag);
    TagSplit(bt, u);
  }

  /** A tag taken by `bt_get` and given back by `sbitmap_put` leaves the map
      as it was. */
  lemma GetPutRestores(bt: Bitmap, hint: nat)
    requires Wf(bt) && hint < bt.depth && BtGet(bt, hint).tag.Some?
    ensures Put(BtGet(bt, hint).bitmap, BtGet(bt, hint).tag.value) == Ok(bt)
  {
    var r := BtGet(bt, hint);
    var t := r.tag.value;
    var i, b := TagIndex(bt, t), TagBit(bt, t);
    TagInWord(bt, t);
    BtGetSets(bt, hint);
    BtGetOnlyTag(bt, hint, if t == 0 then 1 else 0);
    assert r.bitmap.maps[i].bits - {b} == bt.maps[i].bits;
    assert r.bitmap.maps[i := r.bitmap.maps[i].(bits := bt.maps[i].bits)] == bt.maps;
  }

  // ---------------------------------------------------------------------
  // Wait-queue index: bt_index_inc
  // ---------------------------------------------------------------------

  /** `bt_index_inc`: `(index + 1) & (SBM_WAIT_QUEUES - 1)`, which for a
      non-negative index and a power-of-two queue count is the next index
      modulo `SBM_WAIT_QUEUES`. */
  function IndexInc(index: nat): (r: nat)
    ensures r < WaitQueues
    ensures index < WaitQueues - 1 ==> r == index + 1
    ensures index == WaitQueues - 1 ==> r == 0
  {
    (index + 1) % WaitQueues
  }

  /** `k` steps of `bt_index_inc` from a queue index. */
  function IndexIncN(index: nat, k: nat): (r: nat)
    requires index < WaitQueues
    ensures r < WaitQueues
  {
    if k == 0 then index else IndexInc(IndexIncN(index, k - 1))
  }

  /** Stepping the wait-queue index visits the queues round-robin: after
      `k` steps it is `k` queues further on, so `SBM_WAIT_QUEUES` steps
      visit every queue once and come back. */
  lemma {:induction false} IndexIncRoundRobin(index: nat, k: nat)
    requires index < WaitQueues
    ensures IndexIncN(index, k) == (index + k) % WaitQueues
  {
    if k > 0 {
      IndexIncRoundRobin(index, k - 1);
      ModSucc(index + k - 1, WaitQueues);
    }
  }
}
