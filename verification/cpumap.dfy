/** The CPU to hardware-queue mapping helpers of `block/blk-mq-cpumap.c`.
    CPUs are the numbers below `nrCpuIds`, all of them possible; the online
    mask and each CPU's thread-sibling mask are inputs. */
module CpuMap {
  import opened Common
  import opened Arith

  /** `NUMA_NO_NODE`. */
  const NoNode: int := -1

  /** The machine's CPU topology: `nr_cpu_ids` and, for every CPU, its
      `topology_sibling_cpumask`. */
  datatype Topology = Topology(nrCpuIds: nat, siblings: seq<set<nat>>)

  predicate Shaped(t: Topology)
  {
    |t.siblings| == t.nrCpuIds
  }

  /** What the kernel's topology code guarantees: every CPU is among its own
      thread siblings. */
  predicate OwnSibling(t: Topology)
    requires Shaped(t)
  {
    forall c :: 0 <= c < t.nrCpuIds ==> c in t.siblings[c]
  }

  /** `cpu_to_queue_index`: spreads `nrCpus` ranks evenly over `nrQueues`
      queues. */
  function QueueIndex(nrCpus: nat, nrQueues: nat, cpu: nat): (r: nat)
    requires nrCpus > 0
    ensures cpu < nrCpus && nrQueues > 0 ==> r < nrQueues
  {
    DivNat(cpu * nrQueues, nrCpus);
    QueueIndexBelow(nrCpus, nrQueues, cpu);
    cpu * nrQueues / nrCpus
  }

  lemma QueueIndexBelow(nrCpus: nat, nrQueues: nat, cpu: nat)
    requires nrCpus > 0
    ensures cpu < nrCpus && nrQueues > 0 ==> cpu * nrQueues / nrCpus < nrQueues
  {
    if cpu < nrCpus && nrQueues > 0 {
      MulLe(cpu + 1, nrCpus, nrQueues);
      MulSucc(cpu, nrQueues);
      DivMod(cpu * nrQueues, nrCpus);
      if cpu * nrQueues / nrCpus >= nrQueues {
        MulLe(nrQueues, cpu * nrQueues / nrCpus, nrCpus);
      }
    }
  }

  /** Queue indices never decrease with the rank. */
  lemma QueueIndexMono(nrCpus: nat, nrQueues: nat, a: nat, b: nat)
    requires nrCpus > 0 && a <= b
    ensures QueueIndex(nrCpus, nrQueues, a) <= QueueIndex(nrCpus, nrQueues, b)
  {
    MulLe(a, b, nrQueues);
    DivLe(a * nrQueues, b * nrQueues, nrCpus);
  }

  /** With at least as many queues as ranks, distinct ranks get distinct
      queues. */
  lemma QueueIndexStrict(nrCpus: nat, nrQueues: nat, a: nat, b: nat)
    requires nrCpus > 0 && nrQueues >= nrCpus && a < b
    ensures QueueIndex(nrCpus, nrQueues, a) < QueueIndex(nrCpus, nrQueues, b)
  {
    MulLe(a + 1, b, nrQueues);
    MulSucc(a, nrQueues);
    DivLe(a * nrQueues + nrCpus, b * nrQueues, nrCpus);
    DivAddDivisor(a * nrQueues, nrCpus);
  }

  /** `cpumask_first` on a mask of `size` bits, from bit `from`: the lowest
      set bit, or `size` when there is none. */
  function FirstSet(mask: set<nat>, size: nat, from: nat): (r: nat)
    ensures r == size || (from <= r < size && r in mask)
    ensures forall k :: from <= k < r && k < size ==> k !in mask
    decreases size - from
  {
    if from >= size then size
    else if from in mask then from
    else FirstSet(mask, size, from + 1)
  }

  /** `get_first_sibling`: the lowest CPU of the sibling mask, or the CPU
      itself when the mask names no CPU. */
  function FirstSibling(t: Topology, cpu: nat): (r: nat)
    requires Shaped(t) && cpu < t.nrCpuIds
    ensures r < t.nrCpuIds
    ensures (exists k :: 0 <= k < t.nrCpuIds && k in t.siblings[cpu]) ==>
              r in t.siblings[cpu] && forall k :: 0 <= k < r ==> k !in t.siblings[cpu]
    ensures (forall k :: 0 <= k < t.nrCpuIds ==> k !in t.siblings[cpu]) ==> r == cpu
  {
    var ret := FirstSet(t.siblings[cpu], t.nrCpuIds, 0);
    if ret < t.nrCpuIds then ret else cpu
  }

  /** Under the kernel's topology guarantee the first sibling is never a
      higher CPU. */
  lemma FirstSiblingLe(t: Topology, cpu: nat)
    requires Shaped(t) && OwnSibling(t) && cpu < t.nrCpuIds
    ensures FirstSibling(t, cpu) <= cpu
  {
    assert cpu in t.siblings[cpu];
  }

  // ---------------------------------------------------------------------
  // Counting the online CPUs
  // ---------------------------------------------------------------------

  /** The number of online CPUs below `j`: the rank of CPU `j` among the
      online CPUs. */
  function Rank(online: set<nat>, j: nat): nat
  {
    if j == 0 then 0 else Rank(online, j - 1) + (if j - 1 in online then 1 else 0)
  }

  /** CPU `i` counts as a new core: it is online and its first sibling is
      not an online CPU below it. */
  predicate NewCore(t: Topology, online: set<nat>, i: nat)
    requires Shaped(t) && i < t.nrCpuIds
  {
    var fs := FirstSibling(t, i);
    i in online && !(fs in online && fs < i)
  }

  /** The number of new cores below `j`. */
  function Uniq(t: Topology, online: set<nat>, j: nat): nat
    requires Shaped(t) && j <= t.nrCpuIds
  {
    if j == 0 then 0 else Uniq(t, online, j - 1) + (if NewCore(t, online, j - 1) then 1 else 0)
  }

  /** The number of online CPUs below `j` that are their own first
      sibling. */
  function Leads(t: Topology, online: set<nat>, j: nat): nat
    requires Shaped(t) && j <= t.nrCpuIds
  {
    if j == 0 then 0
    else Leads(t, online, j - 1) + (if j - 1 in online && FirstSibling(t, j - 1) == j - 1 then 1 else 0)
  }

  /** The counting loop shared by `blk_mq_update_queue_map` and
      `blk_mq_adjust_tag_set`: walks the online CPUs in order, counting
      them and the ones whose first sibling is not yet in the `cpus` mask of
      CPUs seen. */
  method CountCpus(t: Topology, online: set<nat>) returns (nrCpus: nat, nrUniq: nat)
    requires Shaped(t)
    ensures nrCpus == Rank(online, t.nrCpuIds)
    ensures nrUniq == Uniq(t, online, t.nrCpuIds)
    ensures nrUniq <= nrCpus
  {
    var cpus: set<nat> := {};
    nrCpus, nrUniq := 0, 0;
    var i := 0;
    while i < t.nrCpuIds
      invariant i <= t.nrCpuIds
      invariant cpus == set c | c in online && c < i
      invariant nrCpus == Rank(online, i) && nrUniq == Uniq(t, online, i)
      invariant nrUniq <= nrCpus
    {
      if i in online {
        nrCpus := nrCpus + 1;
        var firstSibling := FirstSibling(t, i);
        if firstSibling !in cpus {
          nrUniq := nrUniq + 1;
        }
        cpus := cpus + {i};
      }
      i := i + 1;
    }
  }

  /** An online CPU ranks below every later CPU. */
  lemma {:induction false} RankStrict(online: set<nat>, a: nat, b: nat)
    requires a < b && a in online
    ensures Rank(online, a) < Rank(online, b)
    decreases b
  {
    if a + 1 < b {
      RankStrict(online, a, b - 1);
    }
  }

  /** Every leading CPU is a new core, so the leads up to an online leading
      CPU stay below the number of cores. */
  lemma {:induction false} LeadsBelowUniq(t: Topology, online: set<nat>, j: nat, n: nat)
    requires Shaped(t) && j < n <= t.nrCpuIds
    requires j in online && FirstSibling(t, j) == j
    ensures Leads(t, online, j) < Uniq(t, online, n)
    decreases n
  {
    if n == j + 1 {
      LeadsLeUniq(t, online, j);
    } else {
      LeadsBelowUniq(t, online, j, n - 1);
    }
  }

  lemma {:induction false} LeadsLeUniq(t: Topology, online: set<nat>, j: nat)
    requires Shaped(t) && j <= t.nrCpuIds
    ensures Leads(t, online, j) <= Uniq(t, online, j)
  {
    if j > 0 {
      LeadsLeUniq(t, online, j - 1);
    }
  }

  /** No CPU below `j` is online when none ranks below it. */
  lemma RankZero(online: set<nat>, j: nat, k: nat)
    requires Rank(online, j) == 0 && k < j
    ensures k !in online
  {
    if k in online {
      RankStrict(online, k, j);
    }
  }

  /** The lowest online CPU is a new core, so some CPU online means some
      core counted. */
  lemma {:induction false} UniqPos(t: Topology, online: set<nat>, j: nat)
    requires Shaped(t) && j <= t.nrCpuIds && Rank(online, j) > 0
    ensures Uniq(t, online, j) > 0
  {
    if Rank(online, j - 1) > 0 {
      UniqPos(t, online, j - 1);
    } else {
      var fs := FirstSibling(t, j - 1);
      if fs < j - 1 {
        RankZero(online, j - 1, fs);
      }
      assert NewCore(t, online, j - 1);
    }
  }

  // ---------------------------------------------------------------------
  // blk_mq_update_queue_map
  // ---------------------------------------------------------------------

  /** Whether `blk_mq_update_queue_map` takes its easy case: at least as
      many queues as online CPUs, or no two online CPUs share a core. */
  predicate Easy(t: Topology, online: set<nat>, nrQueues: nat)
    requires Shaped(t)
  {
    var nrCpus := Rank(online, t.nrCpuIds);
    nrQueues >= nrCpus || nrCpus == Uniq(t, online, t.nrCpuIds)
  }

  /** The queue of online CPU `i` in the easy case: its rank spread over
      the queues. */
  function EasyQueue(t: Topology, online: set<nat>, nrQueues: nat, i: nat): (r: nat)
    requires Shaped(t) && i < t.nrCpuIds && i in online
    ensures nrQueues > 0 ==> r < nrQueues
  {
    RankStrict(online, i, t.nrCpuIds);
    QueueIndex(Rank(online, t.nrCpuIds), nrQueues, Rank(online, i))
  }

  /** The queue of an online CPU that is its own first sibling otherwise:
      its lead number spread over the cores. */
  function LeadQueue(t: Topology, online: set<nat>, nrQueues: nat, i: nat): (r: nat)
    requires Shaped(t) && i < t.nrCpuIds && i in online && FirstSibling(t, i) == i
    ensures nrQueues > 0 ==> r < nrQueues
  {
    LeadsBelowUniq(t, online, i, t.nrCpuIds);
    QueueIndex(Uniq(t, online, t.nrCpuIds), nrQueues, Leads(t, online, i))
  }

  /** The entries below `i` as the easy case writes them. */
  predicate EasyEntries(t: Topology, online: set<nat>, nrQueues: nat, m: seq<nat>, i: nat)
    requires Shaped(t) && i <= t.nrCpuIds <= |m|
  {
    forall j :: 0 <= j < i && j in online ==> m[j] == EasyQueue(t, online, nrQueues, j)
  }

  /** The entries below `i` as the sibling case writes them: a leading CPU
      gets its lead queue, any other CPU the entry its first sibling had
      when the CPU was reached. */
  predicate SiblingEntries(t: Topology, online: set<nat>, nrQueues: nat, map0: seq<nat>, m: seq<nat>, i: nat)
    requires Shaped(t) && i <= t.nrCpuIds == |m| == |map0|
  {
    forall j :: 0 <= j < i && j in online ==>
      var fs := FirstSibling(t, j);
      && (fs == j ==> m[j] == LeadQueue(t, online, nrQueues, j))
      && (fs < j ==> m[j] == m[fs])
      && (fs > j ==> m[j] == map0[fs])
  }

  lemma EasyExtend(t: Topology, online: set<nat>, nrQueues: nat, m: seq<nat>, i: nat, v: nat)
    requires Shaped(t) && |m| == t.nrCpuIds && i < t.nrCpuIds
    requires EasyEntries(t, online, nrQueues, m, i)
    requires i in online ==> v == EasyQueue(t, online, nrQueues, i)
    ensures EasyEntries(t, online, nrQueues, m[i := v], i + 1)
  {
  }

  lemma SiblingExtend(t: Topology, online: set<nat>, nrQueues: nat, map0: seq<nat>, m: seq<nat>, i: nat, v: nat)
    requires Shaped(t) && |m| == |map0| == t.nrCpuIds && i < t.nrCpuIds
    requires SiblingEntries(t, online, nrQueues, map0, m, i)
    requires forall j :: i <= j < t.nrCpuIds ==> m[j] == map0[j]
    requires i in online ==>
               var fs := FirstSibling(t, i);
               && (fs == i ==> v == LeadQueue(t, online, nrQueues, i))
               && (fs != i ==> v == m[fs])
    ensures SiblingEntries(t, online, nrQueues, map0, m[i := v], i + 1)
  {
  }

  /** In the easy case the online CPUs' queues never decrease with the CPU
      number, and strictly increase when there are at least as many queues
      as online CPUs. */
  lemma EasyMonotone(t: Topology, online: set<nat>, nrQueues: nat, m: seq<nat>)
    requires Shaped(t) && |m| == t.nrCpuIds && EasyEntries(t, online, nrQueues, m, t.nrCpuIds)
    ensures forall a, b :: 0 <= a < b < t.nrCpuIds && a in online && b in online ==>
              && m[a] <= m[b]
              && (nrQueues >= Rank(online, t.nrCpuIds) ==> m[a] < m[b])
  {
    var n := t.nrCpuIds;
    forall a, b | 0 <= a < b < n && a in online && b in online
      ensures m[a] <= m[b]
      ensures nrQueues >= Rank(online, n) ==> m[a] < m[b]
    {
      RankStrict(online, a, b);
      RankStrict(online, b, n);
      QueueIndexMono(Rank(online, n), nrQueues, Rank(online, a), Rank(online, b));
      if nrQueues >= Rank(online, n) {
        QueueIndexStrict(Rank(online, n), nrQueues, Rank(online, a), Rank(online, b));
      }
    }
  }

  /** One turn of the mapping loop of `blk_mq_update_queue_map` for
      possible CPU `i`: the entry it writes and the queue counter after it. */
  method MapCpu(t: Topology, online: set<nat>, nrQueues: nat, m: seq<nat>, i: nat, easy: bool,
                nrCpus: nat, nrUniq: nat, queue: nat) returns (v: nat, queue': nat)
    requires Shaped(t) && |m| == t.nrCpuIds && i < t.nrCpuIds
    requires nrCpus == Rank(online, t.nrCpuIds) && nrUniq == Uniq(t, online, t.nrCpuIds)
    requires easy ==> queue == Rank(online, i)
    requires !easy ==> queue == Leads(t, online, i)
    ensures i !in online ==> v == 0 && queue' == queue
    ensures i in online && easy ==> v == EasyQueue(t, online, nrQueues, i) && queue' == queue + 1
    ensures i in online && !easy && FirstSibling(t, i) == i ==>
              v == LeadQueue(t, online, nrQueues, i) && queue' == queue + 1
    ensures i in online && !easy && FirstSibling(t, i) != i ==>
              v == m[FirstSibling(t, i)] && queue' == queue
    ensures OwnSibling(t) && nrQueues > 0 && (forall j :: 0 <= j < i ==> m[j] < nrQueues) ==> v < nrQueues
  {
    queue' := queue;
    if i !in online {
      v := 0;
    } else if easy {
      RankStrict(online, i, t.nrCpuIds);
      v := QueueIndex(nrCpus, nrQueues, queue);
      queue' := queue + 1;
    } else {
      var firstSibling := FirstSibling(t, i);
      if firstSibling == i {
        LeadsBelowUniq(t, online, i, t.nrCpuIds);
        v := QueueIndex(nrUniq, nrQueues, queue);
        queue' := queue + 1;
      } else {
        if OwnSibling(t) {
          FirstSiblingLe(t, i);
        }
        v := m[firstSibling];
      }
    }
  }

  /** What the mapping loop of `blk_mq_update_queue_map` keeps before
      possible CPU `i`: the entries from `i` on are untouched, the offline
      ones below `i` are 0, the online ones are those of the case taken and
      the counter is the number of CPUs (or leading CPUs) passed; under the
      topology guarantee every entry below `i` names a queue. */
  predicate MapInv(t: Topology, online: set<nat>, nrQueues: nat, map0: seq<nat>, m: seq<nat>, i: nat,
                   easy: bool, queue: nat)
    requires Shaped(t) && |map0| == |m| == t.nrCpuIds && i <= t.nrCpuIds
  {
    && (forall j :: i <= j < t.nrCpuIds ==> m[j] == map0[j])
    && (forall j :: 0 <= j < i && j !in online ==> m[j] == 0)
    && (easy ==> queue == Rank(online, i) && EasyEntries(t, online, nrQueues, m, i))
    && (!easy ==> queue == Leads(t, online, i) && SiblingEntries(t, online, nrQueues, map0, m, i))
    && (OwnSibling(t) && nrQueues > 0 ==> forall j :: 0 <= j < i ==> m[j] < nrQueues)
  }

  /** One turn of the mapping loop keeps `MapInv`. */
  lemma MapStep(t: Topology, online: set<nat>, nrQueues: nat, map0: seq<nat>, m: seq<nat>, i: nat,
                easy: bool, queue: nat, v: nat, queue': nat)
    requires Shaped(t) && |map0| == |m| == t.nrCpuIds && i < t.nrCpuIds
    requires MapInv(t, online, nrQueues, map0, m, i, easy, queue)
    requires i !in online ==> v == 0 && queue' == queue
    requires i in online && easy ==> v == EasyQueue(t, online, nrQueues, i) && queue' == queue + 1
    requires i in online && !easy && FirstSibling(t, i) == i ==>
               v == LeadQueue(t, online, nrQueues, i) && queue' == queue + 1
    requires i in online && !easy && FirstSibling(t, i) != i ==>
               v == m[FirstSibling(t, i)] && queue' == queue
    requires OwnSibling(t) && nrQueues > 0 ==> v < nrQueues
    ensures MapInv(t, online, nrQueues, map0, m[i := v], i + 1, easy, queue')
  {
    if easy {
      EasyExtend(t, online, nrQueues, m, i, v);
    } else {
      SiblingExtend(t, online, nrQueues, map0, m, i, v);
    }
  }

  /** `blk_mq_update_queue_map` into the caller's array `map0`. A failed
      mask allocation (`allocOk` false) returns 1 with the array untouched.
      Otherwise every offline CPU gets queue 0, and the online CPUs get the
      entries of the easy or the sibling case. Under the kernel's topology
      guarantee every entry names a queue. */
  method UpdateQueueMap(t: Topology, online: set<nat>, nrQueues: nat, map0: seq<nat>, allocOk: bool)
    returns (ret: int, m: seq<nat>)
    requires Shaped(t) && |map0| == t.nrCpuIds
    ensures !allocOk ==> ret == 1 && m == map0
    ensures allocOk ==> ret == 0 && |m| == t.nrCpuIds
    ensures allocOk ==> forall i :: 0 <= i < t.nrCpuIds && i !in online ==> m[i] == 0
    ensures allocOk && Easy(t, online, nrQueues) ==> EasyEntries(t, online, nrQueues, m, t.nrCpuIds)
    ensures allocOk && !Easy(t, online, nrQueues) ==> SiblingEntries(t, online, nrQueues, map0, m, t.nrCpuIds)
    ensures allocOk && OwnSibling(t) && nrQueues > 0 ==>
              forall i :: 0 <= i < t.nrCpuIds ==> m[i] < nrQueues
  {
    if !allocOk {
      return 1, map0;
    }
    var nrCpus, nrUniq := CountCpus(t, online);
    var n := t.nrCpuIds;
    var easy := nrQueues >= nrCpus || nrCpus == nrUniq;
    var queue := 0;
    m := map0;
    var i := 0;
    while i < n
      invariant i <= n && |m| == n
      invariant MapInv(t, online, nrQueues, map0, m, i, easy, queue)
    {
      var v, q2 := MapCpu(t, online, nrQueues, m, i, easy, nrCpus, nrUniq, queue);
      MapStep(t, online, nrQueues, map0, m, i, easy, queue, v, q2);
      queue := q2;
      m := m[i := v];
      i := i + 1;
    }
    ret := 0;
  }

  // ---------------------------------------------------------------------
  // blk_mq_adjust_tag_set
  // ---------------------------------------------------------------------

  /** The fields `blk_mq_adjust_tag_set` sets: the number of co-queues and
      how many hardware queues each one spans. */
  datatype CoQueues = CoQueues(count: nat, size: nat)

  /** `blk_mq_adjust_tag_set`: in a crash-dump kernel, when the mask cannot
      be allocated, or with fewer hardware queues than cores, one hardware
      queue per co-queue; with fewer hardware queues than online CPUs, one
      co-queue per core; otherwise one per online CPU, each spanning an
      equal share of the hardware queues. The co-queues never span more
      hardware queues than there are. */
  method AdjustTagSet(t: Topology, online: set<nat>, nrHwQueues: nat, kdump: bool, allocOk: bool)
    returns (r: CoQueues)
    requires Shaped(t) && Rank(online, t.nrCpuIds) > 0
    ensures r.size >= 1 && r.count * r.size <= nrHwQueues
    ensures kdump || !allocOk ==> r == CoQueues(nrHwQueues, 1)
    ensures !kdump && allocOk ==>
              var (nrCpus, nrUniq) := (Rank(online, t.nrCpuIds), Uniq(t, online, t.nrCpuIds));
              && (nrHwQueues < nrUniq ==> r == CoQueues(nrHwQueues, 1))
              && (nrUniq <= nrHwQueues < nrCpus ==> r.count == nrUniq && r.size * nrUniq <= nrHwQueues < (r.size + 1) * nrUniq)
              && (nrCpus <= nrHwQueues ==> r.count == nrCpus && r.size * nrCpus <= nrHwQueues < (r.size + 1) * nrCpus)
  {
    if kdump || !allocOk {
      return CoQueues(nrHwQueues, 1);
    }
    var nrCpus, nrUniq := CountCpus(t, online);
    UniqPos(t, online, t.nrCpuIds);
    if nrHwQueues < nrUniq {
      r := CoQueues(nrHwQueues, 1);
    } else if nrHwQueues < nrCpus {
      DivShare(nrHwQueues, nrUniq);
      r := CoQueues(nrUniq, nrHwQueues / nrUniq);
    } else {
      DivShare(nrHwQueues, nrCpus);
      r := CoQueues(nrCpus, nrHwQueues / nrCpus);
    }
  }

  /** `hw / n` shares of `n` fit in `hw`, one more does not. */
  lemma DivShare(hw: nat, n: nat)
    requires 0 < n <= hw
    ensures hw / n >= 1
    ensures (hw / n) * n <= hw < (hw / n + 1) * n
    ensures n * (hw / n) <= hw
  {
    DivMod(hw, n);
    MulSucc(hw / n, n);
    DivLe(n, hw, n);
    DivModUnique(1, 0, n);
  }

  // ---------------------------------------------------------------------
  // blk_mq_hw_queue_to_node
  // ---------------------------------------------------------------------

  /** The lowest CPU from `from` on whose map entry is `index`. */
  function FirstCpuOf(m: seq<nat>, index: nat, from: nat): (r: Option<nat>)
    requires from <= |m|
    ensures r.Some? ==> from <= r.value < |m| && m[r.value] == index
    ensures r.Some? ==> forall k :: from <= k < r.value ==> m[k] != index
    ensures r.None? <==> forall k :: from <= k < |m| ==> m[k] != index
    decreases |m| - from
  {
    if from == |m| then None
    else if m[from] == index then Some(from)
    else FirstCpuOf(m, index, from + 1)
  }

  /** `blk_mq_hw_queue_to_node`: the memory node (`node`, the
      `local_memory_node(cpu_to_node(cpu))` of every CPU) of the lowest CPU
      mapped to queue `index`, or NUMA_NO_NODE when no CPU is. */
  function HwQueueToNode(m: seq<nat>, index: nat, node: seq<nat>): (r: int)
    requires |node| == |m|
    ensures r == NoNode <==> forall k :: 0 <= k < |m| ==> m[k] != index
    ensures r != NoNode ==>
              exists c :: 0 <= c < |m| && m[c] == index && r == node[c]
                          && forall k :: 0 <= k < c ==> m[k] != index
  {
    match FirstCpuOf(m, index, 0)
    case Some(c) => node[c]
    case None => NoNode
  }

  /** A queue some CPU is mapped to has the node of a CPU no later than
      that one. */
  lemma MappedQueueHasNode(m: seq<nat>, index: nat, node: seq<nat>, cpu: nat)
    requires |node| == |m| && cpu < |m| && m[cpu] == index
    ensures HwQueueToNode(m, index, node) != NoNode
    ensures exists c :: 0 <= c <= cpu && HwQueueToNode(m, index, node) == node[c]
  {
    var c := FirstCpuOf(m, index, 0).value;
    assert c <= cpu;
  }
}
