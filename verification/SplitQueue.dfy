/** The device side of one split virtqueue, store by store.

    A Queue value holds the words shared with the driver (available and used
    ring), the words of the persistent in-flight record, and the fields of the
    process that serves the queue. Each function below is one store, or one group
    of private updates, of libvhost-user.c; the class in VirtQueue.dfy runs them
    in the order of the source, and the protocol proofs interleave them with the
    driver and with crashes. */
module SplitQueue {
  import opened Machine
  import opened Ring16

  const VIRTQUEUE_MAX_SIZE: nat := 1024
  const INFLIGHT_VERSION: nat := 1

  datatype UsedElem = UsedElem(id: nat, len: nat)

  /** One entry of the in-flight record, for a head descriptor. */
  datatype DescState = DescState(inflight: nat, counter: nat)

  datatype Resubmit = Resubmit(index: nat, counter: nat)

  datatype Queue = Queue(
    num: nat,
    // shared with the driver
    availIdx: u16, avail: seq<u16>, usedEvent: u16,
    usedIdxMem: u16, used: seq<UsedElem>, availEvent: u16,
    // the in-flight record, which outlives the process
    version: nat, lastBatchHead: u16, inflUsedIdx: u16, infl: seq<DescState>,
    // the process
    lastAvail: u16, shadow: u16, usedIdx: u16, inuse: nat, counter: nat,
    resubmit: seq<Resubmit>, signalledUsed: u16, signalledValid: bool, broken: bool)
  {
    ghost predicate WellFormed() {
      && RingSize(num)
      && |avail| == |used| == |infl| == num
      && lastBatchHead < num
    }
  }

  function Sum32(a: nat, b: nat): (r: nat)
    ensures r < U32
  {
    (a + b) % U32
  }

  function Sub32(a: nat, b: nat): (r: nat)
    ensures r < U32
  {
    (a + U32 - b % U32) % U32
  }

  // ---- vu_queue_empty ---------------------------------------------------

  predicate QueueEmpty(q: Queue) {
    q.broken || (q.shadow == q.lastAvail && q.availIdx == q.lastAvail)
  }

  function LoadShadow(q: Queue): Queue {
    if q.broken || q.shadow != q.lastAvail then q else q.(shadow := q.availIdx)
  }

  // ---- vu_queue_pop ------------------------------------------------------

  function NextHead(q: Queue): u16
    requires 0 < q.num == |q.avail|
  {
    q.avail[q.lastAvail % q.num]
  }

  function Panic(q: Queue): Queue {
    q.(broken := true)
  }

  /** last_avail_idx++, and with EVENT_IDX the new value becomes avail_event. */
  function Advance(q: Queue, eventIdx: bool): Queue {
    var next := Wrap(q.lastAvail + 1);
    q.(lastAvail := next, availEvent := if eventIdx then next else q.availEvent)
  }

  function CountInuse(q: Queue): Queue {
    q.(inuse := (q.inuse + 1) % U32)
  }

  /** First store of vu_queue_inflight_get. */
  function StoreCounter(q: Queue, h: nat): Queue
    requires h < |q.infl|
  {
    q.(infl := q.infl[h := q.infl[h].(counter := q.counter)], counter := (q.counter + 1) % U64)
  }

  /** Second store of vu_queue_inflight_get. */
  function StoreInflight(q: Queue, h: nat): Queue
    requires h < |q.infl|
  {
    q.(infl := q.infl[h := q.infl[h].(inflight := 1)])
  }

  /** Taking the last entry of the resubmission list. */
  function DropResubmit(q: Queue): Queue
    requires q.resubmit != []
  {
    q.(resubmit := q.resubmit[..|q.resubmit| - 1])
  }

  /** vu_queue_pop on a queue whose resubmission list is empty, up to the mapping of the
      chain: the queue and the head to map, if any. */
  function TakeHead(q: Queue, eventIdx: bool): (r: (Queue, Option<u16>))
    requires 0 < q.num == |q.avail|
    ensures r.1.Some? ==> r.1.value < q.num && r.0.infl == q.infl
  {
    if QueueEmpty(q) then (LoadShadow(q), None)
    else if q.inuse >= q.num then (Panic(LoadShadow(q)), None)
    else
      var h := NextHead(q);
      var q' := LoadShadow(q).(lastAvail := Wrap(q.lastAvail + 1));
      if h >= q.num then (Panic(q'), None)
      else (if eventIdx then q'.(availEvent := q'.lastAvail) else q', Some(h))
  }

  /** The avail-ring part of vu_queue_pop without an in-flight record: the queue
      afterwards and the head of the chain handed out, if any. `mapped` says whether
      vu_queue_map_desc succeeds on that head. */
  function PopAvail(q: Queue, eventIdx: bool, mapped: bool): (r: (Queue, Option<u16>))
    requires 0 < q.num == |q.avail|
  {
    var t := TakeHead(q, eventIdx);
    if t.1.None? then t
    else if mapped then (CountInuse(t.0), t.1)
    else (Panic(t.0), None)
  }

  /** The head the next vu_queue_pop tries to map. */
  function NextPop(q: Queue): (h: Option<nat>)
    requires 0 < q.num == |q.avail|
  {
    if q.broken then None
    else if q.resubmit != [] then Some(q.resubmit[|q.resubmit| - 1].index)
    else TakeHead(q, false).1
  }

  /** A mapped chain counted and, with an in-flight record, recorded. */
  function CountPopped(q: Queue, h: u16, tracked: bool): Queue
    requires h < |q.infl|
  {
    var counted := CountInuse(q);
    if tracked then StoreInflight(StoreCounter(counted, h), h) else counted
  }

  /** vu_queue_pop: `mapped` says whether the chain at that head could be mapped,
      `tracked` whether there is an in-flight record. */
  function Pop(q: Queue, eventIdx: bool, tracked: bool, mapped: bool): (r: Queue)
    requires q.WellFormed()
    ensures r.WellFormed() && r.num == q.num
  {
    if q.broken then q
    else if q.resubmit != [] then (if mapped then DropResubmit(q) else Panic(DropResubmit(q)))
    else
      var t := TakeHead(q, eventIdx);
      if t.1.None? then t.0
      else if mapped then CountPopped(t.0, t.1.value, tracked)
      else Panic(t.0)
  }

  // ---- vu_queue_unpop, vu_queue_rewind ---------------------------------------

  function Rewind(q: Queue, n: nat): Queue {
    if n > q.inuse then q
    else q.(lastAvail := Sub16(q.lastAvail, Wrap(n)), inuse := q.inuse - n)
  }

  function Unpop(q: Queue): Queue {
    q.(lastAvail := Sub16(q.lastAvail, 1), inuse := Sub32(q.inuse, 1))
  }

  // ---- vu_queue_push -----------------------------------------------------

  function Fill(q: Queue, h: nat, len: nat, idx: nat): Queue
    requires 0 < q.num == |q.used|
  {
    q.(used := q.used[((idx + q.usedIdx) % U32) % q.num := UsedElem(h, len)])
  }

  function PrePut(q: Queue, h: u16): Queue {
    q.(lastBatchHead := h)
  }

  /** vu_queue_flush: the store that makes completions visible. */
  function Flush(q: Queue, count: nat): Queue {
    var newIdx := Wrap(q.usedIdx + count);
    q.(usedIdxMem := newIdx, usedIdx := newIdx, inuse := Sub32(q.inuse, count),
       signalledValid := q.signalledValid && !Outrun(q.signalledUsed, q.usedIdx, newIdx))
  }

  /** Has used_idx moved so far that signalled_used no longer says anything? */
  predicate Outrun(signalled: u16, prev: u16, newIdx: u16) {
    AsInt16(Sub16(newIdx, signalled)) < Sub16(newIdx, prev)
  }

  /** First store of vu_queue_inflight_post_put. */
  function PostClear(q: Queue, h: nat): Queue
    requires h < |q.infl|
  {
    q.(infl := q.infl[h := q.infl[h].(inflight := 0)])
  }

  /** Second store of vu_queue_inflight_post_put. */
  function PostIdx(q: Queue): Queue {
    q.(inflUsedIdx := q.usedIdx)
  }

  /** vu_queue_fill; `logFails` says whether the walk of the chain for the dirty log
      panics, which does not stop the used element from being written. */
  function FillLogged(q: Queue, h: nat, len: nat, idx: nat, logFails: bool): Queue
    requires 0 < q.num == |q.used|
  {
    if q.broken then q else Fill(q, h, len, idx).(broken := logFails)
  }

  /** vu_queue_flush, which does nothing on a broken device. */
  function FlushUnlessBroken(q: Queue, count: nat): Queue {
    if q.broken then q else Flush(q, count)
  }

  /** vu_queue_push. With an in-flight record, the record is updated even when fill or
      flush returns early because the device is broken. */
  function Push(q: Queue, h: u16, len: nat, tracked: bool, logFails: bool): Queue
    requires 0 < q.num == |q.used| && h < |q.infl|
  {
    var filled := FillLogged(q, h, len, 0, logFails);
    if tracked then PostIdx(PostClear(FlushUnlessBroken(PrePut(filled, h), 1), h))
    else FlushUnlessBroken(filled, 1)
  }

  // ---- vring_notify ------------------------------------------------------

  /** The EVENT_IDX decision and its bookkeeping. */
  predicate NotifyNeeded(q: Queue) {
    !q.signalledValid || NeedEvent(q.usedEvent, q.usedIdx, q.signalledUsed)
  }

  function MarkSignalled(q: Queue): Queue {
    q.(signalledUsed := q.usedIdx, signalledValid := true)
  }

  /** vring_notify: the queue afterwards and whether to interrupt. */
  function VringNotify(q: Queue, notifyOnEmpty: bool, eventIdx: bool, noInterrupt: bool): (Queue, bool) {
    var q' := if notifyOnEmpty && q.inuse == 0 then LoadShadow(q) else q;
    if notifyOnEmpty && q.inuse == 0 && QueueEmpty(q) then (q', true)
    else if !eventIdx then (q', !noInterrupt)
    else (MarkSignalled(q'), NotifyNeeded(q'))
  }

  // ---- vu_check_queue_inflights -----------------------------------------------

  function CountInflight(d: seq<DescState>): (n: nat)
    ensures n <= |d|
  {
    if d == [] then 0
    else CountInflight(d[..|d| - 1]) + (if d[|d| - 1].inflight == 1 then 1 else 0)
  }

  /** The unsorted resubmission list, in index order. */
  function InflightEntries(d: seq<DescState>): (r: seq<Resubmit>)
    ensures |r| <= |d|
    ensures forall i :: 0 <= i < |r| ==> r[i].index < |d|
  {
    if d == [] then []
    else
      var n := |d| - 1;
      InflightEntries(d[..n]) + (if d[n].inflight != 0 then [Resubmit(n, d[n].counter)] else [])
  }

  /** inflight_desc_compare. */
  function Compare(a: Resubmit, b: Resubmit): int {
    if b.counter > a.counter && b.counter - a.counter < VIRTQUEUE_MAX_SIZE * 2 then 1 else -1
  }

  /** Does the comparison order the list, that is, is one of each pair of elements
      always put before the other? */
  ghost predicate Consistent(xs: seq<Resubmit>) {
    forall i, j :: 0 <= i < j < |xs| ==> Compare(xs[i], xs[j]) == -Compare(xs[j], xs[i])
  }

  /** What qsort promises: always a permutation, and sorted when the comparison
      is an order on the elements. */
  ghost predicate QsortResult(xs: seq<Resubmit>, ys: seq<Resubmit>) {
    && multiset(xs) == multiset(ys)
    && (Consistent(xs) ==> forall i, j :: 0 <= i < j < |ys| ==> Compare(ys[i], ys[j]) <= 0)
  }

  /** The counter after recovery: past the first entry of the list, which the allocator
      zeroed in case there is none. */
  function NextCounter(order: seq<Resubmit>): nat {
    ((if order != [] then order[0].counter else 0) + 1) % U64
  }

  /** The private tail of recovery: everything after the record is repaired. */
  function Scan(q: Queue, order: seq<Resubmit>): Queue {
    var used := q.usedIdxMem;
    var inuse := Sum32(q.inuse, CountInflight(q.infl));
    q.(usedIdx := used, inuse := inuse,
       lastAvail := Wrap(inuse + used), shadow := Wrap(inuse + used),
       resubmit := if inuse > 0 then order else [],
       counter := if inuse > 0 then NextCounter(order) else 0)
  }

  /** The in-flight table as recovery sees it: if the record's used_idx lags the
      used ring, the last batch head has completed. */
  function Repaired(q: Queue): seq<DescState>
    requires q.WellFormed()
  {
    if q.inflUsedIdx != q.usedIdxMem
    then q.infl[q.lastBatchHead := q.infl[q.lastBatchHead].(inflight := 0)]
    else q.infl
  }

  /** A comparison sort standing in for qsort. */
  function Qsort(xs: seq<Resubmit>): (ys: seq<Resubmit>) {
    if xs == [] then [] else Insert(xs[0], Qsort(xs[1..]))
  }

  function Insert(x: Resubmit, ys: seq<Resubmit>): seq<Resubmit> {
    if ys == [] || Compare(x, ys[0]) <= 0 then [x] + ys else [ys[0]] + Insert(x, ys[1..])
  }

  /** vu_check_queue_inflights with in-flight tracking. */
  function Recover(q: Queue): Queue
    requires q.WellFormed()
  {
    if q.version == 0 then q.(version := INFLIGHT_VERSION)
    else
      var table := Repaired(q);
      Scan(q.(infl := table, inflUsedIdx := q.usedIdxMem, resubmit := [], counter := 0), Qsort(InflightEntries(table)))
  }

  /** The list is allocated with one entry for each element in use, which must be enough
      for the flagged heads; other flags than 0 and 1, or a count that wraps, can make it
      too small. */
  predicate ListFits(q: Queue, table: seq<DescState>) {
    var inuse := Sum32(q.inuse, CountInflight(table));
    inuse > 0 ==> |InflightEntries(table)| <= inuse
  }

  /** What a new process starts from: only memory survives. */
  function FreshProcess(q: Queue): Queue {
    q.(lastAvail := 0, shadow := 0, usedIdx := q.usedIdxMem, inuse := 0, counter := 0, resubmit := [],
       signalledUsed := 0, signalledValid := false, broken := false)
  }

  // ---- the 32-bit counter of outstanding elements never wraps ------------------------

  lemma InuseUp(q: Queue)
    requires q.inuse < WRAP
    ensures CountInuse(q).inuse == q.inuse + 1
  {
  }

  lemma SumSmall(a: nat, b: nat)
    requires a + b < U32
    ensures Sum32(a, b) == a + b
  {
  }

  lemma SumNext(a: nat, b: nat)
    ensures Sum32(Sum32(a, b), 1) == Sum32(a, b + 1)
  {
  }

  lemma InuseDown(a: nat, b: nat)
    requires b <= a < U32
    ensures Sub32(a, b) == a - b
  {
  }

  // ---- facts about the counting and listing loops -----------------------------------

  lemma {:induction false} CountUpdate(d: seq<DescState>, i: nat, e: DescState)
    requires i < |d|
    ensures CountInflight(d[i := e]) + (if d[i].inflight == 1 then 1 else 0)
         == CountInflight(d) + (if e.inflight == 1 then 1 else 0)
  {
    var n := |d| - 1;
    if i == n {
      assert d[i := e][..n] == d[..n];
    } else {
      CountUpdate(d[..n], i, e);
      assert d[i := e][..n] == d[..n][i := e];
    }
  }

  /** The inflight bytes are only ever written 0 or 1. */
  ghost predicate Flags(d: seq<DescState>) {
    forall i :: 0 <= i < |d| ==> d[i].inflight <= 1
  }

  ghost predicate ListsFlagged(d: seq<DescState>, r: seq<Resubmit>) {
    && (forall j :: 0 <= j < |r| ==>
          r[j].index < |d| && d[r[j].index].inflight == 1 && r[j].counter == d[r[j].index].counter)
    && (forall i, j :: 0 <= i < j < |r| ==> r[i].index < r[j].index)
    && (forall i :: 0 <= i < |d| && d[i].inflight == 1 ==> exists j :: 0 <= j < |r| && r[j].index == i)
  }

  lemma {:induction false} EntriesCount(d: seq<DescState>)
    requires Flags(d)
    ensures |InflightEntries(d)| == CountInflight(d)
  {
    if d != [] {
      EntriesCount(d[..|d| - 1]);
    }
  }

  lemma {:induction false} EntriesGrow(d: seq<DescState>, i: nat)
    requires i <= |d|
    ensures |InflightEntries(d[..i])| <= |InflightEntries(d)|
  {
    if i == |d| {
      assert d[..i] == d;
    } else {
      EntriesGrow(d[..|d| - 1], i);
      assert d[..|d| - 1][..i] == d[..i];
    }
  }

  /** Without an in-flight record and nothing to resubmit, a pop is its avail-ring part. */
  lemma PopUntracked(q: Queue, eventIdx: bool, mapped: bool)
    requires q.WellFormed() && !q.broken && q.resubmit == []
    ensures Pop(q, eventIdx, false, mapped) == PopAvail(q, eventIdx, mapped).0
    ensures PopAvail(q, eventIdx, mapped).1.Some? <==> mapped && NextPop(q).Some?
    ensures PopAvail(q, eventIdx, mapped).1.Some? ==> PopAvail(q, eventIdx, mapped).1.value == NextPop(q).value
  {
    hide QueueEmpty, LoadShadow, Wrap, RingSize;
  }

  /** A pop on a sound queue panics if and only if something is pending and the ring is
      full, the head is out of range or the chain cannot be mapped. Nothing is handed out
      or recorded then, but a chain whose head was read is passed over. */
  lemma PopPanicsIff(q: Queue, eventIdx: bool, tracked: bool, mapped: bool)
    requires q.WellFormed() && !q.broken && q.resubmit == []
    ensures var r := Pop(q, eventIdx, tracked, mapped); var head := q.avail[q.lastAvail % q.num];
      && (r.broken <==> (q.shadow != q.lastAvail || q.availIdx != q.lastAvail)
                        && (q.inuse >= q.num || head >= q.num || !mapped))
      && (r.broken ==>
            && r.infl == q.infl && r.counter == q.counter && r.inuse == q.inuse
            && r.lastAvail == (if q.inuse >= q.num then q.lastAvail else (q.lastAvail + 1) % 0x1_0000)
            && r.availEvent == if q.inuse < q.num && head < q.num && eventIdx then r.lastAvail else q.availEvent)
  {
    hide RingSize;
  }

  /** On a broken device the queue is empty, and a pop, a fill, a flush and a push without
      an in-flight record leave it alone; a push with one still clears the chain's entry. */
  lemma BrokenIsInert(q: Queue, eventIdx: bool, mapped: bool, h: u16, len: nat, n: nat)
    requires q.WellFormed() && q.broken && h < q.num
    ensures QueueEmpty(q) && LoadShadow(q) == q && NextPop(q).None?
    ensures Pop(q, eventIdx, false, mapped) == Pop(q, eventIdx, true, mapped) == q
    ensures FillLogged(q, h, len, n, false) == FillLogged(q, h, len, n, true) == q
    ensures FlushUnlessBroken(q, n) == q && Push(q, h, len, false, false) == q
    ensures Push(q, h, len, true, false)
         == q.(infl := q.infl[h := DescState(0, q.infl[h].counter)], lastBatchHead := h, inflUsedIdx := q.usedIdx)
  {
    hide RingSize;
  }

  /** A push without an in-flight record does nothing on a broken device; if the walk for
      the dirty log panics, the element is written and never becomes visible. */
  lemma PushPanics(q: Queue, h: u16, len: nat, logFails: bool)
    requires q.WellFormed() && h < q.num
    ensures var r := Push(q, h, len, false, logFails);
      if q.broken then r == q
      else
        && r.broken == logFails && r.used == q.used[q.usedIdx % q.num := UsedElem(h, len)]
        && (logFails ==> r == q.(used := r.used, broken := true))
  {
    SlotSmall(q);
    hide RingSize, Sub32, Outrun, Wrap;
  }

  lemma SlotSmall(q: Queue)
    ensures (0 + q.usedIdx) % U32 == q.usedIdx
  {
  }

  /** With flags of 0 and 1 and a count that does not wrap, the list fits. */
  lemma FlagsFit(q: Queue, table: seq<DescState>)
    requires Flags(table) && q.inuse + |table| < U32
    ensures ListFits(q, table)
  {
    EntriesCount(table);
  }

  /** Each flagged entry is listed once, in index order, with its counter. */
  lemma {:induction false} EntriesExact(d: seq<DescState>)
    requires Flags(d)
    ensures ListsFlagged(d, InflightEntries(d))
  {
    if d != [] {
      var n := |d| - 1;
      assert Flags(d[..n]) && d[n].inflight <= 1;
      EntriesExact(d[..n]);
      ListsOneMore(d[..n], d[n], InflightEntries(d[..n]));
      assert d == d[..n] + [d[n]];
    }
  }

  lemma ListsOneMore(d: seq<DescState>, e: DescState, r: seq<Resubmit>)
    requires ListsFlagged(d, r) && e.inflight <= 1
    ensures ListsFlagged(d + [e], r + (if e.inflight != 0 then [Resubmit(|d|, e.counter)] else []))
  {
    var r' := r + (if e.inflight != 0 then [Resubmit(|d|, e.counter)] else []);
    var d' := d + [e];
    forall i | 0 <= i < |d'| && d'[i].inflight == 1
      ensures exists j :: 0 <= j < |r'| && r'[j].index == i
    {
      if i < |d| {
        var j :| 0 <= j < |r| && r[j].index == i;
        assert r'[j].index == i;
      } else {
        assert r'[|r|].index == i;
      }
    }
  }

  lemma {:induction false} CountZero(d: seq<DescState>)
    requires forall i :: 0 <= i < |d| ==> d[i].inflight != 1
    ensures CountInflight(d) == 0
  {
    if d != [] {
      CountZero(d[..|d| - 1]);
    }
  }

  /** inflight_desc_compare orders a list exactly when its counters are distinct and
      lie within a window of 2 * VIRTQUEUE_MAX_SIZE; two entries farther apart are
      each claimed to precede the other. */
  lemma ConsistentIffWindow(xs: seq<Resubmit>)
    ensures Consistent(xs) <==>
      forall i, j :: 0 <= i < j < |xs| ==>
        xs[i].counter != xs[j].counter
        && xs[i].counter < xs[j].counter + 2 * VIRTQUEUE_MAX_SIZE
        && xs[j].counter < xs[i].counter + 2 * VIRTQUEUE_MAX_SIZE
  {
  }

  /** Two heads recorded 2048 pops apart. */
  lemma NoOrderFarApart()
    ensures var a, b := Resubmit(0, 0), Resubmit(1, 2 * VIRTQUEUE_MAX_SIZE);
      Compare(a, b) == -1 && Compare(b, a) == -1 && !Consistent([a, b])
  {
    var xs := [Resubmit(0, 0), Resubmit(1, 2 * VIRTQUEUE_MAX_SIZE)];
    assert Compare(xs[0], xs[1]) == Compare(xs[1], xs[0]) == -1;
  }

  // ---- the stand-in sort does what qsort promises --------------------------------------

  lemma {:induction false} InsertKeeps(x: Resubmit, ys: seq<Resubmit>)
    ensures multiset(Insert(x, ys)) == multiset([x] + ys)
  {
    if ys != [] && Compare(x, ys[0]) > 0 {
      InsertKeeps(x, ys[1..]);
      assert ys == [ys[0]] + ys[1..];
    }
  }

  /** Each element's counter exceeds those after it. */
  ghost predicate SortedDown(ys: seq<Resubmit>) {
    ys != [] ==> (forall e :: e in ys[1..] ==> ys[0].counter > e.counter) && SortedDown(ys[1..])
  }

  /** Two counters differ and lie within the comparison's window. */
  predicate Near(a: Resubmit, b: Resubmit) {
    && a.counter != b.counter
    && a.counter < b.counter + 2 * VIRTQUEUE_MAX_SIZE
    && b.counter < a.counter + 2 * VIRTQUEUE_MAX_SIZE
  }

  lemma {:induction false} InsertSorted(x: Resubmit, ys: seq<Resubmit>)
    requires SortedDown(ys) && forall y :: y in ys ==> Near(x, y)
    ensures SortedDown(Insert(x, ys))
    ensures forall e :: e in Insert(x, ys) ==> e == x || e in ys
  {
    if ys == [] {
      assert [x][1..] == [];
    } else {
      assert ys == [ys[0]] + ys[1..];
      if Compare(x, ys[0]) > 0 {
        InsertSorted(x, ys[1..]);
        assert ([ys[0]] + Insert(x, ys[1..]))[1..] == Insert(x, ys[1..]);
      } else {
        assert Near(x, ys[0]);
        assert ([x] + ys)[1..] == ys;
      }
    }
  }

  lemma {:induction false} QsortSorts(xs: seq<Resubmit>)
    ensures multiset(Qsort(xs)) == multiset(xs)
    ensures (forall i, j :: 0 <= i < j < |xs| ==> Near(xs[i], xs[j])) ==> SortedDown(Qsort(xs))
  {
    if xs != [] {
      QsortSorts(xs[1..]);
      var ys := Qsort(xs[1..]);
      InsertKeeps(xs[0], ys);
      assert xs == [xs[0]] + xs[1..];
      if forall i, j :: 0 <= i < j < |xs| ==> Near(xs[i], xs[j]) {
        forall y | y in ys ensures Near(xs[0], y) {
          assert y in multiset(xs[1..]);
          var k :| 0 <= k < |xs| - 1 && xs[1..][k] == y;
          assert Near(xs[0], xs[k + 1]);
        }
        InsertSorted(xs[0], ys);
      }
    }
  }

  lemma {:induction false} SortedAt(ys: seq<Resubmit>, i: nat, j: nat)
    requires SortedDown(ys) && i < j < |ys|
    ensures Compare(ys[i], ys[j]) <= 0
  {
    if i > 0 {
      SortedAt(ys[1..], i - 1, j - 1);
    } else {
      assert ys[j] == ys[1..][j - 1];
    }
  }

  /** Recovery's order is one qsort may return. */
  lemma QsortOk(xs: seq<Resubmit>)
    ensures QsortResult(xs, Qsort(xs))
  {
    QsortSorts(xs);
    ConsistentIffWindow(xs);
    var ys := Qsort(xs);
    if Consistent(xs) {
      assert forall i, j :: 0 <= i < j < |xs| ==> Near(xs[i], xs[j]);
      forall i, j | 0 <= i < j < |ys| ensures Compare(ys[i], ys[j]) <= 0 {
        SortedAt(ys, i, j);
      }
    }
  }
}
