/** VuVirtq: the queue operations of libvhost-user.c, in place.

    Each method leaves the queue as the function of the same name in SplitQueue says,
    which is what the protocol proofs are about. */
module VirtQueue {
  import opened Machine
  import opened Ring16
  import opened Descriptors
  import opened DescriptorMap
  import opened DescriptorMeaning
  import opened DirtyLog
  import GuestMemory
  import SplitQueue
  import AvailBytes

  type UsedElem = SplitQueue.UsedElem
  type DescState = SplitQueue.DescState
  type Resubmit = SplitQueue.Resubmit
  type Queue = SplitQueue.Queue

  /** Publishing avail_event does not change which head is taken. */
  lemma SameHead(q: Queue, eventIdx: bool)
    requires 0 < q.num == |q.avail|
    ensures SplitQueue.TakeHead(q, eventIdx).1 == SplitQueue.TakeHead(q, false).1
    ensures SplitQueue.TakeHead(q, eventIdx).1.Some? ==> !SplitQueue.TakeHead(q, eventIdx).0.broken
  {
  }

  /** Scan does not look at the private used_idx. */
  lemma ScanSetsUsedIdx(q: Queue, used: u16)
    ensures forall infl: seq<DescState>, idx: u16, order: seq<Resubmit> ::
      SplitQueue.Scan(q.(infl := infl, inflUsedIdx := idx, resubmit := [], counter := 0), order)
      == SplitQueue.Scan(q.(infl := infl, inflUsedIdx := idx, resubmit := [], counter := 0, usedIdx := used), order)
  {
  }

  /** Nor does the size of the list depend on the private fields reset before it. */
  lemma FitsAlike(q: Queue, used: u16, table: seq<DescState>)
    ensures forall infl: seq<DescState>, idx: u16 ::
      SplitQueue.ListFits(q.(infl := infl, inflUsedIdx := idx, usedIdx := used, resubmit := [], counter := 0), table)
      == SplitQueue.ListFits(q, table)
  {
  }

  lemma ScanIs(q: Queue, order: seq<Resubmit>)
    requires q.usedIdx == q.usedIdxMem && q.resubmit == [] && q.counter == 0
    ensures var n := SplitQueue.Sum32(q.inuse, SplitQueue.CountInflight(q.infl));
      SplitQueue.Scan(q, order) ==
        q.(inuse := n, lastAvail := Wrap(n + q.usedIdx), shadow := Wrap(n + q.usedIdx),
           resubmit := if n > 0 then order else [], counter := if n > 0 then SplitQueue.NextCounter(order) else 0)
  {
  }

  lemma SameElements(xs: seq<Resubmit>, ys: seq<Resubmit>, num: nat)
    requires multiset(xs) == multiset(ys) && forall i :: 0 <= i < |xs| ==> xs[i].index < num
    ensures |ys| == |xs| && forall i :: 0 <= i < |ys| ==> ys[i].index < num
  {
    assert |ys| == |multiset(ys)| && |xs| == |multiset(xs)|;
    forall i | 0 <= i < |ys| ensures ys[i].index < num {
      assert ys[i] in multiset(xs);
    }
  }

  lemma BrokenByLog(q: Queue, h: nat, len: nat, idx: nat, logFails: bool)
    requires 0 < q.num == |q.used|
    ensures SplitQueue.FillLogged(q, h, len, idx, logFails).broken == (q.broken || logFails)
    ensures SplitQueue.FillLogged(q, h, len, idx, logFails).infl == q.infl
  {
  }

  lemma AllFitBoth(size: nat, rs: seq<Range>, ts: seq<Range>)
    ensures AllFit(size, rs + ts) ==> AllFit(size, rs) && AllFit(size, ts)
    ensures forall r :: AllFit(size, [r]) ==> Fits(size, r)
  {
    hide Fits;
    if AllFit(size, rs + ts) {
      forall i | 0 <= i < |rs| ensures Fits(size, rs[i]) {
        assert (rs + ts)[i] == rs[i];
      }
      forall i | 0 <= i < |ts| ensures Fits(size, ts[i]) {
        assert (rs + ts)[|rs| + i] == ts[i];
      }
    }
    forall r | AllFit(size, [r]) ensures Fits(size, r) {
      assert [r][0] == r;
    }
  }

  class VuVirtq {
    const dev: GuestMemory.VuDev
    const log: VuLog
    const num: nat
    const logGuestAddr: u64

    // written by the driver
    const desc: array<Desc>
    const avail: array<u16>
    var availIdx: u16
    var usedEvent: u16
    var noInterrupt: bool

    // written by the device
    const used: array<UsedElem>
    var usedIdxMem: u16
    var availEvent: u16

    // the in-flight record
    const infl: array<DescState>
    var version: nat
    var lastBatchHead: u16
    var inflUsedIdx: u16

    // private to the process
    var lastAvail: u16
    var shadow: u16
    var usedIdx: u16
    var inuse: u32
    var counter: nat
    var resubmit: seq<Resubmit>
    var signalledUsed: u16
    var signalledValid: bool
    var notification: bool

    ghost predicate Valid()
      reads this`lastBatchHead, this`resubmit, dev`nregions
    {
      && RingSize(num)
      && desc.Length == avail.Length == used.Length == infl.Length == num
      && lastBatchHead < num
      && (forall i :: 0 <= i < |resubmit| ==> resubmit[i].index < num)
      && dev.Valid() && log.Valid() && Apart()
    }

    /** The arrays the methods write do not overlap. */
    ghost predicate Apart() {
      var u: object, f: object, t: object := used, infl, log.table;
      var a: object, b: object, c: object := desc, avail, dev.regions;
      u != f && u != t && f != t && {u, f, t} !! {a, b, c}
    }

    ghost function View(): (q: Queue)
      reads this, avail, used, infl, dev`broken
    {
      SplitQueue.Queue(num, availIdx, avail[..], usedEvent, usedIdxMem, used[..], availEvent,
                       version, lastBatchHead, inflUsedIdx, infl[..],
                       lastAvail, shadow, usedIdx, inuse, counter, resubmit,
                       signalledUsed, signalledValid, dev.broken)
    }

    /** The indirect tables in use do not straddle memory regions. */
    ghost predicate TablesInPlace()
      requires dev.Valid()
      reads desc, dev`nregions, dev.regions
    {
      forall i :: 0 <= i < desc.Length ==> InPlace(dev.Table(), desc[i])
    }

    /** A queue over zeroed rings and a zeroed record. */
    constructor (dev: GuestMemory.VuDev, log: VuLog, num: nat, logGuestAddr: u64)
      requires RingSize(num) && dev.Valid() && log.Valid()
      requires var c: object, t: object := dev.regions, log.table; c != t
      ensures Valid() && fresh(desc) && fresh(avail) && fresh(used) && fresh(infl)
      ensures this.dev == dev && this.log == log && this.num == num && this.logGuestAddr == logGuestAddr
      ensures inuse == 0 && resubmit == [] && version == 0 && !signalledValid && notification
    {
      this.dev, this.log, this.num, this.logGuestAddr := dev, log, num, logGuestAddr;
      desc := new Desc[num](_ => Desc(0, 0, 0, 0));
      avail := new u16[num](_ => 0);
      used := new UsedElem[num](_ => SplitQueue.UsedElem(0, 0));
      infl := new DescState[num](_ => SplitQueue.DescState(0, 0));
      availIdx, usedEvent, noInterrupt, usedIdxMem, availEvent := 0, 0, false, 0, 0;
      version, lastBatchHead, inflUsedIdx := 0, 0, 0;
      lastAvail, shadow, usedIdx, inuse, counter, resubmit := 0, 0, 0, 0, 0, [];
      signalledUsed, signalledValid, notification := 0, false, true;
    }

    /** vu_queue_empty. */
    method QueueEmpty() returns (empty: bool)
      requires Valid()
      modifies this`shadow
      ensures Valid() && empty == SplitQueue.QueueEmpty(old(View()))
      ensures View() == SplitQueue.LoadShadow(old(View()))
    {
      if dev.broken {
        return true;
      }
      if shadow != lastAvail {
        return false;
      }
      shadow := availIdx;
      return shadow == lastAvail;
    }

    /** vu_queue_inflight_get. */
    method InflightGet(h: nat)
      requires Valid() && h < num
      modifies this`counter, infl
      ensures Valid()
      ensures View() == SplitQueue.StoreInflight(SplitQueue.StoreCounter(old(View()), h), h)
    {
      infl[h] := infl[h].(counter := counter);
      counter := (counter + 1) % U64;
      infl[h] := infl[h].(inflight := 1);
    }

    /** vu_queue_pop up to the mapping of the chain, past the resubmission list. */
    method TakeHead(eventIdx: bool) returns (h: Option<u16>)
      requires Valid() && !dev.broken
      modifies this`shadow, this`lastAvail, this`availEvent, dev`broken
      ensures Valid()
      ensures (View(), h) == SplitQueue.TakeHead(old(View()), eventIdx && notification)
    {
      hide RingSize, Wrap, SplitQueue.QueueEmpty, SplitQueue.LoadShadow;
      var empty := QueueEmpty();
      if empty {
        return None;
      }
      if inuse >= num {
        dev.broken := true;
        return None;
      }
      var head := avail[lastAvail % num];
      lastAvail := Wrap(lastAvail + 1);
      if head >= num {
        dev.broken := true;
        return None;
      }
      if eventIdx && notification {
        availEvent := lastAvail;
      }
      return Some(head);
    }

    /** The end of vu_queue_pop: the chain is mapped, counted and recorded. */
    method MapPopped(host: Host, head: u16, tracked: bool) returns (elem: Option<Element>)
      requires Valid() && TablesInPlace() && head < num
      modifies this`inuse, this`counter, infl, dev`broken
      ensures Valid() && elem == MapDesc(desc[..], dev.Table(), host, head)
      ensures View() ==
        if elem.Some? then SplitQueue.CountPopped(old(View()), head, tracked) else SplitQueue.Panic(old(View()))
    {
      hide MapDesc, InPlace, RingSize, SplitQueue.StoreCounter, SplitQueue.StoreInflight;
      elem := VuQueueMapDesc(dev, desc[..], host, head);
      if elem.None? {
        return;
      }
      inuse := (inuse + 1) % U32;
      if tracked {
        InflightGet(head);
      }
    }

    /** vu_queue_pop. */
    method Pop(host: Host, eventIdx: bool, tracked: bool) returns (elem: Option<Element>)
      requires Valid() && TablesInPlace()
      modifies this`resubmit, this`shadow, this`lastAvail, this`availEvent, this`inuse, this`counter, infl, dev`broken
      ensures Valid()
      ensures var h := SplitQueue.NextPop(old(View()));
        elem == if h.Some? && h.value < num then MapDesc(desc[..], dev.Table(), host, h.value) else None
      ensures View() == SplitQueue.Pop(old(View()), eventIdx && notification, tracked, elem.Some?)
    {
      hide MapDesc, InPlace, RingSize, SplitQueue.CountPopped, SplitQueue.TakeHead;
      if dev.broken {
        return None;
      }
      if resubmit != [] {
        var i := |resubmit| - 1;
        var head := resubmit[i].index;
        resubmit := resubmit[..i];
        elem := VuQueueMapDesc(dev, desc[..], host, head);
        return;
      }
      SameHead(View(), eventIdx && notification);
      var h := TakeHead(eventIdx);
      if h.None? {
        return None;
      }
      elem := MapPopped(host, h.value, tracked);
    }

    /** vu_queue_unpop. */
    method Unpop()
      requires Valid()
      modifies this`lastAvail, this`inuse
      ensures Valid() && View() == SplitQueue.Unpop(old(View()))
    {
      lastAvail := Sub16(lastAvail, 1);
      inuse := SplitQueue.Sub32(inuse, 1);
    }

    /** vu_queue_rewind. */
    method Rewind(n: u32) returns (ok: bool)
      requires Valid()
      modifies this`lastAvail, this`inuse
      ensures Valid() && View() == SplitQueue.Rewind(old(View()), n) && ok == (n <= old(inuse))
    {
      if n > inuse {
        return false;
      }
      lastAvail := Sub16(lastAvail, Wrap(n));
      inuse := inuse - n;
      return true;
    }

    /** What a fill logs. */
    ghost function FillRanges(host: Host, h: nat, len: u32, idx: nat): seq<Range>
      requires Valid() && h < num
      reads this, desc, dev, dev.regions
    {
      if dev.broken then []
      else LogFill(desc[..], dev.Table(), host, h, len).0
           + [SlotRange(logGuestAddr, Slot(idx))]
    }

    /** vring_used_write. */
    method UsedWrite(h: nat, len: u32, slot: nat)
      requires Valid() && slot < num
      requires log.logAll ==> Fits(log.table.Length, SlotRange(logGuestAddr, slot))
      modifies used, log.table
      ensures used[..] == old(used[..])[slot := SplitQueue.UsedElem(h, len)]
      ensures log.Logs(old(log.table[..]), log.table[..], [SlotRange(logGuestAddr, slot)])
    {
      hide RingSize, Fits, Adds;
      used[slot] := SplitQueue.UsedElem(h, len);
      log.LogWrite((logGuestAddr + USED_RING_OFFSET + USED_ELEM_SIZE * slot) % U64, USED_ELEM_SIZE);
    }

    /** vu_queue_fill. */
    method Fill(host: Host, h: nat, len: u32, idx: u32)
      requires Valid() && TablesInPlace() && h < num
      requires log.logAll ==> AllFit(log.table.Length, FillRanges(host, h, len, idx))
      modifies used, dev`broken, log.table
      ensures Valid()
      ensures View() == SplitQueue.FillLogged(old(View()), h, len, idx, old(LogFill(desc[..], dev.Table(), host, h, len).1))
      ensures log.Logs(old(log.table[..]), log.table[..], old(FillRanges(host, h, len, idx)))
    {
      hide InPlace, RingSize, Fits, Adds, LogFill, SlotRange;
      if dev.broken {
        AddsNothing(log.table[..]);
        return;
      }
      var slot := Slot(idx);
      ghost var before, written := log.table[..], [SlotRange(logGuestAddr, slot)];
      ghost var walk := LogFill(desc[..], dev.Table(), host, h, len);
      AllFitBoth(log.table.Length, walk.0, written);
      var panic := LogQueueFill(host, h, len);
      if panic {
        dev.broken := true;
      }
      ghost var middle := log.table[..];
      UsedWrite(h, len, slot);
      LogsBoth(log.logAll, before, middle, log.table[..], walk.0, written);
    }

    /** The used slot idx places after used_idx. */
    function Slot(idx: nat): (i: nat)
      requires num > 0
      reads this`usedIdx
      ensures i < num
    {
      ((idx + usedIdx) % U32) % num
    }

    /** vu_log_queue_fill; the caller records a panic. */
    method LogQueueFill(host: Host, h: nat, len: u32) returns (panic: bool)
      requires Valid() && TablesInPlace() && h < num
      requires log.logAll ==> AllFit(log.table.Length, LogFill(desc[..], dev.Table(), host, h, len).0)
      modifies log.table
      ensures panic == LogFill(desc[..], dev.Table(), host, h, len).1
      ensures log.Logs(old(log.table[..]), log.table[..], LogFill(desc[..], dev.Table(), host, h, len).0)
    {
      hide InPlace, RingSize, LogWalk, Fits, Adds, Resolve;
      var e := ResolveEntry(dev, desc[..], host, h);
      if e.None? {
        AddsNothing(log.table[..]);
        return true;
      }
      panic := log.LogTable(e.value.table, e.value.first, len);
    }

    /** vring_used_idx_set. */
    method UsedIdxSet(val: u16)
      requires Valid() && (log.logAll ==> Fits(log.table.Length, IdxRange(logGuestAddr)))
      modifies this`usedIdxMem, this`usedIdx, log.table
      ensures Valid() && View() == old(View()).(usedIdxMem := val, usedIdx := val)
      ensures log.Logs(old(log.table[..]), log.table[..], [IdxRange(logGuestAddr)])
    {
      hide InPlace, RingSize, Fits, Adds;
      usedIdxMem := val;
      log.LogWrite(GuestMemory.Add64(logGuestAddr, USED_IDX_OFFSET), 2);
      usedIdx := val;
    }

    /** vu_queue_flush. */
    method Flush(count: u32)
      requires Valid()
      requires log.logAll && !dev.broken ==> Fits(log.table.Length, IdxRange(logGuestAddr))
      modifies this`usedIdxMem, this`usedIdx, this`inuse, this`signalledValid, log.table
      ensures Valid() && View() == SplitQueue.FlushUnlessBroken(old(View()), count)
      ensures log.Logs(old(log.table[..]), log.table[..], if dev.broken then [] else [IdxRange(logGuestAddr)])
    {
      hide InPlace, RingSize, Apart, Fits, Adds, Wrap, AsInt16, Sub16, SplitQueue.Sub32, IdxRange;
      if dev.broken {
        AddsNothing(log.table[..]);
        return;
      }
      var prev := usedIdx;
      var newIdx := Wrap(prev + count);
      UsedIdxSet(newIdx);
      inuse := SplitQueue.Sub32(inuse, count);
      if AsInt16(Sub16(newIdx, signalledUsed)) < Sub16(newIdx, prev) {
        signalledValid := false;
      }
    }

    /** What a push logs: what its fill logs and, unless that broke the device, used->idx. */
    ghost function PushedRanges(host: Host, h: nat, len: u32): seq<Range>
      requires Valid() && h < num
      reads this, desc, dev, dev.regions
    {
      FillRanges(host, h, len, 0)
      + if dev.broken || LogFill(desc[..], dev.Table(), host, h, len).1 then [] else [IdxRange(logGuestAddr)]
    }

    /** With logging on, a push on a sound device of a chain that pops accept marks exactly
        the pages of the first len device-writable bytes, of the used slot and of
        used->idx: Push adds precisely the pages PushedRanges visits. */
    lemma PushMarksExactly(host: Host, h: u16, len: u32, ds: seq<Desc>, p: nat)
      requires Valid() && h < num && !dev.broken && NoWrap(ds)
      requires MapDesc(desc[..], dev.Table(), host, h).Some? && Resolve(desc[..], dev.Table(), host, h).Some?
      requires var e := Resolve(desc[..], dev.Table(), host, h).value; IsChain(e.table, e.first, ds)
      requires logGuestAddr + USED_RING_OFFSET + USED_ELEM_SIZE * num < U64
      ensures VisitedBy(PushedRanges(host, h, len), p) <==> InPage(PushBytes(ds, len, logGuestAddr, Slot(0)), p)
    {
      hide Resolve, MapDesc, IsChain, NoWrap, VisitedBy, InPage, PushBytes, RingSize, Apart, LogFill, SlotRange, IdxRange;
      MapDescIff(desc[..], dev.Table(), host, h);
      PushPagesExact(desc[..], dev.Table(), host, h, ds, len, logGuestAddr, Slot(0), p);
    }

    /** vu_queue_inflight_pre_put. */
    method InflightPrePut(h: u16, tracked: bool)
      requires Valid() && h < num
      modifies this`lastBatchHead
      ensures Valid() && View() == if tracked then SplitQueue.PrePut(old(View()), h) else old(View())
    {
      if tracked {
        lastBatchHead := h;
      }
    }

    /** vu_queue_inflight_post_put. */
    method InflightPostPut(h: nat, tracked: bool)
      requires Valid() && h < num
      modifies this`inflUsedIdx, infl
      ensures Valid()
      ensures View() == if tracked then SplitQueue.PostIdx(SplitQueue.PostClear(old(View()), h)) else old(View())
    {
      if tracked {
        infl[h] := infl[h].(inflight := 0);
        inflUsedIdx := usedIdx;
      }
    }

    /** vu_queue_push of an element with head h. */
    method Push(host: Host, h: u16, len: u32, tracked: bool)
      requires Valid() && TablesInPlace() && h < num
      requires log.logAll ==> AllFit(log.table.Length, PushedRanges(host, h, len))
      modifies this, used, infl, dev`broken, log.table
      ensures Valid()
      ensures View() == SplitQueue.Push(old(View()), h, len, tracked, old(LogFill(desc[..], dev.Table(), host, h, len).1))
      ensures log.Logs(old(log.table[..]), log.table[..], old(PushedRanges(host, h, len)))
    {
      hide InPlace, RingSize, Fits, Adds, LogFill, IdxRange, FillRanges;
      hide SplitQueue.FillLogged, SplitQueue.FlushUnlessBroken, SplitQueue.PrePut, SplitQueue.PostClear, SplitQueue.PostIdx;
      ghost var before, first := log.table[..], FillRanges(host, h, len, 0);
      ghost var q, logFails := View(), LogFill(desc[..], dev.Table(), host, h, len).1;
      ghost var second := if dev.broken || logFails then [] else [IdxRange(logGuestAddr)];
      AllFitBoth(log.table.Length, first, second);
      BrokenByLog(q, h, len, 0, logFails);
      Fill(host, h, len, 0);
      ghost var middle := log.table[..];
      InflightPrePut(h, tracked);
      Flush(1);
      LogsBoth(log.logAll, before, middle, log.table[..], first, second);
      InflightPostPut(h, tracked);
    }

    /** vring_notify as vu_queue_notify calls it. */
    method Notify(notifyOnEmpty: bool, eventIdx: bool) returns (interrupt: bool)
      requires Valid()
      modifies this`shadow, this`signalledUsed, this`signalledValid
      ensures Valid()
      ensures old(dev.broken) ==> !interrupt && View() == old(View())
      ensures !old(dev.broken) ==>
        (View(), interrupt) == SplitQueue.VringNotify(old(View()), notifyOnEmpty, eventIdx, noInterrupt)
    {
      if dev.broken {
        return false;
      }
      if notifyOnEmpty && inuse == 0 {
        var empty := QueueEmpty();
        if empty {
          return true;
        }
      }
      if !eventIdx {
        return !noInterrupt;
      }
      var v := signalledValid;
      signalledValid := true;
      var prev := signalledUsed;
      signalledUsed := usedIdx;
      return !v || NeedEvent(usedEvent, usedIdx, prev);
    }

    /** The first loop of vu_check_queue_inflights. */
    method CountInflights()
      requires Valid()
      modifies this`inuse
      ensures Valid()
      ensures View() == old(View()).(inuse := SplitQueue.Sum32(old(inuse), SplitQueue.CountInflight(infl[..])))
    {
      hide InPlace, RingSize, Apart, SplitQueue.Sum32;
      SplitQueue.SumSmall(inuse, 0);
      var i := 0;
      while i < num
        invariant 0 <= i <= num && inuse == SplitQueue.Sum32(old(inuse), SplitQueue.CountInflight(infl[..i]))
      {
        SplitQueue.SumNext(old(inuse), SplitQueue.CountInflight(infl[..i]));
        assert infl[..i + 1][..i] == infl[..i];
        if infl[i].inflight == 1 {
          inuse := SplitQueue.Sum32(inuse, 1);
        }
        i := i + 1;
      }
      assert infl[..num] == infl[..];
    }

    /** The second loop of vu_check_queue_inflights, into a list with this much room. */
    method ListInflights(room: nat)
      requires Valid() && resubmit == [] && |SplitQueue.InflightEntries(infl[..])| <= room
      modifies this`resubmit
      ensures Valid() && resubmit == SplitQueue.InflightEntries(infl[..])
    {
      hide RingSize, InPlace;
      var i := 0;
      while i < num
        invariant 0 <= i <= num && resubmit == SplitQueue.InflightEntries(infl[..i])
      {
        assert infl[..i + 1][..i] == infl[..i];
        if infl[i].inflight != 0 {
          SplitQueue.EntriesGrow(infl[..], i + 1);
          assert |resubmit| < room;
          resubmit := resubmit + [SplitQueue.Resubmit(i, infl[i].counter)];
        }
        i := i + 1;
      }
      assert infl[..num] == infl[..];
    }

    /** vu_check_queue_inflights, for a record whose list fits its allocation. */
    method CheckInflights()
      requires Valid() && (version != 0 ==> SplitQueue.ListFits(View(), SplitQueue.Repaired(View())))
      modifies this`version, this`usedIdx, this`resubmit, this`counter, this`inflUsedIdx, this`inuse, this`lastAvail,
               this`shadow, infl
      ensures Valid() && View() == SplitQueue.Recover(old(View()))
    {
      hide RingSize, InPlace, SplitQueue.Scan, SplitQueue.Qsort, SplitQueue.InflightEntries, SplitQueue.ListFits;
      if version == 0 {
        version := SplitQueue.INFLIGHT_VERSION;
        return;
      }
      ScanSetsUsedIdx(View(), usedIdxMem);
      FitsAlike(View(), usedIdxMem, SplitQueue.Repaired(View()));
      usedIdx := usedIdxMem;
      resubmit := [];
      counter := 0;
      RepairRecord();
      Rebuild();
    }

    /** What vu_check_queue_inflights derives from a repaired record. */
    method Rebuild()
      requires Valid() && SplitQueue.ListFits(View(), infl[..])
      requires usedIdx == usedIdxMem && resubmit == [] && counter == 0
      modifies this`resubmit, this`counter, this`inuse, this`lastAvail, this`shadow
      ensures Valid()
      ensures View() == SplitQueue.Scan(old(View()), SplitQueue.Qsort(SplitQueue.InflightEntries(infl[..])))
    {
      hide RingSize, InPlace, Wrap, Apart, SplitQueue.CountInflight, SplitQueue.InflightEntries, SplitQueue.Qsort;
      hide SplitQueue.Scan, SplitQueue.NextCounter, SplitQueue.Sum32;
      ScanIs(View(), SplitQueue.Qsort(SplitQueue.InflightEntries(infl[..])));
      CountInflights();
      lastAvail := Wrap(inuse + usedIdx);
      shadow := lastAvail;
      RebuildList();
    }

    /** The resubmission list and the next counter. */
    method RebuildList()
      requires Valid() && resubmit == [] && (inuse > 0 ==> |SplitQueue.InflightEntries(infl[..])| <= inuse)
      modifies this`resubmit, this`counter
      ensures Valid()
      ensures View() == if inuse == 0 then old(View())
                        else
                          var order := SplitQueue.Qsort(SplitQueue.InflightEntries(infl[..]));
                          old(View()).(resubmit := order, counter := SplitQueue.NextCounter(order))
    {
      hide RingSize, InPlace, Apart, SplitQueue.InflightEntries, SplitQueue.Qsort, SplitQueue.NextCounter;
      if inuse > 0 {
        ListSorted(inuse);
        counter := SplitQueue.NextCounter(resubmit);
      }
    }

    /** The repair in vu_check_queue_inflights: the last batch head of a push that was cut
        off after its completion became visible. */
    method RepairRecord()
      requires Valid() && usedIdx == usedIdxMem
      modifies this`inflUsedIdx, infl
      ensures Valid()
      ensures View() == old(View()).(infl := SplitQueue.Repaired(old(View())), inflUsedIdx := usedIdxMem)
    {
      if inflUsedIdx != usedIdx {
        infl[lastBatchHead] := infl[lastBatchHead].(inflight := 0);
        inflUsedIdx := usedIdx;
      }
    }

    /** The resubmission list, sorted. */
    method ListSorted(room: nat)
      requires Valid() && resubmit == [] && |SplitQueue.InflightEntries(infl[..])| <= room
      modifies this`resubmit
      ensures Valid() && resubmit == SplitQueue.Qsort(SplitQueue.InflightEntries(infl[..]))
    {
      hide RingSize, SplitQueue.Qsort, SplitQueue.InflightEntries;
      ListInflights(room);
      SplitQueue.QsortOk(resubmit);
      SameElements(resubmit, SplitQueue.Qsort(resubmit), num);
      resubmit := SplitQueue.Qsort(resubmit);
    }

    /** vu_queue_avail_bytes, which also refreshes the cached index. */
    method QueueAvailBytes(host: Host, inBytes: u32, outBytes: u32) returns (ok: bool)
      requires Valid() && TablesInPlace()
      modifies this`shadow, dev`broken
      ensures Valid() && desc.Length == avail.Length > 0
      ensures var r := AvailBytes.Ring(desc[..], dev.Table(), host, avail[..], availIdx);
        && ok == AvailBytes.Available(r, lastAvail, old(dev.broken), inBytes, outBytes)
        && dev.broken == (old(dev.broken)
                          || AvailBytes.ScanRing(r, lastAvail, 0, AvailBytes.NOTHING, inBytes, outBytes).Corrupt?)
      ensures shadow == if old(dev.broken) then old(shadow) else availIdx
    {
      hide InPlace;
      var r := AvailBytes.Ring(desc[..], dev.regions[..dev.nregions], host, avail[..], availIdx);
      if !dev.broken {
        shadow := availIdx;
      }
      ok := AvailBytes.QueueAvailBytes(dev, r, lastAvail, inBytes, outBytes);
    }
  }
}
