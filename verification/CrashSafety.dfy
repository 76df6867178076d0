/** Every step of the crash protocol keeps its invariant.

    Each step has two lemmas, one for what survives a crash (MemoryInv) and one for
    the running process (ProcessInv), plus small lemmas about the one projection of
    the state that the step really changes. */
module CrashSafety {
  import opened Machine
  import opened Ring16
  import opened SplitQueue
  import opened CrashProtocol

  lemma InitInv(num: nat)
    requires RingSize(num)
    ensures Inv(Init(num))
  {
    CountZero(Init(num).q.infl);
  }

  // ---- driver steps ------------------------------------------------------

  lemma AvailPublish(num: nat, avail: seq<u16>, pubs: seq<u16>, reclaimed: nat, head: u16)
    requires RingSize(num) && AvailHolds(num, avail, pubs, reclaimed) && |pubs| < reclaimed + num
    ensures AvailHolds(num, avail[Wrap(|pubs|) % num := head], pubs + [head], reclaimed)
  {
    SlotOfWrapped(|pubs|, num);
    forall k | reclaimed <= k < |pubs| ensures k % num != |pubs| % num {
      SlotsDistinct(k, |pubs|, num);
    }
  }

  lemma DriverPublish(pubs: seq<u16>, done: seq<nat>, reclaimed: nat, busy: set<nat>, head: u16)
    requires DriverKnows(pubs, done, reclaimed, busy) && head !in busy
    requires reclaimed <= |done| && forall i :: 0 <= i < |done| ==> done[i] < |pubs|
    ensures DriverKnows(pubs + [head], done, reclaimed, busy + {head as nat})
  {
    var pubs' := pubs + [head];
    forall k: nat | Outstanding(pubs', done, reclaimed, k) && k < |pubs|
      ensures Outstanding(pubs, done, reclaimed, k) && pubs'[k] == pubs[k]
    {
    }
  }

  lemma PublishedMore(s: State, head: u16)
    requires MemoryInv(s) && head < s.q.num
    ensures var pubs := s.pubs + [head];
      && Numbered(pubs, s.done, s.popped, s.q.num)
      && UsedHolds(s.q.num, s.q.used, pubs, s.done, s.reclaimed)
      && Recorded(Repaired(s.q), pubs, s.done, s.popped, s.own)
  {
    hide AvailHolds, DriverKnows;
  }

  lemma PublishMemory(s: State, head: u16)
    requires MemoryInv(s) && CanPublish(s, head)
    ensures MemoryInv(Publish(s, head))
  {
    AvailPublish(s.q.num, s.q.avail, s.pubs, s.reclaimed, head);
    DriverPublish(s.pubs, s.done, s.reclaimed, s.busy, head);
    WrapStep(|s.pubs|, 1);
    PublishedMore(s, head);
    assert Repaired(Publish(s, head).q) == Repaired(s.q);
    hide Numbered, AvailHolds, UsedHolds, DriverKnows, Recorded, Flags;
  }

  lemma PublishProcess(s: State, head: u16)
    requires MemoryInv(s) && ProcessInv(s) && CanPublish(s, head)
    requires MemoryInv(Publish(s, head))
    ensures ProcessInv(Publish(s, head))
  {
    hide Numbered, AvailHolds, UsedHolds, DriverKnows, Recorded, Flags, Hands, Waiting, CountInflight, Wrap;
  }

  lemma DriverReclaim(pubs: seq<u16>, done: seq<nat>, reclaimed: nat, busy: set<nat>)
    requires DriverKnows(pubs, done, reclaimed, busy)
    requires reclaimed < |done| && forall i :: 0 <= i < |done| ==> done[i] < |pubs|
    requires forall i, j :: 0 <= i < j < |done| ==> done[i] != done[j]
    ensures DriverKnows(pubs, done, reclaimed + 1, busy - {pubs[done[reclaimed]] as nat})
  {
    var r := done[reclaimed];
    assert done[..reclaimed + 1] == done[..reclaimed] + [r];
    assert Outstanding(pubs, done, reclaimed, r);
    forall k: nat | Outstanding(pubs, done, reclaimed + 1, k)
      ensures Outstanding(pubs, done, reclaimed, k) && pubs[k] != pubs[r]
    {
      assert k != r;
    }
  }

  lemma ReclaimMemory(s: State)
    requires MemoryInv(s) && CanReclaim(s)
    ensures MemoryInv(Reclaim(s))
  {
    ReclaimedMore(s);
    hide Numbered, AvailHolds, UsedHolds, DriverKnows, Recorded, Flags, CountInflight, Wrap, Repaired;
  }

  lemma ReclaimProcess(s: State)
    requires Counters(s) && ProcessInv(s) && Counters(Reclaim(s))
    ensures ProcessInv(Reclaim(s))
  {
    hide Counters, Hands, Waiting, Repaired;
  }

  lemma ReclaimedMore(s: State)
    requires MemoryInv(s) && CanReclaim(s)
    ensures s.reclaimed < |s.done|
    ensures AvailHolds(s.q.num, s.q.avail, s.pubs, s.reclaimed + 1)
    ensures UsedHolds(s.q.num, s.q.used, s.pubs, s.done, s.reclaimed + 1)
    ensures DriverKnows(s.pubs, s.done, s.reclaimed + 1, Reclaim(s).busy)
  {
    hide Recorded, Flags, CountInflight;
    WrapInjective(s.reclaimed, |s.done|);
    DriverReclaim(s.pubs, s.done, s.reclaimed, s.busy);
    assert s.q.used[s.reclaimed % s.q.num].id == s.pubs[s.done[s.reclaimed]];
    hide DriverKnows;
  }

  lemma PublishInv(s: State, head: u16)
    requires Inv(s) && CanPublish(s, head)
    ensures Inv(Publish(s, head))
  {
    PublishMemory(s, head);
    PublishProcess(s, head);
  }

  lemma ReclaimInv(s: State)
    requires Inv(s) && CanReclaim(s)
    ensures Inv(Reclaim(s))
  {
    ReclaimMemory(s);
    ReclaimProcess(s);
  }

  // ---- pop ---------------------------------------------------------------

  ghost predicate SameMemory(s: State, s': State) {
    && s'.q == s.q.(availEvent := s'.q.availEvent, lastAvail := s'.q.lastAvail, shadow := s'.q.shadow,
                    usedIdx := s'.q.usedIdx, inuse := s'.q.inuse, counter := s'.q.counter,
                    resubmit := s'.q.resubmit, signalledUsed := s'.q.signalledUsed,
                    signalledValid := s'.q.signalledValid, broken := s'.q.broken)
    && s' == s.(q := s'.q, pc := s'.pc, held := s'.held, shadowN := s'.shadowN, popLog := s'.popLog)
  }

  lemma MemoryFrame(s: State, s': State)
    requires MemoryInv(s) && SameMemory(s, s')
    ensures MemoryInv(s') && Repaired(s'.q) == Repaired(s.q)
  {
    hide Numbered, AvailHolds, UsedHolds, DriverKnows, Recorded, Flags, CountInflight, Wrap;
  }

  lemma CheckAvailProcess(s: State)
    requires Counters(s) && ProcessInv(s) && CanCheckAvail(s) && Counters(CheckAvail(s))
    ensures ProcessInv(CheckAvail(s))
  {
    hide Hands, Waiting;
    WrapInjective(s.popped, s.shadowN);
    WrapInjective(s.popped, |s.pubs|);
  }

  /** A pop that saw a non-empty ring reads the next unrecorded chain, and never
      finds the queue over-full. */
  lemma TakeReads(s: State)
    requires Inv(s) && s.pc.Ready?
    ensures s.q.inuse < s.q.num && NextHead(s.q) == s.pubs[s.popped]
  {
    hide UsedHolds, DriverKnows, Recorded, Flags, Hands, Waiting, CountInflight;
    SlotOfWrapped(s.popped, s.q.num);
  }

  lemma TakeProcess(s: State, mapped: bool, eventIdx: bool)
    requires Counters(s) && ProcessInv(s) && s.pc.Ready? && Counters(Take(s, mapped, eventIdx))
    requires s.q.inuse < s.q.num && NextHead(s.q) == s.pubs[s.popped] < s.q.num
    ensures ProcessInv(Take(s, mapped, eventIdx))
    ensures Take(s, mapped, eventIdx).q.broken <==> !mapped
  {
    hide Hands, Waiting, NextHead;
    WrapStep(s.popped, 1);
    InuseUp(s.q);
  }

  lemma CheckAvailInv(s: State)
    requires Inv(s) && CanCheckAvail(s)
    ensures Inv(CheckAvail(s))
  {
    MemoryFrame(s, CheckAvail(s));
    CheckAvailProcess(s);
  }

  lemma TakeInv(s: State, mapped: bool, eventIdx: bool)
    requires Inv(s) && s.pc.Ready?
    ensures Inv(Take(s, mapped, eventIdx))
    ensures Take(s, mapped, eventIdx).q.broken <==> !mapped
  {
    TakeReads(s);
    MemoryFrame(s, Take(s, mapped, eventIdx));
    TakeProcess(s, mapped, eventIdx);
  }

  // ---- recording a popped chain --------------------------------------------------

  lemma SameFlags(d: seq<DescState>, h: nat, e: DescState)
    requires h < |d| && e.inflight == d[h].inflight
    ensures CountInflight(d[h := e]) == CountInflight(d)
    ensures forall i :: 0 <= i < |d| ==> d[h := e][i].inflight == d[i].inflight
  {
    CountUpdate(d, h, e);
  }

  lemma RecordCounterInv(s: State)
    requires Inv(s) && s.pc.Took?
    ensures Inv(RecordCounter(s))
  {
    RecordCounterMemory(s);
    RecordCounterProcess(s);
  }

  lemma RecordCounterMemory(s: State)
    requires MemoryInv(s) && ProcessInv(s) && s.pc.Took?
    ensures MemoryInv(RecordCounter(s))
  {
    hide Numbered, AvailHolds, UsedHolds, DriverKnows, Hands, Waiting, Wrap;
    var h := s.pc.h;
    SameFlags(s.q.infl, h, s.q.infl[h].(counter := s.q.counter));
    hide CountInflight;
  }

  lemma RecordCounterProcess(s: State)
    requires Counters(s) && ProcessInv(s) && s.pc.Took? && Counters(RecordCounter(s))
    ensures ProcessInv(RecordCounter(s))
  {
    hide Hands, Waiting, Wrap;
  }

  /** The head about to be recorded is not recorded already: its previous use has
      come back, or the driver would not have published it again. */
  lemma NextHeadIsFree(s: State)
    requires MemoryInv(s) && s.popped < |s.pubs|
    ensures s.pubs[s.popped] as nat !in s.own
  {
    hide AvailHolds, UsedHolds, CountInflight, Wrap, Repaired, Flags;
    forall h | h in s.own ensures h != s.pubs[s.popped] {
      assert Outstanding(s.pubs, s.done, s.reclaimed, s.own[h]);
      assert Outstanding(s.pubs, s.done, s.reclaimed, s.popped);
    }
  }

  lemma RecordOne(table: seq<DescState>, pubs: seq<u16>, done: seq<nat>, popped: nat, own: map<nat, nat>, h: nat)
    requires Recorded(table, pubs, done, popped, own)
    requires h < |table| && popped < |pubs| && pubs[popped] == h && h !in own
    requires forall i :: 0 <= i < |done| ==> done[i] < popped
    ensures Recorded(table[h := table[h].(inflight := 1)], pubs, done, popped + 1, own[h := popped])
  {
  }

  lemma RecordFlagMemory(s: State)
    requires Inv(s) && s.pc.Counted?
    ensures MemoryInv(RecordFlag(s)) && s.pc.h as nat !in s.own
  {
    hide AvailHolds, UsedHolds, DriverKnows, Hands, Waiting, Wrap;
    var h := s.pc.h;
    NextHeadIsFree(s);
    RecordOne(s.q.infl, s.pubs, s.done, s.popped, s.own, h);
    CountUpdate(s.q.infl, h, s.q.infl[h].(inflight := 1));
    hide CountInflight, Recorded;
  }

  lemma RecordFlagProcess(s: State)
    requires Counters(s) && ProcessInv(s) && s.pc.Counted? && Counters(RecordFlag(s)) && s.pc.h as nat !in s.own
    ensures ProcessInv(RecordFlag(s))
  {
    hide Wrap;
    assert Waiting(s.q.resubmit) == {};
  }

  lemma RecordFlagInv(s: State)
    requires Inv(s) && s.pc.Counted?
    ensures Inv(RecordFlag(s))
  {
    RecordFlagMemory(s);
    RecordFlagProcess(s);
  }

  // ---- handing out the resubmission list ----------------------------------------

  lemma DropLast(resubmit: seq<Resubmit>, held: set<nat>)
    requires resubmit != [] && Hands(resubmit, held)
    ensures var h := resubmit[|resubmit| - 1].index;
      && h in Waiting(resubmit)
      && Waiting(resubmit[..|resubmit| - 1]) == Waiting(resubmit) - {h}
      && Hands(resubmit[..|resubmit| - 1], held + {h})
  {
    var n := |resubmit| - 1;
    assert resubmit == resubmit[..n] + [resubmit[n]];
    assert resubmit[n] in resubmit;
    forall x | x in Waiting(resubmit[..n]) ensures x in Waiting(resubmit) && x != resubmit[n].index {
      var i :| 0 <= i < n && resubmit[..n][i].index == x;
      assert resubmit[i] in resubmit;
    }
    forall x | x in Waiting(resubmit) && x != resubmit[n].index ensures x in Waiting(resubmit[..n]) {
      var i :| 0 <= i < |resubmit| && resubmit[i].index == x;
      assert resubmit[..n][i] in resubmit[..n];
    }
  }

  lemma PopAgainProcess(s: State, mapped: bool)
    requires Counters(s) && ProcessInv(s) && CanPopAgain(s) && Counters(PopAgain(s, mapped))
    ensures ProcessInv(PopAgain(s, mapped))
    ensures s.q.resubmit[|s.q.resubmit| - 1].index in s.own
  {
    DropLast(s.q.resubmit, s.held);
    HandsShrink(s.q.resubmit[..|s.q.resubmit| - 1], s.held, s.q.resubmit[|s.q.resubmit| - 1].index);
    hide Hands, Waiting, Wrap;
  }

  lemma HandsShrink(resubmit: seq<Resubmit>, held: set<nat>, h: nat)
    requires Hands(resubmit, held + {h})
    ensures Hands(resubmit, held)
  {
  }

  lemma PopAgainInv(s: State, mapped: bool)
    requires Inv(s) && CanPopAgain(s)
    ensures Inv(PopAgain(s, mapped))
  {
    MemoryFrame(s, PopAgain(s, mapped));
    PopAgainProcess(s, mapped);
  }

  // ---- push ----------------------------------------------------------------------

  lemma {:induction false} CountPositive(d: seq<DescState>, h: nat)
    requires h < |d| && d[h].inflight == 1
    ensures CountInflight(d) > 0
  {
    if h < |d| - 1 {
      CountPositive(d[..|d| - 1], h);
    }
  }

  /** A chain in flight leaves room in the used ring. */
  lemma RoomToComplete(s: State, h: nat)
    requires MemoryInv(s) && h in s.own
    ensures |s.done| < s.popped && h < s.q.num && s.own[h] < s.popped && s.pubs[s.own[h]] == h
    ensures s.own[h] !in s.done && Repaired(s.q)[h].inflight == 1
  {
    hide AvailHolds, UsedHolds, DriverKnows, Numbered, Wrap;
    CountPositive(Repaired(s.q), h);
  }

  lemma UsedFill(num: nat, used: seq<UsedElem>, pubs: seq<u16>, done: seq<nat>, reclaimed: nat, e: UsedElem)
    requires RingSize(num) && UsedHolds(num, used, pubs, done, reclaimed) && |done| < reclaimed + num
    ensures Wrap(|done|) % num == |done| % num
    ensures UsedHolds(num, used[|done| % num := e], pubs, done, reclaimed)
  {
    SlotOfWrapped(|done|, num);
    forall j | reclaimed <= j < |done| ensures j % num != |done| % num {
      SlotsDistinct(j, |done|, num);
    }
  }

  lemma HeldIsRecorded(s: State, h: nat)
    requires Inv(s) && !s.q.broken && h in s.held
    ensures h in s.own && s.q.usedIdx == s.q.usedIdxMem == Wrap(|s.done|)
    ensures s.pc.Idle? || s.pc.Filled? || s.pc.Marked? ==> s.q.inflUsedIdx == s.q.usedIdxMem
  {
    hide Numbered, AvailHolds, UsedHolds, DriverKnows, Recorded, Flags, CountInflight, Repaired, Hands, Waiting, Wrap;
  }

  lemma FillAt(q: Queue, n: nat, head: u16, len: nat)
    requires q.WellFormed() && q.usedIdx == Wrap(n)
    ensures Fill(q, head, len, 0) == q.(used := q.used[n % q.num := UsedElem(head, len)])
  {
    SlotOfWrapped(n, q.num);
    assert (0 + q.usedIdx) % U32 == q.usedIdx;
    hide Wrap;
  }

  lemma FillSlot(s: State, head: u16, len: nat)
    requires Inv(s) && CanFill(s, head)
    ensures PushFill(s, head, len).q == s.q.(used := s.q.used[|s.done| % s.q.num := UsedElem(head, len)])
    ensures UsedHolds(s.q.num, s.q.used[|s.done| % s.q.num := UsedElem(head, len)], s.pubs, s.done, s.reclaimed)
  {
    HeldIsRecorded(s, head);
    RoomToComplete(s, head);
    hide Numbered, AvailHolds, DriverKnows, Recorded, Flags, CountInflight, ProcessInv, Repaired, UsedHolds;
    UsedFill(s.q.num, s.q.used, s.pubs, s.done, s.reclaimed, UsedElem(head, len));
    FillAt(s.q, |s.done|, head, len);
    hide Fill;
  }

  lemma FillMemory(s: State, head: u16, len: nat)
    requires Inv(s) && CanFill(s, head)
    ensures MemoryInv(PushFill(s, head, len))
    ensures PushFill(s, head, len).q.used[|s.done| % s.q.num].id == head
  {
    FillSlot(s, head, len);
    hide Numbered, AvailHolds, UsedHolds, DriverKnows, Recorded, Flags, CountInflight, Wrap, ProcessInv, Fill;
  }

  lemma FillProcess(s: State, head: u16, len: nat)
    requires Counters(s) && ProcessInv(s) && CanFill(s, head) && Counters(PushFill(s, head, len))
    requires PushFill(s, head, len).q.used[|s.done| % s.q.num].id == head
    ensures ProcessInv(PushFill(s, head, len))
  {
    hide Hands, Waiting, Wrap;
  }

  lemma FillInv(s: State, head: u16, len: nat)
    requires Inv(s) && CanFill(s, head)
    ensures Inv(PushFill(s, head, len))
  {
    FillMemory(s, head, len);
    FillProcess(s, head, len);
  }

  lemma PrePutMemory(s: State)
    requires Inv(s) && s.pc.Filled?
    ensures MemoryInv(PushPrePut(s))
  {
    hide Numbered, AvailHolds, UsedHolds, DriverKnows, Recorded, Flags, CountInflight, Wrap, Hands, Waiting;
    HeldIsRecorded(s, s.pc.h);
    RoomToComplete(s, s.pc.h);
    assert Repaired(PushPrePut(s).q) == Repaired(s.q);
  }

  lemma PrePutProcess(s: State)
    requires Counters(s) && ProcessInv(s) && s.pc.Filled? && Counters(PushPrePut(s))
    ensures ProcessInv(PushPrePut(s))
  {
    hide Hands, Waiting, Wrap;
  }

  lemma PrePutInv(s: State)
    requires Inv(s) && s.pc.Filled?
    ensures Inv(PushPrePut(s))
  {
    PrePutMemory(s);
    PrePutProcess(s);
  }

  /** The flag of the completing head goes from set, in the record's view before the
      store of used->idx, to clear in its view after. */
  lemma FlushTable(s: State)
    requires Inv(s) && s.pc.Marked?
    ensures PushFlush(s).q.WellFormed()
    ensures PushFlush(s).q.usedIdxMem == Wrap(|s.done| + 1) != PushFlush(s).q.inflUsedIdx
    ensures Repaired(s.q) == s.q.infl
    ensures Repaired(PushFlush(s).q) == s.q.infl[s.pc.h := s.q.infl[s.pc.h].(inflight := 0)]
  {
    hide Numbered, AvailHolds, UsedHolds, DriverKnows, Recorded, Flags, CountInflight, Hands, Waiting;
    HeldIsRecorded(s, s.pc.h);
    RoomToComplete(s, s.pc.h);
    WrapStep(|s.done|, 1);
    WrapInjective(|s.done|, |s.done| + 1);
  }

  lemma CompleteOne(table: seq<DescState>, pubs: seq<u16>, done: seq<nat>, popped: nat, own: map<nat, nat>, h: nat)
    requires Recorded(table, pubs, done, popped, own) && h in own
    ensures h < |table|
    ensures Recorded(table[h := table[h].(inflight := 0)], pubs, done + [own[h]], popped, own - {h})
  {
    var done' := done + [own[h]];
    assert done'[|done|] == own[h];
    forall k | k in done ensures k in done' {
      var i :| 0 <= i < |done| && done[i] == k;
      assert done'[i] == k;
    }
  }

  lemma CompleteUsed(num: nat, used: seq<UsedElem>, pubs: seq<u16>, done: seq<nat>, reclaimed: nat, k: nat)
    requires UsedHolds(num, used, pubs, done, reclaimed) && k < |pubs|
    requires used[|done| % num].id == pubs[k]
    ensures UsedHolds(num, used, pubs, done + [k], reclaimed)
  {
  }

  lemma CompleteDriver(pubs: seq<u16>, done: seq<nat>, reclaimed: nat, busy: set<nat>, k: nat)
    requires DriverKnows(pubs, done, reclaimed, busy) && reclaimed <= |done|
    ensures DriverKnows(pubs, done + [k], reclaimed, busy)
  {
    assert (done + [k])[..reclaimed] == done[..reclaimed];
    forall i: nat ensures Outstanding(pubs, done + [k], reclaimed, i) == Outstanding(pubs, done, reclaimed, i) {
    }
  }

  lemma FlushMemory(s: State)
    requires Inv(s) && s.pc.Marked?
    ensures MemoryInv(PushFlush(s)) && s.pc.h as nat in s.own && |s.done| < s.popped
  {
    var h := s.pc.h as nat;
    HeldIsRecorded(s, h);
    RoomToComplete(s, h);
    FlushTable(s);
    FlushHistory(s, h);
    CountUpdate(s.q.infl, h, s.q.infl[h].(inflight := 0));
    hide Numbered, AvailHolds, UsedHolds, DriverKnows, Recorded, Flags, CountInflight, Wrap, ProcessInv, Repaired;
  }

  lemma FlushHistory(s: State, h: nat)
    requires MemoryInv(s) && h in s.own && h < s.q.num && Repaired(s.q) == s.q.infl
    requires s.q.used[|s.done| % s.q.num].id == h
    requires s.own[h] < s.popped && s.pubs[s.own[h]] == h && s.own[h] !in s.done
    ensures var done, infl := s.done + [s.own[h]], s.q.infl[h := s.q.infl[h].(inflight := 0)];
      && Numbered(s.pubs, done, s.popped, s.q.num)
      && UsedHolds(s.q.num, s.q.used, s.pubs, done, s.reclaimed)
      && DriverKnows(s.pubs, done, s.reclaimed, s.busy)
      && Recorded(infl, s.pubs, done, s.popped, s.own - {h})
  {
    hide CountInflight, Wrap, Repaired, AvailHolds;
    CompleteOne(s.q.infl, s.pubs, s.done, s.popped, s.own, h);
    CompleteUsed(s.q.num, s.q.used, s.pubs, s.done, s.reclaimed, s.own[h]);
    CompleteDriver(s.pubs, s.done, s.reclaimed, s.busy, s.own[h]);
    hide UsedHolds, DriverKnows, Recorded, Flags;
  }

  lemma FlushProcess(s: State)
    requires Counters(s) && ProcessInv(s) && s.pc.Marked? && Counters(PushFlush(s))
    requires s.pc.h as nat in s.own && |s.done| < s.popped
    requires s.q.inflUsedIdx != PushFlush(s).q.usedIdxMem && s.pc.h < s.q.num
    ensures ProcessInv(PushFlush(s))
  {
    hide Wrap, Outrun;
    InuseDown(s.q.inuse, 1);
    assert s.pc.h as nat !in Waiting(s.q.resubmit);
    hide Waiting;
  }

  lemma FlushInv(s: State)
    requires Inv(s) && s.pc.Marked?
    ensures Inv(PushFlush(s))
  {
    FlushMemory(s);
    FlushTable(s);
    FlushProcess(s);
  }

  lemma ClearMemory(s: State)
    requires Inv(s) && s.pc.Published?
    ensures MemoryInv(PushClear(s))
  {
    hide Numbered, AvailHolds, UsedHolds, DriverKnows, Recorded, CountInflight, Hands, Waiting, Wrap;
    assert Repaired(PushClear(s).q) == Repaired(s.q);
  }

  lemma ClearProcess(s: State)
    requires Counters(s) && ProcessInv(s) && s.pc.Published? && Counters(PushClear(s))
    ensures ProcessInv(PushClear(s))
  {
    hide Hands, Waiting, Wrap;
  }

  lemma ClearInv(s: State)
    requires Inv(s) && s.pc.Published?
    ensures Inv(PushClear(s))
  {
    ClearMemory(s);
    ClearProcess(s);
  }

  lemma IdxMemory(s: State)
    requires Inv(s) && s.pc.Cleared?
    ensures MemoryInv(PushIdx(s))
  {
    hide Numbered, AvailHolds, UsedHolds, DriverKnows, Recorded, Flags, CountInflight, Hands, Waiting, Wrap;
    assert Repaired(PushIdx(s).q) == Repaired(s.q);
  }

  lemma IdxProcess(s: State)
    requires Counters(s) && ProcessInv(s) && s.pc.Cleared? && Counters(PushIdx(s))
    ensures ProcessInv(PushIdx(s))
  {
    hide Hands, Waiting, Wrap;
  }

  lemma IdxInv(s: State)
    requires Inv(s) && s.pc.Cleared?
    ensures Inv(PushIdx(s))
  {
    IdxMemory(s);
    IdxProcess(s);
  }

  // ---- crash and recovery ------------------------------------------------------

  lemma CrashInv(s: State)
    requires Inv(s)
    ensures Inv(Crash(s))
  {
    MemoryFrame(s, Crash(s));
    hide MemoryInv, Repaired;
  }

  lemma NothingRecorded(s: State)
    requires MemoryInv(s) && s.popped == 0
    ensures |s.done| == 0 && s.own == map[]
  {
    hide AvailHolds, UsedHolds, DriverKnows, Flags, Repaired, CountInflight, Wrap;
  }

  lemma RecoverFirstInv(s: State)
    requires Inv(s) && CanRecoverFirst(s)
    ensures Inv(RecoverFirst(s))
  {
    NothingRecorded(s);
    assert Waiting([]) == {};
    hide Numbered, AvailHolds, UsedHolds, DriverKnows, Recorded, Flags, CountInflight;
    assert Repaired(RecoverFirst(s).q) == Repaired(s.q);
  }

  lemma RecoverClearInv(s: State)
    requires Inv(s) && CanRecoverClear(s)
    ensures Inv(RecoverClear(s))
  {
    assert Flags(Repaired(s.q));
    hide Numbered, AvailHolds, UsedHolds, DriverKnows, Recorded, Flags, CountInflight, Wrap;
    assert Repaired(RecoverClear(s).q) == Repaired(s.q);
  }

  lemma RecoverIdxInv(s: State)
    requires Inv(s) && s.pc.Fixing?
    ensures Inv(RecoverIdx(s))
  {
    hide Numbered, AvailHolds, UsedHolds, DriverKnows, Recorded, Flags, CountInflight, Wrap;
    assert Repaired(RecoverIdx(s).q) == Repaired(s.q);
  }

  /** A list of distinct elements holds each of them once. */
  lemma {:induction false} OnceEach(xs: seq<Resubmit>, e: Resubmit)
    requires forall i, j :: 0 <= i < j < |xs| ==> xs[i].index != xs[j].index
    ensures multiset(xs)[e] <= 1
  {
    if xs != [] {
      var n := |xs| - 1;
      OnceEach(xs[..n], e);
      assert xs == xs[..n] + [xs[n]];
      if e == xs[n] {
        assert e !in xs[..n];
      }
    }
  }

  lemma PermutationDistinct(xs: seq<Resubmit>, ys: seq<Resubmit>)
    requires multiset(xs) == multiset(ys)
    requires forall i, j :: 0 <= i < j < |xs| ==> xs[i].index != xs[j].index
    ensures |xs| == |ys|
    ensures forall e :: e in xs <==> e in ys
    ensures forall i, j :: 0 <= i < j < |ys| ==> ys[i].index != ys[j].index
  {
    assert |multiset(xs)| == |multiset(ys)|;
    forall e ensures e in xs <==> e in ys {
      assert e in multiset(xs) <==> e in multiset(ys);
    }
    forall i, j | 0 <= i < j < |ys| ensures ys[i].index != ys[j].index {
      OnceEach(xs, ys[i]);
      assert ys[i] in xs && ys[j] in xs;
      TwiceIn(ys, i, j);
    }
  }

  lemma TwiceIn(ys: seq<Resubmit>, i: nat, j: nat)
    requires i < j < |ys| && multiset(ys)[ys[i]] <= 1
    ensures ys[i] != ys[j]
  {
    assert ys == ys[..j] + ys[j..];
    assert ys[i] == ys[..j][i] && ys[j] == ys[j..][0];
    assert multiset(ys) == multiset(ys[..j]) + multiset(ys[j..]);
    assert ys[i] in multiset(ys[..j]) && ys[j] in multiset(ys[j..]);
  }

  /** Whatever order qsort leaves it in, the list names each flagged head once. */
  lemma {:induction false} ScanList(infl: seq<DescState>, order: seq<Resubmit>)
    requires Flags(infl) && QsortResult(InflightEntries(infl), order)
    ensures |order| == CountInflight(infl)
    ensures Hands(order, {})
    ensures forall h :: h in Waiting(order) <==> 0 <= h < |infl| && infl[h].inflight == 1
    ensures forall r :: r in order ==> r.index < |infl| && r.counter == infl[r.index].counter
  {
    hide CountInflight, InflightEntries, Consistent;
    var xs := InflightEntries(infl);
    EntriesExact(infl);
    EntriesCount(infl);
    PermutationDistinct(xs, order);
    forall r | r in order
      ensures r.index < |infl| && infl[r.index].inflight == 1 && r.counter == infl[r.index].counter
    {
      assert r in xs;
    }
    forall h | 0 <= h < |infl| && infl[h].inflight == 1 ensures h in Waiting(order) {
      var j :| 0 <= j < |xs| && xs[j].index == h;
      assert xs[j] in order;
    }
  }

  lemma ScanReady(s: State, order: seq<Resubmit>)
    requires Inv(s) && CanScan(s, order)
    ensures s.q.inuse == 0 && s.q.inflUsedIdx == s.q.usedIdxMem && s.q.version != 0 && s.held == {} && !s.q.broken
    ensures Repaired(s.q) == s.q.infl && CountInflight(s.q.infl) + |s.done| == s.popped
  {
    hide Numbered, AvailHolds, UsedHolds, DriverKnows, Recorded, Flags, Wrap, QsortResult, InflightEntries;
  }

  lemma ScanOwners(s: State, order: seq<Resubmit>)
    requires Inv(s) && CanScan(s, order)
    ensures s.own.Keys == Waiting(order) && Hands(order, {}) && |order| == CountInflight(s.q.infl)
    ensures CountInflight(s.q.infl) == 0 ==> order == []
  {
    ScanReady(s, order);
    hide Numbered, AvailHolds, UsedHolds, DriverKnows, Wrap, ProcessInv, QsortResult, Hands, CountInflight, InflightEntries;
    ScanList(s.q.infl, order);
  }

  lemma ScanProcess(s: State, order: seq<Resubmit>)
    requires Counters(s) && Counters(RecoverScan(s, order))
    requires s.q.inuse == 0 && s.q.inflUsedIdx == s.q.usedIdxMem && s.q.version != 0 && s.held == {} && !s.q.broken
    requires CountInflight(s.q.infl) + |s.done| == s.popped
    requires s.own.Keys == Waiting(order) && Hands(order, {})
    requires CountInflight(s.q.infl) == 0 ==> order == []
    ensures ProcessInv(RecoverScan(s, order))
    ensures RecoverScan(s, order).q.resubmit == order
  {
    var s' := RecoverScan(s, order);
    WrapStep(|s.done|, CountInflight(s.q.infl));
    SumSmall(0, CountInflight(s.q.infl));
    hide Hands, Waiting, CountInflight, Wrap, Sum32;
  }

  lemma RecoverScanInv(s: State, order: seq<Resubmit>)
    requires Inv(s) && CanScan(s, order)
    ensures Inv(RecoverScan(s, order))
    ensures RecoverScan(s, order).q.resubmit == order
  {
    ScanReady(s, order);
    ScanOwners(s, order);
    MemoryFrame(s, RecoverScan(s, order));
    ScanProcess(s, order);
    hide MemoryInv, ProcessInv;
  }
}
