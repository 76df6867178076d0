/** Order across crashes: after every recovery the in-flight chains are handed out
    again in the order they were first popped, before any new chain. */
module CrashOrder {
  import opened Machine
  import opened Ring16
  import opened SplitQueue
  import opened CrashProtocol
  import opened CrashSafety

  /** Counters in the record order the recorded chains as they were popped. */
  ghost predicate CountersFollow(own: map<nat, nat>, infl: seq<DescState>) {
    && (forall h :: h in own ==> h < |infl|)
    && (forall h, g :: h in own && g in own && own[h] < own[g] ==> infl[h].counter < infl[g].counter)
  }

  /** The next counter value exceeds every recorded one. */
  ghost predicate CounterAbove(own: map<nat, nat>, infl: seq<DescState>, counter: nat) {
    forall h :: h in own && h < |infl| ==> infl[h].counter < counter
  }

  /** The resubmission list is consumed from its end, so it descends. */
  ghost predicate Descending(resubmit: seq<Resubmit>, own: map<nat, nat>) {
    forall i, j :: 0 <= i < j < |resubmit| ==>
      Owner(own, resubmit[i].index) > Owner(own, resubmit[j].index)
  }

  ghost predicate Increasing(log: seq<nat>, bound: nat) {
    && (forall i, j :: 0 <= i < j < |log| ==> log[i] < log[j])
    && (forall i :: 0 <= i < |log| ==> log[i] < bound)
  }

  /** What has been handed out comes before everything still waiting. */
  ghost predicate LogBeforeWaiting(log: seq<nat>, resubmit: seq<Resubmit>, own: map<nat, nat>) {
    forall i, j :: 0 <= i < |log| && 0 <= j < |resubmit| ==> log[i] < Owner(own, resubmit[j].index)
  }

  /** Every recorded chain has been handed out since the last recovery, or waits. */
  ghost predicate NothingSkipped(own: map<nat, nat>, log: seq<nat>, waiting: set<nat>) {
    forall h :: h in own ==> own[h] in log || h in waiting
  }

  ghost predicate Serving(s: State) {
    !s.pc.Down? && !s.pc.Fixing? && !s.pc.Scanning? && !s.q.broken
  }

  ghost predicate OrderInv(s: State) {
    && CountersFollow(s.own, s.q.infl)
    && Increasing(s.popLog, s.popped)
    && (Serving(s) ==>
          && NothingSkipped(s.own, s.popLog, Waiting(s.q.resubmit))
          && Descending(s.q.resubmit, s.own)
          && LogBeforeWaiting(s.popLog, s.q.resubmit, s.own)
          && (if s.pc.Counted?
              then s.pc.h < |s.q.infl| && CounterAbove(s.own, s.q.infl, s.q.infl[s.pc.h].counter)
                   && s.q.infl[s.pc.h].counter < s.q.counter
              else CounterAbove(s.own, s.q.infl, s.q.counter)))
  }

  /** The premise of the ordering: the surviving counters lie within a window of
      2 * VIRTQUEUE_MAX_SIZE, so that the comparison given to qsort is an order. */
  ghost predicate InWindow(infl: seq<DescState>) {
    forall i, j :: 0 <= i < |infl| && 0 <= j < |infl| && infl[i].inflight == 1 && infl[j].inflight == 1 ==>
      infl[i].counter < infl[j].counter + 2 * VIRTQUEUE_MAX_SIZE
  }

  /** Steps that touch neither the record's counters nor what has been handed out. */
  ghost predicate SameOrder(s: State, s': State) {
    && s'.own == s.own && s'.popLog == s.popLog && s'.popped == s.popped
    && |s'.q.infl| == |s.q.infl|
    && (forall i :: 0 <= i < |s.q.infl| ==> s'.q.infl[i].counter == s.q.infl[i].counter)
    && (Serving(s') ==> Serving(s) && s'.q.resubmit == s.q.resubmit && s'.q.counter == s.q.counter)
    && (Serving(s') ==> (s.pc.Counted? <==> s'.pc.Counted?) && (s'.pc.Counted? ==> s'.pc == s.pc))
  }

  lemma OrderFrame(s: State, s': State)
    requires OrderInv(s) && SameOrder(s, s')
    ensures OrderInv(s')
  {
    hide Descending, Increasing, LogBeforeWaiting, Waiting;
  }

  // ---- recording ------------------------------------------------------------------

  lemma CounterStored(own: map<nat, nat>, infl: seq<DescState>, h: nat, counter: nat)
    requires CountersFollow(own, infl) && CounterAbove(own, infl, counter) && h < |infl| && h !in own
    ensures CountersFollow(own, infl[h := infl[h].(counter := counter)])
    ensures CounterAbove(own, infl[h := infl[h].(counter := counter)], counter)
  {
  }

  lemma TakenIsFree(s: State)
    requires Inv(s) && (s.pc.Took? || s.pc.Counted?)
    ensures s.pc.h < |s.q.infl| && s.pc.h as nat !in s.own && s.q.resubmit == [] && Serving(s)
  {
    assert NextToRecord(s, s.pc.h) && Serving(s) by {
      hide Numbered, AvailHolds, UsedHolds, DriverKnows, Recorded, Flags, CountInflight, Hands, Waiting, Wrap;
    }
    NextHeadIsFree(s);
    hide ProcessInv, Numbered, AvailHolds, UsedHolds, DriverKnows, Recorded, Flags, CountInflight, Waiting, Wrap;
  }

  lemma RecordCounterOrder(s: State)
    requires Inv(s) && OrderInv(s) && s.pc.Took? && s.q.counter + 1 < U64
    ensures OrderInv(RecordCounter(s))
  {
    hide Inv;
    TakenIsFree(s);
    CounterStored(s.own, s.q.infl, s.pc.h, s.q.counter);
    hide Increasing, LogBeforeWaiting, Descending, Waiting, CountersFollow, CounterAbove, NothingSkipped;
  }

  lemma OwnersBelow(s: State)
    requires MemoryInv(s)
    ensures forall g :: g in s.own ==> s.own[g] < s.popped && g < s.q.num
    ensures forall g, h :: g in s.own && h in s.own && s.own[g] == s.own[h] ==> g == h
  {
    hide AvailHolds, UsedHolds, DriverKnows, CountInflight, Numbered, Wrap;
  }

  lemma FollowOne(own: map<nat, nat>, infl: seq<DescState>, h: nat, popped: nat)
    requires CountersFollow(own, infl) && h < |infl| && h !in own
    requires CounterAbove(own, infl, infl[h].counter) && forall g :: g in own ==> own[g] < popped
    ensures CountersFollow(own[h := popped], infl[h := infl[h].(inflight := 1)])
    ensures CounterAbove(own[h := popped], infl[h := infl[h].(inflight := 1)], infl[h].counter + 1)
  {
  }

  lemma CounterWeaker(own: map<nat, nat>, infl: seq<DescState>, a: nat, b: nat)
    requires CounterAbove(own, infl, a) && a <= b
    ensures CounterAbove(own, infl, b)
  {
  }

  lemma LogOne(log: seq<nat>, own: map<nat, nat>, waiting: set<nat>, h: nat, n: nat)
    requires NothingSkipped(own, log, waiting) && Increasing(log, n)
    ensures NothingSkipped(own[h := n], log + [n], waiting) && Increasing(log + [n], n + 1)
  {
    assert (log + [n])[|log|] == n;
    KeptInLog(log, n);
  }

  lemma KeptInLog(log: seq<nat>, n: nat)
    ensures n in log + [n] && forall k :: k in log ==> k in log + [n]
  {
    assert (log + [n])[|log|] == n;
    forall k | k in log ensures k in log + [n] {
      var i :| 0 <= i < |log| && log[i] == k;
      assert (log + [n])[i] == k;
    }
  }

  lemma EmptyList(log: seq<nat>, own: map<nat, nat>)
    ensures Descending([], own) && LogBeforeWaiting(log, [], own)
  {
  }

  lemma RecordFlagOrder(s: State)
    requires Inv(s) && OrderInv(s) && s.pc.Counted?
    ensures OrderInv(RecordFlag(s))
  {
    var s' := RecordFlag(s);
    OwnersBelow(s);
    hide Inv;
    TakenIsFree(s);
    hide Waiting, Increasing, NothingSkipped, Descending, LogBeforeWaiting;
    FollowOne(s.own, s.q.infl, s.pc.h, s.popped);
    CounterWeaker(s'.own, s'.q.infl, s.q.infl[s.pc.h].counter + 1, s.q.counter);
    LogOne(s.popLog, s.own, Waiting([]), s.pc.h, s.popped);
    EmptyList(s'.popLog, s'.own);
    hide CountersFollow, CounterAbove;
  }

  // ---- handing out again ------------------------------------------------------------

  lemma PopAgainFacts(s: State)
    requires Inv(s) && CanPopAgain(s)
    ensures var h := s.q.resubmit[|s.q.resubmit| - 1].index;
      && h in s.own && s.own[h] < s.popped && Serving(s)
      && Waiting(s.q.resubmit[..|s.q.resubmit| - 1]) == Waiting(s.q.resubmit) - {h}
  {
    DropLast(s.q.resubmit, s.held) by {
      hide MemoryInv, Waiting;
    }
    OwnersBelow(s);
    hide MemoryInv, Waiting;
  }

  lemma OldestLast(s: State)
    requires OrderInv(s) && Serving(s) && s.q.resubmit != []
    requires s.q.resubmit[|s.q.resubmit| - 1].index in s.own
    ensures forall g :: g in s.own && s.own[g] !in s.popLog ==>
              s.own[s.q.resubmit[|s.q.resubmit| - 1].index] <= s.own[g]
  {
    hide CountersFollow, CounterAbove, LogBeforeWaiting, Increasing;
    var n := |s.q.resubmit| - 1;
    forall g | g in s.own && s.own[g] !in s.popLog ensures s.own[s.q.resubmit[n].index] <= s.own[g] {
      assert g in Waiting(s.q.resubmit);
      var i :| 0 <= i < |s.q.resubmit| && s.q.resubmit[i].index == g;
      assert i < n ==> Owner(s.own, s.q.resubmit[i].index) > Owner(s.own, s.q.resubmit[n].index);
    }
  }

  /** While the list lasts, vu_queue_pop hands out the oldest chain not handed out yet. */
  lemma PopAgainOrder(s: State, mapped: bool)
    requires Inv(s) && OrderInv(s) && CanPopAgain(s)
    ensures OrderInv(PopAgain(s, mapped))
    ensures var h := s.q.resubmit[|s.q.resubmit| - 1].index;
      && h in s.own
      && (forall g :: g in s.own && s.own[g] !in s.popLog ==> s.own[h] <= s.own[g])
  {
    hide Inv, Waiting;
    PopAgainFacts(s);
    OldestLast(s);
    var h := s.q.resubmit[|s.q.resubmit| - 1].index;
    hide NothingSkipped, Descending, LogBeforeWaiting, CountersFollow, CounterAbove;
    if mapped {
      SkipNone(s.popLog, s.own, Waiting(s.q.resubmit), h);
      LogAfterPop(s.popLog, s.q.resubmit, s.own, s.popped);
    }
    hide Increasing;
  }

  lemma SkipNone(log: seq<nat>, own: map<nat, nat>, waiting: set<nat>, h: nat)
    requires h in own && NothingSkipped(own, log, waiting)
    ensures NothingSkipped(own, log + [own[h]], waiting - {h})
  {
    KeptInLog(log, own[h]);
  }

  lemma LogAfterPop(log: seq<nat>, resubmit: seq<Resubmit>, own: map<nat, nat>, popped: nat)
    requires resubmit != [] && LogBeforeWaiting(log, resubmit, own) && Descending(resubmit, own)
    requires Increasing(log, popped) && Owner(own, resubmit[|resubmit| - 1].index) < popped
    ensures var log' := log + [Owner(own, resubmit[|resubmit| - 1].index)];
      && Increasing(log', popped)
      && Descending(resubmit[..|resubmit| - 1], own)
      && LogBeforeWaiting(log', resubmit[..|resubmit| - 1], own)
  {
    var n := |resubmit| - 1;
    var log' := log + [Owner(own, resubmit[n].index)];
    forall i, j | 0 <= i < |log'| && 0 <= j < n
      ensures log'[i] < Owner(own, resubmit[..n][j].index)
    {
      assert i < |log| ==> log[i] < Owner(own, resubmit[j].index);
      assert Owner(own, resubmit[j].index) > Owner(own, resubmit[n].index);
    }
  }

  // ---- completing -----------------------------------------------------------------

  lemma CompletedOrder(own: map<nat, nat>, infl: seq<DescState>, resubmit: seq<Resubmit>, log: seq<nat>,
                       counter: nat, h: nat)
    requires h !in Waiting(resubmit)
    requires CountersFollow(own, infl) && CounterAbove(own, infl, counter)
    requires Descending(resubmit, own) && LogBeforeWaiting(log, resubmit, own)
    requires NothingSkipped(own, log, Waiting(resubmit))
    ensures CountersFollow(own - {h}, infl) && CounterAbove(own - {h}, infl, counter)
    ensures Descending(resubmit, own - {h}) && LogBeforeWaiting(log, resubmit, own - {h})
    ensures NothingSkipped(own - {h}, log, Waiting(resubmit))
  {
    forall j | 0 <= j < |resubmit|
      ensures Owner(own - {h}, resubmit[j].index) == Owner(own, resubmit[j].index)
    {
      assert resubmit[j] in resubmit;
    }
    hide Waiting;
  }

  lemma FlushOrder(s: State)
    requires Inv(s) && OrderInv(s) && s.pc.Marked?
    ensures OrderInv(PushFlush(s))
  {
    var h := s.pc.h as nat;
    assert h !in Waiting(s.q.resubmit) && Serving(s) by {
      hide MemoryInv, Waiting;
    }
    hide Inv, Waiting, Increasing, Outrun, CountersFollow, CounterAbove, NothingSkipped, Descending, LogBeforeWaiting;
    CompletedOrder(s.own, s.q.infl, s.q.resubmit, s.popLog, s.q.counter, h);
  }

  // ---- recovering -----------------------------------------------------------------

  /** The owners and the list of a table that recovery is about to sort. */
  ghost predicate OwnsTable(own: map<nat, nat>, infl: seq<DescState>) {
    && (forall g, h :: g in own && h in own && own[g] == own[h] ==> g == h)
    && (forall h :: h in own <==> 0 <= h < |infl| && infl[h].inflight == 1)
  }

  lemma {:induction false} WindowIsConsistent(own: map<nat, nat>, infl: seq<DescState>, xs: seq<Resubmit>)
    requires ListsFlagged(infl, xs) && CountersFollow(own, infl) && OwnsTable(own, infl) && InWindow(infl)
    ensures Consistent(xs)
  {
    forall i, j | 0 <= i < j < |xs|
      ensures Compare(xs[i], xs[j]) == -Compare(xs[j], xs[i])
    {
      var g, h := xs[i].index, xs[j].index;
      assert own[g] < own[h] || own[h] < own[g];
    }
  }

  /** Within the window, what qsort returns lists the in-flight chains newest first. */
  lemma {:induction false} SortedByAge(own: map<nat, nat>, infl: seq<DescState>, order: seq<Resubmit>)
    requires Flags(infl) && CountersFollow(own, infl) && InWindow(infl) && OwnsTable(own, infl)
    requires QsortResult(InflightEntries(infl), order)
    ensures Descending(order, own)
    ensures order != [] ==> CounterAbove(own, infl, order[0].counter + 1)
  {
    hide CountInflight, InflightEntries;
    EntriesExact(infl);
    WindowIsConsistent(own, infl, InflightEntries(infl));
    ScanList(infl, order);
    hide ListsFlagged, Consistent, Hands;
    assert forall i, j :: 0 <= i < j < |order| ==> Compare(order[i], order[j]) <= 0;
    hide QsortResult;
    forall i | 0 <= i < |order|
      ensures order[i].index in own && order[i].counter == infl[order[i].index].counter
    {
      assert order[i] in order;
      assert order[i].index in Waiting(order);
    }
    DescendingByCounter(own, infl, order);
    if order != [] {
      forall h | h in own ensures infl[h].counter < order[0].counter + 1 {
        assert h in Waiting(order);
        var i :| 0 <= i < |order| && order[i].index == h;
      }
    }
  }

  lemma {:induction false} DescendingByCounter(own: map<nat, nat>, infl: seq<DescState>, order: seq<Resubmit>)
    requires CountersFollow(own, infl) && InWindow(infl) && OwnsTable(own, infl)
    requires forall i :: 0 <= i < |order| ==>
               order[i].index in own && order[i].counter == infl[order[i].index].counter
    requires forall i, j :: 0 <= i < j < |order| ==> order[i].index != order[j].index
    requires forall i, j :: 0 <= i < j < |order| ==> Compare(order[i], order[j]) <= 0
    ensures Descending(order, own)
    ensures forall i, j :: 0 <= i < j < |order| ==> order[i].counter > order[j].counter
  {
    forall i, j | 0 <= i < j < |order|
      ensures Owner(own, order[i].index) > Owner(own, order[j].index)
      ensures order[i].counter > order[j].counter
    {
      var g, h := order[i].index, order[j].index;
      assert Compare(order[i], order[j]) <= 0;
      assert own[g] < own[h] || own[h] < own[g];
    }
  }

  lemma ScanTable(s: State, order: seq<Resubmit>)
    requires Inv(s) && CanScan(s, order)
    ensures s.popLog == [] && Flags(s.q.infl)
    ensures forall h :: h in s.own <==> 0 <= h < |s.q.infl| && s.q.infl[h].inflight == 1
    ensures OwnsTable(s.own, s.q.infl)
    ensures CountInflight(s.q.infl) == |order|
    ensures s.q.inuse == 0 && s.own.Keys == Waiting(order)
  {
    ScanReady(s, order);
    ScanOwners(s, order);
    OwnersBelow(s);
    hide Hands, Waiting, QsortResult, AvailHolds, UsedHolds, DriverKnows, CountInflight, Numbered, Wrap, InflightEntries;
  }

  lemma NothingHandedYet(own: map<nat, nat>, order: seq<Resubmit>, popped: nat)
    requires own.Keys == Waiting(order)
    ensures NothingSkipped(own, [], Waiting(order)) && LogBeforeWaiting([], order, own) && Increasing([], popped)
  {
  }

  lemma NoneRecorded(own: map<nat, nat>, infl: seq<DescState>, counter: nat)
    requires own.Keys == Waiting([])
    ensures CounterAbove(own, infl, counter)
  {
    assert Waiting([]) == {};
  }

  /** What recovery leaves, once its loops are summed up. */
  lemma ScanFields(s: State, order: seq<Resubmit>)
    requires |order| == CountInflight(s.q.infl) && s.q.inuse == 0 && s.q.WellFormed()
    requires order != [] ==> order[0].counter + 1 < U64
    ensures var s' := RecoverScan(s, order);
      && s'.q.resubmit == order && s'.q.infl == s.q.infl && s'.own == s.own && s'.pc.Idle?
      && s'.popLog == s.popLog && s'.popped == s.popped
      && s'.q.counter == if order != [] then order[0].counter + 1 else 0
  {
    SumSmall(0, CountInflight(s.q.infl));
    hide CountInflight, Wrap, Sum32;
  }

  lemma ScanOrder(s: State, order: seq<Resubmit>)
    requires Inv(s) && OrderInv(s) && CanScan(s, order) && InWindow(s.q.infl)
    requires order != [] ==> order[0].counter + 1 < U64
    ensures OrderInv(RecoverScan(s, order))
  {
    ScanTable(s, order);
    ScanFields(s, order);
    hide MemoryInv, ProcessInv, Scan, Waiting, Descending, NothingSkipped, LogBeforeWaiting, Increasing;
    hide CounterAbove, CountInflight;
    SortedByAge(s.own, s.q.infl, order);
    hide CountersFollow, InWindow, Flags, OwnsTable, QsortResult, InflightEntries;
    NothingHandedYet(s.own, order, s.popped);
    if order == [] {
      NoneRecorded(s.own, s.q.infl, 0);
    }
  }
}
