/** The guarantees of the crash protocol over whole runs: any interleaving of the
    driver, the queue process and crashes, including crashes during recovery. */
module CrashRuns {
  import opened Machine
  import opened Ring16
  import opened SplitQueue
  import opened CrashProtocol
  import opened CrashSafety
  import opened CrashOrder

  datatype Action =
    | DriverPublish(head: u16)
    | DriverReclaim
    | PopCheck
    | PopTake(mapped: bool, eventIdx: bool)
    | PopCounter
    | PopFlag
    | PopResubmit(mapped: bool)
    | StoreUsed(head: u16, len: nat)
    | StoreBatchHead
    | StoreUsedIdx
    | StoreCleared
    | StoreRecordIdx
    | ProcessCrash
    | FirstStart
    | StaleClear
    | StaleIdx
    | Rebuild(order: seq<Resubmit>)

  /** One step. Well-formedness of the queue holds in every reachable state. */
  ghost predicate Step(s: State, a: Action, s': State) {
    && s.q.WellFormed()
    && match a
       case DriverPublish(head) => CanPublish(s, head) && s' == Publish(s, head)
       case DriverReclaim => CanReclaim(s) && s' == Reclaim(s)
       case PopCheck => CanCheckAvail(s) && s' == CheckAvail(s)
       case PopTake(mapped, eventIdx) => s.pc.Ready? && s' == Take(s, mapped, eventIdx)
       case PopCounter => s.pc.Took? && s.pc.h < s.q.num && s' == RecordCounter(s)
       case PopFlag => s.pc.Counted? && s.pc.h < s.q.num && s' == RecordFlag(s)
       case PopResubmit(mapped) => CanPopAgain(s) && s' == PopAgain(s, mapped)
       case StoreUsed(head, len) => CanFill(s, head) && s' == PushFill(s, head, len)
       case StoreBatchHead => s.pc.Filled? && s' == PushPrePut(s)
       case StoreUsedIdx => s.pc.Marked? && s' == PushFlush(s)
       case StoreCleared => s.pc.Published? && s.pc.h < s.q.num && s' == PushClear(s)
       case StoreRecordIdx => s.pc.Cleared? && s' == PushIdx(s)
       case ProcessCrash => s' == Crash(s)
       case FirstStart => CanRecoverFirst(s) && s' == RecoverFirst(s)
       case StaleClear => CanRecoverClear(s) && s' == RecoverClear(s)
       case StaleIdx => s.pc.Fixing? && s' == RecoverIdx(s)
       case Rebuild(order) => CanScan(s, order) && s' == RecoverScan(s, order)
  }

  /** The premises of the ordering guarantee: recovery finds the surviving counters
      within the comparison's window, and the 64-bit counter does not wrap. */
  ghost predicate OrderPremise(s: State, a: Action) {
    && (a.PopCounter? ==> s.q.counter + 1 < U64)
    && (a.Rebuild? ==> InWindow(s.q.infl) && (a.order != [] ==> a.order[0].counter + 1 < U64))
  }

  ghost predicate Run(num: nat, states: seq<State>, acts: seq<Action>) {
    && RingSize(num)
    && |states| == |acts| + 1
    && states[0] == Init(num)
    && forall i :: 0 <= i < |acts| ==> Step(states[i], acts[i], states[i + 1])
  }

  lemma StepInv(s: State, a: Action, s': State)
    requires Inv(s) && Step(s, a, s')
    ensures Inv(s')
  {
    hide Inv, CanScan, CanFill;
    match a
    case DriverPublish(head) => PublishInv(s, head);
    case DriverReclaim => ReclaimInv(s);
    case PopCheck => CheckAvailInv(s);
    case PopTake(mapped, eventIdx) => TakeInv(s, mapped, eventIdx);
    case PopCounter => RecordCounterInv(s);
    case PopFlag => RecordFlagInv(s);
    case PopResubmit(mapped) => PopAgainInv(s, mapped);
    case StoreUsed(head, len) => FillInv(s, head, len);
    case StoreBatchHead => PrePutInv(s);
    case StoreUsedIdx => FlushInv(s);
    case StoreCleared => ClearInv(s);
    case StoreRecordIdx => IdxInv(s);
    case ProcessCrash => CrashInv(s);
    case FirstStart => RecoverFirstInv(s);
    case StaleClear => RecoverClearInv(s);
    case StaleIdx => RecoverIdxInv(s);
    case Rebuild(order) => RecoverScanInv(s, order);
  }

  lemma {:induction false} RunInv(num: nat, states: seq<State>, acts: seq<Action>, i: nat)
    requires Run(num, states, acts) && i < |states|
    ensures Inv(states[i])
  {
    hide Inv, Step;
    if i == 0 {
      InitInv(num);
    } else {
      RunInv(num, states, acts, i - 1);
      StepInv(states[i - 1], acts[i - 1], states[i]);
    }
  }

  // ---- exactly-once completion -------------------------------------------------------

  /** Not yet popped: never recorded by any process. */
  ghost predicate Unpopped(s: State, k: nat) {
    s.popped <= k < |s.pubs|
  }

  /** In flight: the record flags the head, and this chain is its current use. */
  ghost predicate InFlight(s: State, k: nat) {
    k < |s.pubs| && s.pubs[k] as nat in s.own && s.own[s.pubs[k]] == k
  }

  /** Completed: a used-ring entry for it was made visible to the driver. */
  ghost predicate Completed(s: State, k: nat) {
    k in s.done
  }

  /** Exactly one of the three. */
  ghost predicate OneFate(s: State, k: nat) {
    && (Unpopped(s, k) || InFlight(s, k) || Completed(s, k))
    && !(Unpopped(s, k) && InFlight(s, k))
    && !(Unpopped(s, k) && Completed(s, k))
    && !(InFlight(s, k) && Completed(s, k))
  }

  /** In every run, with crashes anywhere, each published chain has exactly one fate,
      is completed at most once, and both the used ring and the record say so. */
  lemma ExactlyOnce(num: nat, states: seq<State>, acts: seq<Action>)
    requires Run(num, states, acts)
    ensures var s := states[|acts|];
      && (forall k :: 0 <= k < |s.pubs| ==> OneFate(s, k))
      && (forall i, j :: 0 <= i < j < |s.done| ==> s.done[i] != s.done[j])
      && s.q.usedIdxMem == Wrap(|s.done|)
      && (forall j :: s.reclaimed <= j < |s.done| ==>
            s.done[j] < |s.pubs| && s.q.WellFormed() && s.q.used[j % s.q.num].id == s.pubs[s.done[j]])
      && (forall h :: 0 <= h < s.q.num ==>
            (s.q.WellFormed() && Repaired(s.q)[h].inflight == 1
             <==> exists k :: 0 <= k < |s.pubs| && s.pubs[k] == h && InFlight(s, k)))
  {
    var s := states[|acts|];
    RunInv(num, states, acts, |acts|);
    hide Run, ProcessInv, DriverKnows, CountInflight, AvailHolds;
    forall h | 0 <= h < s.q.num
      ensures Repaired(s.q)[h].inflight == 1
         <==> exists k :: 0 <= k < |s.pubs| && s.pubs[k] == h && InFlight(s, k)
    {
      if h in s.own {
        assert s.pubs[s.own[h]] == h && InFlight(s, s.own[h]);
      }
    }
  }

  /** The histories behind ExactlyOnce only ever grow, so a completion is for good. */
  lemma HistoryGrows(s: State, a: Action, s': State)
    requires Step(s, a, s')
    ensures s.pubs <= s'.pubs && s.done <= s'.done && s.popped <= s'.popped
  {
    hide CanScan, CanFill;
  }

  /** Recovery is exact: the resubmission list holds each in-flight chain once and
      nothing else, and last_avail_idx names the first chain never recorded. */
  lemma RecoveryExact(num: nat, states: seq<State>, acts: seq<Action>, order: seq<Resubmit>)
    requires Run(num, states, acts) && CanScan(states[|acts|], order)
    ensures var s := states[|acts|]; var s' := RecoverScan(s, order);
      && (forall i, j :: 0 <= i < j < |s'.q.resubmit| ==> s'.q.resubmit[i].index != s'.q.resubmit[j].index)
      && (forall k :: 0 <= k < |s.pubs| ==> (InFlight(s, k) <==> s.pubs[k] as nat in Waiting(s'.q.resubmit) && InFlight(s', k)))
      && (forall h :: h in Waiting(s'.q.resubmit) ==> h in s.own && InFlight(s, s.own[h]))
      && s'.q.lastAvail == Wrap(s.popped)
      && s'.q.inuse == |s'.q.resubmit| == s.popped - |s.done|
  {
    var s := states[|acts|];
    RunInv(num, states, acts, |acts|);
    ScanOwners(s, order);
    ScanLeaves(s, order);
    OwnersInFlight(s);
    HandsDistinct(order);
    hide Run, Inv, Waiting, CountInflight, Wrap, QsortResult, CanScan, Hands, Scan;
    var s' := RecoverScan(s, order);
    assert s'.own == s.own && s'.pubs == s.pubs;
  }

  lemma ScanLeaves(s: State, order: seq<Resubmit>)
    requires Inv(s) && CanScan(s, order)
    ensures var s' := RecoverScan(s, order);
      && s'.q.resubmit == order
      && s'.q.lastAvail == Wrap(s.popped) && s'.q.inuse == |order| == s.popped - |s.done|
  {
    ScanReady(s, order);
    ScanOwners(s, order);
    RecoverScanInv(s, order);
    IdleIndices(RecoverScan(s, order));
    hide Inv, CanScan, Hands, Waiting, CountInflight, Scan, Wrap, Repaired;
  }

  lemma IdleIndices(s: State)
    requires Inv(s) && s.pc.Idle? && !s.q.broken
    ensures s.q.lastAvail == Wrap(s.popped) && s.q.inuse == s.popped - |s.done|
  {
    hide MemoryInv, Hands, Waiting, CountInflight, Wrap;
  }

  lemma OwnersInFlight(s: State)
    requires Inv(s)
    ensures forall h :: h in s.own ==> InFlight(s, s.own[h])
  {
    hide ProcessInv, AvailHolds, UsedHolds, DriverKnows, Numbered, CountInflight, Repaired, Wrap;
  }

  lemma HandsDistinct(order: seq<Resubmit>)
    requires Hands(order, {})
    ensures forall i, j :: 0 <= i < j < |order| ==> order[i].index != order[j].index
  {
  }

  // ---- order of resubmission -----------------------------------------------------------

  lemma StepOrder(s: State, a: Action, s': State)
    requires Inv(s) && OrderInv(s) && Step(s, a, s') && OrderPremise(s, a)
    ensures OrderInv(s')
  {
    hide Inv, OrderInv, CanScan, CanFill;
    match a
    case PopCounter => RecordCounterOrder(s);
    case PopFlag => RecordFlagOrder(s);
    case PopResubmit(mapped) => PopAgainOrder(s, mapped);
    case StoreUsedIdx => FlushOrder(s);
    case Rebuild(order) => ScanOrder(s, order);
    case ProcessCrash => CrashOrderly(s);
    case FirstStart => FirstStartOrder(s);
    case _ => PlainOrder(s, a, s');
  }

  ghost predicate Plain(a: Action) {
    && !a.PopCounter? && !a.PopFlag? && !a.PopResubmit? && !a.StoreUsedIdx? && !a.Rebuild?
    && !a.ProcessCrash? && !a.FirstStart?
  }

  lemma PlainOrder(s: State, a: Action, s': State)
    requires Inv(s) && OrderInv(s) && Step(s, a, s') && Plain(a)
    ensures OrderInv(s')
  {
    hide Inv, OrderInv, Wrap, Waiting, CanScan, CanPublish;
    OrderFrame(s, s');
  }

  lemma CrashOrderly(s: State)
    requires OrderInv(s)
    ensures OrderInv(Crash(s))
  {
    hide Descending, LogBeforeWaiting, Waiting, CounterAbove, CountersFollow;
  }

  lemma FirstStartOrder(s: State)
    requires Inv(s) && OrderInv(s) && CanRecoverFirst(s)
    ensures OrderInv(RecoverFirst(s))
  {
    NothingRecorded(s);
    assert s.popLog == [] && s.q.resubmit == [] by {
      hide MemoryInv;
    }
    hide Inv;
  }

  lemma {:induction false} RunOrder(num: nat, states: seq<State>, acts: seq<Action>, i: nat)
    requires Run(num, states, acts) && i < |states|
    requires forall j :: 0 <= j < |acts| ==> OrderPremise(states[j], acts[j])
    ensures OrderInv(states[i])
  {
    hide Inv, Step, OrderPremise;
    if i == 0 {
      assert Waiting([]) == {};
    } else {
      RunInv(num, states, acts, i - 1);
      RunOrder(num, states, acts, i - 1);
      hide OrderInv;
      StepOrder(states[i - 1], acts[i - 1], states[i]);
    }
  }

  /** Within the counter window, in every run and across any number of crashes: since
      the last recovery vu_queue_pop has handed out chains in strictly increasing
      publication order; no chain in flight was skipped; the list still to hand out
      continues that order; and the next counter exceeds every surviving one. */
  lemma ResubmitInOrder(num: nat, states: seq<State>, acts: seq<Action>)
    requires Run(num, states, acts)
    requires forall j :: 0 <= j < |acts| ==> OrderPremise(states[j], acts[j])
    ensures var s := states[|acts|];
      && (forall i, j :: 0 <= i < j < |s.popLog| ==> s.popLog[i] < s.popLog[j])
      && (forall i :: 0 <= i < |s.popLog| ==> s.popLog[i] < s.popped)
      && (Serving(s) ==>
            && (forall k: nat :: InFlight(s, k) ==> k in s.popLog || s.pubs[k] as nat in Waiting(s.q.resubmit))
            && (forall i :: 0 <= i < |s.q.resubmit| ==>
                  s.q.resubmit[i].index in s.own
                  && (forall e: nat :: e in s.popLog ==> e < s.own[s.q.resubmit[i].index])
                  && (forall j :: i < j < |s.q.resubmit| ==>
                        s.q.resubmit[j].index in s.own
                        && s.own[s.q.resubmit[i].index] > s.own[s.q.resubmit[j].index]))
            && (s.pc.Idle? ==> forall h :: h in s.own ==> h < |s.q.infl| && s.q.infl[h].counter < s.q.counter))
  {
    var s := states[|acts|];
    RunInv(num, states, acts, |acts|);
    RunOrder(num, states, acts, |acts|);
    hide Run, MemoryInv;
    if Serving(s) {
      assert forall i :: 0 <= i < |s.q.resubmit| ==> s.q.resubmit[i].index in s.own by {
        hide OrderInv;
        forall i | 0 <= i < |s.q.resubmit| ensures s.q.resubmit[i].index in Waiting(s.q.resubmit) {
          assert s.q.resubmit[i] in s.q.resubmit;
        }
        hide Waiting;
      }
      hide ProcessInv;
      forall i, e: nat | 0 <= i < |s.q.resubmit| && e in s.popLog
        ensures e < s.own[s.q.resubmit[i].index]
      {
        var n :| 0 <= n < |s.popLog| && s.popLog[n] == e;
        assert s.popLog[n] < Owner(s.own, s.q.resubmit[i].index);
      }
      hide Waiting;
    }
  }

  // ---- pushing on a broken device -----------------------------------------------------

  /** A chain that was in flight before a push is still in flight after it, or its
      used entry is visible. */
  ghost predicate Kept(s: State, h: nat, q: Queue)
    requires s.q.WellFormed() && q.WellFormed() && h < q.num
  {
    || Repaired(q)[h].inflight == 1
    || (q.usedIdxMem == Wrap(|s.done| + 1) && q.used[|s.done| % q.num].id == h)
  }

  /** vu_queue_push keeps its chain if and only if the device is neither broken nor
      broken by the dirty-log walk inside the push: on a broken device flush does
      nothing but the record is cleared all the same, so the chain is neither in flight
      nor completed. */
  lemma PushKeepsChainIff(s: State, h: u16, len: nat, logFails: bool)
    requires Inv(s) && s.pc.Idle? && h as nat in s.own
    ensures h < s.q.num && Push(s.q, h, len, true, logFails).WellFormed()
    ensures Kept(s, h, Push(s.q, h, len, true, logFails)) <==> !s.q.broken && !logFails
  {
    RoomToComplete(s, h);
    assert s.q.usedIdx == s.q.usedIdxMem == Wrap(|s.done|) && s.q.WellFormed() && s.q.inflUsedIdx == s.q.usedIdxMem by {
      hide Numbered, AvailHolds, UsedHolds, DriverKnows, Recorded, Flags, CountInflight, Repaired, Hands, Waiting, Wrap;
    }
    hide Inv, Outrun, Sub32, CountInflight, RingSize;
    WrapInjective(|s.done|, |s.done| + 1);
    WrapStep(|s.done|, 1);
    FillAt(s.q, |s.done|, h, len);
    hide Fill, Wrap;
    var q' := Push(s.q, h, len, true, logFails);
    if s.q.broken || logFails {
      assert q'.usedIdxMem == Wrap(|s.done|) && q'.infl[h].inflight == 0;
      LosesIt(s, h, q');
    } else {
      assert q'.usedIdxMem == Wrap(|s.done| + 1) && q'.used[|s.done| % s.q.num].id == h;
      hide Push, Repaired;
    }
  }

  lemma LosesIt(s: State, h: nat, q: Queue)
    requires s.q.WellFormed() && q.WellFormed() && h < q.num
    requires q.infl[h].inflight == 0 && q.usedIdxMem != Wrap(|s.done| + 1)
    ensures !Kept(s, h, q)
  {
    hide Wrap, RingSize;
  }

  /** Recovery takes the in-flight count it finds in the process for zero: it sets
      last_avail_idx right if and only if that count is a multiple of 2^16, as it is in
      a process that has just started. */
  lemma RecoveryNeedsFreshCount(s: State, order: seq<Resubmit>, left: nat)
    requires Inv(s) && CanScan(s, order)
    ensures Scan(s.q.(inuse := left), order).lastAvail == Wrap(s.popped) <==> Wrap(left) == 0
  {
    assert CountInflight(s.q.infl) + |s.done| == s.popped && s.q.usedIdxMem == Wrap(|s.done|) by {
      RecoverScanInv(s, order);
      hide Numbered, AvailHolds, UsedHolds, DriverKnows, Recorded, Flags, Hands, Waiting, CountInflight, Wrap;
    }
    hide Inv, CanScan, CountInflight, Wrap, Sum32;
    var count, done := CountInflight(s.q.infl), |s.done|;
    WrapOfSum(left, count, done);
    AddedCount(s.popped, left);
  }

  lemma WrapOfSum(a: nat, b: nat, c: nat)
    ensures Wrap(Sum32(a, b) + Wrap(c)) == Wrap(b + c + a)
  {
    var q := (a + b) / U32;
    assert a + b == q * U32 + Sum32(a, b);
    assert q * U32 == (q * WRAP) * WRAP;
    WrapStep(c, Sum32(a, b));
    ModOfMultiple(q * WRAP, WRAP, Sum32(a, b) + c);
  }

  lemma AddedCount(n: nat, left: nat)
    ensures Wrap(n + left) == Wrap(n) <==> Wrap(left) == 0
  {
  }
}
