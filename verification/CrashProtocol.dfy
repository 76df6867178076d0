/** Crash-safe completion: the driver, one virtqueue process that may crash between
    any two of its stores, and recovery from the in-flight record.

    The concrete part of a state is a SplitQueue.Queue. Beside it run the driver's
    own bookkeeping, the heads the device application holds, and history that
    exists for the proofs only: every chain has a publication number, `done` lists
    the numbers in completion order, `popped` counts the chains ever recorded as
    in flight, `own` says which publication occupies a recorded head, and `popLog`
    lists the publications handed out since the last recovery. */
module CrashProtocol {
  import opened Ring16
  import opened SplitQueue

  /** Where the queue process is between two stores. */
  datatype Pc =
    | Idle
    | Ready                  // vu_queue_pop saw a non-empty ring
    | Took(h: u16)           // popped and mapped, nothing recorded yet
    | Counted(h: u16)        // counter stored, flag not yet
    | Filled(h: u16)         // used element stored
    | Marked(h: u16)         // last_batch_head stored
    | Published(h: u16)      // used->idx stored
    | Cleared(h: u16)        // flag cleared, record's used_idx not yet
    | Down                   // crashed
    | Fixing                 // recovery cleared the stale flag
    | Scanning               // record consistent, volatile state not rebuilt yet

  datatype State = State(
    q: Queue, pc: Pc,
    held: set<nat>,
    pubs: seq<u16>, busy: set<nat>, reclaimed: nat,
    done: seq<nat>, popped: nat, own: map<nat, nat>, shadowN: nat, popLog: seq<nat>)

  function Init(num: nat): (s: State)
    requires RingSize(num)
  {
    var zero := DescState(0, 0);
    var q := Queue(num, 0, seq(num, _ => 0), 0, 0, seq(num, _ => UsedElem(0, 0)), 0,
                   0, 0, 0, seq(num, _ => zero),
                   0, 0, 0, 0, 0, [], 0, false, false);
    State(q, Down, {}, [], {}, 0, [], 0, map[], 0, [])
  }

  // ---- the steps -----------------------------------------------------------------
  //
  // Each step is a guard and the state after it. The driver reuses a head only
  // after it came back in the used ring and keeps at most num chains outstanding;
  // the application completes, one at a time, elements it popped, on a device that
  // is not broken.

  ghost predicate CanPublish(s: State, head: u16) {
    head < s.q.num && head !in s.busy && |s.pubs| < s.reclaimed + s.q.num
  }

  function Publish(s: State, head: u16): State
    requires s.q.WellFormed()
  {
    var q := s.q;
    s.(q := q.(avail := q.avail[q.availIdx % q.num := head], availIdx := Wrap(q.availIdx + 1)),
       pubs := s.pubs + [head], busy := s.busy + {head as nat})
  }

  ghost predicate CanReclaim(s: State) {
    Wrap(s.reclaimed) != s.q.usedIdxMem
  }

  function Reclaim(s: State): State
    requires s.q.WellFormed()
  {
    s.(busy := s.busy - {s.q.used[s.reclaimed % s.q.num].id}, reclaimed := s.reclaimed + 1)
  }

  ghost predicate CanCheckAvail(s: State) {
    s.pc.Idle? && !s.q.broken && s.q.resubmit == []
  }

  function CheckAvail(s: State): State {
    s.(q := LoadShadow(s.q), pc := if QueueEmpty(s.q) then Idle else Ready,
       shadowN := if s.q.shadow != s.q.lastAvail then s.shadowN else |s.pubs|)
  }

  /** The head is read and last_avail_idx moved; mapping its chain may fail. */
  function Take(s: State, mapped: bool, eventIdx: bool): State
    requires s.q.WellFormed()
  {
    if s.q.inuse >= s.q.num then s.(q := Panic(s.q), pc := Idle)
    else
      var h := NextHead(s.q);
      if h >= s.q.num then s.(q := Panic(Advance(s.q, false)), pc := Idle)
      else if !mapped then s.(q := Panic(Advance(s.q, eventIdx)), pc := Idle)
      else s.(q := CountInuse(Advance(s.q, eventIdx)), pc := Took(h))
  }

  function RecordCounter(s: State): State
    requires s.pc.Took? && s.pc.h < |s.q.infl|
  {
    s.(q := StoreCounter(s.q, s.pc.h), pc := Counted(s.pc.h))
  }

  function RecordFlag(s: State): State
    requires s.pc.Counted? && s.pc.h < |s.q.infl|
  {
    s.(q := StoreInflight(s.q, s.pc.h), pc := Idle, held := s.held + {s.pc.h as nat},
       own := s.own[s.pc.h := s.popped], popped := s.popped + 1, popLog := s.popLog + [s.popped])
  }

  ghost predicate CanPopAgain(s: State) {
    s.pc.Idle? && !s.q.broken && s.q.resubmit != []
  }

  /** The publication number behind a head, or 0 for a head nobody occupies. */
  function Owner(own: map<nat, nat>, h: nat): nat {
    if h in own then own[h] else 0
  }

  /** vu_queue_pop while the resubmission list lasts. */
  function PopAgain(s: State, mapped: bool): State
    requires s.q.resubmit != []
  {
    var h := s.q.resubmit[|s.q.resubmit| - 1].index;
    if mapped
    then s.(q := DropResubmit(s.q), held := s.held + {h}, popLog := s.popLog + [Owner(s.own, h)])
    else s.(q := Panic(DropResubmit(s.q)))
  }

  ghost predicate CanFill(s: State, head: u16) {
    s.pc.Idle? && !s.q.broken && head in s.held
  }

  function PushFill(s: State, head: u16, len: nat): State
    requires s.q.WellFormed()
  {
    s.(q := Fill(s.q, head, len, 0), pc := Filled(head))
  }

  function PushPrePut(s: State): State
    requires s.pc.Filled?
  {
    s.(q := PrePut(s.q, s.pc.h), pc := Marked(s.pc.h))
  }

  function PushFlush(s: State): State
    requires s.pc.Marked?
  {
    s.(q := Flush(s.q, 1), pc := Published(s.pc.h), held := s.held - {s.pc.h as nat},
       done := s.done + [Owner(s.own, s.pc.h)], own := s.own - {s.pc.h as nat})
  }

  function PushClear(s: State): State
    requires s.pc.Published? && s.pc.h < |s.q.infl|
  {
    s.(q := PostClear(s.q, s.pc.h), pc := Cleared(s.pc.h))
  }

  function PushIdx(s: State): State {
    s.(q := PostIdx(s.q), pc := Idle)
  }

  function Crash(s: State): State {
    s.(q := FreshProcess(s.q), pc := Down, held := {}, popLog := [], shadowN := 0)
  }

  ghost predicate CanRecoverFirst(s: State) {
    s.pc.Down? && s.q.version == 0
  }

  function RecoverFirst(s: State): State {
    s.(q := s.q.(version := 1), pc := Idle)
  }

  ghost predicate CanRecoverClear(s: State) {
    s.pc.Down? && s.q.version != 0 && s.q.inflUsedIdx != s.q.usedIdxMem
  }

  function RecoverClear(s: State): State
    requires s.q.WellFormed()
  {
    s.(q := s.q.(infl := Repaired(s.q)), pc := Fixing)
  }

  function RecoverIdx(s: State): State {
    s.(q := s.q.(inflUsedIdx := s.q.usedIdxMem), pc := Scanning)
  }

  ghost predicate CanScan(s: State, order: seq<Resubmit>) {
    && (s.pc.Scanning? || (s.pc.Down? && s.q.version != 0 && s.q.inflUsedIdx == s.q.usedIdxMem))
    && QsortResult(InflightEntries(s.q.infl), order)
  }

  function RecoverScan(s: State, order: seq<Resubmit>): State {
    s.(q := Scan(s.q, order), pc := Idle, shadowN := s.popped)
  }

  // ---- the invariant --------------------------------------------------------------

  /** The shared indices carry the history's counts, in the order a chain lives
      through: reclaimed, completed, recorded, published. */
  ghost predicate Counters(s: State) {
    && s.q.WellFormed()
    && s.q.availIdx == Wrap(|s.pubs|)
    && s.q.usedIdxMem == Wrap(|s.done|)
    && s.reclaimed <= |s.done| <= s.popped <= |s.pubs| <= s.reclaimed + s.q.num
    && (s.q.version == 0 ==> s.popped == 0 && s.q.inflUsedIdx == s.q.usedIdxMem)
  }

  /** Publication numbers in the history name published chains, each completed at most once. */
  ghost predicate Numbered(pubs: seq<u16>, done: seq<nat>, popped: nat, num: nat) {
    && popped <= |pubs|
    && (forall k :: 0 <= k < |pubs| ==> pubs[k] < num)
    && (forall i :: 0 <= i < |done| ==> done[i] < popped)
    && (forall i, j :: 0 <= i < j < |done| ==> done[i] != done[j])
  }

  /** The available ring still holds every chain the driver has not reclaimed. */
  ghost predicate AvailHolds(num: nat, avail: seq<u16>, pubs: seq<u16>, reclaimed: nat) {
    && |avail| == num > 0
    && (forall k :: reclaimed <= k < |pubs| ==> avail[k % num] == pubs[k])
  }

  /** The used ring holds every completion the driver has not read. */
  ghost predicate UsedHolds(num: nat, used: seq<UsedElem>, pubs: seq<u16>, done: seq<nat>, reclaimed: nat) {
    && |used| == num > 0
    && (forall j :: reclaimed <= j < |done| ==> done[j] < |pubs| && used[j % num].id == pubs[done[j]])
  }

  ghost predicate Outstanding(pubs: seq<u16>, done: seq<nat>, reclaimed: nat, k: nat) {
    k < |pubs| && reclaimed <= |done| && k !in done[..reclaimed]
  }

  /** The driver's own view: outstanding chains have distinct heads, all marked busy. */
  ghost predicate DriverKnows(pubs: seq<u16>, done: seq<nat>, reclaimed: nat, busy: set<nat>) {
    && (forall k: nat :: Outstanding(pubs, done, reclaimed, k) ==> pubs[k] as nat in busy)
    && (forall i: nat, j: nat :: i < j && Outstanding(pubs, done, reclaimed, i) && Outstanding(pubs, done, reclaimed, j)
          ==> pubs[i] != pubs[j])
  }

  /** The record: the flagged heads are exactly those of the recorded, uncompleted chains. */
  ghost predicate Recorded(table: seq<DescState>, pubs: seq<u16>, done: seq<nat>, popped: nat, own: map<nat, nat>) {
    && popped <= |pubs|
    && (forall h :: 0 <= h < |table| ==> (h in own <==> table[h].inflight == 1))
    && (forall h :: h in own ==> h < |table| && own[h] < popped && pubs[own[h]] == h && own[h] !in done)
    && (forall k :: 0 <= k < popped && k !in done ==> pubs[k] as nat in own && own[pubs[k]] == k)
  }

  ghost predicate MemoryInv(s: State) {
    && Counters(s)
    && Numbered(s.pubs, s.done, s.popped, s.q.num)
    && AvailHolds(s.q.num, s.q.avail, s.pubs, s.reclaimed)
    && UsedHolds(s.q.num, s.q.used, s.pubs, s.done, s.reclaimed)
    && DriverKnows(s.pubs, s.done, s.reclaimed, s.busy)
    && Flags(s.q.infl)
    && Recorded(Repaired(s.q), s.pubs, s.done, s.popped, s.own)
    && CountInflight(Repaired(s.q)) + |s.done| == s.popped
  }

  /** The heads still waiting in the resubmission list. */
  ghost function Waiting(resubmit: seq<Resubmit>): set<nat> {
    set r | r in resubmit :: r.index
  }

  /** The process: its indices track the history, and it holds or will be handed
      every recorded chain exactly once. */
  ghost predicate ProcessInv(s: State)
    requires Counters(s)
  {
    if s.pc.Down? then Blank(s)
    else if s.pc.Fixing? then Blank(s) && s.q.version != 0 && s.q.infl == Repaired(s.q)
    else if s.pc.Scanning? then Blank(s) && s.q.version != 0 && s.q.inflUsedIdx == s.q.usedIdxMem
    else ServingInv(s)
  }

  /** A process that has rebuilt nothing yet. */
  ghost predicate Blank(s: State) {
    && s.q.inuse == 0 && s.q.resubmit == [] && s.held == {} && !s.q.broken && s.popLog == []
    && s.q.usedIdx == s.q.usedIdxMem && s.q.lastAvail == 0 && s.q.shadow == 0 && s.shadowN == 0
  }

  ghost predicate ServingInv(s: State)
    requires Counters(s)
  {
    && s.q.version != 0
    && s.q.usedIdx == s.q.usedIdxMem
    && Hands(s.q.resubmit, s.held)
    && (s.q.broken ==> s.pc.Idle?)
    && (!s.q.broken ==> s.own.Keys == s.held + Waiting(s.q.resubmit) && IndexInv(s))
    && (!s.pc.Published? && !s.pc.Cleared? ==> s.q.inflUsedIdx == s.q.usedIdxMem)
    && PcInv(s)
  }

  /** No head is waiting twice, or both waiting and already handed out. */
  ghost predicate Hands(resubmit: seq<Resubmit>, held: set<nat>) {
    && (forall i, j :: 0 <= i < j < |resubmit| ==> resubmit[i].index != resubmit[j].index)
    && held !! Waiting(resubmit)
  }

  ghost predicate IndexInv(s: State) {
    var extra := if s.pc.Took? || s.pc.Counted? then 1 else 0;
    && s.popped + extra <= s.shadowN <= |s.pubs|
    && s.q.shadow == Wrap(s.shadowN)
    && s.q.lastAvail == Wrap(s.popped + extra)
    && s.q.inuse == s.popped + extra - |s.done|
  }

  ghost predicate PcInv(s: State)
    requires s.q.WellFormed()
  {
    && (s.pc.Ready? ==> s.popped < s.shadowN && s.q.resubmit == [])
    && (s.pc.Took? ==> NextToRecord(s, s.pc.h))
    && (s.pc.Counted? ==> NextToRecord(s, s.pc.h))
    && (s.pc.Filled? ==> Completing(s, s.pc.h))
    && (s.pc.Marked? ==> Completing(s, s.pc.h) && s.q.lastBatchHead == s.pc.h)
    && (s.pc.Published? ==> Lagging(s, s.pc.h))
    && (s.pc.Cleared? ==> Lagging(s, s.pc.h) && s.q.infl[s.pc.h].inflight == 0)
  }

  ghost predicate NextToRecord(s: State, h: nat) {
    h < s.q.num && s.popped < |s.pubs| && s.pubs[s.popped] == h && s.q.resubmit == []
  }

  ghost predicate Completing(s: State, h: nat)
    requires s.q.WellFormed()
  {
    h in s.held && s.q.used[|s.done| % s.q.num].id == h
  }

  ghost predicate Lagging(s: State, h: nat) {
    h < s.q.num && s.q.lastBatchHead == h && s.q.inflUsedIdx != s.q.usedIdxMem
  }

  ghost predicate Inv(s: State) {
    MemoryInv(s) && ProcessInv(s)
  }
}
