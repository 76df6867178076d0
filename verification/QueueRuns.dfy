/** The queue's bookkeeping over whole runs, without the in-flight record.

    Beside the wrapped fields run unbounded counters: `avail` chains published,
    `seen` the value shadow_avail_idx stands for, `next` chains popped, `used`
    chains completed, and `reclaimed` completions the driver has read. `comps` lists the
    used elements completed so far, `fills` what was last stored for the k-th completion. */
module QueueRuns {
  import opened Machine
  import opened Ring16
  import opened SplitQueue

  datatype State = State(
    q: Queue, pubs: seq<u16>,
    seen: nat, next: nat, used: nat, reclaimed: nat,
    comps: seq<UsedElem>, fills: map<nat, UsedElem>)

  datatype Action =
    | Publish(head: u16)
    | Reclaim
    | AskEvent(usedEvent: u16)
    | Empty
    | Pop(eventIdx: bool)
    | Unpop
    | Rewind(n: nat)
    | Fill(head: u16, len: nat, idx: nat)
    | Flush(count: nat)
    | Push(head: u16, len: nat)
    | Notify(onEmpty: bool, eventIdx: bool, noInterrupt: bool)

  function Init(num: nat): State
    requires RingSize(num)
  {
    var q := Queue(num, 0, seq(num, _ => 0), 0, 0, seq(num, _ => UsedElem(0, 0)), 0,
                   0, 0, 0, seq(num, _ => DescState(0, 0)),
                   0, 0, 0, 0, 0, [], 0, false, false);
    State(q, [], 0, 0, 0, 0, [], map[])
  }

  /** The driver keeps at most num chains outstanding; the application flushes and pushes
      only what it popped; allocation, mapping and the dirty-log walk succeed. */
  ghost predicate Enabled(s: State, a: Action) {
    && s.q.WellFormed()
    && match a
       case Publish(head) => head < s.q.num && |s.pubs| < s.reclaimed + s.q.num
       case Reclaim => Wrap(s.reclaimed) != s.q.usedIdxMem
       case Unpop => s.q.inuse > 0
       case Flush(count) => count <= s.q.inuse
       case Push(head, len) => head < s.q.num && s.q.inuse > 0
       case _ => true
  }

  function Seen(s: State): nat {
    if s.q.shadow != s.q.lastAvail then s.seen else |s.pubs|
  }

  /** The elements a flush completes. */
  function Flushed(fills: map<nat, UsedElem>, used: nat, count: nat): (es: seq<UsedElem>)
    ensures |es| == count
  {
    seq<UsedElem>(count, i requires 0 <= i < count => if used + i in fills then fills[used + i] else UsedElem(0, 0))
  }

  function Apply(s: State, a: Action): State
    requires s.q.WellFormed()
  {
    match a
    case Publish(head) =>
      s.(q := s.q.(avail := s.q.avail[s.q.availIdx % s.q.num := head], availIdx := Wrap(s.q.availIdx + 1)),
         pubs := s.pubs + [head])
    case Reclaim => s.(reclaimed := s.reclaimed + 1)
    case AskEvent(usedEvent) => s.(q := s.q.(usedEvent := usedEvent))
    case Empty => s.(q := LoadShadow(s.q), seen := Seen(s))
    case Pop(eventIdx) =>
      var r := PopAvail(s.q, eventIdx, true);
      s.(q := r.0, seen := Seen(s), next := if r.1.Some? then s.next + 1 else s.next)
    case Unpop => s.(q := SplitQueue.Unpop(s.q), next := if s.next > 0 then s.next - 1 else 0)
    case Rewind(n) =>
      s.(q := SplitQueue.Rewind(s.q, n), next := if n <= s.q.inuse && n <= s.next then s.next - n else s.next)
    case Fill(head, len, idx) =>
      s.(q := SplitQueue.Fill(s.q, head, len, idx), fills := s.fills[s.used + idx := UsedElem(head, len)])
    case Flush(count) =>
      s.(q := SplitQueue.Flush(s.q, count), used := s.used + count,
         comps := s.comps + Flushed(s.fills, s.used, count))
    case Push(head, len) =>
      s.(q := if head < |s.q.infl| then SplitQueue.Push(s.q, head, len, false, false) else s.q,
         used := s.used + 1, comps := s.comps + [UsedElem(head, len)])
    case Notify(onEmpty, eventIdx, noInterrupt) =>
      var q' := VringNotify(s.q, onEmpty, eventIdx, noInterrupt).0;
      s.(q := q', seen := if onEmpty && s.q.inuse == 0 then Seen(s) else s.seen)
  }

  ghost predicate AvailHolds(num: nat, avail: seq<u16>, pubs: seq<u16>, from: nat) {
    && |avail| == num > 0
    && (forall k :: 0 <= k < |pubs| ==> pubs[k] < num)
    && (forall k :: from <= k < |pubs| ==> avail[k % num] == pubs[k])
  }

  ghost predicate Inv(s: State) {
    && s.q.WellFormed() && !s.q.broken && s.q.resubmit == []
    && s.reclaimed <= s.used <= s.next <= s.seen <= |s.pubs| <= s.reclaimed + s.q.num
    && s.q.availIdx == Wrap(|s.pubs|) && s.q.shadow == Wrap(s.seen) && s.q.lastAvail == Wrap(s.next)
    && s.q.usedIdx == s.q.usedIdxMem == Wrap(s.used)
    && s.q.inuse == s.next - s.used
    && AvailHolds(s.q.num, s.q.avail, s.pubs, s.reclaimed)
  }

  // ---- one lemma a step -----------------------------------------------------------

  lemma InitInv(num: nat)
    requires RingSize(num)
    ensures Inv(Init(num))
  {
  }

  lemma AvailPublish(num: nat, avail: seq<u16>, pubs: seq<u16>, from: nat, head: u16)
    requires RingSize(num) && AvailHolds(num, avail, pubs, from) && |pubs| < from + num && head < num
    ensures AvailHolds(num, avail[Wrap(|pubs|) % num := head], pubs + [head], from)
  {
    SlotOfWrapped(|pubs|, num);
    forall k | from <= k < |pubs| ensures k % num != |pubs| % num {
      SlotsDistinct(k, |pubs|, num);
    }
  }

  lemma PublishInv(s: State, head: u16)
    requires Inv(s) && Enabled(s, Publish(head))
    ensures Inv(Apply(s, Publish(head)))
  {
    AvailPublish(s.q.num, s.q.avail, s.pubs, s.reclaimed, head);
    WrapStep(|s.pubs|, 1);
    hide AvailHolds;
  }

  lemma ReclaimInv(s: State)
    requires Inv(s) && Enabled(s, Reclaim)
    ensures Inv(Apply(s, Reclaim))
  {
    WrapInjective(s.reclaimed, s.used);
  }

  /** The fast path of vu_queue_empty answers as the direct comparison would. */
  lemma EmptyExact(s: State)
    requires Inv(s)
    ensures QueueEmpty(s.q) <==> s.q.availIdx == s.q.lastAvail
    ensures QueueEmpty(s.q) <==> s.next == |s.pubs|
    ensures s.next <= Seen(s) && LoadShadow(s.q).shadow == Wrap(Seen(s))
    ensures !QueueEmpty(s.q) ==> s.next < Seen(s)
  {
    hide AvailHolds;
    WrapInjective(s.next, s.seen);
    WrapInjective(s.next, |s.pubs|);
  }

  /** vu_queue_pop, with and without event indices: it never panics and returns the next
      chain in publication order, last_avail_idx being the count of chains popped;
      avail_event follows it with event indices and stays without. */
  lemma PopExact(s: State, eventIdx: bool)
    requires Inv(s)
    ensures Inv(Apply(s, Pop(eventIdx)))
    ensures PopAvail(s.q, eventIdx, true).1 == if s.next < |s.pubs| then Some(s.pubs[s.next]) else None
    ensures var q' := PopAvail(s.q, eventIdx, true).0; var popped := if s.next < |s.pubs| then 1 else 0;
      && q'.lastAvail == Wrap(s.next + popped) && q'.inuse == s.q.inuse + popped
      && q'.availEvent == if popped == 1 && eventIdx then Wrap(s.next + 1) else s.q.availEvent
  {
    EmptyExact(s);
    SlotOfWrapped(s.next, s.q.num);
    WrapStep(s.next, 1);
    assert s.next < |s.pubs| ==> NextHead(s.q) == s.pubs[s.next] < s.q.num;
    InuseUp(s.q);
    hide AvailHolds, QueueEmpty, Wrap;
  }

  /** vu_queue_push without an in-flight record: one completion becomes visible, one
      element fewer is in use, and the completion's slot holds the head and length. */
  lemma PushExact(s: State, head: u16, len: nat)
    requires Inv(s) && Enabled(s, Push(head, len))
    ensures Inv(Apply(s, Push(head, len)))
    ensures var q' := SplitQueue.Push(s.q, head, len, false, false);
      && q'.usedIdxMem == q'.usedIdx == Wrap(s.used + 1) && q'.inuse == s.q.inuse - 1
      && q'.used == s.q.used[s.used % s.q.num := UsedElem(head, len)]
      && q'.infl == s.q.infl && q'.lastAvail == s.q.lastAvail
  {
    WrapStep(s.used, 1);
    InuseDown(s.q.inuse, 1);
    FillSlot(s.q, s.used, head, len, 0);
    hide AvailHolds, Wrap, Outrun, Sub32, SplitQueue.Fill;
  }

  /** The slot a fill writes, idx places after the completions made. */
  lemma FillSlot(q: Queue, used: nat, head: nat, len: nat, idx: nat)
    requires RingSize(q.num) && |q.used| == q.num && q.usedIdx == Wrap(used) && idx < q.num
    ensures SplitQueue.Fill(q, head, len, idx) == q.(used := q.used[(used + idx) % q.num := UsedElem(head, len)])
  {
    var num := q.num;
    assert (idx + Wrap(used)) % U32 == idx + Wrap(used);
    SlotOfWrapped(used, num);
    assert (idx + Wrap(used)) % num == (used + idx) % num by {
      SlotShift(Wrap(used), used, idx, num);
    }
  }

  lemma SlotShift(a: nat, b: nat, i: nat, num: nat)
    requires num > 0 && a % num == b % num
    ensures (i + a) % num == (b + i) % num
  {
    assert i + a == (a / num) * num + (i + a % num);
    assert b + i == (b / num) * num + (i + b % num);
    ModOfMultiple(a / num, num, i + a % num);
    ModOfMultiple(b / num, num, i + b % num);
  }

  lemma Back16(n: nat, k: nat)
    requires k <= n && k < WRAP
    ensures Sub16(Wrap(n), Wrap(k)) == Wrap(n - k)
  {
    var m := n - k;
    assert n == m + k;
    assert Wrap(k) == k;
    WrapStep(m, k);
    if Wrap(m) + k < WRAP {
      assert Wrap(n) == Wrap(m) + k;
    } else {
      assert Wrap(n) == Wrap(m) + k - WRAP;
    }
  }

  lemma RewindInv(s: State, n: nat)
    requires Inv(s)
    ensures Inv(Apply(s, Rewind(n)))
  {
    if n <= s.q.inuse {
      Back16(s.next, n);
    }
    hide AvailHolds, Wrap;
  }

  lemma UnpopInv(s: State)
    requires Inv(s) && Enabled(s, Unpop)
    ensures Inv(Apply(s, Unpop))
  {
    Back16(s.next, 1);
    assert Wrap(1) == 1;
    InuseDown(s.q.inuse, 1);
    hide AvailHolds, Wrap;
  }

  lemma FlushInv(s: State, count: nat)
    requires Inv(s) && Enabled(s, Flush(count))
    ensures Inv(Apply(s, Flush(count)))
  {
    WrapStep(s.used, count);
    InuseDown(s.q.inuse, count);
    hide AvailHolds, Wrap, Outrun, Sub32;
  }

  lemma StepInv(s: State, a: Action)
    requires Inv(s) && Enabled(s, a)
    ensures Inv(Apply(s, a))
  {
    match a
    case Publish(head) => PublishInv(s, head);
    case Reclaim => ReclaimInv(s);
    case AskEvent(usedEvent) => hide AvailHolds;
    case Empty => EmptyExact(s); hide AvailHolds;
    case Pop(eventIdx) => PopExact(s, eventIdx);
    case Unpop => UnpopInv(s);
    case Rewind(n) => RewindInv(s, n);
    case Fill(head, len, idx) => hide AvailHolds, Wrap;
    case Flush(count) => FlushInv(s, count);
    case Push(head, len) => PushExact(s, head, len);
    case Notify(onEmpty, eventIdx, noInterrupt) => EmptyExact(s); hide AvailHolds, Wrap, QueueEmpty, LoadShadow, NotifyNeeded;
  }

  // ---- whole runs -----------------------------------------------------------------

  ghost predicate Run(num: nat, states: seq<State>, acts: seq<Action>) {
    && RingSize(num)
    && |states| == |acts| + 1
    && states[0] == Init(num)
    && forall i :: 0 <= i < |acts| ==> Enabled(states[i], acts[i]) && states[i + 1] == Apply(states[i], acts[i])
  }

  lemma {:induction false} RunInv(num: nat, states: seq<State>, acts: seq<Action>, i: nat)
    requires Run(num, states, acts) && i < |states|
    ensures Inv(states[i])
  {
    hide Inv, Enabled, Apply;
    if i == 0 {
      InitInv(num);
    } else {
      RunInv(num, states, acts, i - 1);
      StepInv(states[i - 1], acts[i - 1]);
    }
  }

  /** In every run: inuse is the 16-bit distance between the two indices and never
      exceeds the ring, the cached index lies between them and the ring's own, the
      queue has not panicked, and vu_queue_empty is the direct comparison. */
  lemma Bookkeeping(num: nat, states: seq<State>, acts: seq<Action>)
    requires Run(num, states, acts)
    ensures var s := states[|acts|]; var q := s.q;
      && q.inuse == Sub16(q.lastAvail, q.usedIdx) <= q.num
      && q.usedIdx == q.usedIdxMem
      && Sub16(q.shadow, q.lastAvail) <= Sub16(q.availIdx, q.lastAvail) <= q.num
      && !q.broken
      && (QueueEmpty(q) <==> q.availIdx == q.lastAvail)
  {
    RunInv(num, states, acts, |acts|);
    var s := states[|acts|];
    hide Run, AvailHolds;
    EmptyExact(s);
    WrapInjective(s.used, s.next);
    WrapInjective(s.next, s.seen);
    WrapInjective(s.next, |s.pubs|);
  }

  /** n pops in a row: the queue afterwards and the heads handed out. */
  function PopMany(q: Queue, eventIdx: bool, n: nat): (r: (Queue, seq<u16>))
    requires 0 < q.num == |q.avail|
    ensures r.0.num == q.num && r.0.avail == q.avail
    decreases n
  {
    if n == 0 then (q, [])
    else
      var r := PopMany(q, eventIdx, n - 1);
      var p := PopAvail(r.0, eventIdx, true);
      (p.0, if p.1.Some? then r.1 + [p.1.value] else r.1)
  }

  /** What a run of successful pops may change. */
  ghost predicate Popped(s: State, s': State) {
    && s' == s.(q := s'.q, seen := s'.seen, next := s'.next)
    && s'.q == s.q.(lastAvail := s'.q.lastAvail, shadow := s'.q.shadow, inuse := s'.q.inuse,
                    availEvent := s'.q.availEvent)
  }

  lemma PopOne(s: State, eventIdx: bool)
    requires Inv(s) && s.next < |s.pubs|
    ensures s.q.WellFormed()
    ensures var s' := Apply(s, Pop(eventIdx));
      && Inv(s') && Popped(s, s') && s'.next == s.next + 1
      && s'.q.availEvent == (if eventIdx then s'.q.lastAvail else s.q.availEvent)
      && PopAvail(s.q, eventIdx, true) == (s'.q, Some(s.pubs[s.next]))
  {
    PopExact(s, eventIdx);
    EmptyExact(s);
    assert s.q.inuse < s.q.num && NextHead(s.q) < s.q.num by {
      hide QueueEmpty;
    }
    hide Inv, Wrap, QueueEmpty, NextHead;
  }

  /** n pops hand out the next n chains in publication order. */
  lemma {:induction false} PopManyExact(s: State, eventIdx: bool, n: nat) returns (s': State)
    requires Inv(s) && s.next + n <= |s.pubs|
    ensures PopMany(s.q, eventIdx, n) == (s'.q, s.pubs[s.next..s.next + n])
    ensures Inv(s') && Popped(s, s') && s'.next == s.next + n
    ensures s'.q.availEvent == if eventIdx && n > 0 then s'.q.lastAvail else s.q.availEvent
  {
    hide Inv, Apply, PopAvail;
    if n == 0 {
      s' := s;
    } else {
      var t := PopManyExact(s, eventIdx, n - 1);
      PopOne(t, eventIdx);
      s' := Apply(t, Pop(eventIdx));
      assert s.pubs[s.next..s.next + n] == s.pubs[s.next..s.next + n - 1] + [s.pubs[s.next + n - 1]];
    }
  }

  /** Rewinding n and popping n hands out the same n heads again, and restores the
      queue but for the cached index and the event index the pops publish. */
  lemma RewindThenPop(s: State, eventIdx: bool, n: nat)
    requires Inv(s) && n <= s.q.inuse
    ensures n <= s.next && PopMany(SplitQueue.Rewind(s.q, n), eventIdx, n).1 == s.pubs[s.next - n..s.next]
    ensures var q' := PopMany(SplitQueue.Rewind(s.q, n), eventIdx, n).0;
      q' == s.q.(shadow := q'.shadow, availEvent := if eventIdx && n > 0 then s.q.lastAvail else s.q.availEvent)
  {
    RewindInv(s, n);
    var t := Apply(s, Rewind(n));
    var u := PopManyExact(t, eventIdx, n);
    assert u.next == s.next;
    hide AvailHolds, Wrap, PopMany;
  }

  /** Popping n, rewinding n and popping n again: the two pops agree. */
  lemma PopRewindPop(s: State, eventIdx: bool, n: nat)
    requires Inv(s) && s.next + n <= |s.pubs|
    ensures var first := PopMany(s.q, eventIdx, n);
      PopMany(SplitQueue.Rewind(first.0, n), eventIdx, n).1 == first.1
  {
    hide PopMany, Apply;
    var t := PopManyExact(s, eventIdx, n);
    assert n <= t.q.inuse by {
      hide AvailHolds, Wrap;
    }
    hide Inv;
    RewindThenPop(t, eventIdx, n);
  }

  // ---- completions ---------------------------------------------------------------------

  /** An application that fills only elements in use, flushes only what it filled, and
      does not give back elements it has filled. */
  ghost predicate Orderly(s: State, a: Action) {
    match a
    case Fill(head, len, idx) => idx < s.q.inuse
    case Flush(count) => forall k: nat :: s.used <= k < s.used + count ==> k in s.fills
    case Unpop => forall k :: k in s.fills && s.used <= k ==> k + 1 < s.next
    case Rewind(n) => n <= s.q.inuse ==> forall k :: k in s.fills && s.used <= k ==> k + n < s.next
    case _ => true
  }

  function Slot(num: nat, k: nat): (i: nat)
    requires num > 0
    ensures i < num
  {
    k % num
  }

  /** The used ring holds the completions the driver has not read, then the fills. */
  ghost predicate UsedHolds(num: nat, used: seq<UsedElem>, comps: seq<UsedElem>, reclaimed: nat, fills: map<nat, UsedElem>) {
    && |used| == num > 0
    && (forall k :: reclaimed <= k < |comps| ==> used[Slot(num, k)] == comps[k])
    && (forall k: nat :: k in fills && |comps| <= k ==> used[Slot(num, k)] == fills[k])
  }

  ghost predicate CompInv(s: State) {
    && |s.comps| == s.used
    && (forall k :: k in s.fills && s.used <= k ==> k < s.next)
    && UsedHolds(s.q.num, s.q.used, s.comps, s.reclaimed, s.fills)
  }

  lemma OtherSlots(num: nat, a: nat, b: nat)
    requires num > 0 && a != b && a < b + num && b < a + num
    ensures Slot(num, a) != Slot(num, b)
  {
    if a < b {
      SlotsDistinct(a, b, num);
    } else {
      SlotsDistinct(b, a, num);
    }
  }

  lemma FillHolds(num: nat, used: seq<UsedElem>, comps: seq<UsedElem>,
                  reclaimed: nat, fills: map<nat, UsedElem>, n: nat, e: UsedElem)
    requires UsedHolds(num, used, comps, reclaimed, fills)
    requires reclaimed <= |comps| <= n < reclaimed + num
    requires forall k :: k in fills && |comps| <= k ==> k < reclaimed + num
    ensures UsedHolds(num, used[Slot(num, n) := e], comps, reclaimed, fills[n := e])
  {
    hide Slot;
    forall k | reclaimed <= k < |comps| ensures Slot(num, k) != Slot(num, n) {
      OtherSlots(num, k, n);
    }
    forall k: nat | k in fills && |comps| <= k && k != n ensures Slot(num, k) != Slot(num, n) {
      OtherSlots(num, k, n);
    }
  }

  lemma FlushHolds(num: nat, used: seq<UsedElem>, comps: seq<UsedElem>, reclaimed: nat, fills: map<nat, UsedElem>, count: nat)
    requires UsedHolds(num, used, comps, reclaimed, fills)
    requires forall k: nat :: |comps| <= k < |comps| + count ==> k in fills
    ensures UsedHolds(num, used, comps + Flushed(fills, |comps|, count), reclaimed, fills)
  {
    hide Slot;
  }

  lemma FillCompInv(s: State, head: u16, len: nat, idx: nat)
    requires Inv(s) && CompInv(s) && idx < s.q.inuse
    ensures CompInv(Apply(s, Fill(head, len, idx)))
  {
    hide SplitQueue.Fill, AvailHolds, UsedHolds, Wrap;
    FillSlot(s.q, s.used, head, len, idx);
    FillHolds(s.q.num, s.q.used, s.comps, s.reclaimed, s.fills, s.used + idx, UsedElem(head, len));
  }

  lemma FlushCompInv(s: State, count: nat)
    requires Inv(s) && CompInv(s) && Enabled(s, Flush(count)) && Orderly(s, Flush(count))
    ensures CompInv(Apply(s, Flush(count)))
  {
    hide AvailHolds, UsedHolds, Wrap, Outrun, Sub32;
    FlushHolds(s.q.num, s.q.used, s.comps, s.reclaimed, s.fills, count);
  }

  lemma PushHolds(num: nat, used: seq<UsedElem>, comps: seq<UsedElem>, reclaimed: nat, fills: map<nat, UsedElem>, e: UsedElem)
    requires UsedHolds(num, used, comps, reclaimed, fills)
    requires reclaimed <= |comps| < reclaimed + num
    requires forall k :: k in fills && |comps| <= k ==> k < reclaimed + num
    ensures UsedHolds(num, used[Slot(num, |comps|) := e], comps + [e], reclaimed, fills)
  {
    hide Slot;
    FillHolds(num, used, comps, reclaimed, fills, |comps|, e);
  }

  lemma PushCompInv(s: State, head: u16, len: nat)
    requires Inv(s) && CompInv(s) && Enabled(s, Push(head, len))
    ensures CompInv(Apply(s, Push(head, len)))
  {
    hide AvailHolds, UsedHolds, Wrap, SplitQueue.Push;
    PushExact(s, head, len);
    PushHolds(s.q.num, s.q.used, s.comps, s.reclaimed, s.fills, UsedElem(head, len));
  }

  lemma StepCompInv(s: State, a: Action)
    requires Inv(s) && CompInv(s) && Enabled(s, a) && Orderly(s, a)
    ensures CompInv(Apply(s, a))
  {
    hide AvailHolds, PopAvail, Wrap, Sub16, Sub32, Outrun, NotifyNeeded, QueueEmpty, SplitQueue.Push, SplitQueue.Fill;
    match a
    case Fill(head, len, idx) => FillCompInv(s, head, len, idx);
    case Flush(count) => FlushCompInv(s, count);
    case Push(head, len) => PushCompInv(s, head, len);
    case Pop(eventIdx) => PopKeepsUsed(s.q, eventIdx);
    case _ =>
  }

  lemma PopKeepsUsed(q: Queue, eventIdx: bool)
    requires 0 < q.num == |q.avail|
    ensures var q' := PopAvail(q, eventIdx, true).0; q'.used == q.used && q'.num == q.num
  {
  }

  lemma {:induction false} RunCompInv(num: nat, states: seq<State>, acts: seq<Action>, i: nat)
    requires Run(num, states, acts) && i < |states|
    requires forall j :: 0 <= j < |acts| ==> Orderly(states[j], acts[j])
    ensures CompInv(states[i])
  {
    if i > 0 {
      hide Inv, Enabled, Apply, CompInv, Orderly;
      RunInv(num, states, acts, i - 1);
      RunCompInv(num, states, acts, i - 1);
      StepCompInv(states[i - 1], acts[i - 1]);
    }
  }

  /** In every run of an orderly application, the used ring holds, for every completion
      the driver has not read, the head and length it was pushed or filled with, in
      completion order; used->idx counts the completions. */
  lemma CompletionsHold(num: nat, states: seq<State>, acts: seq<Action>)
    requires Run(num, states, acts)
    requires forall j :: 0 <= j < |acts| ==> Orderly(states[j], acts[j])
    ensures var s := states[|acts|];
      && |s.comps| == s.used && s.q.usedIdxMem == Wrap(s.used) && 0 < s.q.num == |s.q.used|
      && s.reclaimed <= s.used <= s.reclaimed + s.q.num
      && forall k :: s.reclaimed <= k < s.used ==> s.q.used[Slot(s.q.num, k)] == s.comps[k]
  {
    RunInv(num, states, acts, |acts|);
    RunCompInv(num, states, acts, |acts|);
    hide Run, AvailHolds, Wrap;
  }
}
