/** The log queue as a FIFO of chains: a driver that publishes chains and reuses memory,
    and a device that serves them in calls of vlog_virtq_handle, interleaved chain by
    chain over 16-bit indices.

    Beside the rings run the publications and the record each had when published, and
    unbounded counters: `next` chains served, `reclaimed` completions the driver read. */
module ChainFifo {
  import opened Machine
  import opened Ring16
  import opened LogStore
  import opened WireFormat
  import opened Descriptors
  import opened VirtqHandler
  import opened VirtqRuns
  import SplitQueue

  /** One finished call: last_avail on entry, the index it read, what it returned. */
  datatype Call = Call(from: u16, ready: u16, n: nat)

  datatype Device = Idle | Running(from: u16, ready: u16, n: nat)

  datatype State = State(
    num: nat, avail: seq<u16>, availIdx: u16, v: Served, env: Env, device: Device, calls: seq<Call>,
    pubs: seq<u16>, recs: seq<seq<byte>>, next: nat, reclaimed: nat, upto: nat)
  {
    ghost predicate Sized() {
      |avail| == |v.used| == num > 0
    }
  }

  datatype Action =
    | Publish(head: u16, env: Env)   // memory as it is when the chain becomes visible
    | Reuse(env: Env)                // the driver writes to memory it owns
    | Reclaim
    | Enter
    | ServeNext
    | Return

  /** A queue with nothing outstanding; both indices have come as far as start. */
  function Init(num: nat, start: nat, sink: SinkState, env: Env): State {
    State(num, seq(num, _ => 0), Wrap(start),
          Served(seq(num, _ => SplitQueue.UsedElem(0, 0)), Wrap(start), Wrap(start), sink),
          env, Idle, [], [], [], 0, 0, 0)
  }

  ghost predicate HasRecord(env: Env, head: u16, rec: seq<byte>) {
    Halts(env, Start(head)) && Record(env, head) == rec
  }

  /** Memory still holds the chains the device has not served. */
  ghost predicate KeepsOutstanding(env: Env, pubs: seq<u16>, recs: seq<seq<byte>>, next: nat) {
    |recs| == |pubs| && forall k :: next <= k < |pubs| ==> HasRecord(env, pubs[k], recs[k])
  }

  /** The driver leaves outstanding chains alone, publishes chains whose walk ends, and
      has at most num of them outstanding. */
  ghost predicate Enabled(s: State, start: nat, a: Action) {
    match a
    case Publish(head, env) =>
      |s.pubs| < s.reclaimed + s.num && Halts(env, Start(head)) && KeepsOutstanding(env, s.pubs, s.recs, s.next)
    case Reuse(env) => KeepsOutstanding(env, s.pubs, s.recs, s.next)
    case Reclaim => Wrap(start + s.reclaimed) != s.v.usedIdx
    case Enter => s.device.Idle?
    case ServeNext => s.device.Running? && s.v.lastAvail != s.device.ready
    case Return => s.device.Running? && s.v.lastAvail == s.device.ready
  }

  function Head(s: State): u16
    requires s.Sized()
  {
    s.avail[s.v.lastAvail % s.num]
  }

  ghost function Apply(s: State, a: Action): State
    requires s.Sized()
  {
    match a
    case Publish(head, env) =>
      s.(avail := s.avail[s.availIdx % s.num := head], availIdx := Wrap(s.availIdx + 1), env := env,
         pubs := s.pubs + [head],
         recs := s.recs + [if Halts(env, Start(head)) then Record(env, head) else []])
    case Reuse(env) => s.(env := env)
    case Reclaim => s.(reclaimed := s.reclaimed + 1)
    case Enter => s.(device := Running(s.v.lastAvail, s.availIdx, 0), upto := |s.pubs|)
    case ServeNext =>
      if s.device.Running? && Halts(s.env, Start(Head(s)))
      then s.(v := ServeOne(s.env, s.v, Head(s)), next := s.next + 1,
              device := s.device.(n := s.device.n + 1))
      else s
    case Return =>
      if s.device.Running?
      then s.(device := Idle, calls := s.calls + [Call(s.device.from, s.device.ready, s.device.n)])
      else s
  }

  // ---- the invariant ---------------------------------------------------------------

  /** Emitting records one after another. */
  function EmitAll(s: SinkState, recs: seq<seq<byte>>): SinkState {
    if recs == [] then s else AfterEmit(EmitAll(s, recs[..|recs| - 1]), recs[|recs| - 1])
  }

  /** The slot of the k-th chain. */
  function Slot(start: nat, k: nat, num: nat): (i: nat)
    requires num > 0
    ensures i < num
  {
    (start + k) % num
  }

  /** The records that make a line of the log: those that are not all newlines and
      carriage returns. */
  function Speaking(recs: seq<seq<byte>>): seq<seq<byte>> {
    if recs == [] then []
    else Speaking(recs[..|recs| - 1]) + (if Silent(recs[|recs| - 1]) then [] else [recs[|recs| - 1]])
  }

  /** The log a sink was given these records: one line for each that is not silent, as
      the sink parses it, numbered on from the sink's number modulo 2^32. */
  ghost predicate LogsOf(sink: SinkState, recs: seq<seq<byte>>, s: SinkState) {
    var lines, base := Speaking(recs), |sink.records|;
    && |s.records| == base + |lines| && s.records[..base] == sink.records
    && s.seqno == (sink.seqno + |lines|) % U32
    && forall i :: 0 <= i < |lines| ==>
         LineOf(s.records[base + i], (sink.seqno + i) % U32, lines[i])
  }

  predicate LineOf(r: LogRecord, seqno: nat, bytes: seq<byte>) {
    r.seqno == seqno && ParseChain(bytes) == Some(Parsed(r.level, r.bytes))
  }

  lemma LogsOneMore(sink: SinkState, recs: seq<seq<byte>>, s: SinkState, rec: seq<byte>)
    requires LogsOf(sink, recs, s)
    ensures LogsOf(sink, recs + [rec], AfterEmit(s, rec))
  {
    hide ParseChain, Silent;
    SilentIff(rec);
    assert (recs + [rec])[..|recs|] == recs;
    var lines, more := Speaking(recs), Speaking(recs + [rec]);
    var t := AfterEmit(s, rec);
    if Silent(rec) {
      assert more == lines;
    } else {
      assert more == lines + [rec];
      NextNumber(sink.seqno + |lines|);
      var base := |sink.records|;
      assert t.records[..base] == s.records[..base];
      forall i | 0 <= i < |more| ensures LineOf(t.records[base + i], (sink.seqno + i) % U32, more[i]) {
        if i < |lines| {
          assert t.records[base + i] == s.records[base + i] && more[i] == lines[i];
        }
      }
    }
  }

  lemma NextNumber(n: nat)
    ensures (n % U32 + 1) % U32 == (n + 1) % U32
  {
  }

  lemma {:induction false} EmitAllLogs(sink: SinkState, recs: seq<seq<byte>>)
    ensures LogsOf(sink, recs, EmitAll(sink, recs))
  {
    hide ParseChain, AfterEmit;
    if recs == [] {
      assert sink.records[..|sink.records|] == sink.records;
    } else {
      var n := |recs| - 1;
      EmitAllLogs(sink, recs[..n]);
      LogsOneMore(sink, recs[..n], EmitAll(sink, recs[..n]), recs[n]);
      assert recs == recs[..n] + [recs[n]];
      hide LogsOf;
    }
  }

  ghost predicate AvailHolds(avail: seq<u16>, start: nat, pubs: seq<u16>, next: nat) {
    |avail| > 0 && forall k :: next <= k < |pubs| ==> avail[Slot(start, k, |avail|)] == pubs[k]
  }

  ghost predicate UsedHolds(used: seq<UsedElem>, start: nat, pubs: seq<u16>, reclaimed: nat, next: nat) {
    && |used| > 0 && next <= |pubs|
    && forall k :: reclaimed <= k < next ==> used[Slot(start, k, |used|)] == SplitQueue.UsedElem(pubs[k], 0)
  }

  function Total(calls: seq<Call>): nat {
    if calls == [] then 0 else Total(calls[..|calls| - 1]) + calls[|calls| - 1].n
  }

  /** A call returned the 16-bit distance to the index it read. */
  ghost predicate CallsExact(calls: seq<Call>) {
    forall i :: 0 <= i < |calls| ==> calls[i].n == Sub16(calls[i].ready, calls[i].from)
  }

  ghost predicate Indices(s: State, start: nat) {
    && s.Sized() && RingSize(s.num)
    && s.reclaimed <= s.next <= |s.pubs| <= s.reclaimed + s.num
    && s.availIdx == Wrap(start + |s.pubs|)
    && s.v.lastAvail == Wrap(start + s.next) && s.v.usedIdx == Wrap(start + s.next)
  }

  ghost predicate Counted(device: Device, calls: seq<Call>, next: nat, upto: nat, start: nat, pubs: nat, num: nat) {
    && CallsExact(calls)
    && (device.Idle? ==> Total(calls) == next)
    && (device.Running? ==>
          && Total(calls) + device.n == next <= upto <= pubs && upto <= Total(calls) + num
          && device.from == Wrap(start + Total(calls)) && device.ready == Wrap(start + upto))
  }

  ghost predicate Inv(s: State, start: nat, sink: SinkState) {
    && Indices(s, start)
    && KeepsOutstanding(s.env, s.pubs, s.recs, s.next)
    && AvailHolds(s.avail, start, s.pubs, s.next)
    && UsedHolds(s.v.used, start, s.pubs, s.reclaimed, s.next)
    && s.v.sink == EmitAll(sink, s.recs[..s.next])
    && Counted(s.device, s.calls, s.next, s.upto, start, |s.pubs|, s.num)
  }

  /** Chains less than a ring apart have different slots. */
  lemma OtherSlots(start: nat, from: nat, n: nat, num: nat)
    requires n < from + num
    ensures forall k: nat :: from <= k < n ==> Slot(start, k, num) != Slot(start, n, num)
  {
    forall k: nat | from <= k < n ensures Slot(start, k, num) != Slot(start, n, num) {
      SlotsDistinct(start + k, start + n, num);
    }
  }

  lemma WrappedSlot(start: nat, k: nat, num: nat)
    requires RingSize(num)
    ensures Wrap(start + k) % num == Slot(start, k, num)
  {
    SlotOfWrapped(start + k, num);
  }

  lemma AvailPublish(avail: seq<u16>, start: nat, pubs: seq<u16>, next: nat, head: u16)
    requires RingSize(|avail|) && AvailHolds(avail, start, pubs, next) && |pubs| < next + |avail|
    ensures AvailHolds(avail[Wrap(start + |pubs|) % |avail| := head], start, pubs + [head], next)
  {
    hide Slot, Wrap, RingSize;
    WrappedSlot(start, |pubs|, |avail|);
    OtherSlots(start, next, |pubs|, |avail|);
  }

  lemma UsedComplete(used: seq<UsedElem>, start: nat, pubs: seq<u16>, reclaimed: nat, next: nat)
    requires RingSize(|used|) && UsedHolds(used, start, pubs, reclaimed, next)
    requires next < |pubs| && next < reclaimed + |used|
    ensures UsedHolds(used[Wrap(start + next) % |used| := SplitQueue.UsedElem(pubs[next], 0)], start, pubs, reclaimed, next + 1)
  {
    hide Slot, Wrap, RingSize;
    WrappedSlot(start, next, |used|);
    OtherSlots(start, reclaimed, next, |used|);
  }

  lemma PublishInv(s: State, start: nat, sink: SinkState, head: u16, env: Env)
    requires Inv(s, start, sink) && Enabled(s, start, Publish(head, env))
    ensures Inv(Apply(s, Publish(head, env)), start, sink)
  {
    hide HasRecord, AvailHolds, UsedHolds, EmitAll, Total, Wrap, RingSize;
    AvailPublish(s.avail, start, s.pubs, s.next, head);
    WrapStep(start + |s.pubs|, 1);
    var s' := Apply(s, Publish(head, env));
    assert s'.recs[..s.next] == s.recs[..s.next];
    assert UsedHolds(s.v.used, start, s'.pubs, s.reclaimed, s.next) by {
      UsedMorePubs(s.v.used, start, s.pubs, s.reclaimed, s.next, head);
    }
    PublishedRecord(env, head);
  }

  lemma UsedMorePubs(used: seq<UsedElem>, start: nat, pubs: seq<u16>, reclaimed: nat, next: nat, head: u16)
    requires UsedHolds(used, start, pubs, reclaimed, next)
    ensures UsedHolds(used, start, pubs + [head], reclaimed, next)
  {
  }

  lemma PublishedRecord(env: Env, head: u16)
    requires Halts(env, Start(head))
    ensures HasRecord(env, head, Record(env, head))
  {
  }

  lemma ReclaimInv(s: State, start: nat, sink: SinkState)
    requires Inv(s, start, sink) && Enabled(s, start, Reclaim)
    ensures Inv(Apply(s, Reclaim), start, sink)
  {
    hide HasRecord, AvailHolds, EmitAll, Total;
    WrapInjective(start + s.reclaimed, start + s.next);
  }

  /** Serving the next chain: it is the oldest unserved publication, its record is the
      one it was published with. */
  lemma ServeInv(s: State, start: nat, sink: SinkState)
    requires Inv(s, start, sink) && Enabled(s, start, ServeNext)
    ensures s.next < |s.pubs| && Head(s) == s.pubs[s.next] && HasRecord(s.env, Head(s), s.recs[s.next])
    ensures Inv(Apply(s, ServeNext), start, sink)
  {
    hide Halts, Record, AfterEmit, Total, Wrap, RingSize, KeepsOutstanding, UsedHolds;
    assert s.next < |s.pubs| by {
      assert s.next != s.upto;
    }
    WrappedSlot(start, s.next, s.num);
    assert HasRecord(s.env, s.pubs[s.next], s.recs[s.next]) && |s.recs| == |s.pubs| by {
      Outstanding(s.env, s.pubs, s.recs, s.next);
    }
    UsedComplete(s.v.used, start, s.pubs, s.reclaimed, s.next);
    WrapStep(start + s.next, 1);
    EmitNext(sink, s.recs, s.next);
    FewerOutstanding(s.env, s.pubs, s.recs, s.next);
  }

  lemma Outstanding(env: Env, pubs: seq<u16>, recs: seq<seq<byte>>, next: nat)
    requires KeepsOutstanding(env, pubs, recs, next) && next < |pubs|
    ensures |recs| == |pubs| && HasRecord(env, pubs[next], recs[next])
  {
  }

  lemma FewerOutstanding(env: Env, pubs: seq<u16>, recs: seq<seq<byte>>, next: nat)
    requires KeepsOutstanding(env, pubs, recs, next)
    ensures KeepsOutstanding(env, pubs, recs, next + 1)
  {
  }

  lemma EmitNext(sink: SinkState, recs: seq<seq<byte>>, n: nat)
    requires n < |recs|
    ensures EmitAll(sink, recs[..n + 1]) == AfterEmit(EmitAll(sink, recs[..n]), recs[n])
  {
    assert recs[..n + 1][..n] == recs[..n];
  }

  lemma ReturnInv(s: State, start: nat, sink: SinkState)
    requires Inv(s, start, sink) && Enabled(s, start, Return)
    ensures Inv(Apply(s, Return), start, sink)
  {
    hide KeepsOutstanding, AvailHolds, UsedHolds, EmitAll, Wrap, Sub16;
    WrapInjective(start + s.next, start + s.upto);
    WrapInjective(start + Total(s.calls), start + s.upto);
    var calls := Apply(s, Return).calls;
    assert calls[..|s.calls|] == s.calls;
  }

  lemma StepInv(s: State, start: nat, sink: SinkState, a: Action)
    requires Inv(s, start, sink) && Enabled(s, start, a)
    ensures Inv(Apply(s, a), start, sink)
  {
    hide KeepsOutstanding, AvailHolds, UsedHolds, EmitAll, Total, CallsExact, Wrap, RingSize;
    match a
    case Publish(head, env) => PublishInv(s, start, sink, head, env);
    case Reuse(env) =>
    case Reclaim => ReclaimInv(s, start, sink);
    case Enter =>
    case ServeNext => ServeInv(s, start, sink);
    case Return => ReturnInv(s, start, sink);
  }

  // ---- whole runs ---------------------------------------------------------------------

  ghost predicate Run(s0: State, start: nat, states: seq<State>, acts: seq<Action>) {
    && |states| == |acts| + 1 && states[0] == s0
    && forall i :: 0 <= i < |acts| ==>
         Enabled(states[i], start, acts[i]) && states[i].Sized() && states[i + 1] == Apply(states[i], acts[i])
  }

  lemma {:induction false} RunInv(num: nat, start: nat, sink: SinkState, env: Env, states: seq<State>, acts: seq<Action>, i: nat)
    requires RingSize(num) && Run(Init(num, start, sink, env), start, states, acts) && i < |states|
    ensures Inv(states[i], start, sink)
  {
    if i > 0 {
      hide Inv, Enabled, Apply;
      RunInv(num, start, sink, env, states, acts, i - 1);
      StepInv(states[i - 1], start, sink, acts[i - 1]);
    }
  }

  /** The handler refines a FIFO of chains. In every run, however the publications are
      split over calls and wherever the indices wrap: the chains served are the oldest
      publications in order, the used ring holds their heads in that order, the sink
      has been given exactly the records they were published with, its log has one line
      for each that is not silent, numbered in order modulo 2^32, and every call
      returned the 16-bit distance it moved last_avail by. */
  lemma FifoOfChains(num: nat, start: nat, sink: SinkState, env: Env, states: seq<State>, acts: seq<Action>)
    requires RingSize(num) && Run(Init(num, start, sink, env), start, states, acts)
    ensures var s := states[|acts|];
      && s.reclaimed <= s.next <= |s.pubs| == |s.recs|
      && |s.v.used| == num
      && s.v.lastAvail == s.v.usedIdx == Wrap(start + s.next)
      && s.v.sink == EmitAll(sink, s.recs[..s.next]) && LogsOf(sink, s.recs[..s.next], s.v.sink)
      && (forall k :: s.reclaimed <= k < s.next ==>
            s.v.used[Slot(start, k, num)] == SplitQueue.UsedElem(s.pubs[k], 0))
      && CallsExact(s.calls)
      && (s.device.Idle? ==> Total(s.calls) == s.next)
      && s.num == num
  {
    RunInv(num, start, sink, env, states, acts, |acts|);
    SameNum(num, start, sink, env, states, acts, |acts|);
    EmitAllLogs(sink, states[|acts|].recs[..states[|acts|].next]);
    hide EmitAll, LogsOf, Total, CallsExact, AvailHolds, Run;
  }

  lemma {:induction false} SameNum(num: nat, start: nat, sink: SinkState, env: Env, states: seq<State>, acts: seq<Action>, i: nat)
    requires Run(Init(num, start, sink, env), start, states, acts) && i < |states|
    ensures states[i].num == num
  {
    hide Enabled;
    if i > 0 {
      SameNum(num, start, sink, env, states, acts, i - 1);
    }
  }

  /** Two runs that published the same chains with the same records, and served them
      all, gave the sink the same records, whatever their calls were. */
  lemma SplitsAgree(num: nat, start: nat, sink: SinkState, env: Env,
                    states1: seq<State>, acts1: seq<Action>, states2: seq<State>, acts2: seq<Action>)
    requires RingSize(num)
    requires Run(Init(num, start, sink, env), start, states1, acts1)
    requires Run(Init(num, start, sink, env), start, states2, acts2)
    requires var s, t := states1[|acts1|], states2[|acts2|];
      s.pubs == t.pubs && s.recs == t.recs && s.next == |s.pubs| && t.next == |t.pubs|
    ensures var s, t := states1[|acts1|], states2[|acts2|];
      s.v.sink == t.v.sink && s.v.lastAvail == t.v.lastAvail && s.v.usedIdx == t.v.usedIdx
  {
    RunInv(num, start, sink, env, states1, acts1, |acts1|);
    RunInv(num, start, sink, env, states2, acts2, |acts2|);
    hide Run, EmitAll, Total, CallsExact, AvailHolds, UsedHolds, KeepsOutstanding;
  }

  /** One call over all outstanding chains ends where any other split ends. */
  lemma {:induction false} OneCall(s: State, start: nat, sink: SinkState, n: nat) returns (w: Served)
    requires Inv(s, start, sink) && s.next + n <= |s.pubs|
    ensures HasServed(s.env, s.avail, s.v, n, w)
    ensures w.lastAvail == Wrap(start + s.next + n) && |s.recs| == |s.pubs|
    ensures w.sink == EmitAll(sink, s.recs[..s.next + n])
  {
    hide Halts, Record, AfterEmit, Wrap, RingSize, UsedHolds, Counted, HasServed, ServeOne;
    if n == 0 {
      w := s.v;
      HasServedNone(s.env, s.avail, s.v);
    } else {
      var k := s.next + n - 1;
      var u := OneCall(s, start, sink, n - 1);
      WrappedSlot(start, k, s.num);
      assert HasRecord(s.env, s.pubs[k], s.recs[k]);
      w := ServeAt(s, start, n - 1, u);
      EmitNext(sink, s.recs, k);
    }
  }

  lemma ServeAt(s: State, start: nat, n: nat, u: Served) returns (w: Served)
    requires Indices(s, start) && s.next + n < |s.pubs| && |s.recs| == |s.pubs|
    requires HasServed(s.env, s.avail, s.v, n, u) && u.lastAvail == Wrap(start + s.next + n)
    requires s.avail[u.lastAvail % s.num] == s.pubs[s.next + n]
    requires HasRecord(s.env, s.pubs[s.next + n], s.recs[s.next + n])
    ensures HasServed(s.env, s.avail, s.v, n + 1, w)
    ensures w.lastAvail == Wrap(start + s.next + n + 1)
    ensures w.sink == AfterEmit(u.sink, s.recs[s.next + n])
  {
    hide Halts, Record, AfterEmit, RingSize, Wrap, Pending, Serve;
    var head := s.pubs[s.next + n];
    WrapStep(start + s.next, n);
    WrapStep(start + s.next + n, 1);
    PendingNext(s.avail, s.v.lastAvail, n);
    var heads := Pending(s.avail, s.v.lastAvail, n);
    assert WalksEnd(s.env, heads + [head]);
    VirtqRuns.ServeNext(s.env, s.v, heads, head);
    w := ServeOne(s.env, u, head);
  }
}
