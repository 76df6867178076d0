/** The outer loop of vlog_virtq_handle, tx_kick around it, and whole runs of a driver
    that publishes chains while the device serves kicks. */
module VirtqRuns {
  import opened Ring16
  import opened LogStore
  import opened WireFormat
  import opened Descriptors
  import opened VirtqHandler
  import opened KickSteps
  import SplitQueue

  type UsedElem = SplitQueue.UsedElem

  /** What serving a chain changes: the used ring, the handler's position, the sink. */
  datatype Served = Served(used: seq<UsedElem>, usedIdx: u16, lastAvail: u16, sink: SinkState)

  ghost predicate WalksEnd(env: Env, heads: seq<u16>) {
    forall head :: head in heads ==> Halts(env, Start(head))
  }

  /** One chain served: emitted, completed in the used ring, counted. */
  ghost function ServeOne(env: Env, v: Served, head: u16): (r: Served)
    requires |v.used| > 0 && Halts(env, Start(head))
    ensures |r.used| == |v.used|
  {
    Served(v.used[v.usedIdx % |v.used| := SplitQueue.UsedElem(head, 0)],
           Wrap(v.usedIdx + 1), Wrap(v.lastAvail + 1), AfterEmit(v.sink, Record(env, head)))
  }

  ghost function Serve(env: Env, v: Served, heads: seq<u16>): (r: Served)
    requires |v.used| > 0 && WalksEnd(env, heads)
    ensures |r.used| == |v.used|
  {
    if heads == [] then v
    else ServeOne(env, Serve(env, v, heads[..|heads| - 1]), heads[|heads| - 1])
  }

  /** The heads a handler at position last finds in the next n slots. */
  function Pending(avail: seq<u16>, last: u16, n: nat): (heads: seq<u16>)
    requires |avail| > 0
    ensures |heads| == n
  {
    seq<u16>(n, k requires 0 <= k < n => avail[Wrap(last + k) % |avail|])
  }

  lemma PendingNext(avail: seq<u16>, last: u16, n: nat)
    requires |avail| > 0
    ensures Pending(avail, last, n + 1) == Pending(avail, last, n) + [avail[Wrap(last + n) % |avail|]]
  {
  }

  lemma ServeNext(env: Env, v: Served, heads: seq<u16>, head: u16)
    requires |v.used| > 0 && WalksEnd(env, heads + [head])
    ensures WalksEnd(env, heads) && Halts(env, Start(head))
    ensures Serve(env, v, heads + [head]) == ServeOne(env, Serve(env, v, heads), head)
  {
    hide Halts, ServeOne;
    assert (heads + [head])[..|heads|] == heads;
    assert head in heads + [head];
  }

  lemma NothingToEmit(s: SinkState)
    ensures AfterEmit(s, []) == s
  {
  }

  class Virtq {
    const num: nat
    const avail: array<u16>
    var availIdx: u16
    const used: array<UsedElem>
    var usedIdx: u16
    var availEvent: u16
    var lastAvail: u16

    ghost predicate Valid() {
      && num > 0 && avail.Length == used.Length == num
      && var a: object, u: object := avail, used; a != u
    }

    ghost function View(sink: Sink): (v: Served)
      reads this, used, sink, sink.store
    {
      Served(used[..], usedIdx, lastAvail, sink.State())
    }

    constructor (num: nat)
      requires num > 0
      ensures Valid() && fresh(avail) && fresh(used) && this.num == num
      ensures availIdx == 0 && usedIdx == 0 && availEvent == 0 && lastAvail == 0
    {
      this.num := num;
      avail := new u16[num](_ => 0);
      used := new UsedElem[num](_ => SplitQueue.UsedElem(0, 0));
      availIdx, usedIdx, availEvent, lastAvail := 0, 0, 0, 0;
    }

    /** One turn of the outer loop. */
    method ServeChain(env: Env, sink: Sink)
      requires Valid() && sink.Valid() && Halts(env, Start(avail[lastAvail % num]))
      modifies this`usedIdx, this`lastAvail, used, sink, sink.store
      ensures sink.Valid()
      ensures View(sink) == ServeOne(env, old(View(sink)), avail[old(lastAvail) % num])
    {
      hide Halts, Record, AfterEmit;
      var head := avail[lastAvail % num];
      var rec := WalkChain(env, head);
      NothingToEmit(sink.State());
      if |rec| > 0 {
        sink.Emit(rec);
      }
      used[usedIdx % num] := SplitQueue.UsedElem(head, 0);
      usedIdx := Wrap(usedIdx + 1);
      lastAvail := Wrap(lastAvail + 1);
    }

    /** vlog_virtq_handle. It serves exactly the chains between last_avail and the index
        it read, oldest first. */
    method Handle(env: Env, sink: Sink) returns (n: nat)
      requires Valid() && sink.Valid()
      requires WalksEnd(env, Pending(avail[..], lastAvail, Sub16(availIdx, lastAvail)))
      modifies this`usedIdx, this`lastAvail, used, sink, sink.store
      ensures sink.Valid() && n == Sub16(availIdx, old(lastAvail)) && lastAvail == availIdx
      ensures HasServed(env, avail[..], old(View(sink)), n, View(sink))
    {
      hide WalksEnd, HasServed, Wrap, Sub16;
      var ready := availIdx;
      ghost var v := View(sink);
      HasServedNone(env, avail[..], v);
      WrapSmall(v.lastAvail);
      n := 0;
      while lastAvail != ready
        invariant sink.Valid() && n <= Sub16(ready, v.lastAvail)
        invariant lastAvail == Wrap(v.lastAvail + n) && HasServed(env, avail[..], v, n, View(sink))
        decreases Sub16(ready, v.lastAvail) - n
      {
        StillBehind(ready, v.lastAvail, n);
        PendingWalkEnds(env, avail[..], v.lastAvail, Sub16(ready, v.lastAvail), n);
        HasServedOneMore(env, avail[..], v, n, View(sink));
        WrapStep(v.lastAvail + n, 1);
        ServeChain(env, sink);
        n := n + 1;
      }
      StillBehind(ready, v.lastAvail, n);
    }

    /** What the driver has in memory now. */
    ghost function Memory(env: Env): Driver
      reads this`availIdx, avail
    {
      Driver(avail[..], availIdx, env)
    }

    /** The driver's stores between two reads of avail->idx: the i-th of its later memories. */
    method DriverStores(env: Env, later: seq<Driver>, i: nat) returns (env': Env)
      requires Valid() && forall j :: 0 <= j < |later| ==> |later[j].avail| == num
      modifies this`availIdx, avail
      ensures Memory(env') == if i < |later| then later[i] else old(Memory(env))
    {
      env' := env;
      if i < |later| {
        forall k | 0 <= k < num {
          avail[k] := later[i].avail[k];
        }
        availIdx := later[i].availIdx;
        env' := later[i].env;
        assert avail[..] == later[i].avail;
      }
    }

    /** A call of the handler from tx_kick. */
    method CallHandler(env: Env, sink: Sink) returns (n: nat)
      requires Valid() && sink.Valid() && Usable(Memory(env), num)
      modifies this`usedIdx, this`lastAvail, used, sink, sink.store
      ensures sink.Valid() && n == Sub16(availIdx, old(lastAvail)) && lastAvail == availIdx
      ensures Memory(env) == old(Memory(env))
      ensures View(sink) == ServeCall(old(View(sink)), Memory(env))
    {
      hide Usable, ServeCall, Sub16, WalksEnd, HasServed;
      ghost var v := View(sink);
      HandleSees(Memory(env), num, lastAvail);
      n := Handle(env, sink);
      CallServed(v, Memory(env), n, View(sink));
    }

    /** How far tx_kick has come: k reads and this many handler calls. */
    ghost predicate Kicking(sink: Sink, env: Env, v: Served, first: Driver, later: seq<Driver>, calls: nat, k: nat)
      reads this, avail, used, sink, sink.store
    {
      && sink.Valid() && |v.used| > 0
      && Memory(env) == MemAt(first, later, k)
      && View(sink) == ServeCalls(v, first, later, calls)
    }

    /** The driver's stores and the next read find its next memory. */
    method LetDriver(env: Env, sink: Sink, later: seq<Driver>, i: nat, ghost v: Served, ghost first: Driver, ghost calls: nat)
      returns (env': Env)
      requires Valid() && Kicking(sink, env, v, first, later, calls, i)
      requires forall j :: 0 <= j < |later| ==> Usable(later[j], num)
      modifies this`availIdx, avail
      ensures Kicking(sink, env', v, first, later, calls, i + 1)
      ensures i >= |later| ==> availIdx == old(availIdx)
    {
      hide MemAt, ServeCalls, WalksEnd;
      MemNext(first, later, i);
      env' := DriverStores(env, later, i);
    }

    /** The handler's call finds the memory of the last read. */
    method LetHandler(env: Env, sink: Sink, ghost later: seq<Driver>, ghost i: nat, ghost v: Served, ghost first: Driver)
      returns (n: nat)
      requires Valid() && Kicking(sink, env, v, first, later, i, 2 * i)
      requires Usable(first, num) && forall j :: 0 <= j < |later| ==> Usable(later[j], num)
      modifies this`usedIdx, this`lastAvail, used, sink, sink.store
      ensures Kicking(sink, env, v, first, later, i + 1, 2 * i)
      ensures n == Sub16(availIdx, old(lastAvail)) && lastAvail == availIdx
    {
      hide Usable, ServeCall, Sub16, MemAt;
      MemUsable(first, later, 2 * i, num);
      n := CallHandler(env, sink);
    }

    /** tx_kick. `later` are the memories the driver makes, one between any two reads of
        avail->idx: entries, index and everything else. What happens to the indices is
        KickSteps on those reads; each call of the handler serves what it found. */
    method TxKick(env: Env, sink: Sink, eventIdx: bool, callable: bool, later: seq<Driver>)
      returns (total: nat, interrupt: bool, ghost calls: nat, ghost k: nat)
      requires Valid() && sink.Valid() && Usable(Memory(env), num) && forall j :: 0 <= j < |later| ==> Usable(later[j], num)
      modifies this, avail, used, sink, sink.store
      ensures sink.Valid() && (if eventIdx then k == 2 * calls else calls == k == 1)
      ensures var first := old(Memory(env)); var start := Entering(old(lastAvail), old(availEvent), 0);
        && OnReads(eventIdx, start, IdxReads(first, later, k)) == Over(lastAvail, availEvent, total)
        && View(sink) == ServeCalls(old(View(sink)), first, later, calls)
      ensures interrupt <==> callable && total > 0
    {
      hide Usable, ServeCalls, OnRead, OnReads, Sub16, MemAt;
      ghost var v, first, start := View(sink), Memory(env), Entering(lastAvail, availEvent, 0);
      var env' := env;
      var i: nat := 0;
      total, calls, k := 0, 0, 0;
      KickStart(eventIdx, start, first, later, v);
      while true
        invariant i == k == 2 * calls && (!eventIdx ==> calls == 0) && Kicking(sink, env', v, first, later, calls, k)
        invariant OnReads(eventIdx, start, IdxReads(first, later, k)) == Entering(lastAvail, availEvent, total)
        decreases |later| - i
      {
        NextRead(eventIdx, start, first, later, k, availIdx);
        KickEnters(eventIdx, lastAvail, availEvent, total, availIdx);
        var n := LetHandler(env', sink, later, calls, v, first);
        total := total + n;
        calls, k := calls + 1, k + 1;
        if !eventIdx {
          break;
        }
        availEvent := lastAvail;
        env' := LetDriver(env', sink, later, i, v, first, calls);
        NextRead(eventIdx, start, first, later, k, availIdx);
        KickRechecks(eventIdx, lastAvail, availEvent, n, total, availIdx);
        k := k + 1;
        if availIdx == lastAvail {
          break;
        }
        if n == 0 {
          break;
        }
        env' := LetDriver(env', sink, later, i + 1, v, first, calls);
        i := i + 2;
      }
      interrupt := total > 0 && callable;
    }
  }

  lemma KickStart(eventIdx: bool, start: KickState, first: Driver, later: seq<Driver>, v: Served)
    requires |v.used| > 0
    ensures MemAt(first, later, 0) == first && ServeCalls(v, first, later, 0) == v
    ensures OnReads(eventIdx, start, IdxReads(first, later, 0)) == start
  {
    assert IdxReads(first, later, 0) == [];
  }

  /** The driver's memory: available ring, index, and what chains are read from. */
  datatype Driver = Driver(avail: seq<u16>, availIdx: u16, env: Env)

  ghost predicate Usable(d: Driver, num: nat) {
    |d.avail| == num > 0 && WalksEnd(d.env, d.avail)
  }

  /** The driver's memory after i of its later ones; then it stays. */
  function MemAt(first: Driver, later: seq<Driver>, i: nat): Driver {
    if i == 0 || later == [] then first else if i <= |later| then later[i - 1] else later[|later| - 1]
  }

  /** The first k values of avail->idx. */
  function IdxReads(first: Driver, later: seq<Driver>, k: nat): (r: seq<u16>)
    ensures |r| == k
  {
    seq<u16>(k, i requires 0 <= i < k => MemAt(first, later, i).availIdx)
  }

  /** A call of the handler that finds this memory. */
  ghost function ServeCall(v: Served, d: Driver): (r: Served)
    requires |v.used| > 0
    ensures |r.used| == |v.used|
  {
    if d.avail == [] then v
    else
      var heads := Pending(d.avail, v.lastAvail, Sub16(d.availIdx, v.lastAvail));
      if WalksEnd(d.env, heads) then Serve(d.env, v, heads) else v
  }

  /** The handler is called at every other read. */
  ghost function ServeCalls(v: Served, first: Driver, later: seq<Driver>, calls: nat): (r: Served)
    requires |v.used| > 0
    ensures |r.used| == |v.used|
    decreases calls
  {
    if calls == 0 then v
    else ServeCall(ServeCalls(v, first, later, calls - 1), MemAt(first, later, 2 * (calls - 1)))
  }

  lemma MemNext(first: Driver, later: seq<Driver>, i: nat)
    ensures MemAt(first, later, i + 1) == if i < |later| then later[i] else MemAt(first, later, i)
  {
  }

  lemma MemUsable(first: Driver, later: seq<Driver>, i: nat, num: nat)
    requires Usable(first, num) && forall j :: 0 <= j < |later| ==> Usable(later[j], num)
    ensures Usable(MemAt(first, later, i), num)
  {
    hide Usable;
  }

  lemma NextRead(eventIdx: bool, start: KickState, first: Driver, later: seq<Driver>, k: nat, idx: u16)
    requires idx == MemAt(first, later, k).availIdx
    ensures OnReads(eventIdx, start, IdxReads(first, later, k + 1))
         == OnRead(eventIdx, OnReads(eventIdx, start, IdxReads(first, later, k)), idx)
  {
    hide MemAt;
    assert IdxReads(first, later, k + 1) == IdxReads(first, later, k) + [idx];
    OneMoreRead(eventIdx, start, IdxReads(first, later, k), idx);
  }

  lemma KickEnters(eventIdx: bool, last: u16, event: u16, total: nat, idx: u16)
    ensures var n := Sub16(idx, last);
      OnRead(eventIdx, Entering(last, event, total), idx)
      == if eventIdx then Rechecking(idx, idx, n, total + n) else Over(idx, event, total + n)
  {
  }

  lemma KickRechecks(eventIdx: bool, last: u16, event: u16, n: nat, total: nat, idx: u16)
    ensures OnRead(eventIdx, Rechecking(last, event, n, total), idx)
         == if idx == last || n == 0 then Over(last, event, total) else Entering(last, event, total)
  {
  }

  lemma HandleSees(d: Driver, num: nat, last: u16)
    requires Usable(d, num)
    ensures |d.avail| == num && WalksEnd(d.env, Pending(d.avail, last, Sub16(d.availIdx, last)))
  {
    EveryPendingWalkEnds(d.env, d.avail, last, Sub16(d.availIdx, last));
  }

  lemma CallServed(v: Served, d: Driver, n: nat, w: Served)
    requires HasServed(d.env, d.avail, v, n, w) && n == Sub16(d.availIdx, v.lastAvail)
    ensures w == ServeCall(v, d)
  {
    hide WalksEnd, Serve;
  }

  lemma StillBehind(ready: u16, first: u16, n: nat)
    requires n <= Sub16(ready, first)
    ensures Wrap(first + n) == ready <==> n == Sub16(ready, first)
    ensures Wrap(first) == first
  {
  }

  lemma WrapSmall(n: u16)
    ensures Wrap(n) == n
  {
  }

  /** Serving the n chains that follow v's position turns v into w. */
  ghost predicate HasServed(env: Env, avail: seq<u16>, v: Served, n: nat, w: Served) {
    && |avail| > 0 && |v.used| > 0
    && var heads := Pending(avail, v.lastAvail, n);
    && WalksEnd(env, heads)
    && w == Serve(env, v, heads)
  }

  lemma HasServedNone(env: Env, avail: seq<u16>, v: Served)
    requires |avail| > 0 && |v.used| > 0
    ensures HasServed(env, avail, v, 0, v)
  {
  }

  lemma PendingWalkEnds(env: Env, avail: seq<u16>, last: u16, n: nat, k: nat)
    requires |avail| > 0 && WalksEnd(env, Pending(avail, last, n)) && k < n
    ensures Halts(env, Start(avail[Wrap(last + k) % |avail|]))
  {
    hide Halts;
    assert Pending(avail, last, n)[k] in Pending(avail, last, n);
  }

  lemma EveryPendingWalkEnds(env: Env, avail: seq<u16>, last: u16, n: nat)
    requires |avail| > 0 && WalksEnd(env, avail)
    ensures WalksEnd(env, Pending(avail, last, n))
  {
    hide Halts;
    forall head | head in Pending(avail, last, n) ensures head in avail {
      var k :| 0 <= k < n && Pending(avail, last, n)[k] == head;
    }
  }

  lemma HasServedOneMore(env: Env, avail: seq<u16>, v: Served, n: nat, w: Served)
    requires HasServed(env, avail, v, n, w) && w.lastAvail == Wrap(v.lastAvail + n)
    requires Halts(env, Start(avail[w.lastAvail % |avail|]))
    ensures var head := avail[w.lastAvail % |avail|];
      && |w.used| > 0
      && HasServed(env, avail, v, n + 1, ServeOne(env, w, head))
  {
    hide Halts, ServeOne;
    var head := avail[w.lastAvail % |avail|];
    PendingNext(avail, v.lastAvail, n);
    ServeNext(env, v, Pending(avail, v.lastAvail, n), head);
    hide Pending;
  }

  lemma {:induction false} ServeMoves(env: Env, v: Served, heads: seq<u16>)
    requires |v.used| > 0 && WalksEnd(env, heads)
    ensures Serve(env, v, heads).lastAvail == Wrap(v.lastAvail + |heads|)
    ensures Serve(env, v, heads).usedIdx == Wrap(v.usedIdx + |heads|)
  {
    hide Halts, Record, AfterEmit, Wrap;
    if heads == [] {
      WrapSmall(v.lastAvail);
      WrapSmall(v.usedIdx);
    } else {
      var n := |heads| - 1;
      ServeMoves(env, v, heads[..n]);
      WrapStep(v.lastAvail + n, 1);
      WrapStep(v.usedIdx + n, 1);
    }
  }

  lemma HasServedBoth(env: Env, avail: seq<u16>, u: Served, n: nat, v: Served, m: nat, w: Served)
    requires HasServed(env, avail, u, n, v) && HasServed(env, avail, v, m, w)
    ensures HasServed(env, avail, u, n + m, w)
  {
    hide WalksEnd, Serve, Pending, Wrap;
    ServeMoves(env, u, Pending(avail, u.lastAvail, n));
    PendingSum(avail, u.lastAvail, n, m);
    ServeSum(env, u, Pending(avail, u.lastAvail, n), Pending(avail, v.lastAvail, m));
  }

  lemma PendingSum(avail: seq<u16>, last: u16, n: nat, m: nat)
    requires |avail| > 0
    ensures Pending(avail, last, n + m) == Pending(avail, last, n) + Pending(avail, Wrap(last + n), m)
  {
    var both, b := Pending(avail, last, n + m), Pending(avail, Wrap(last + n), m);
    forall k | n <= k < n + m ensures both[k] == b[k - n] {
      WrapStep(last + n, k - n);
    }
  }

  /** Two calls serve what one call over both stretches serves. */
  lemma {:induction false} ServeSum(env: Env, v: Served, a: seq<u16>, b: seq<u16>)
    requires |v.used| > 0 && WalksEnd(env, a) && WalksEnd(env, b)
    ensures WalksEnd(env, a + b)
    ensures Serve(env, v, a + b) == Serve(env, Serve(env, v, a), b)
  {
    hide Halts, ServeOne;
    if b == [] {
      assert a + b == a;
    } else {
      var n := |b| - 1;
      ServeSum(env, v, a, b[..n]);
      assert a + b == a + b[..n] + [b[n]];
      ServeNext(env, v, a + b[..n], b[n]);
    }
  }
}
