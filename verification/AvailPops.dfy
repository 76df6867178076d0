/** vu_queue_avail_bytes against the pops it predicts: the bytes it answers for are those
    of the elements that popping every pending chain returns. */
module AvailPops {
  import opened Machine
  import opened Ring16
  import opened GuestMemory
  import opened Descriptors
  import opened DescriptorMap
  import opened DescriptorMeaning
  import opened AvailBytes
  import SplitQueue
  import QueueRuns

  type Queue = SplitQueue.Queue

  /** n pops in a row over unchanged rings and memory: the queue and what they return. */
  function Pops(q: Queue, eventIdx: bool, r: Ring, n: nat): (p: (Queue, seq<Option<Element>>))
    requires q.WellFormed()
    ensures p.0.WellFormed() && p.0.num == q.num && |p.1| == n
    decreases n
  {
    if n == 0 then (q, [])
    else
      var p := Pops(q, eventIdx, r, n - 1);
      var e := Mapping(r, SplitQueue.NextPop(p.0));
      (SplitQueue.Pop(p.0, eventIdx, false, e.Some?), p.1 + [e])
  }

  /** What vu_queue_map_desc makes of the head a pop takes, if it takes one. */
  function Mapping(r: Ring, head: Option<nat>): Option<Element> {
    if head.Some? && head.value < |r.desc| then MapDesc(r.desc, r.regions, r.host, head.value) else None
  }

  /** A sound queue over the ring: not broken, nothing to resubmit, and room in use for
      all pending chains, as QueueRuns shows of every run. */
  ghost predicate Sound(q: Queue, r: Ring) {
    && q.WellFormed() && !q.broken && q.resubmit == []
    && |r.desc| == q.num && r.avail == q.avail && r.availIdx == q.availIdx
    && q.inuse + NumHeads(r.availIdx, q.lastAvail) <= q.num
  }

  /** Every run without in-flight tracking leaves the queue sound. */
  lemma RunsAreSound(num: nat, states: seq<QueueRuns.State>, acts: seq<QueueRuns.Action>, r: Ring)
    requires QueueRuns.Run(num, states, acts)
    requires var q := states[|acts|].q; |r.desc| == q.num && r.avail == q.avail && r.availIdx == q.availIdx
    ensures Sound(states[|acts|].q, r)
  {
    hide QueueRuns.AvailHolds, QueueRuns.Enabled, QueueRuns.Apply, Wrap, NumHeads, RingSize;
    var s := states[|acts|];
    QueueRuns.RunInv(num, states, acts, |acts|);
    hide QueueRuns.Run;
    PendingCount(s.q.num, s.next, |s.pubs|);
    WrapAgain(s.q.lastAvail);
  }

  lemma PendingCount(num: nat, next: nat, pubs: nat)
    requires RingSize(num) && next <= pubs <= next + num
    ensures NumHeads(Wrap(pubs), Wrap(next)) == pubs - next
  {
    WrapInjective(next, pubs);
    WrapAgain(Wrap(next));
  }

  /** Each pending chain can be mapped. */
  ghost predicate AllMap(r: Ring, idx: nat)
    requires r.Valid()
  {
    forall k: nat :: k < NumHeads(r.availIdx, idx) ==> Mapping(r, Some(HeadAt(r, idx, k))).Some?
  }

  /** The queue after k pops, as far as later pops look at it. */
  ghost predicate After(q: Queue, k: nat, t: Queue) {
    && t.WellFormed() && !t.broken && t.resubmit == []
    && t.num == q.num && t.avail == q.avail && t.availIdx == q.availIdx
    && t.lastAvail == Wrap(q.lastAvail + k) && t.inuse == q.inuse + k
  }

  lemma NextHeadAt(q: Queue, eventIdx: bool, r: Ring, k: nat, t: Queue)
    requires Sound(q, r) && r.Valid() && AllMap(r, q.lastAvail) && k < NumHeads(r.availIdx, q.lastAvail)
    requires After(q, k, t)
    ensures SplitQueue.NextPop(t) == Some(HeadAt(r, q.lastAvail, k) as nat)
    ensures After(q, k + 1, SplitQueue.Pop(t, eventIdx, false, true))
  {
    hide MapDesc;
    SlotOfWrapped(q.lastAvail + k, q.num);
    WrapStep(q.lastAvail + k, 1);
    StillPending(r.availIdx, q.lastAvail, k);
    assert Mapping(r, Some(HeadAt(r, q.lastAvail, k))).Some?;
    hide AllMap, NumHeads, RingSize;
    assert SplitQueue.NextHead(t) == HeadAt(r, q.lastAvail, k) && !SplitQueue.QueueEmpty(t);
    SplitQueue.InuseUp(t);
    hide HeadAt, SplitQueue.NextHead, SplitQueue.QueueEmpty, Wrap;
  }

  lemma StillPending(availIdx: u16, last: u16, k: nat)
    requires k < NumHeads(availIdx, last)
    ensures availIdx != Wrap(last + k)
  {
  }

  /** Successive pops take and map the pending heads in ring order. */
  lemma {:induction false} PopsMapHeads(q: Queue, eventIdx: bool, r: Ring, n: nat)
    requires Sound(q, r) && r.Valid() && AllMap(r, q.lastAvail) && n <= NumHeads(r.availIdx, q.lastAvail)
    ensures After(q, n, Pops(q, eventIdx, r, n).0)
    ensures forall k: nat :: k < n ==> Pops(q, eventIdx, r, n).1[k] == Mapping(r, Some(HeadAt(r, q.lastAvail, k)))
    decreases n
  {
    hide MapDesc, HeadAt, SplitQueue.NextPop, SplitQueue.Pop;
    if n == 0 {
      WrapAgain(q.lastAvail);
    } else {
      PopsMapHeads(q, eventIdx, r, n - 1);
      NextHeadAt(q, eventIdx, r, n - 1, Pops(q, eventIdx, r, n - 1).0);
    }
    hide After, Sound;
  }

  lemma WrapAgain(n: u16)
    ensures Wrap(n) == n
  {
  }

  /** The elements of pops that all succeed. */
  function Values(es: seq<Option<Element>>): (vs: seq<Element>)
    requires forall k :: 0 <= k < |es| ==> es[k].Some?
    ensures |vs| == |es| && forall k :: 0 <= k < |es| ==> es[k] == Some(vs[k])
  {
    if es == [] then [] else [es[0].value] + Values(es[1..])
  }

  lemma MappedHasChain(r: Ring, head: nat)
    requires Mapping(r, Some(head)).Some?
    ensures exists ds :: ChainAt(r, head, ds)
  {
    hide MapDesc, Resolve, Acceptable, AllPieces, Readables, Writables, Limit;
    MapDescIff(r.desc, r.regions, r.host, head);
    var e := Resolve(r.desc, r.regions, r.host, head).value;
    var ds :| IsChain(e.table, e.first, ds) && Acceptable(r.regions, Limit(e.table), ds);
    LimitSmall(e.table);
    assert ChainAt(r, head, ds);
  }

  lemma LimitSmall(table: seq<Desc>)
    ensures Limit(table) <= |table|
  {
  }

  /** The chain a mapped head starts. */
  ghost function ChainOf(r: Ring, head: nat): (ds: seq<Desc>)
    requires Mapping(r, Some(head)).Some?
    ensures ChainAt(r, head, ds)
  {
    MappedHasChain(r, head);
    var ds :| ChainAt(r, head, ds);
    ds
  }

  ghost function PendingChains(r: Ring, idx: nat): (chains: seq<seq<Desc>>)
    requires r.Valid() && AllMap(r, idx)
    ensures |chains| == NumHeads(r.availIdx, idx)
  {
    seq(NumHeads(r.availIdx, idx),
        k requires 0 <= k < NumHeads(r.availIdx, idx) && AllMap(r, idx) => ChainOf(r, HeadAt(r, idx, k)))
  }

  /** On a sound queue whose pending chains can all be mapped and count no more descriptors
      than the ring has, vu_queue_avail_bytes answers yes only if the elements that popping
      all of them returns hold at least that many writable and readable bytes; and if and
      only if, where they hold less than 2^32 each way. */
  lemma AvailableAsPops(q: Queue, eventIdx: bool, r: Ring, inBytes: u32, outBytes: u32)
    requires Sound(q, r) && r.Valid() && AllMap(r, q.lastAvail)
    requires Weights(r, q.lastAvail, PendingChains(r, q.lastAvail)) <= |r.desc|
    ensures var es := Pops(q, eventIdx, r, NumHeads(r.availIdx, q.lastAvail)).1;
      && (forall k :: 0 <= k < |es| ==> es[k].Some?)
      && (Available(r, q.lastAvail, q.broken, inBytes, outBytes)
          ==> inBytes <= ElementBytes(Values(es), true) && outBytes <= ElementBytes(Values(es), false))
      && (ElementBytes(Values(es), true) < U32 && ElementBytes(Values(es), false) < U32 ==>
            (Available(r, q.lastAvail, q.broken, inBytes, outBytes)
             <==> inBytes <= ElementBytes(Values(es), true) && outBytes <= ElementBytes(Values(es), false)))
  {
    hide Weights, Available, ElementBytes, HeadAt, NumHeads, Pops, ChainAt;
    var n := NumHeads(r.availIdx, q.lastAvail);
    PopsMapHeads(q, eventIdx, r, n);
    var es, chains := Pops(q, eventIdx, r, n).1, PendingChains(r, q.lastAvail);
    forall k | 0 <= k < n
      ensures es[k].Some? && PopsAs(r, HeadAt(r, q.lastAvail, k), chains[k], es[k].value)
    {
      assert Mapping(r, Some(HeadAt(r, q.lastAvail, k))).Some?;
    }
    AvailableExact(r, q.lastAvail, inBytes, outBytes, chains, Values(es));
  }
}
