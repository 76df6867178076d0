/** vu_queue_get_avail_bytes and vu_queue_avail_bytes: counting the bytes of the pending
    chains, stopping as soon as enough are seen. */
module AvailBytes {
  import opened Machine
  import opened Ring16
  import opened GuestMemory
  import opened Descriptors
  import opened DescriptorMap
  import opened DescriptorMeaning
  import SplitQueue

  /** in_total and out_total: device-writable and device-readable bytes. */
  datatype Sums = Sums(inB: u32, outB: u32)

  predicate Enough(s: Sums, maxIn: u32, maxOut: u32) {
    s.inB >= maxIn && s.outB >= maxOut
  }

  function Add(s: Sums, d: Desc): Sums {
    if d.IsWrite() then s.(inB := (s.inB + d.len) % U32) else s.(outB := (s.outB + d.len) % U32)
  }

  /** What the pending chains of a queue are read from. */
  datatype Ring = Ring(desc: seq<Desc>, regions: seq<VuRegion>, host: Host, avail: seq<u16>, availIdx: u16)
  {
    ghost predicate Valid() { |desc| == |avail| > 0 }
  }

  /** A scan has seen enough, has reached the end with this many descriptors counted, or
      has found the ring corrupt. */
  datatype Scan = Reached(s: Sums) | Ended(s: Sums, bufs: nat) | Corrupt

  /** One chain from descriptor i on. */
  function ScanTable(table: seq<Desc>, i: nat, bufs: nat, s: Sums, maxIn: u32, maxOut: u32): Scan
    requires i < |table|
    decreases |table| - bufs
  {
    if bufs + 1 > |table| then Corrupt
    else
      var s' := Add(s, table[i]);
      if Enough(s', maxIn, maxOut) then Reached(s')
      else if !table[i].HasNext() then Ended(s', bufs + 1)
      else if table[i].next >= |table| then Corrupt
      else ScanTable(table, table[i].next, bufs + 1, s', maxIn, maxOut)
  }

  /** One chain at a head, after `total` descriptors. */
  function ScanChain(r: Ring, head: nat, total: nat, s: Sums, maxIn: u32, maxOut: u32): Scan
    requires head < |r.desc|
  {
    if !r.desc[head].IsIndirect() then ScanTable(r.desc, head, total, s, maxIn, maxOut)
    else if total >= |r.desc| then Corrupt
    else
      match Resolve(r.desc, r.regions, r.host, head)
      case None => Corrupt
      case Some(e) =>
        match ScanTable(e.table, e.first, 0, s, maxIn, maxOut)
        case Corrupt => Corrupt
        case Reached(s') => Reached(s')
        case Ended(s', _) => Ended(s', total + 1)
  }

  /** virtqueue_num_heads before its check: the pending chains from ring index idx on. */
  function NumHeads(availIdx: u16, idx: nat): u16 {
    Sub16(availIdx, Wrap(idx))
  }

  lemma OneHeadFewer(availIdx: u16, idx: nat)
    requires NumHeads(availIdx, idx) > 0
    ensures NumHeads(availIdx, idx + 1) == NumHeads(availIdx, idx) - 1
  {
  }

  /** All pending chains from ring index idx on. */
  function ScanRing(r: Ring, idx: nat, total: nat, s: Sums, maxIn: u32, maxOut: u32): Scan
    requires r.Valid()
    decreases NumHeads(r.availIdx, idx)
  {
    var n := NumHeads(r.availIdx, idx);
    if n > |r.desc| then Corrupt
    else if n == 0 then Ended(s, total)
    else
      var head := r.avail[idx % |r.avail|];
      if head >= |r.desc| then Corrupt
      else
        OneHeadFewer(r.availIdx, idx);
        match ScanChain(r, head, total, s, maxIn, maxOut)
        case Corrupt => Corrupt
        case Reached(s') => Reached(s')
        case Ended(s', total') => ScanRing(r, idx + 1, total', s', maxIn, maxOut)
  }

  /** The totals reported: zero on a broken device or a corrupt ring. */
  function Totals(broken: bool, scan: Scan): Sums {
    if broken || scan.Corrupt? then Sums(0, 0) else scan.s
  }

  const NOTHING := Sums(0, 0)

  method ScanTableLoop(table: seq<Desc>, first: nat, start: nat, s0: Sums, maxIn: u32, maxOut: u32)
    returns (scan: Scan)
    requires first < |table|
    ensures scan == ScanTable(table, first, start, s0, maxIn, maxOut)
  {
    var i: nat, bufs: nat, s := first, start, s0;
    while true
      invariant i < |table|
      invariant ScanTable(table, i, bufs, s, maxIn, maxOut) == ScanTable(table, first, start, s0, maxIn, maxOut)
      decreases |table| - bufs
    {
      bufs := bufs + 1;
      if bufs > |table| {
        return Corrupt;
      }
      if table[i].IsWrite() {
        s := s.(inB := (s.inB + table[i].len) % U32);
      } else {
        s := s.(outB := (s.outB + table[i].len) % U32);
      }
      if s.inB >= maxIn && s.outB >= maxOut {
        return Reached(s);
      }
      if !table[i].HasNext() {
        return Ended(s, bufs);
      }
      if table[i].next >= |table| {
        return Corrupt;
      }
      i := table[i].next;
    }
  }

  /** vu_queue_get_avail_bytes, for indirect tables read in place. */
  method GetAvailBytes(dev: VuDev, r: Ring, lastAvail: u16, maxIn: u32, maxOut: u32) returns (sums: Sums)
    requires dev.Valid() && r.Valid() && r.regions == dev.Table()
    requires forall i :: 0 <= i < |r.desc| ==> InPlace(r.regions, r.desc[i])
    modifies dev`broken
    ensures var scan := ScanRing(r, lastAvail, 0, NOTHING, maxIn, maxOut);
      && sums == Totals(old(dev.broken), scan)
      && dev.broken == (old(dev.broken) || scan.Corrupt?)
  {
    hide Resolve, InPlace, ScanTable, VuDev.Valid, VuDev.Table, NumHeads;
    if dev.broken {
      return Sums(0, 0);
    }
    var idx: nat, total: nat, s := lastAvail, 0, NOTHING;
    while true
      invariant !dev.broken && dev.Valid() && dev.Table() == r.regions
      invariant ScanRing(r, idx, total, s, maxIn, maxOut) == ScanRing(r, lastAvail, 0, NOTHING, maxIn, maxOut)
      decreases NumHeads(r.availIdx, idx)
    {
      var n := NumHeads(r.availIdx, idx);
      if n > |r.desc| {
        dev.broken := true;
        return Sums(0, 0);
      }
      if n == 0 {
        return s;
      }
      var head := r.avail[idx % |r.avail|];
      if head >= |r.desc| {
        dev.broken := true;
        return Sums(0, 0);
      }
      OneHeadFewer(r.availIdx, idx);
      idx := idx + 1;
      var scan: Scan;
      if r.desc[head].IsIndirect() {
        scan := ScanIndirect(dev, r, head, total, s, maxIn, maxOut);
      } else {
        scan := ScanTableLoop(r.desc, head, total, s, maxIn, maxOut);
      }
      if scan.Corrupt? {
        dev.broken := true;
        return Sums(0, 0);
      }
      if scan.Reached? {
        return scan.s;
      }
      s, total := scan.s, scan.bufs;
    }
  }

  method ScanIndirect(dev: VuDev, r: Ring, head: nat, total: nat, s: Sums, maxIn: u32, maxOut: u32)
    returns (scan: Scan)
    requires dev.Valid() && r.regions == dev.Table() && head < |r.desc| && r.desc[head].IsIndirect()
    requires InPlace(r.regions, r.desc[head])
    ensures scan == ScanChain(r, head, total, s, maxIn, maxOut)
  {
    hide Resolve, InPlace, ScanTable;
    if total >= |r.desc| {
      return Corrupt;
    }
    var e := ResolveEntry(dev, r.desc, r.host, head);
    if e.None? {
      return Corrupt;
    }
    scan := ScanTableLoop(e.value.table, e.value.first, 0, s, maxIn, maxOut);
    if scan.Ended? {
      scan := Ended(scan.s, total + 1);
    }
  }

  /** vu_queue_avail_bytes. */
  method QueueAvailBytes(dev: VuDev, r: Ring, lastAvail: u16, inBytes: u32, outBytes: u32) returns (ok: bool)
    requires dev.Valid() && r.Valid() && r.regions == dev.Table()
    requires forall i :: 0 <= i < |r.desc| ==> InPlace(r.regions, r.desc[i])
    modifies dev`broken
    ensures ok == Available(r, lastAvail, old(dev.broken), inBytes, outBytes)
    ensures dev.broken == (old(dev.broken) || ScanRing(r, lastAvail, 0, NOTHING, inBytes, outBytes).Corrupt?)
  {
    hide InPlace, ScanRing;
    var sums := GetAvailBytes(dev, r, lastAvail, inBytes, outBytes);
    return inBytes <= sums.inB && outBytes <= sums.outB;
  }

  predicate Available(r: Ring, lastAvail: u16, broken: bool, inBytes: u32, outBytes: u32)
    requires r.Valid()
  {
    Enough(Totals(broken, ScanRing(r, lastAvail, 0, NOTHING, inBytes, outBytes)), inBytes, outBytes)
  }

  // ---- the early exit against the full count --------------------------------------------

  /** The bytes of one direction on a chain. */
  function Bytes(ds: seq<Desc>, write: bool): nat {
    if ds == [] then 0 else (if ds[0].IsWrite() == write then ds[0].len else 0) + Bytes(ds[1..], write)
  }

  function AllBytes(chains: seq<seq<Desc>>, write: bool): nat {
    if chains == [] then 0 else Bytes(chains[0], write) + AllBytes(chains[1..], write)
  }

  function AllDescs(chains: seq<seq<Desc>>): seq<Desc> {
    if chains == [] then [] else chains[0] + AllDescs(chains[1..])
  }

  /** The 32-bit sums after counting some descriptors in full. */
  function Wrapped(s: Sums, ds: seq<Desc>): Sums {
    Sums((s.inB + Bytes(ds, true)) % U32, (s.outB + Bytes(ds, false)) % U32)
  }

  /** The 32-bit sums are enough once k descriptors are counted. */
  predicate EnoughAt(s: Sums, ds: seq<Desc>, k: nat, maxIn: u32, maxOut: u32)
    requires k <= |ds|
  {
    Enough(Wrapped(s, ds[..k]), maxIn, maxOut)
  }

  ghost predicate EnoughOnTheWay(s: Sums, ds: seq<Desc>, maxIn: u32, maxOut: u32) {
    exists k :: 0 < k <= |ds| && EnoughAt(s, ds, k, maxIn, maxOut)
  }

  /** A scan gives up early exactly if the sums are enough on the way, and otherwise
      counts every descriptor. */
  ghost predicate Honest(scan: Scan, s: Sums, ds: seq<Desc>, bufs: nat, maxIn: u32, maxOut: u32) {
    && !scan.Corrupt?
    && (scan.Reached? <==> EnoughOnTheWay(s, ds, maxIn, maxOut))
    && (scan.Reached? ==> Enough(scan.s, maxIn, maxOut))
    && (scan.Ended? ==> scan.s == Wrapped(s, ds) && scan.bufs == bufs)
  }

  lemma {:induction false} BytesConcat(a: seq<Desc>, b: seq<Desc>, write: bool)
    ensures Bytes(a + b, write) == Bytes(a, write) + Bytes(b, write)
  {
    if a == [] {
      assert a + b == b;
    } else {
      assert (a + b)[1..] == a[1..] + b;
      BytesConcat(a[1..], b, write);
    }
  }

  lemma SumMod(a: nat, b: nat, c: nat)
    ensures ((a + b) % U32 + c) % U32 == (a + (b + c)) % U32
  {
  }

  lemma WrappedConcat(s: Sums, a: seq<Desc>, b: seq<Desc>)
    ensures Wrapped(Wrapped(s, a), b) == Wrapped(s, a + b)
  {
    hide Bytes;
    BytesConcat(a, b, true);
    BytesConcat(a, b, false);
    SumMod(s.inB, Bytes(a, true), Bytes(b, true));
    SumMod(s.outB, Bytes(a, false), Bytes(b, false));
  }

  lemma OnTheWayConcat(s: Sums, a: seq<Desc>, b: seq<Desc>, maxIn: u32, maxOut: u32)
    ensures EnoughOnTheWay(s, a + b, maxIn, maxOut)
       <==> EnoughOnTheWay(s, a, maxIn, maxOut) || EnoughOnTheWay(Wrapped(s, a), b, maxIn, maxOut)
  {
    hide Wrapped, Enough;
    var t := Wrapped(s, a);
    forall k | 0 <= k <= |a| ensures EnoughAt(s, a + b, k, maxIn, maxOut) == EnoughAt(s, a, k, maxIn, maxOut) {
      assert (a + b)[..k] == a[..k];
    }
    forall k | 0 <= k <= |b| ensures EnoughAt(s, a + b, |a| + k, maxIn, maxOut) == EnoughAt(t, b, k, maxIn, maxOut) {
      assert (a + b)[..|a| + k] == a + b[..k];
      WrappedConcat(s, a, b[..k]);
    }
    hide EnoughAt;
    if k :| 0 < k <= |a + b| && EnoughAt(s, a + b, k, maxIn, maxOut) {
      if k > |a| {
        var j := k - |a|;
        assert EnoughAt(s, a + b, |a| + j, maxIn, maxOut);
        assert EnoughAt(t, b, j, maxIn, maxOut);
      }
    }
    if k :| 0 < k <= |a| && EnoughAt(s, a, k, maxIn, maxOut) {
      assert EnoughAt(s, a + b, k, maxIn, maxOut);
    }
    if k :| 0 < k <= |b| && EnoughAt(t, b, k, maxIn, maxOut) {
      assert EnoughAt(s, a + b, |a| + k, maxIn, maxOut);
    }
  }

  lemma OneCounted(s: Sums, d: Desc, maxIn: u32, maxOut: u32)
    ensures Add(s, d) == Wrapped(s, [d])
    ensures EnoughOnTheWay(s, [d], maxIn, maxOut) <==> Enough(Add(s, d), maxIn, maxOut)
  {
    assert [d][1..] == [] && [d][..1] == [d];
    assert Bytes([d][1..], true) == Bytes([d][1..], false) == 0;
    assert Add(s, d) == Wrapped(s, [d]);
    hide Wrapped, Add, Enough;
    assert EnoughAt(s, [d], 1, maxIn, maxOut) <==> Enough(Wrapped(s, [d]), maxIn, maxOut);
  }

  lemma {:induction false} ScanTableHonest(table: seq<Desc>, i: nat, bufs: nat, s: Sums, maxIn: u32, maxOut: u32, ds: seq<Desc>)
    requires IsChain(table, i, ds) && bufs + |ds| <= |table|
    ensures Honest(ScanTable(table, i, bufs, s, maxIn, maxOut), s, ds, bufs + |ds|, maxIn, maxOut)
    decreases |ds|
  {
    hide Wrapped, Enough, Add, EnoughOnTheWay;
    var d, rest := ds[0], ds[1..];
    assert ds == [d] + rest;
    var s' := Add(s, d);
    OneCounted(s, d, maxIn, maxOut);
    WrappedConcat(s, [d], rest);
    OnTheWayConcat(s, [d], rest, maxIn, maxOut);
    if d.HasNext() {
      ScanTableHonest(table, d.next, bufs + 1, s', maxIn, maxOut, rest);
    } else {
      assert ds == [d];
    }
  }

  /** A chain that breaks off corrupts the scan unless the sums are enough before. */
  lemma {:induction false} ScanTableBreaks(table: seq<Desc>, i: nat, bufs: nat, s: Sums, maxIn: u32, maxOut: u32,
                                           ds: seq<Desc>, j: nat)
    requires Breaks(table, i, bufs, ds, j) && i < |table|
    ensures var scan := ScanTable(table, i, bufs, s, maxIn, maxOut);
      if EnoughOnTheWay(s, ds, maxIn, maxOut) then scan.Reached? && Enough(scan.s, maxIn, maxOut) else scan.Corrupt?
    decreases |ds|
  {
    hide Wrapped, Enough, Add, EnoughOnTheWay, Breaks;
    BreaksRest(table, i, bufs, ds, j);
    BreaksRoom(table, i, bufs, ds, j);
    var d, rest := ds[0], ds[1..];
    var s' := Add(s, d);
    OneCounted(s, d, maxIn, maxOut);
    WrappedConcat(s, [d], rest);
    OnTheWayConcat(s, [d], rest, maxIn, maxOut);
    if |ds| > 1 {
      ScanTableBreaks(table, d.next, bufs + 1, s', maxIn, maxOut, rest, j);
    } else {
      assert ds == [d];
    }
  }

  lemma BreaksRoom(table: seq<Desc>, i: nat, bufs: nat, ds: seq<Desc>, j: nat)
    requires Breaks(table, i, bufs, ds, j)
    ensures bufs + |ds| <= |table| && (j >= |table| || bufs + |ds| == |table|)
  {
  }

  /** The k-th pending head. */
  function HeadAt(r: Ring, idx: nat, k: nat): u16
    requires r.Valid()
  {
    r.avail[(idx + k) % |r.avail|]
  }

  /** The chain at a pending head is proper and no longer than its table. */
  ghost predicate ChainAt(r: Ring, head: nat, ds: seq<Desc>) {
    && head < |r.desc|
    && Resolve(r.desc, r.regions, r.host, head).Some?
    && var e := Resolve(r.desc, r.regions, r.host, head).value;
    && IsChain(e.table, e.first, ds) && |ds| <= |e.table|
  }

  /** What a chain counts towards the ring's size: an indirect one counts once. */
  function Weight(r: Ring, head: nat, ds: seq<Desc>): nat {
    if head < |r.desc| && r.desc[head].IsIndirect() then 1 else |ds|
  }

  ghost function Weights(r: Ring, idx: nat, chains: seq<seq<Desc>>): nat
    requires r.Valid()
    decreases |chains|
  {
    if chains == [] then 0 else Weight(r, HeadAt(r, idx, 0), chains[0]) + Weights(r, idx + 1, chains[1..])
  }

  /** All pending chains, from ring index idx on. */
  ghost predicate PendingAre(r: Ring, idx: nat, chains: seq<seq<Desc>>)
    requires r.Valid()
  {
    && |chains| == NumHeads(r.availIdx, idx) <= |r.desc|
    && forall k :: 0 <= k < |chains| ==> ChainAt(r, HeadAt(r, idx, k), chains[k])
  }

  lemma ScanChainHonest(r: Ring, head: nat, total: nat, s: Sums, maxIn: u32, maxOut: u32, ds: seq<Desc>)
    requires ChainAt(r, head, ds) && total + Weight(r, head, ds) <= |r.desc|
    ensures Honest(ScanChain(r, head, total, s, maxIn, maxOut), s, ds, total + Weight(r, head, ds), maxIn, maxOut)
  {
    hide ScanTable, IsChain, Wrapped, Enough, EnoughOnTheWay;
    if r.desc[head].IsIndirect() {
      var e := Resolve(r.desc, r.regions, r.host, head).value;
      ScanTableHonest(e.table, e.first, 0, s, maxIn, maxOut, ds);
    } else {
      ScanTableHonest(r.desc, head, total, s, maxIn, maxOut, ds);
    }
  }

  lemma PendingRest(r: Ring, idx: nat, chains: seq<seq<Desc>>)
    requires r.Valid() && PendingAre(r, idx, chains) && chains != []
    ensures PendingAre(r, idx + 1, chains[1..]) && ChainAt(r, HeadAt(r, idx, 0), chains[0])
    ensures HeadAt(r, idx, 0) == r.avail[idx % |r.avail|]
  {
    hide ChainAt, NumHeads;
    OneHeadFewer(r.availIdx, idx);
    forall k | 0 <= k < |chains| - 1 ensures ChainAt(r, HeadAt(r, idx + 1, k), chains[1..][k]) {
      assert HeadAt(r, idx + 1, k) == HeadAt(r, idx, k + 1);
    }
  }

  lemma {:induction false} ScanRingHonest(r: Ring, idx: nat, total: nat, s: Sums, maxIn: u32, maxOut: u32,
                                         chains: seq<seq<Desc>>)
    requires r.Valid() && PendingAre(r, idx, chains)
    requires total + Weights(r, idx, chains) <= |r.desc|
    ensures Honest(ScanRing(r, idx, total, s, maxIn, maxOut), s, AllDescs(chains), total + Weights(r, idx, chains), maxIn, maxOut)
    decreases |chains|
  {
    hide ScanChain, NumHeads, Weight, ChainAt, Wrapped, Enough, EnoughOnTheWay;
    if chains == [] {
      NothingOnTheWay(s, maxIn, maxOut);
    } else {
      PendingRest(r, idx, chains);
      var head := HeadAt(r, idx, 0);
      hide HeadAt;
      assert head < |r.desc| by {
        HeadInRange(r, head, chains[0]);
      }
      ScanChainHonest(r, head, total, s, maxIn, maxOut, chains[0]);
      var scan := ScanChain(r, head, total, s, maxIn, maxOut);
      WrappedConcat(s, chains[0], AllDescs(chains[1..]));
      OnTheWayConcat(s, chains[0], AllDescs(chains[1..]), maxIn, maxOut);
      if scan.Ended? {
        ScanRingHonest(r, idx + 1, scan.bufs, scan.s, maxIn, maxOut, chains[1..]);
      }
    }
  }

  lemma NothingOnTheWay(s: Sums, maxIn: u32, maxOut: u32)
    ensures Wrapped(s, []) == s && !EnoughOnTheWay(s, [], maxIn, maxOut)
  {
  }

  lemma HeadInRange(r: Ring, head: nat, ds: seq<Desc>)
    requires ChainAt(r, head, ds)
    ensures head < |r.desc|
  {
  }

  /** The answer, whatever the sizes: yes on a sound device if and only if, descriptor by
      descriptor, the two 32-bit sums are at some point both enough. The chains count no
      more descriptors than the ring has. */
  lemma AvailableIff(r: Ring, lastAvail: u16, inBytes: u32, outBytes: u32, chains: seq<seq<Desc>>)
    requires r.Valid() && PendingAre(r, lastAvail, chains) && Weights(r, lastAvail, chains) <= |r.desc|
    ensures var ds := AllDescs(chains);
      Available(r, lastAvail, false, inBytes, outBytes)
      <==> exists k :: 0 <= k <= |ds| && EnoughAt(NOTHING, ds, k, inBytes, outBytes)
  {
    hide PendingAre, Weights, ScanRing, Wrapped, Enough, EnoughOnTheWay;
    var ds := AllDescs(chains);
    ScanRingHonest(r, lastAvail, 0, NOTHING, inBytes, outBytes, chains);
    NothingOnTheWay(NOTHING, inBytes, outBytes);
    assert ds[..0] == [] && ds[..|ds|] == ds;
    OnTheWayIs(NOTHING, ds, inBytes, outBytes);
    assert EnoughAt(NOTHING, ds, |ds|, inBytes, outBytes) <==> Enough(Wrapped(NOTHING, ds), inBytes, outBytes);
    assert EnoughAt(NOTHING, ds, 0, inBytes, outBytes) <==> Enough(NOTHING, inBytes, outBytes);
    NothingIsLeast(inBytes, outBytes, ScanRing(r, lastAvail, 0, NOTHING, inBytes, outBytes).s);
  }

  /** On a broken device, with more chains pending than the ring has, or with a next head
      out of range, only the empty request is granted. */
  lemma RefusesUnusable(r: Ring, lastAvail: u16, broken: bool, inBytes: u32, outBytes: u32)
    requires r.Valid()
    requires var pending := (r.availIdx - lastAvail) % 0x1_0000;
      broken || pending > |r.desc| || (pending > 0 && r.avail[lastAvail % |r.avail|] >= |r.desc|)
    ensures Available(r, lastAvail, broken, inBytes, outBytes) <==> inBytes == 0 && outBytes == 0
    ensures !broken ==> ScanRing(r, lastAvail, 0, NOTHING, inBytes, outBytes).Corrupt?
  {
    hide ScanChain;
    assert NumHeads(r.availIdx, lastAvail) == (r.availIdx - lastAvail) % 0x1_0000;
    hide NumHeads;
  }

  lemma OnTheWayIs(s: Sums, ds: seq<Desc>, maxIn: u32, maxOut: u32)
    ensures EnoughOnTheWay(s, ds, maxIn, maxOut) <==> exists k :: 0 < k <= |ds| && EnoughAt(s, ds, k, maxIn, maxOut)
  {
  }

  lemma NothingIsLeast(maxIn: u32, maxOut: u32, s: Sums)
    ensures Enough(NOTHING, maxIn, maxOut) ==> Enough(s, maxIn, maxOut)
  {
  }

  lemma {:induction false} AllDescsBytes(chains: seq<seq<Desc>>, write: bool)
    ensures Bytes(AllDescs(chains), write) == AllBytes(chains, write)
  {
    if chains != [] {
      AllDescsBytes(chains[1..], write);
      BytesConcat(chains[0], AllDescs(chains[1..]), write);
    }
  }

  /** A yes is never wrong; below 2^32 a no is not either. */
  lemma EnoughBytes(ds: seq<Desc>, maxIn: u32, maxOut: u32)
    ensures forall k :: 0 <= k <= |ds| && EnoughAt(NOTHING, ds, k, maxIn, maxOut) ==>
      maxIn <= Bytes(ds, true) && maxOut <= Bytes(ds, false)
    ensures Bytes(ds, true) < U32 && Bytes(ds, false) < U32 && maxIn <= Bytes(ds, true) && maxOut <= Bytes(ds, false) ==>
      EnoughAt(NOTHING, ds, |ds|, maxIn, maxOut)
  {
    hide Bytes;
    forall k | 0 <= k <= |ds| && EnoughAt(NOTHING, ds, k, maxIn, maxOut)
      ensures maxIn <= Bytes(ds, true) && maxOut <= Bytes(ds, false)
    {
      assert ds == ds[..k] + ds[k..];
      BytesConcat(ds[..k], ds[k..], true);
      BytesConcat(ds[..k], ds[k..], false);
    }
    assert ds[..|ds|] == ds;
  }

  /** The bound below 2^32 is needed: two writable buffers of 2^31 bytes bring the 32-bit
      sum back to 0, and a request for one byte more than the first holds is refused. */
  lemma SumWraps(regions: seq<VuRegion>, host: Host)
    ensures var ds := [Desc(0x1000, 0x8000_0000, 3, 1), Desc(0x1_0000_0000, 0x8000_0000, 2, 0)];
      var r := Ring(ds, regions, host, [0, 0], 1);
      && r.Valid() && IsChain(ds, 0, ds) && Bytes(ds, true) == U32
      && ScanRing(r, 0, 0, NOTHING, 0x8000_0001, 0) == Ended(NOTHING, 2)
      && !Available(r, 0, false, 0x8000_0001, 0)
  {
    var ds := [Desc(0x1000, 0x8000_0000, 3, 1), Desc(0x1_0000_0000, 0x8000_0000, 2, 0)];
    var r := Ring(ds, regions, host, [0, 0], 1);
    assert ds[1..] == [ds[1]] && ds[1..][1..] == [];
    assert IsChain(ds, 1, ds[1..]);
    var s := Sums(0x8000_0000, 0);
    assert Add(NOTHING, ds[0]) == s && Add(s, ds[1]) == NOTHING;
    assert ScanTable(ds, 1, 1, s, 0x8000_0001, 0) == Ended(NOTHING, 2);
    assert NumHeads(1, 0) == 1 && NumHeads(1, 1) == 0;
    assert ScanRing(r, 1, 2, NOTHING, 0x8000_0001, 0) == Ended(NOTHING, 2);
  }

  // ---- against what pops return -----------------------------------------------------------

  /** iov_size: the bytes in a list of buffers. */
  function Lens(p: seq<Mapped>): nat {
    if p == [] then 0 else p[0].len + Lens(p[1..])
  }

  lemma {:induction false} LensConcat(p: seq<Mapped>, q: seq<Mapped>)
    ensures Lens(p + q) == Lens(p) + Lens(q)
  {
    if p == [] {
      assert [] + q == q;
    } else {
      assert (p + q)[1..] == p[1..] + q;
      LensConcat(p[1..], q);
    }
  }

  lemma {:induction false} PiecesLens(regions: seq<VuRegion>, pa: u64, sz: u64)
    requires Pieces(regions, pa, sz).Some?
    ensures Lens(Pieces(regions, pa, sz).value) == sz
    decreases sz
  {
    hide GpaToVa;
    if sz > 0 {
      var m := GpaToVa(regions, sz, pa).value;
      PiecesLens(regions, Add64(pa, m.len), sz - m.len);
      var rest := Pieces(regions, Add64(pa, m.len), sz - m.len).value;
      assert ([m] + rest)[1..] == rest;
    }
  }

  function DescLens(ds: seq<Desc>): nat {
    if ds == [] then 0 else ds[0].len + DescLens(ds[1..])
  }

  lemma {:induction false} AllPiecesLens(regions: seq<VuRegion>, ds: seq<Desc>)
    requires AllPieces(regions, ds).Some?
    ensures Lens(AllPieces(regions, ds).value) == DescLens(ds)
  {
    hide Pieces;
    if ds != [] {
      PiecesLens(regions, ds[0].addr, ds[0].len);
      AllPiecesLens(regions, ds[1..]);
      LensConcat(Pieces(regions, ds[0].addr, ds[0].len).value, AllPieces(regions, ds[1..]).value);
    }
  }

  lemma {:induction false} DirectionLens(ds: seq<Desc>)
    ensures DescLens(Writables(ds)) == Bytes(ds, true) && DescLens(Readables(ds)) == Bytes(ds, false)
  {
    if ds != [] {
      DirectionLens(ds[1..]);
      assert ([ds[0]] + Writables(ds[1..]))[1..] == Writables(ds[1..]);
      assert ([ds[0]] + Readables(ds[1..]))[1..] == Readables(ds[1..]);
      assert [] + Writables(ds[1..]) == Writables(ds[1..]) && [] + Readables(ds[1..]) == Readables(ds[1..]);
    }
  }

  /** The k-th pending chain is what a pop would map. */
  ghost predicate PopsAs(r: Ring, head: nat, ds: seq<Desc>, e: Element) {
    head < |r.desc| && MapDesc(r.desc, r.regions, r.host, head) == Some(e) && ChainAt(r, head, ds)
  }

  lemma PopLens(r: Ring, head: nat, ds: seq<Desc>, e: Element)
    requires PopsAs(r, head, ds, e)
    ensures Lens(e.inSg) == Bytes(ds, true) && Lens(e.outSg) == Bytes(ds, false)
  {
    hide Resolve, MapDesc, AllPieces, Readables, Writables, Acceptable, Lens, Bytes, DescLens;
    MapDescIff(r.desc, r.regions, r.host, head);
    AllPiecesLens(r.regions, Writables(ds));
    AllPiecesLens(r.regions, Readables(ds));
    DirectionLens(ds);
  }

  function ElementBytes(elems: seq<Element>, write: bool): nat {
    if elems == [] then 0
    else Lens(if write then elems[0].inSg else elems[0].outSg) + ElementBytes(elems[1..], write)
  }

  lemma {:induction false} ElementsBytes(r: Ring, idx: nat, chains: seq<seq<Desc>>, elems: seq<Element>)
    requires r.Valid() && |elems| == |chains|
    requires forall k :: 0 <= k < |chains| ==> PopsAs(r, HeadAt(r, idx, k), chains[k], elems[k])
    ensures ElementBytes(elems, true) == AllBytes(chains, true)
    ensures ElementBytes(elems, false) == AllBytes(chains, false)
    decreases |chains|
  {
    hide PopsAs, Lens, Bytes;
    if chains != [] {
      forall k | 0 <= k < |chains| - 1 ensures PopsAs(r, HeadAt(r, idx + 1, k), chains[1..][k], elems[1..][k]) {
        assert HeadAt(r, idx + 1, k) == HeadAt(r, idx, k + 1);
      }
      ElementsBytes(r, idx + 1, chains[1..], elems[1..]);
      PopLens(r, HeadAt(r, idx, 0), chains[0], elems[0]);
    }
  }

  /** vu_queue_avail_bytes against the elements: given the pending chains and the elements
      they map to, head by head, a yes on a sound device means the elements hold at least
      that many writable and readable bytes; and if they hold less than 2^32 each way, so
      does a no that they do not. AvailPops derives the elements from pops. */
  lemma AvailableExact(r: Ring, lastAvail: u16, inBytes: u32, outBytes: u32,
                       chains: seq<seq<Desc>>, elems: seq<Element>)
    requires r.Valid() && |elems| == |chains| == NumHeads(r.availIdx, lastAvail) <= |r.desc|
    requires forall k :: 0 <= k < |chains| ==> PopsAs(r, HeadAt(r, lastAvail, k), chains[k], elems[k])
    requires Weights(r, lastAvail, chains) <= |r.desc|
    ensures Available(r, lastAvail, false, inBytes, outBytes)
        ==> inBytes <= ElementBytes(elems, true) && outBytes <= ElementBytes(elems, false)
    ensures ElementBytes(elems, true) < U32 && ElementBytes(elems, false) < U32
        ==> (Available(r, lastAvail, false, inBytes, outBytes)
             <==> inBytes <= ElementBytes(elems, true) && outBytes <= ElementBytes(elems, false))
  {
    hide MapDesc, ScanRing, NumHeads, HeadAt, ChainAt, Weights, AllBytes, AllDescs, ElementBytes, EnoughAt, Bytes, Available;
    ElementsBytes(r, lastAvail, chains, elems);
    forall k | 0 <= k < |chains| ensures ChainAt(r, HeadAt(r, lastAvail, k), chains[k]) {
      assert PopsAs(r, HeadAt(r, lastAvail, k), chains[k], elems[k]);
    }
    assert PendingAre(r, lastAvail, chains);
    hide PendingAre, PopsAs;
    AvailableIff(r, lastAvail, inBytes, outBytes, chains);
    AllDescsBytes(chains, true);
    AllDescsBytes(chains, false);
    EnoughBytes(AllDescs(chains), inBytes, outBytes);
  }
}
