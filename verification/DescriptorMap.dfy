/** vu_queue_map_desc: turning a descriptor chain into two lists of host buffers. */
module DescriptorMap {
  import opened Machine
  import opened Ring16
  import opened GuestMemory
  import opened Descriptors
  import SplitQueue

  const VIRTQUEUE_MAX_SIZE: nat := SplitQueue.VIRTQUEUE_MAX_SIZE

  /** VuVirtqElement: the head and the mapped buffers, device-readable and -writable. */
  datatype Element = Element(index: nat, outSg: seq<Mapped>, inSg: seq<Mapped>)

  // ---- one buffer ------------------------------------------------------------------

  /** The guest range cut at region ends, or None if some part of it is unmapped. */
  function Pieces(regions: seq<VuRegion>, pa: u64, sz: u64): (r: Option<seq<Mapped>>)
    ensures r.Some? ==> (r.value == [] <==> sz == 0)
    decreases sz
  {
    if sz == 0 then Some([])
    else
      match GpaToVa(regions, sz, pa)
      case None => None
      case Some(m) =>
        match Pieces(regions, Add64(pa, m.len), sz - m.len)
        case None => None
        case Some(rest) => Some([m] + rest)
  }

  /** virtqueue_map_desc: a buffer is mapped if it is not empty and its pieces fit. */
  function Buffer(regions: seq<VuRegion>, pa: u64, sz: u64, room: nat): (r: Option<seq<Mapped>>)
    ensures r.Some? ==> 0 < |r.value| <= room
  {
    if sz == 0 then None
    else
      match Pieces(regions, pa, sz)
      case None => None
      case Some(p) => if |p| <= room then Some(p) else None
  }

  /** Pieces so far, followed by the pieces of the rest. */
  function Prepend(a: seq<Mapped>, b: Option<seq<Mapped>>): Option<seq<Mapped>> {
    match b
    case None => None
    case Some(p) => Some(a + p)
  }

  lemma PrependNext(regions: seq<VuRegion>, a: seq<Mapped>, pa: u64, sz: u64)
    requires sz > 0
    ensures Prepend(a, Pieces(regions, pa, sz)) ==
      match GpaToVa(regions, sz, pa)
      case None => None
      case Some(m) =>
        Prepend(a + [m], Pieces(regions, Add64(pa, m.len), sz - m.len))
  {
    hide GpaToVa;
    if GpaToVa(regions, sz, pa).Some? {
      var m := GpaToVa(regions, sz, pa).value;
      var rest := Pieces(regions, Add64(pa, m.len), sz - m.len);
      if rest.Some? {
        assert a + ([m] + rest.value) == a + [m] + rest.value;
      }
    }
  }

  /** virtqueue_map_desc, appending to the sgs already in iov[base..]. */
  method VirtqueueMapDesc(dev: VuDev, iov: array<Mapped>, base: nat, numSg: nat, maxSg: nat, pa: u64, sz: u64)
    returns (ok: bool, num: nat)
    requires dev.Valid() && numSg <= maxSg && base + maxSg <= iov.Length
    modifies iov
    ensures iov[..base + numSg] == old(iov[..base + numSg])
    ensures ok <==> Buffer(dev.Table(), pa, sz, maxSg - numSg).Some?
    ensures ok ==> num == numSg + |Buffer(dev.Table(), pa, sz, maxSg - numSg).value| <= maxSg
    ensures ok ==> iov[base + numSg..base + num] == Buffer(dev.Table(), pa, sz, maxSg - numSg).value
  {
    hide GpaToVa, VuDev.Table, Pieces;
    num := numSg;
    if sz == 0 {
      return false, num;
    }
    ghost var table, all := dev.Table(), Pieces(dev.Table(), pa, sz);
    ghost var done: seq<Mapped> := [];
    PrependNothing(all);
    var sz': u64, pa': u64 := sz, pa;
    while sz' > 0
      invariant numSg <= num <= maxSg && dev.Table() == table && |done| == num - numSg
      invariant iov[..base + numSg] == old(iov[..base + numSg])
      invariant iov[base + numSg..base + num] == done
      invariant all == Prepend(done, Pieces(table, pa', sz'))
      decreases sz'
    {
      if num == maxSg {
        return false, numSg;
      }
      PrependNext(table, done, pa', sz');
      var m := dev.VuGpaToVa(sz', pa');
      if m.None? {
        return false, numSg;
      }
      iov[base + num] := m.value;
      done := done + [m.value];
      num := num + 1;
      sz' := sz' - m.value.len;
      pa' := Add64(pa', m.value.len);
    }
    PiecesOfNothing(table, pa', done);
    ok := true;
  }

  lemma PrependNothing(b: Option<seq<Mapped>>)
    ensures Prepend([], b) == b
  {
    if b.Some? {
      assert [] + b.value == b.value;
    }
  }

  lemma PiecesOfNothing(regions: seq<VuRegion>, pa: u64, a: seq<Mapped>)
    ensures Prepend(a, Pieces(regions, pa, 0)) == Some(a)
  {
    assert a + [] == a;
  }

  // ---- one chain -------------------------------------------------------------------

  /** The table a chain is read from and the index of its first descriptor. */
  datatype Entry = Entry(table: seq<Desc>, first: nat)

  function IndirectTable(host: Host, va: u64, n: nat): (t: seq<Desc>)
    ensures |t| == n
  {
    seq<Desc>(n, k requires 0 <= k < n => DescAtHost(host, (va + DESC_SIZE * k) % U64))
  }

  /** An indirect table does not straddle regions, so that it is read in place. */
  predicate InPlace(regions: seq<VuRegion>, d: Desc) {
    d.IsIndirect() && GpaToVa(regions, d.len, d.addr).Some? ==> GpaToVa(regions, d.len, d.addr).value.len == d.len
  }

  /** Where the chain at head idx is read from, for an indirect table that is InPlace;
      the copy made of one that straddles regions is not part of this model. */
  function Resolve(desc: seq<Desc>, regions: seq<VuRegion>, host: Host, idx: nat): (e: Option<Entry>)
    requires idx < |desc|
    ensures e.Some? ==> e.value.first < |e.value.table|
  {
    var d := desc[idx];
    if !d.IsIndirect() then Some(Entry(desc, idx))
    else if d.len % DESC_SIZE != 0 then None
    else
      match GpaToVa(regions, d.len, d.addr)
      case None => None
      case Some(m) => Some(Entry(IndirectTable(host, m.va, d.len / DESC_SIZE), 0))
  }

  /** A plain head starts a chain of the ring's table; an indirect one fails exactly if its
      length is no whole number of descriptors or no region has its address. */
  lemma ResolveExact(desc: seq<Desc>, regions: seq<VuRegion>, host: Host, idx: nat)
    requires idx < |desc|
    ensures var d := desc[idx]; var e := Resolve(desc, regions, host, idx);
      && (!d.IsIndirect() ==> e == Some(Entry(desc, idx)))
      && (d.IsIndirect() ==>
            (e.None? <==> d.len == 0 || d.len % 16 != 0 || forall i :: 0 <= i < |regions| ==> !StartsIn(regions[i], d.addr)))
      && (d.IsIndirect() && e.Some? ==> e.value.first == 0 && 16 * |e.value.table| == d.len)
  {
    var k := FirstAt(regions, desc[idx].addr, 0);
    assert k < |regions| ==> StartsIn(regions[k], desc[idx].addr);
  }

  /** An indirect head whose whole table the driver stored in one region is read back
      entry by entry, no more and no fewer. */
  lemma ResolveStored(desc: seq<Desc>, regions: seq<VuRegion>, host: Host, idx: nat, va: u64, inside: seq<Desc>)
    requires idx < |desc| && desc[idx].IsIndirect() && desc[idx].len == 16 * |inside|
    requires GpaToVa(regions, desc[idx].len, desc[idx].addr) == Some(Mapped(va, desc[idx].len))
    requires BytesAt(host, va, 16 * |inside|) == EncodeAll(inside)
    ensures Resolve(desc, regions, host, idx) == Some(Entry(inside, 0))
  {
    hide GpaToVa, BytesAt, EncodeAll, DescAtHost;
    var n := |inside|;
    assert 16 * n % DESC_SIZE == 0 && 16 * n / DESC_SIZE == n;
    var t := IndirectTable(host, va, n);
    forall k | 0 <= k < n ensures t[k] == inside[k] {
      StoredTableReads(host, va, inside, k);
    }
    assert t == inside;
  }

  /** The most buffers a chain of this table may have. */
  function Limit(table: seq<Desc>): nat {
    if |table| < VIRTQUEUE_MAX_SIZE then |table| else VIRTQUEUE_MAX_SIZE
  }

  /** One descriptor of the walk: what is mapped after it, or None. */
  function Extend(regions: seq<VuRegion>, d: Desc, outSg: seq<Mapped>, inSg: seq<Mapped>): Option<(seq<Mapped>, seq<Mapped>)>
    requires |outSg| + |inSg| <= VIRTQUEUE_MAX_SIZE
  {
    if !d.IsWrite() && inSg != [] then None
    else
      match Buffer(regions, d.addr, d.len, VIRTQUEUE_MAX_SIZE - |outSg| - |inSg|)
      case None => None
      case Some(p) => Some(if d.IsWrite() then (outSg, inSg + p) else (outSg + p, inSg))
  }

  /** The walk of vu_queue_map_desc from descriptor i, with what it has mapped so far:
      every hop adds a piece, and no more than Limit(table) are allowed. */
  function Collect(regions: seq<VuRegion>, table: seq<Desc>, i: nat, outSg: seq<Mapped>, inSg: seq<Mapped>):
    Option<(seq<Mapped>, seq<Mapped>)>
    requires i < |table| && |outSg| + |inSg| <= Limit(table)
    decreases Limit(table) - |outSg| - |inSg|
  {
    match Extend(regions, table[i], outSg, inSg)
    case None => None
    case Some(sg) =>
      if |sg.0| + |sg.1| > |table| then None
      else if !table[i].HasNext() then Some(sg)
      else if table[i].next >= |table| then None
      else Collect(regions, table, table[i].next, sg.0, sg.1)
  }

  /** What vu_queue_map_desc returns; on None the device has panicked. */
  function MapDesc(desc: seq<Desc>, regions: seq<VuRegion>, host: Host, idx: nat): Option<Element>
    requires idx < |desc|
  {
    match Resolve(desc, regions, host, idx)
    case None => None
    case Some(e) =>
      match Collect(regions, e.table, e.first, [], [])
      case None => None
      case Some(sg) => Some(Element(idx, sg.0, sg.1))
  }

  /** The indirect-table part of the walks. */
  method ResolveEntry(dev: VuDev, desc: seq<Desc>, host: Host, idx: nat) returns (e: Option<Entry>)
    requires dev.Valid() && idx < |desc| && InPlace(dev.Table(), desc[idx])
    ensures e == Resolve(desc, dev.Table(), host, idx)
  {
    var d := desc[idx];
    if !d.IsIndirect() {
      return Some(Entry(desc, idx));
    }
    if d.len % DESC_SIZE != 0 {
      return None;
    }
    var m := dev.VuGpaToVa(d.len, d.addr);
    if m.None? {
      return None;
    }
    return Some(Entry(IndirectTable(host, m.value.va, d.len / DESC_SIZE), 0));
  }

  method MapNext(dev: VuDev, iov: array<Mapped>, outNum: nat, inNum: nat, d: Desc)
    returns (ok: bool, o: nat, w: nat)
    requires dev.Valid() && iov.Length == VIRTQUEUE_MAX_SIZE && outNum + inNum <= VIRTQUEUE_MAX_SIZE
    modifies iov
    ensures var r := Extend(dev.Table(), d, old(iov[..outNum]), old(iov[outNum..outNum + inNum]));
      && (ok <==> r.Some?)
      && (ok ==> outNum + inNum < o + w <= VIRTQUEUE_MAX_SIZE && iov[..o] == r.value.0 && iov[o..o + w] == r.value.1)
  {
    hide GpaToVa, VuDev.Table, Buffer, VuDev.Valid;
    o, w := outNum, inNum;
    if d.IsWrite() {
      ok, w := VirtqueueMapDesc(dev, iov, outNum, inNum, VIRTQUEUE_MAX_SIZE - outNum, d.addr, d.len);
      assert iov[..outNum] == iov[..outNum + inNum][..outNum];
      assert iov[outNum..outNum + inNum] == iov[..outNum + inNum][outNum..];
      assert ok ==> iov[outNum..outNum + w] == iov[outNum..outNum + inNum] + iov[outNum + inNum..outNum + w];
    } else if inNum > 0 {
      ok := false;
    } else {
      ok, o := VirtqueueMapDesc(dev, iov, 0, outNum, VIRTQUEUE_MAX_SIZE, d.addr, d.len);
      assert ok ==> iov[..o] == iov[..outNum] + iov[outNum..o];
    }
  }

  /** vu_queue_map_desc, for a table read in place and an allocation that succeeds. */
  method VuQueueMapDesc(dev: VuDev, desc: seq<Desc>, host: Host, idx: nat) returns (elem: Option<Element>)
    requires dev.Valid() && idx < |desc| && InPlace(dev.Table(), desc[idx])
    modifies dev`broken
    ensures elem == MapDesc(desc, old(dev.Table()), host, idx)
    ensures dev.broken == (old(dev.broken) || elem.None?)
  {
    hide GpaToVa, VuDev.Table, Extend, Resolve, InPlace, VuDev.Valid;
    var e := ResolveEntry(dev, desc, host, idx);
    if e.None? {
      dev.broken := true;
      return None;
    }
    var iov := new Mapped[VIRTQUEUE_MAX_SIZE](_ => Mapped(0, 0));
    var table, i: nat := e.value.table, e.value.first;
    var outNum: nat, inNum: nat := 0, 0;
    ghost var regions, result := dev.Table(), Collect(dev.Table(), e.value.table, e.value.first, [], []);
    while true
      invariant dev.Valid() && dev.Table() == regions && dev.broken == old(dev.broken)
      invariant i < |table| && outNum + inNum <= Limit(table)
      invariant result == Collect(regions, table, i, iov[..outNum], iov[outNum..outNum + inNum])
      decreases Limit(table) - outNum - inNum
    {
      var d := table[i];
      var ok, o, w := MapNext(dev, iov, outNum, inNum, d);
      if !ok {
        dev.broken := true;
        return None;
      }
      outNum, inNum := o, w;
      if inNum + outNum > |table| {
        dev.broken := true;
        return None;
      }
      if !d.HasNext() {
        break;
      }
      if d.next >= |table| {
        dev.broken := true;
        return None;
      }
      i := d.next;
    }
    return Some(Element(idx, iov[..outNum], iov[outNum..outNum + inNum]));
  }
}
