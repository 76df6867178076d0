/** The dirty-page bitmap of live migration: which pages libvhost-user marks for the
    memory it writes on the guest's behalf. */
module DirtyLog {
  import opened Machine
  import opened Ring16
  import opened GuestMemory
  import opened Descriptors
  import opened DescriptorMap
  import opened DescriptorMeaning

  const VHOST_LOG_PAGE: nat := 4096

  /** A log table fits in memory, so its pages end below 2^64. */
  const MAX_LOG_SIZE: nat := 0x2_0000_0000_0000

  /** A stretch of guest memory. */
  datatype Range = Range(addr: u64, len: u64)

  // ---- the bitmap -------------------------------------------------------------------

  function Mask(k: nat): bv8
    requires k < 8
  {
    match k
    case 0 => 1 case 1 => 2 case 2 => 4 case 3 => 8 case 4 => 16 case 5 => 32 case 6 => 64 case _ => 128
  }

  predicate Bit(b: bv8, k: nat)
    requires k < 8
  {
    b & Mask(k) != 0
  }

  /** Setting one bit of a byte leaves the other seven alone. */
  lemma OrBit(b: bv8, k: nat, j: nat)
    requires k < 8 && j < 8
    ensures Bit(b | Mask(k), j) <==> Bit(b, j) || j == k
  {
  }

  predicate Marked(bits: seq<bv8>, p: nat) {
    p / 8 < |bits| && Bit(bits[p / 8], p % 8)
  }

  /** Where the migration reads a page's bit: byte p / 8, counted from the lowest bit. */
  lemma MarkedMeans(bits: seq<bv8>, p: nat)
    ensures Marked(bits, p) <==> p / 8 < |bits| && (bits[p / 8] >> (p % 8)) & 1 == 1
  {
    if p / 8 < |bits| {
      BitMeans(bits[p / 8], p % 8);
    }
    hide Bit;
  }

  lemma BitMeans(b: bv8, k: nat)
    requires k < 8
    ensures Bit(b, k) <==> (b >> k) & 1 == 1
  {
    assert k == 0 || k == 1 || k == 2 || k == 3 || k == 4 || k == 5 || k == 6 || k == 7;
  }

  /** Does a range, in true integers, touch a page? */
  predicate Touches(r: Range, p: nat) {
    r.len > 0 && r.addr / 4096 <= p <= (r.addr + r.len - 1) / 4096
  }

  /** The pages vu_log_write's loop visits, its 64-bit sum included. */
  predicate Visits(r: Range, p: nat) {
    r.len > 0 && r.addr / VHOST_LOG_PAGE <= p && p * VHOST_LOG_PAGE < Add64(r.addr, r.len)
  }

  ghost predicate VisitedBy(rs: seq<Range>, p: nat) {
    exists i :: 0 <= i < |rs| && Visits(rs[i], p)
  }

  /** Exactly the pages of these ranges were added to the bitmap. */
  ghost predicate Adds(before: seq<bv8>, after: seq<bv8>, rs: seq<Range>) {
    && |after| == |before|
    && forall p: nat :: Marked(after, p) <==> Marked(before, p) || VisitedBy(rs, p)
  }

  /** The assertion in vu_log_write. */
  predicate Fits(size: nat, r: Range) {
    r.len > 0 ==> size > (Add64(r.addr, r.len) + U64 - 1) % U64 / VHOST_LOG_PAGE / 8
  }

  /** vu_log_write covers exactly the pages of its range if and only if the range does
      not reach 2^64. */
  lemma VisitsExactIff(r: Range)
    requires r.len > 0
    ensures (forall p: nat :: Visits(r, p) <==> Touches(r, p)) <==> r.addr + r.len < U64
  {
    if r.addr + r.len < U64 {
      forall p: nat ensures Visits(r, p) <==> Touches(r, p) {
        PageBelow(p, r.addr + r.len);
      }
    } else {
      var last := (r.addr + r.len - 1) / VHOST_LOG_PAGE;
      assert Touches(r, last);
      assert !Visits(r, last);
    }
  }

  /** A range that ends exactly at 2^64 fails the assertion instead: of the ranges that
      pass it, exactly those that go past 2^64 are logged wrongly. */
  lemma LoggedRightIff(size: nat, r: Range)
    requires size < MAX_LOG_SIZE && r.len > 0
    ensures r.addr + r.len == U64 ==> !Fits(size, r)
    ensures Fits(size, r) ==>
      ((forall p: nat :: Visits(r, p) <==> Touches(r, p)) <==> r.addr + r.len <= U64)
  {
    VisitsExactIff(r);
    hide Visits, Touches;
  }

  /** A range that passes the assertion of a one-byte table and marks nothing although it
      touches two pages below 2^64. */
  lemma WrongPages()
    ensures var r := Range(U64 - 2 * VHOST_LOG_PAGE, 3 * VHOST_LOG_PAGE);
      && Fits(1, r) && Touches(r, U64 / VHOST_LOG_PAGE - 1) && Touches(r, U64 / VHOST_LOG_PAGE - 2)
      && forall p: nat :: !Visits(r, p)
  {
  }

  lemma PageBelow(p: nat, end: nat)
    requires end > 0
    ensures p * VHOST_LOG_PAGE < end <==> p <= (end - 1) / VHOST_LOG_PAGE
  {
  }

  lemma AddsNothing(bits: seq<bv8>)
    ensures Adds(bits, bits, [])
  {
  }

  lemma AddsBoth(a: seq<bv8>, b: seq<bv8>, c: seq<bv8>, rs: seq<Range>, ts: seq<Range>)
    requires Adds(a, b, rs) && Adds(b, c, ts)
    ensures Adds(a, c, rs + ts)
  {
    forall p: nat ensures VisitedBy(rs + ts, p) <==> VisitedBy(rs, p) || VisitedBy(ts, p) {
      if i :| 0 <= i < |rs| && Visits(rs[i], p) {
        assert Visits((rs + ts)[i], p);
      }
      if i :| 0 <= i < |ts| && Visits(ts[i], p) {
        assert Visits((rs + ts)[|rs| + i], p);
      }
    }
  }

  lemma OrMarks(bits: seq<bv8>, page: nat)
    requires page / 8 < |bits|
    ensures var after := bits[page / 8 := bits[page / 8] | Mask(page % 8)];
      forall p: nat :: Marked(after, p) <==> Marked(bits, p) || p == page
  {
    hide Bit, Mask;
    var after := bits[page / 8 := bits[page / 8] | Mask(page % 8)];
    forall p: nat ensures Marked(after, p) <==> Marked(bits, p) || p == page {
      OrBit(bits[page / 8], page % 8, p % 8);
      assert p == page <==> p / 8 == page / 8 && p % 8 == page % 8;
    }
  }

  /** The bits set once the loop of vu_log_write has come as far as `page`. */
  ghost predicate MarkedTo(before: seq<bv8>, after: seq<bv8>, first: nat, page: nat) {
    && |after| == |before|
    && forall p: nat :: Marked(after, p) <==> Marked(before, p) || first <= p < page
  }

  lemma MarkNext(before: seq<bv8>, now: seq<bv8>, first: nat, page: nat)
    requires MarkedTo(before, now, first, page) && first <= page && page / 8 < |now|
    ensures MarkedTo(before, now[page / 8 := now[page / 8] | Mask(page % 8)], first, page + 1)
  {
    hide Marked, Mask;
    OrMarks(now, page);
  }

  // ---- the written buffers of a chain ------------------------------------------------

  /** What vu_log_queue_fill passes to vu_log_write on its walk, and whether it panics. */
  function LogWalk(table: seq<Desc>, i: nat, bufs: nat, len: u32): (r: (seq<Range>, bool))
    requires i < |table|
    decreases |table| - bufs
  {
    if bufs + 1 > |table| then ([], true)
    else
      var d := table[i];
      var n := Written(d, len);
      var here := if d.IsWrite() then [Range(d.addr, n)] else [];
      if len - n == 0 || !d.HasNext() then (here, false)
      else if d.next >= |table| then (here, true)
      else
        var rest := LogWalk(table, d.next, bufs + 1, len - n);
        (here + rest.0, rest.1)
  }

  /** How much of a descriptor the first len written bytes cover. */
  function Written(d: Desc, len: u32): (n: u32)
    ensures n <= len
  {
    if !d.IsWrite() then 0 else if d.len < len then d.len else len
  }

  /** What vu_log_queue_fill logs for the chain at a head. */
  function LogFill(desc: seq<Desc>, regions: seq<VuRegion>, host: Host, idx: nat, len: u32): (seq<Range>, bool)
    requires idx < |desc|
  {
    match Resolve(desc, regions, host, idx)
    case None => ([], true)
    case Some(e) => LogWalk(e.table, e.first, 0, len)
  }

  /** The assertions of all writes of a list. */
  ghost predicate AllFit(size: nat, rs: seq<Range>) {
    forall i :: 0 <= i < |rs| ==> Fits(size, rs[i])
  }

  class VuLog {
    const table: array<bv8>
    const logAll: bool

    ghost predicate Valid() {
      table.Length < MAX_LOG_SIZE
    }

    constructor (size: nat, logAll: bool)
      requires size < MAX_LOG_SIZE
      ensures Valid() && fresh(table) && table.Length == size && this.logAll == logAll
    {
      table := new bv8[size](_ => 0);
      this.logAll := logAll;
    }

    /** vu_log_page. */
    method LogPage(page: nat)
      requires page / 8 < table.Length
      modifies table
      ensures table[..] == old(table[..])[page / 8 := old(table[page / 8]) | Mask(page % 8)]
    {
      table[page / 8] := table[page / 8] | Mask(page % 8);
    }

    /** What a write of these ranges does to the bitmap. */
    ghost predicate Logs(before: seq<bv8>, after: seq<bv8>, rs: seq<Range>) {
      if logAll then Adds(before, after, rs) else after == before
    }

    /** vu_log_write; the assertion it makes is a premise. */
    method LogWrite(address: u64, length: u64)
      requires Valid() && (logAll ==> Fits(table.Length, Range(address, length)))
      modifies table
      ensures Logs(old(table[..]), table[..], [Range(address, length)])
    {
      hide Marked, Mask, MarkedTo, Fits, Reached, Under, Adds;
      ghost var r, before := Range(address, length), table[..];
      if !logAll || length == 0 {
        EmptyRange(before, r);
        return;
      }
      var page: nat := address / VHOST_LOG_PAGE;
      ghost var first := page;
      MarkNone(before, first);
      FirstReached(r);
      while page * VHOST_LOG_PAGE % U64 < Add64(address, length)
        invariant first <= page && MarkedTo(before, table[..], first, page) && Reached(r, page)
        decreases Add64(address, length) - page
      {
        LoopGuard(table.Length, r, page);
        MarkNext(before, table[..], first, page);
        LogPage(page);
        page := page + 1;
      }
      LoopGuard(table.Length, r, page);
      SingleRange(before, table[..], r, page);
    }

    /** The walk of vu_log_queue_fill. */
    method LogTable(descs: seq<Desc>, first: nat, written: u32) returns (panic: bool)
      requires Valid() && first < |descs|
      requires logAll ==> AllFit(table.Length, LogWalk(descs, first, 0, written).0)
      modifies table
      ensures panic == LogWalk(descs, first, 0, written).1
      ensures Logs(old(table[..]), table[..], LogWalk(descs, first, 0, written).0)
    {
      hide Marked, Fits, Adds, Written, LogWalk;
      var i: nat, bufs: nat, len: u32 := first, 0, written;
      ghost var all, done: seq<Range> := LogWalk(descs, first, 0, written), [];
      AddsNothing(table[..]);
      assert all.0 == [] + all.0;
      while true
        invariant i < |descs|
        invariant Logs(old(table[..]), table[..], done)
        invariant all == (done + LogWalk(descs, i, bufs, len).0, LogWalk(descs, i, bufs, len).1)
        decreases |descs| - bufs
      {
        bufs := bufs + 1;
        if bufs > |descs| {
          WalkTooLong(descs, i, bufs - 1, len, done);
          return true;
        }
        var d := descs[i];
        var n := Written(d, len);
        ghost var before := table[..];
        ghost var here := if d.IsWrite() then [Range(d.addr, n)] else [];
        WalkStep(descs, i, bufs - 1, len, done, here);
        if d.IsWrite() {
          assert all.0[|done|] == Range(d.addr, n);
          LogWrite(d.addr, n);
          LogsBoth(logAll, old(table[..]), before, table[..], done, here);
        } else {
          assert done + here == done;
        }
        done := done + here;
        len := len - n;
        if len == 0 || !d.HasNext() {
          return false;
        }
        if d.next >= |descs| {
          return true;
        }
        i := d.next;
      }
    }
  }

  lemma LogsBoth(on: bool, a: seq<bv8>, b: seq<bv8>, c: seq<bv8>, rs: seq<Range>, ts: seq<Range>)
    requires if on then Adds(a, b, rs) && Adds(b, c, ts) else a == b && b == c
    ensures if on then Adds(a, c, rs + ts) else a == c
  {
    hide Adds;
    if on {
      AddsBoth(a, b, c, rs, ts);
    }
  }

  lemma WalkTooLong(table: seq<Desc>, i: nat, bufs: nat, len: u32, done: seq<Range>)
    requires i < |table| && bufs + 1 > |table|
    ensures (done + LogWalk(table, i, bufs, len).0, LogWalk(table, i, bufs, len).1) == (done, true)
  {
    assert done + [] == done;
  }

  lemma WalkStep(table: seq<Desc>, i: nat, bufs: nat, len: u32, done: seq<Range>, here: seq<Range>)
    requires i < |table| && bufs + 1 <= |table|
    requires here == if table[i].IsWrite() then [Range(table[i].addr, Written(table[i], len))] else []
    ensures var d, n, w := table[i], Written(table[i], len), LogWalk(table, i, bufs, len);
      && done + w.0 ==
           (if len - n == 0 || !d.HasNext() || d.next >= |table| then done + here
            else (done + here) + LogWalk(table, d.next, bufs + 1, len - n).0)
      && w.1 == (if len - n == 0 || !d.HasNext() then false
                 else if d.next >= |table| then true
                 else LogWalk(table, d.next, bufs + 1, len - n).1)
      && here <= w.0
  {
    hide Written;
  }

  lemma MarkNone(bits: seq<bv8>, first: nat)
    ensures MarkedTo(bits, bits, first, first)
  {
  }

  /** The loop has come to this page, and goes on. */
  ghost predicate Reached(r: Range, page: nat) {
    page == r.addr / VHOST_LOG_PAGE || (page > 0 && Under(r, page - 1))
  }

  predicate Under(r: Range, page: nat) {
    page * VHOST_LOG_PAGE < Add64(r.addr, r.len)
  }

  lemma FirstReached(r: Range)
    ensures Reached(r, r.addr / VHOST_LOG_PAGE)
  {
  }

  /** Under the assertion the loop's 64-bit guard does not wrap, and every page the loop
      visits has its bit inside the table. */
  lemma LoopGuard(size: nat, r: Range, page: nat)
    requires size < MAX_LOG_SIZE && r.len > 0 && Fits(size, r) && Reached(r, page)
    ensures page * VHOST_LOG_PAGE % U64 < Add64(r.addr, r.len) <==> Under(r, page)
    ensures Under(r, page) ==> page / 8 < size && page < Add64(r.addr, r.len) && Reached(r, page + 1)
  {
    assert page * VHOST_LOG_PAGE < U64;
  }

  lemma EmptyRange(bits: seq<bv8>, r: Range)
    ensures r.len == 0 ==> Adds(bits, bits, [r])
  {
    hide Marked;
  }

  lemma SingleRange(before: seq<bv8>, after: seq<bv8>, r: Range, page: nat)
    requires r.len > 0 && MarkedTo(before, after, r.addr / VHOST_LOG_PAGE, page)
    requires Reached(r, page) && !Under(r, page)
    ensures Adds(before, after, [r])
  {
    hide Marked;
    forall p: nat ensures VisitedBy([r], p) <==> Visits(r, p) {
      VisitedOne(r, p);
    }
  }

  // ---- what the walk logs, byte by byte ----------------------------------------------------

  /** The guest addresses of a buffer's bytes. */
  function Addresses(a: nat, n: nat): (s: seq<nat>)
    ensures |s| == n
  {
    seq<nat>(n, k requires 0 <= k < n => a + k)
  }

  /** The guest addresses of a chain's device-writable bytes, in order. */
  function WritableAddresses(ds: seq<Desc>): seq<nat> {
    if ds == [] then []
    else (if ds[0].IsWrite() then Addresses(ds[0].addr, ds[0].len) else []) + WritableAddresses(ds[1..])
  }

  function Prefix(s: seq<nat>, n: nat): seq<nat> {
    if n < |s| then s[..n] else s
  }

  /** Does one of these bytes lie in page p? */
  ghost predicate InPage(bytes: seq<nat>, p: nat) {
    exists k :: 0 <= k < |bytes| && bytes[k] / 4096 == p
  }

  lemma RangeInPage(a: nat, n: nat, p: nat)
    requires a < U64 && n < U64 && a + n < U64
    ensures Visits(Range(a, n), p) <==> InPage(Addresses(a, n), p)
  {
    if n > 0 {
      PageBelow(p, a + n);
      if Visits(Range(a, n), p) {
        var k := if p * VHOST_LOG_PAGE <= a then 0 else p * VHOST_LOG_PAGE - a;
        assert Addresses(a, n)[k] / VHOST_LOG_PAGE == p;
      }
      if k :| 0 <= k < n && Addresses(a, n)[k] / VHOST_LOG_PAGE == p {
        assert (a + k) / VHOST_LOG_PAGE == p;
      }
    }
  }

  lemma InPageConcat(a: seq<nat>, b: seq<nat>, p: nat)
    ensures InPage(a + b, p) <==> InPage(a, p) || InPage(b, p)
  {
    if k :| 0 <= k < |a| && a[k] / VHOST_LOG_PAGE == p {
      assert (a + b)[k] / VHOST_LOG_PAGE == p;
    }
    if k :| 0 <= k < |b| && b[k] / VHOST_LOG_PAGE == p {
      assert (a + b)[|a| + k] / VHOST_LOG_PAGE == p;
    }
  }

  lemma VisitedHead(rs: seq<Range>, ts: seq<Range>, p: nat)
    ensures VisitedBy(rs + ts, p) <==> VisitedBy(rs, p) || VisitedBy(ts, p)
  {
    if i :| 0 <= i < |rs| && Visits(rs[i], p) {
      assert Visits((rs + ts)[i], p);
    }
    if i :| 0 <= i < |ts| && Visits(ts[i], p) {
      assert Visits((rs + ts)[|rs| + i], p);
    }
  }

  lemma VisitedOne(r: Range, p: nat)
    ensures VisitedBy([r], p) <==> Visits(r, p)
  {
    if Visits(r, p) {
      assert Visits([r][0], p);
    }
  }

  lemma PrefixSplit(a: seq<nat>, b: seq<nat>, n: nat)
    ensures Prefix(a + b, n) == if n <= |a| then Prefix(a, n) else a + Prefix(b, n - |a|)
  {
  }

  lemma PrefixOfBuffer(a: nat, m: nat, n: nat)
    ensures Prefix(Addresses(a, m), n) == Addresses(a, if m < n then m else n)
  {
  }

  /** The pages of one descriptor's share of the written bytes. */
  lemma SharePages(d: Desc, len: u32, p: nat)
    requires d.addr + d.len < U64
    ensures VisitedBy(if d.IsWrite() then [Range(d.addr, Written(d, len))] else [], p)
       <==> InPage(Prefix(if d.IsWrite() then Addresses(d.addr, d.len) else [], len), p)
  {
    if d.IsWrite() {
      VisitedOne(Range(d.addr, Written(d, len)), p);
      RangeInPage(d.addr, Written(d, len), p);
      PrefixOfBuffer(d.addr, d.len, len);
      hide Visits, InPage, VisitedBy;
    }
  }

  /** A chain that breaks off makes the walk panic exactly if the written bytes have not
      all been found before. */
  lemma {:induction false} WalkPanicsIff(table: seq<Desc>, i: nat, bufs: nat, len: u32, ds: seq<Desc>, j: nat)
    requires Breaks(table, i, bufs, ds, j) && i < |table| && len > 0
    ensures LogWalk(table, i, bufs, len).1 <==> |WritableAddresses(ds)| < len
    decreases |ds|
  {
    hide Path;
    BreaksRest(table, i, bufs, ds, j);
    var d := ds[0];
    WrittenIs(d, len);
    hide Written, Addresses;
    if |ds| > 1 && Written(d, len) < len {
      WalkPanicsIff(table, d.next, bufs + 1, len - Written(d, len), ds[1..], j);
    }
  }

  lemma {:induction false} WalkPages(table: seq<Desc>, i: nat, bufs: nat, len: u32, ds: seq<Desc>, p: nat)
    requires IsChain(table, i, ds) && bufs + |ds| <= |table| && NoWrap(ds)
    ensures !LogWalk(table, i, bufs, len).1
    ensures VisitedBy(LogWalk(table, i, bufs, len).0, p) <==> InPage(Prefix(WritableAddresses(ds), len), p)
    decreases |ds|
  {
    hide VisitedBy, InPage, Written, Prefix, Addresses, LogWalk;
    var d, n := ds[0], Written(ds[0], len);
    var here := if d.IsWrite() then [Range(d.addr, n)] else [];
    var mine := if d.IsWrite() then Addresses(d.addr, d.len) else [];
    var rest := WritableAddresses(ds[1..]);
    SharePages(d, len, p);
    WrittenIs(d, len);
    WalkStep(table, i, bufs, len, [], here);
    assert [] + LogWalk(table, i, bufs, len).0 == LogWalk(table, i, bufs, len).0 && [] + here == here;
    PrefixSplit(mine, rest, len);
    hide WritableAddresses;
    if len - n != 0 && d.HasNext() {
      WalkPages(table, d.next, bufs + 1, len - n, ds[1..], p);
      VisitedHead(here, LogWalk(table, d.next, bufs + 1, len - n).0, p);
      InPageConcat(mine, Prefix(rest, len - n), p);
      PrefixShort(mine, len);
    } else {
      PrefixShort(rest, len - n);
      PrefixShort(mine, len);
      NoBytes(ds[1..]);
      assert mine + [] == mine;
    }
  }

  lemma NoBytes(ds: seq<Desc>)
    ensures ds == [] ==> WritableAddresses(ds) == []
  {
  }

  lemma PrefixShort(s: seq<nat>, n: nat)
    ensures |s| <= n ==> Prefix(s, n) == s
    ensures s == [] ==> Prefix(s, n) == []
  {
  }

  lemma WrittenIs(d: Desc, len: u32)
    ensures Written(d, len) == if d.IsWrite() then (if d.len < len then d.len else len) else 0
  {
  }

  // ---- one push ----------------------------------------------------------------------------

  const USED_IDX_OFFSET: nat := 2
  const USED_RING_OFFSET: nat := 4
  const USED_ELEM_SIZE: nat := 8

  /** Slot i of the used ring, and its index, in guest memory. */
  function SlotRange(logGuestAddr: u64, i: nat): Range {
    Range((logGuestAddr + USED_RING_OFFSET + USED_ELEM_SIZE * i) % U64, USED_ELEM_SIZE)
  }

  function IdxRange(logGuestAddr: u64): Range {
    Range(Add64(logGuestAddr, USED_IDX_OFFSET), 2)
  }

  /** What a push of a chain logs: its written buffers, the used slot, used->idx. */
  function PushRanges(desc: seq<Desc>, regions: seq<VuRegion>, host: Host, idx: nat, len: u32, logGuestAddr: u64, slot: nat):
    seq<Range>
    requires idx < |desc|
  {
    LogFill(desc, regions, host, idx, len).0 + [SlotRange(logGuestAddr, slot)] + [IdxRange(logGuestAddr)]
  }

  /** The bytes a push writes on the guest's behalf. The used ring starts with two 16-bit
      words, flags and idx, before its elements of two 32-bit words each. */
  function PushBytes(ds: seq<Desc>, len: nat, logGuestAddr: u64, slot: nat): seq<nat> {
    Prefix(WritableAddresses(ds), len)
    + Addresses(logGuestAddr + 4 + 8 * slot, 8)
    + Addresses(logGuestAddr + 2, 2)
  }

  /** Dirty logging is exact: a push of a chain that pops accept logs precisely the pages
      of the first len device-writable bytes, of the used slot and of used->idx. */
  lemma PushPagesExact(desc: seq<Desc>, regions: seq<VuRegion>, host: Host, idx: nat, ds: seq<Desc>,
                       len: u32, logGuestAddr: u64, slot: nat, p: nat)
    requires idx < |desc| && Resolve(desc, regions, host, idx).Some?
    requires var e := Resolve(desc, regions, host, idx).value; IsChain(e.table, e.first, ds) && |ds| <= |e.table|
    requires NoWrap(ds)
    requires logGuestAddr + USED_RING_OFFSET + USED_ELEM_SIZE * (slot + 1) < U64
    ensures !LogFill(desc, regions, host, idx, len).1
    ensures VisitedBy(PushRanges(desc, regions, host, idx, len, logGuestAddr, slot), p)
       <==> InPage(PushBytes(ds, len, logGuestAddr, slot), p)
  {
    hide VisitedBy, InPage, Visits, Resolve, IsChain, LogWalk, Prefix, WritableAddresses;
    var e := Resolve(desc, regions, host, idx).value;
    WalkPages(e.table, e.first, 0, len, ds, p);
    var walk, s, u := LogFill(desc, regions, host, idx, len).0, SlotRange(logGuestAddr, slot), IdxRange(logGuestAddr);
    VisitedHead(walk + [s], [u], p);
    VisitedHead(walk, [s], p);
    VisitedOne(s, p);
    VisitedOne(u, p);
    RangeInPage(s.addr, s.len, p);
    RangeInPage(u.addr, u.len, p);
    var a, b, c := Prefix(WritableAddresses(ds), len), Addresses(s.addr, s.len), Addresses(u.addr, u.len);
    InPageConcat(a + b, c, p);
    InPageConcat(a, b, p);
  }
}
