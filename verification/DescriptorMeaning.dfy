/** What vu_queue_map_desc's result means: which chains it accepts, and which guest
    bytes the buffers it returns are. */
module DescriptorMeaning {
  import opened Machine
  import opened Ring16
  import opened GuestMemory
  import opened Descriptors
  import opened DescriptorMap

  /** ds is the chain that starts at descriptor i of a table and ends properly. */
  ghost predicate IsChain(table: seq<Desc>, i: nat, ds: seq<Desc>)
    decreases |ds|
  {
    && ds != [] && i < |table| && ds[0] == table[i]
    && (if ds[0].HasNext() then IsChain(table, ds[0].next, ds[1..]) else |ds| == 1)
  }

  /** ds leads from descriptor i of a table to descriptor j. */
  ghost predicate Path(table: seq<Desc>, i: nat, ds: seq<Desc>, j: nat)
    decreases |ds|
  {
    if ds == [] then i == j
    else i < |table| && ds[0] == table[i] && ds[0].HasNext() && Path(table, ds[0].next, ds[1..], j)
  }

  /** From descriptor i on, after bufs others, the chain goes through ds and breaks off:
      its next index is out of range, or it has more descriptors than the table. */
  ghost predicate Breaks(table: seq<Desc>, i: nat, bufs: nat, ds: seq<Desc>, j: nat) {
    && ds != [] && bufs + |ds| <= |table| && Path(table, i, ds, j)
    && (j >= |table| || bufs + |ds| == |table|)
  }

  lemma BreaksRest(table: seq<Desc>, i: nat, bufs: nat, ds: seq<Desc>, j: nat)
    requires Breaks(table, i, bufs, ds, j)
    ensures i < |table| && ds[0] == table[i] && ds[0].HasNext() && ds == [ds[0]] + ds[1..]
    ensures |ds| > 1 ==> Breaks(table, ds[0].next, bufs + 1, ds[1..], j) && ds[0].next < |table|
    ensures |ds| == 1 ==> ds[0].next == j
  {
    var rest := ds[1..];
    assert Path(table, ds[0].next, rest, j);
    assert |ds| == 1 ==> rest == [];
  }

  /** Every chain ends properly or breaks off. */
  lemma {:induction false} EndsOrBreaks(table: seq<Desc>, i: nat, bufs: nat) returns (ds: seq<Desc>, j: nat)
    requires i < |table| && bufs < |table|
    ensures Breaks(table, i, bufs, ds, j) || (IsChain(table, i, ds) && bufs + |ds| <= |table|)
    decreases |table| - bufs
  {
    var d := table[i];
    ds, j := [d], d.next;
    assert ds[1..] == [] && Path(table, d.next, ds[1..], j);
    if d.HasNext() && d.next < |table| && bufs + 1 < |table| {
      var rest: seq<Desc>;
      rest, j := EndsOrBreaks(table, d.next, bufs + 1);
      ds := [d] + rest;
      assert ds[1..] == rest;
    }
  }

  function Readables(ds: seq<Desc>): (r: seq<Desc>) {
    if ds == [] then [] else (if ds[0].IsWrite() then [] else [ds[0]]) + Readables(ds[1..])
  }

  function Writables(ds: seq<Desc>): (r: seq<Desc>) {
    if ds == [] then [] else (if ds[0].IsWrite() then [ds[0]] else []) + Writables(ds[1..])
  }

  /** Device-writable descriptors come after all device-readable ones. */
  ghost predicate Ordered(ds: seq<Desc>) {
    forall i, j :: 0 <= i < j < |ds| ==> ds[i].IsWrite() ==> ds[j].IsWrite()
  }

  /** The pieces of a list of buffers, or None if one is empty or not wholly mapped. */
  function AllPieces(regions: seq<VuRegion>, ds: seq<Desc>): (r: Option<seq<Mapped>>)
    ensures r.Some? ==> |r.value| >= |ds|
  {
    if ds == [] then Some([])
    else if ds[0].len == 0 then None
    else
      match Pieces(regions, ds[0].addr, ds[0].len)
      case None => None
      case Some(p) =>
        match AllPieces(regions, ds[1..])
        case None => None
        case Some(q) => Some(p + q)
  }

  /** The chains vu_queue_map_desc accepts. */
  ghost predicate Acceptable(regions: seq<VuRegion>, limit: nat, ds: seq<Desc>) {
    && Ordered(ds)
    && AllPieces(regions, ds).Some?
    && |AllPieces(regions, ds).value| <= limit
  }

  // ---- accepted chains, exactly ------------------------------------------------------

  /** The pieces of a chain, split after its first descriptor. */
  lemma PiecesHead(regions: seq<VuRegion>, ds: seq<Desc>)
    requires ds != []
    ensures ds[0].len == 0 || Pieces(regions, ds[0].addr, ds[0].len).None? ==> AllPieces(regions, ds).None?
    ensures ds[0].len > 0 && Pieces(regions, ds[0].addr, ds[0].len).Some? ==>
      var p := Pieces(regions, ds[0].addr, ds[0].len).value;
      var rest := ds[1..];
      && (AllPieces(regions, ds) == match AllPieces(regions, rest) case None => None case Some(q) => Some(p + q))
      && (if ds[0].IsWrite()
          then
            && Readables(ds) == Readables(rest)
            && AllPieces(regions, Writables(ds)) ==
                 match AllPieces(regions, Writables(rest)) case None => None case Some(q) => Some(p + q)
          else
            && Writables(ds) == Writables(rest)
            && AllPieces(regions, Readables(ds)) ==
                 match AllPieces(regions, Readables(rest)) case None => None case Some(q) => Some(p + q))
  {
    hide Pieces;
    var r, w := Readables(ds[1..]), Writables(ds[1..]);
    assert ([ds[0]] + r)[1..] == r && ([ds[0]] + w)[1..] == w;
    assert [] + r == r && [] + w == w;
  }

  lemma {:induction false} SplitPieces(regions: seq<VuRegion>, ds: seq<Desc>)
    ensures AllPieces(regions, ds).Some? <==>
      AllPieces(regions, Readables(ds)).Some? && AllPieces(regions, Writables(ds)).Some?
    ensures AllPieces(regions, ds).Some? ==>
      |AllPieces(regions, ds).value|
        == |AllPieces(regions, Readables(ds)).value| + |AllPieces(regions, Writables(ds)).value|
  {
    hide Pieces;
    if ds != [] {
      SplitPieces(regions, ds[1..]);
      PiecesHead(regions, ds);
      if ds[0].len == 0 || Pieces(regions, ds[0].addr, ds[0].len).None? {
        var r, w := Readables(ds[1..]), Writables(ds[1..]);
        assert Readables(ds) == [ds[0]] + r || Writables(ds) == [ds[0]] + w;
        PiecesHead(regions, [ds[0]] + r);
        PiecesHead(regions, [ds[0]] + w);
      }
      hide AllPieces, Readables, Writables;
    }
  }

  lemma OrderedTail(ds: seq<Desc>)
    requires ds != []
    ensures Ordered(ds) <==>
      Ordered(ds[1..]) && (ds[0].IsWrite() ==> forall i :: 0 <= i < |ds[1..]| ==> ds[1..][i].IsWrite())
  {
    if Ordered(ds[1..]) && (ds[0].IsWrite() ==> forall i :: 0 <= i < |ds[1..]| ==> ds[1..][i].IsWrite()) {
      forall i, j | 0 <= i < j < |ds| && ds[i].IsWrite() ensures ds[j].IsWrite() {
        assert ds[j] == ds[1..][j - 1];
        if i > 0 {
          assert ds[i] == ds[1..][i - 1];
        }
      }
    }
  }

  /** A chain that may follow what has been mapped so far. */
  ghost predicate Follows(inSg: seq<Mapped>, ds: seq<Desc>) {
    Ordered(ds) && (inSg != [] ==> forall i :: 0 <= i < |ds| ==> ds[i].IsWrite())
  }

  /** The walk's result on a proper chain, from any point on. */
  ghost predicate Collected(regions: seq<VuRegion>, table: seq<Desc>, outSg: seq<Mapped>, inSg: seq<Mapped>,
                            ds: seq<Desc>, r: Option<(seq<Mapped>, seq<Mapped>)>) {
    if Follows(inSg, ds) && AllPieces(regions, ds).Some?
       && |outSg| + |inSg| + |AllPieces(regions, ds).value| <= Limit(table)
    then
      && AllPieces(regions, Readables(ds)).Some? && AllPieces(regions, Writables(ds)).Some?
      && r == Some((outSg + AllPieces(regions, Readables(ds)).value, inSg + AllPieces(regions, Writables(ds)).value))
    else r == None
  }

  lemma FollowsStep(inSg: seq<Mapped>, ds: seq<Desc>, p: seq<Mapped>)
    requires ds != [] && p != []
    ensures Follows(inSg, ds) <==>
      (ds[0].IsWrite() || inSg == []) && Follows(if ds[0].IsWrite() then inSg + p else inSg, ds[1..])
  {
    OrderedTail(ds);
    hide Ordered;
    var w := if ds[0].IsWrite() then inSg + p else inSg;
    if inSg != [] {
      assert w != [];
      if ds[0].IsWrite() && forall i :: 0 <= i < |ds[1..]| ==> ds[1..][i].IsWrite() {
        forall i | 0 <= i < |ds| ensures ds[i].IsWrite() {
          if i > 0 {
            assert ds[i] == ds[1..][i - 1];
          }
        }
      }
    }
  }

  lemma {:induction false} CollectChain(regions: seq<VuRegion>, table: seq<Desc>, i: nat,
                                       outSg: seq<Mapped>, inSg: seq<Mapped>, ds: seq<Desc>)
    requires IsChain(table, i, ds) && |outSg| + |inSg| <= Limit(table)
    ensures Collected(regions, table, outSg, inSg, ds, Collect(regions, table, i, outSg, inSg))
    decreases |ds|
  {
    hide Pieces, Follows, AllPieces, Readables, Writables;
    var d, rest := ds[0], ds[1..];
    SplitPieces(regions, ds);
    SplitPieces(regions, rest);
    PiecesHead(regions, ds);
    if d.len > 0 && Pieces(regions, d.addr, d.len).Some? {
      var p := Pieces(regions, d.addr, d.len).value;
      FollowsStep(inSg, ds, p);
      var e := Extend(regions, d, outSg, inSg);
      if e.Some? && |e.value.0| + |e.value.1| <= |table| {
        if d.HasNext() {
          CollectChain(regions, table, d.next, e.value.0, e.value.1, rest);
          CollectJoin(regions, d, outSg, inSg, p, rest);
        } else {
          assert rest == [];
          NoPieces(regions);
        }
      }
    }
  }

  lemma CollectJoin(regions: seq<VuRegion>, d: Desc, o: seq<Mapped>, w: seq<Mapped>, p: seq<Mapped>, rest: seq<Desc>)
    ensures AllPieces(regions, Readables(rest)).Some? ==>
      (o + p) + AllPieces(regions, Readables(rest)).value == o + (p + AllPieces(regions, Readables(rest)).value)
    ensures AllPieces(regions, Writables(rest)).Some? ==>
      (w + p) + AllPieces(regions, Writables(rest)).value == w + (p + AllPieces(regions, Writables(rest)).value)
  {
  }

  lemma NoPieces(regions: seq<VuRegion>)
    ensures AllPieces(regions, []) == Some([]) && Readables([]) == [] && Writables([]) == []
    ensures forall w :: Follows(w, [])
    ensures forall s: seq<Mapped> :: s + [] == s
  {
  }

  /** A walk that succeeds has followed a proper chain. */
  lemma {:induction false} CollectTrace(regions: seq<VuRegion>, table: seq<Desc>, i: nat,
                                       outSg: seq<Mapped>, inSg: seq<Mapped>) returns (ds: seq<Desc>)
    requires i < |table| && |outSg| + |inSg| <= Limit(table)
    requires Collect(regions, table, i, outSg, inSg).Some?
    ensures IsChain(table, i, ds)
    decreases Limit(table) - |outSg| - |inSg|
  {
    hide Pieces, Buffer;
    var d := table[i];
    if d.HasNext() {
      var e := Extend(regions, d, outSg, inSg).value;
      var rest := CollectTrace(regions, table, d.next, e.0, e.1);
      ds := [d] + rest;
      assert ds[1..] == rest;
    } else {
      ds := [d];
    }
  }

  lemma {:induction false} ChainUnique(table: seq<Desc>, i: nat, a: seq<Desc>, b: seq<Desc>)
    requires IsChain(table, i, a) && IsChain(table, i, b)
    ensures a == b
    decreases |a|
  {
    if a[0].HasNext() {
      ChainUnique(table, a[0].next, a[1..], b[1..]);
    }
    assert a == [a[0]] + a[1..] && b == [b[0]] + b[1..];
  }

  /** vu_queue_map_desc succeeds exactly on a proper, ordered, mapped chain that needs at
      most VIRTQUEUE_MAX_SIZE pieces and no more than its table has entries; it returns
      the pieces of the readable buffers in order, then those of the writable ones. */
  lemma MapDescIff(desc: seq<Desc>, regions: seq<VuRegion>, host: Host, idx: nat)
    requires idx < |desc|
    ensures var e, m := Resolve(desc, regions, host, idx), MapDesc(desc, regions, host, idx);
      && (m.Some? <==> e.Some? && exists ds :: IsChain(e.value.table, e.value.first, ds)
                                               && Acceptable(regions, Limit(e.value.table), ds))
      && (m.Some? ==> forall ds :: IsChain(e.value.table, e.value.first, ds) ==>
            && Some(m.value.outSg) == AllPieces(regions, Readables(ds))
            && Some(m.value.inSg) == AllPieces(regions, Writables(ds))
            && |m.value.outSg| + |m.value.inSg| <= Limit(e.value.table)
            && |ds| <= Limit(e.value.table)
            && m.value.index == idx)
  {
    hide Pieces, AllPieces, Readables, Writables, Collect, Ordered, Resolve;
    var e := Resolve(desc, regions, host, idx);
    if e.Some? {
      var table, i := e.value.table, e.value.first;
      forall ds | IsChain(table, i, ds)
        ensures Collected(regions, table, [], [], ds, Collect(regions, table, i, [], []))
      {
        CollectChain(regions, table, i, [], [], ds);
      }
      if Collect(regions, table, i, [], []).Some? {
        var ds := CollectTrace(regions, table, i, [], []);
        forall d | IsChain(table, i, d) ensures d == ds {
          ChainUnique(table, i, d, ds);
        }
        SplitPieces(regions, ds);
        AfterNothing(regions, ds);
        assert Acceptable(regions, Limit(table), ds);
      }
    }
  }

  lemma AfterNothing(regions: seq<VuRegion>, ds: seq<Desc>)
    ensures AllPieces(regions, Readables(ds)).Some? ==>
      [] + AllPieces(regions, Readables(ds)).value == AllPieces(regions, Readables(ds)).value
    ensures AllPieces(regions, Writables(ds)).Some? ==>
      [] + AllPieces(regions, Writables(ds)).value == AllPieces(regions, Writables(ds)).value
  {
  }

  // ---- which bytes the buffers are ------------------------------------------------------

  /** The host address of one guest byte. */
  function ByteVa(regions: seq<VuRegion>, a: u64): Option<u64> {
    match GpaToVa(regions, 1, a)
    case None => None
    case Some(m) => Some(m.va)
  }

  /** The host addresses of a guest range, byte by byte. */
  function RangeVas(regions: seq<VuRegion>, pa: nat, sz: nat): (r: seq<Option<u64>>)
    requires pa + sz <= U64
    ensures |r| == sz
  {
    seq<Option<u64>>(sz, k requires 0 <= k < sz => ByteVa(regions, pa + k))
  }

  /** The host addresses of a buffer. */
  function PieceVas(m: Mapped): seq<Option<u64>> {
    seq<Option<u64>>(m.len, k requires 0 <= k < m.len => Some(Add64(m.va, k)))
  }

  function AllVas(p: seq<Mapped>): seq<Option<u64>> {
    if p == [] then [] else PieceVas(p[0]) + AllVas(p[1..])
  }

  /** A buffer that lies in one region. */
  ghost predicate InOneRegion(regions: seq<VuRegion>, m: Mapped) {
    exists k, off: u64 :: 0 <= k < |regions| && InRegion(regions[k], off, m)
  }

  predicate InRegion(r: VuRegion, off: u64, m: Mapped) {
    off + m.len <= r.size && m.va == Add64(off, Add64(r.mmapAddr, r.mmapOffset))
  }

  lemma OnlyRegion(regions: seq<VuRegion>, a: u64, k: nat)
    requires Sane(regions) && k < |regions| && regions[k].gpa <= a < regions[k].gpa + regions[k].size
    ensures FirstAt(regions, a, 0) == k
    ensures GpaToVa(regions, 1, a).Some?
    ensures ByteVa(regions, a) == Some(Add64(a - regions[k].gpa, Add64(regions[k].mmapAddr, regions[k].mmapOffset)))
  {
    var j := FirstAt(regions, a, 0);
    assert StartsIn(regions[k], a);
    assert Add64(regions[j].gpa, regions[j].size) == regions[j].gpa + regions[j].size;
  }

  /** A piece is one stretch of one region, byte for byte. */
  lemma PieceMeaning(regions: seq<VuRegion>, pa: u64, sz: u64)
    requires Sane(regions) && pa + sz < U64 && GpaToVa(regions, sz, pa).Some?
    ensures var m := GpaToVa(regions, sz, pa).value;
      && InOneRegion(regions, m)
      && PieceVas(m) == RangeVas(regions, pa, m.len)
  {
    var m := GpaToVa(regions, sz, pa).value;
    var k := FirstAt(regions, pa, 0);
    var r := regions[k];
    assert Add64(r.gpa, r.size) == r.gpa + r.size;
    assert InRegion(r, pa - r.gpa, m);
    forall j | 0 <= j < m.len ensures PieceVas(m)[j] == RangeVas(regions, pa, m.len)[j] {
      OnlyRegion(regions, pa + j, k);
      AddTwice(pa - r.gpa, Add64(r.mmapAddr, r.mmapOffset), j);
    }
  }

  lemma AddTwice(a: u64, b: u64, j: u64)
    requires a + j < U64
    ensures Add64(Add64(a, b), j) == Add64(a + j, b)
  {
  }

  /** A guest range is cut into pieces exactly when all of it is mapped, and the pieces
      are the range, byte for byte, each within one region. */
  lemma {:induction false} PiecesMeaning(regions: seq<VuRegion>, pa: u64, sz: u64)
    requires Sane(regions) && pa + sz < U64
    ensures Pieces(regions, pa, sz).Some? <==> None !in RangeVas(regions, pa, sz)
    ensures Pieces(regions, pa, sz).Some? ==>
      && AllVas(Pieces(regions, pa, sz).value) == RangeVas(regions, pa, sz)
      && forall m :: m in Pieces(regions, pa, sz).value ==> InOneRegion(regions, m)
    decreases sz
  {
    hide GpaToVa, ByteVa, InOneRegion;
    if sz > 0 {
      var all := RangeVas(regions, pa, sz);
      if GpaToVa(regions, sz, pa).None? {
        UnmappedStart(regions, pa, sz);
        assert all[0] == None;
      } else {
        var m := GpaToVa(regions, sz, pa).value;
        PieceMeaning(regions, pa, sz);
        PiecesMeaning(regions, pa + m.len, sz - m.len);
        assert all == RangeVas(regions, pa, m.len) + RangeVas(regions, pa + m.len, sz - m.len);
        assert None !in PieceVas(m);
        if Pieces(regions, pa, sz).Some? {
          var rest := Pieces(regions, pa + m.len, sz - m.len).value;
          assert Pieces(regions, pa, sz).value == [m] + rest;
          assert ([m] + rest)[1..] == rest;
        }
      }
    }
  }

  lemma UnmappedStart(regions: seq<VuRegion>, pa: u64, sz: u64)
    requires sz > 0 && GpaToVa(regions, sz, pa).None?
    ensures ByteVa(regions, pa) == None
  {
  }

  /** The driver's buffers end below 2^64. */
  ghost predicate NoWrap(ds: seq<Desc>) {
    forall i :: 0 <= i < |ds| ==> ds[i].addr + ds[i].len < U64
  }

  /** The host addresses of the buffers of a chain, in chain order. */
  function ChainVas(regions: seq<VuRegion>, ds: seq<Desc>): seq<Option<u64>>
    requires NoWrap(ds)
  {
    if ds == [] then [] else RangeVas(regions, ds[0].addr, ds[0].len) + ChainVas(regions, ds[1..])
  }

  lemma {:induction false} AllVasConcat(p: seq<Mapped>, q: seq<Mapped>)
    ensures AllVas(p + q) == AllVas(p) + AllVas(q)
  {
    hide PieceVas;
    if p == [] {
      assert [] + q == q;
    } else {
      assert (p + q)[1..] == p[1..] + q;
      AllVasConcat(p[1..], q);
    }
  }

  lemma {:induction false} AllPiecesMeaning(regions: seq<VuRegion>, ds: seq<Desc>)
    requires Sane(regions) && NoWrap(ds)
    ensures AllPieces(regions, ds).Some?
       <==> None !in ChainVas(regions, ds) && forall i :: 0 <= i < |ds| ==> ds[i].len > 0
    ensures AllPieces(regions, ds).Some? ==>
      && AllVas(AllPieces(regions, ds).value) == ChainVas(regions, ds)
      && forall m :: m in AllPieces(regions, ds).value ==> InOneRegion(regions, m)
  {
    hide Pieces, RangeVas, InOneRegion, Sane;
    if ds != [] {
      PiecesMeaning(regions, ds[0].addr, ds[0].len);
      AllPiecesMeaning(regions, ds[1..]);
      assert ds == [ds[0]] + ds[1..];
      if AllPieces(regions, ds).Some? {
        AllVasConcat(Pieces(regions, ds[0].addr, ds[0].len).value, AllPieces(regions, ds[1..]).value);
      }
    }
  }

  lemma {:induction false} PartsNoWrap(ds: seq<Desc>)
    requires NoWrap(ds)
    ensures NoWrap(Readables(ds)) && NoWrap(Writables(ds))
  {
    if ds != [] {
      PartsNoWrap(ds[1..]);
    }
  }

  /** On success the readable buffers are, byte for byte and in order, the chain's
      device-readable guest ranges, the writable ones its device-writable ranges, every
      byte of them is mapped, and each buffer lies in one region. */
  lemma MapDescBytes(desc: seq<Desc>, regions: seq<VuRegion>, host: Host, idx: nat, ds: seq<Desc>)
    requires idx < |desc| && Sane(regions) && NoWrap(ds)
    requires Resolve(desc, regions, host, idx).Some? && MapDesc(desc, regions, host, idx).Some?
    requires var e := Resolve(desc, regions, host, idx).value; IsChain(e.table, e.first, ds)
    ensures NoWrap(Readables(ds)) && NoWrap(Writables(ds))
    ensures var m := MapDesc(desc, regions, host, idx).value;
      && AllVas(m.outSg) == ChainVas(regions, Readables(ds)) && None !in ChainVas(regions, Readables(ds))
      && AllVas(m.inSg) == ChainVas(regions, Writables(ds)) && None !in ChainVas(regions, Writables(ds))
      && forall b :: b in m.outSg + m.inSg ==> InOneRegion(regions, b)
  {
    hide Resolve, MapDesc, AllPieces, Readables, Writables, AllVas, ChainVas, InOneRegion, Sane, NoWrap;
    MapDescIff(desc, regions, host, idx);
    PartsNoWrap(ds);
    AllPiecesMeaning(regions, Readables(ds));
    AllPiecesMeaning(regions, Writables(ds));
  }

  /** A range that runs past 2^64 and comes back at or below its region's end is taken
      whole, although the part beyond the region is not mapped there. */
  lemma WrappedPiece(regions: seq<VuRegion>, pa: u64, sz: u64)
    requires Sane(regions) && WrapsUnnoticed(regions, sz, pa)
    ensures Pieces(regions, pa, sz).Some? && |Pieces(regions, pa, sz).value| == 1
    ensures Pieces(regions, pa, sz).value[0].len == sz
    ensures regions[FirstAt(regions, pa, 0)].gpa + regions[FirstAt(regions, pa, 0)].size < pa + sz
  {
    var k := FirstAt(regions, pa, 0);
    var r := regions[k];
    assert Add64(r.gpa, r.size) == r.gpa + r.size;
    assert sz > 0;
    var m := GpaToVa(regions, sz, pa).value;
    assert m.len == sz;
    assert Pieces(regions, Add64(pa, sz), 0) == Some([]);
  }
}
