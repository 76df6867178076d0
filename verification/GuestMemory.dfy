/** The guest's memory as the device process sees it: the region table of
    libvhost-user, the map build_mem derives from it, and the two address
    translators that read them. */
module GuestMemory {
  import opened Machine

  const VHOST_USER_MAX_RAM_SLOTS: nat := 32

  /** VuDevRegion. */
  datatype VuRegion = VuRegion(gpa: u64, qva: u64, size: u64, mmapOffset: u64, mmapAddr: u64)

  const NO_REGION := VuRegion(0, 0, 0, 0, 0)

  /** struct virtq_mem_region. */
  datatype Region = Region(gpa: u64, size: u64, hva: u64)

  /** A translated buffer: host address and the length that is valid there. */
  datatype Mapped = Mapped(va: u64, len: u64)

  function Add64(a: u64, b: u64): u64 {
    (a + b) % U64
  }

  // ---- vu_gpa_to_va ---------------------------------------------------------

  /** The region test of vu_gpa_to_va. */
  predicate StartsIn(r: VuRegion, addr: u64) {
    r.gpa <= addr < Add64(r.gpa, r.size)
  }

  /** The buffer at addr inside a region, cut short if it would run off the end. */
  function Within(r: VuRegion, len: u64, addr: u64): Mapped
    requires StartsIn(r, addr)
  {
    var end := Add64(r.gpa, r.size);
    Mapped(Add64(addr - r.gpa, Add64(r.mmapAddr, r.mmapOffset)),
           if Add64(addr, len) > end then end - addr else len)
  }

  /** The first region of a table, from index i on, that contains addr. */
  function FirstAt(regions: seq<VuRegion>, addr: u64, i: nat): (k: nat)
    requires i <= |regions|
    ensures i <= k <= |regions|
    ensures k < |regions| ==> StartsIn(regions[k], addr)
    ensures forall j :: i <= j < k ==> !StartsIn(regions[j], addr)
    decreases |regions| - i
  {
    if i == |regions| || StartsIn(regions[i], addr) then i else FirstAt(regions, addr, i + 1)
  }

  /** What vu_gpa_to_va returns for a table. */
  function GpaToVa(regions: seq<VuRegion>, len: u64, addr: u64): (r: Option<Mapped>)
    ensures r.Some? ==> 0 < r.value.len <= len
  {
    var k := FirstAt(regions, addr, 0);
    if len == 0 || k == |regions| then None else Some(Within(regions[k], len, addr))
  }

  // ---- virtq_gpa_to_hva -------------------------------------------------------

  predicate Holds(r: Region, gpa: u64, len: u64) {
    gpa >= r.gpa && gpa - r.gpa < r.size && len <= r.size - (gpa - r.gpa)
  }

  /** What virtq_gpa_to_hva returns for a map: the first region holding the whole range. */
  function GpaToHva(mem: seq<Region>, gpa: u64, len: u64): (p: Option<u64>)
    ensures p.Some? <==> len > 0 && exists i :: 0 <= i < |mem| && Holds(mem[i], gpa, len)
  {
    if len == 0 || mem == [] then None
    else if Holds(mem[0], gpa, len) then Some(Add64(mem[0].hva, gpa - mem[0].gpa))
    else
      assert forall i :: 0 < i < |mem| ==> mem[i] == mem[1..][i - 1];
      GpaToHva(mem[1..], gpa, len)
  }

  method VirtqGpaToHva(mem: seq<Region>, gpa: u64, len: u64) returns (p: Option<u64>)
    ensures p == GpaToHva(mem, gpa, len)
  {
    if len == 0 {
      return None;
    }
    var i := 0;
    while i < |mem|
      invariant 0 <= i <= |mem|
      invariant GpaToHva(mem, gpa, len) == GpaToHva(mem[i..], gpa, len)
    {
      if gpa >= mem[i].gpa && gpa - mem[i].gpa < mem[i].size && len <= mem[i].size - (gpa - mem[i].gpa) {
        var offset := gpa - mem[i].gpa;
        return Some(Add64(mem[i].hva, offset));
      }
      assert mem[i..][1..] == mem[i + 1..];
      i := i + 1;
    }
    return None;
  }

  // ---- the device's table -------------------------------------------------------

  function AsRegion(r: VuRegion): Region {
    Region(r.gpa, r.size, Add64(r.mmapAddr, r.mmapOffset))
  }

  /** The map build_mem hands to the handler. */
  function BuiltMem(regions: seq<VuRegion>): (mem: seq<Region>)
    ensures |mem| == |regions|
    ensures forall i :: 0 <= i < |regions| ==> mem[i] == AsRegion(regions[i])
  {
    seq(|regions|, i requires 0 <= i < |regions| => AsRegion(regions[i]))
  }

  predicate SameRegion(r: VuRegion, m: VuRegion) {
    r.gpa == m.gpa && r.qva == m.qva && r.size == m.size
  }

  /** The table without the regions a removal request names, in order. */
  function Without(regions: seq<VuRegion>, m: VuRegion): (r: seq<VuRegion>)
    ensures |r| <= |regions|
  {
    if regions == [] then []
    else if SameRegion(regions[0], m) then Without(regions[1..], m)
    else [regions[0]] + Without(regions[1..], m)
  }

  class VuDev {
    const regions: array<VuRegion>
    var nregions: nat
    var broken: bool

    ghost predicate Valid()
      reads this`nregions
    {
      regions.Length == VHOST_USER_MAX_RAM_SLOTS && nregions <= regions.Length
    }

    ghost function Table(): seq<VuRegion>
      requires Valid()
      reads this`nregions, regions
    {
      regions[..nregions]
    }

    constructor ()
      ensures Valid() && fresh(regions) && Table() == [] && !broken
    {
      regions := new VuRegion[VHOST_USER_MAX_RAM_SLOTS](i => NO_REGION);
      nregions := 0;
      broken := false;
    }

    /** vu_gpa_to_va: a search loop. */
    method VuGpaToVa(len: u64, addr: u64) returns (r: Option<Mapped>)
      requires Valid()
      ensures r == GpaToVa(Table(), len, addr)
    {
      if len == 0 {
        return None;
      }
      var i := 0;
      while i < nregions
        invariant 0 <= i <= nregions
        invariant FirstAt(Table(), addr, 0) == FirstAt(Table(), addr, i)
      {
        var g := regions[i];
        if addr >= g.gpa && addr < Add64(g.gpa, g.size) {
          var end := Add64(g.gpa, g.size);
          var valid := len;
          if Add64(addr, len) > end {
            valid := end - addr;
          }
          return Some(Mapped(Add64(addr - g.gpa, Add64(g.mmapAddr, g.mmapOffset)), valid));
        }
        i := i + 1;
      }
      return None;
    }

    /** build_mem: fills the caller's static array. */
    method BuildMem(out: array<Region>) returns (n: nat)
      requires Valid() && out.Length == VHOST_USER_MAX_RAM_SLOTS
      modifies out
      ensures n == nregions && out[..n] == BuiltMem(Table())
    {
      n := 0;
      var i := 0;
      while i < nregions && n < VHOST_USER_MAX_RAM_SLOTS
        invariant n == i <= nregions
        invariant forall k :: 0 <= k < n ==> out[k] == AsRegion(regions[k])
      {
        var r := regions[i];
        out[n] := Region(r.gpa, r.size, Add64(r.mmapAddr, r.mmapOffset));
        n := n + 1;
        i := i + 1;
      }
    }

    /** The memmove and memset of vu_rem_mem_reg: drop entry i, zero the last one. */
    method CloseHole(i: nat)
      requires Valid() && i < nregions
      modifies this`nregions, regions
      ensures nregions == old(nregions) - 1
      ensures regions[..i] == old(regions[..i])
      ensures regions[i..nregions] == old(regions[i + 1..nregions])
      ensures regions[nregions..] == [NO_REGION] + old(regions[nregions..])
    {
      forall k | i <= k < nregions - 1 {
        regions[k] := regions[k + 1];
      }
      regions[nregions - 1] := NO_REGION;
      nregions := nregions - 1;
    }

    /** How far vu_rem_mem_reg has come: the entries kept, those still to look at, what
        was zeroed, and what lies beyond the table. */
    ghost predicate Removing(kept: seq<VuRegion>, rest: seq<VuRegion>, removed: nat, beyond: seq<VuRegion>)
      reads this`nregions, regions
    {
      && Valid() && nregions == |kept| + |rest|
      && regions[..|kept|] == kept && regions[|kept|..nregions] == rest
      && regions[nregions..] == Zeros(removed) + beyond
    }

    /** A matching entry goes. */
    method Drop(i: nat, ghost kept: seq<VuRegion>, ghost rest: seq<VuRegion>, ghost removed: nat, ghost beyond: seq<VuRegion>)
      requires Removing(kept, rest, removed, beyond) && i == |kept| && rest != []
      modifies this`nregions, regions
      ensures Removing(kept, rest[1..], removed + 1, beyond)
    {
      hide Zeros;
      ZerosNext(removed, beyond);
      assert regions[i + 1..nregions] == rest[1..];
      CloseHole(i);
    }

    lemma Keep(kept: seq<VuRegion>, rest: seq<VuRegion>, removed: nat, beyond: seq<VuRegion>)
      requires Removing(kept, rest, removed, beyond) && rest != []
      ensures Removing(kept + [rest[0]], rest[1..], removed, beyond) && regions[|kept|] == rest[0]
    {
      assert regions[|kept|..nregions][0] == regions[|kept|];
    }

    /** vu_rem_mem_reg after the message checks: in-place removal, duplicates included.
        What is left of the table's old length is zeroed, the rest untouched. */
    method VuRemMemReg(m: VuRegion)
      requires Valid()
      modifies this, regions
      ensures Valid() && nregions <= old(nregions)
      ensures Table() == Without(old(Table()), m)
      ensures regions[nregions..] == Zeros(old(nregions) - nregions) + old(regions[nregions..])
      ensures broken == (old(broken) || nregions == old(nregions))
    {
      hide Without, Zeros;
      var found := false;
      var i := 0;
      ghost var kept, rest, removed := [], regions[..nregions], 0;
      ghost var beyond, target := regions[nregions..], Without(regions[..nregions], m);
      ZerosNone(beyond);
      assert kept + target == target;
      while i < nregions
        invariant Removing(kept, rest, removed, beyond) && i == |kept|
        invariant target == kept + Without(rest, m)
        invariant nregions + removed == old(nregions) && (found <==> removed > 0)
        invariant broken == old(broken)
        decreases |rest|
      {
        hide Without, Zeros, Removing;
        assert nregions == |kept| + |rest| && nregions <= regions.Length by {
          RemovingCounts(kept, rest, removed, beyond);
        }
        Keep(kept, rest, removed, beyond);
        if SameRegion(regions[i], m) {
          WithoutDropped(rest, m);
          Drop(i, kept, rest, removed, beyond);
          found, removed, rest := true, removed + 1, rest[1..];
        } else {
          WithoutKept(kept, rest, m);
          kept, rest := kept + [rest[0]], rest[1..];
          i := i + 1;
        }
        RemovingCounts(kept, rest, removed, beyond);
      }
      WithoutNothing(m);
      assert kept + [] == kept;
      if !found {
        broken := true;
      }
    }

    lemma RemovingCounts(kept: seq<VuRegion>, rest: seq<VuRegion>, removed: nat, beyond: seq<VuRegion>)
      requires Removing(kept, rest, removed, beyond)
      ensures Valid() && nregions == |kept| + |rest|
    {
    }
  }

  lemma WithoutDropped(rest: seq<VuRegion>, m: VuRegion)
    requires rest != [] && SameRegion(rest[0], m)
    ensures Without(rest, m) == Without(rest[1..], m)
  {
  }

  lemma WithoutNothing(m: VuRegion)
    ensures Without([], m) == []
  {
  }

  lemma ZerosNone(beyond: seq<VuRegion>)
    ensures Zeros(0) + beyond == beyond
  {
  }

  lemma WithoutKept(kept: seq<VuRegion>, rest: seq<VuRegion>, m: VuRegion)
    requires rest != [] && !SameRegion(rest[0], m)
    ensures kept + Without(rest, m) == (kept + [rest[0]]) + Without(rest[1..], m)
  {
  }

  lemma ZerosNext(n: nat, beyond: seq<VuRegion>)
    ensures [NO_REGION] + (Zeros(n) + beyond) == Zeros(n + 1) + beyond
  {
  }

  function Zeros(n: nat): seq<VuRegion> {
    seq(n, _ => NO_REGION)
  }

  // ---- removal leaves the rest of the table working ---------------------------------

  /** A removal request names the regions with its guest address, user address and size. */
  lemma {:induction false} WithoutExact(regions: seq<VuRegion>, m: VuRegion, r: VuRegion)
    ensures r in Without(regions, m)
       <==> r in regions && !(r.gpa == m.gpa && r.qva == m.qva && r.size == m.size)
  {
    if regions != [] {
      WithoutExact(regions[1..], m, r);
      assert regions == [regions[0]] + regions[1..];
    }
  }

  /** The filter goes through the table in order: with WithoutExact on one region, that
      fixes the result, order and multiplicity included. */
  lemma {:induction false} WithoutOfBoth(a: seq<VuRegion>, b: seq<VuRegion>, m: VuRegion)
    ensures Without(a + b, m) == Without(a, m) + Without(b, m)
    ensures |a| == 1 ==> Without(a, m) == if a[0].gpa == m.gpa && a[0].qva == m.qva && a[0].size == m.size then [] else a
  {
    if a == [] {
      assert a + b == b;
    } else {
      assert (a + b)[1..] == a[1..] + b;
      WithoutOfBoth(a[1..], b, m);
    }
  }

  lemma FirstAfter(regions: seq<VuRegion>, addr: u64)
    requires regions != []
    ensures FirstAt(regions, addr, 0)
         == if StartsIn(regions[0], addr) then 0 else 1 + FirstAt(regions[1..], addr, 0)
  {
    var k, l := FirstAt(regions, addr, 0), FirstAt(regions[1..], addr, 0);
    if !StartsIn(regions[0], addr) {
      assert forall j :: 0 <= j < l ==> regions[1..][j] == regions[j + 1];
      assert forall j :: 1 <= j < k ==> regions[1..][j - 1] == regions[j];
    }
  }

  /** Translation through a surviving region, and failure outside every region, are
      unchanged by a removal. */
  lemma {:induction false} RemovalKeepsSurvivors(regions: seq<VuRegion>, m: VuRegion, len: u64, addr: u64)
    requires var k := FirstAt(regions, addr, 0);
      k < |regions| ==> regions[k].gpa != m.gpa || regions[k].qva != m.qva || regions[k].size != m.size
    ensures GpaToVa(Without(regions, m), len, addr) == GpaToVa(regions, len, addr)
    ensures var k, l := FirstAt(regions, addr, 0), FirstAt(Without(regions, m), addr, 0);
      if k == |regions| then l == |Without(regions, m)|
      else l < |Without(regions, m)| && Without(regions, m)[l] == regions[k]
  {
    if regions != [] {
      FirstAfter(regions, addr);
      if !StartsIn(regions[0], addr) {
        RemovalKeepsSurvivors(regions[1..], m, len, addr);
      }
      var rest := Without(regions[1..], m);
      if !SameRegion(regions[0], m) {
        FirstAfter([regions[0]] + rest, addr);
        assert ([regions[0]] + rest)[1..] == rest;
      }
    }
  }

  /** What a translation means: as many bytes into the first region's mapping as the
      address lies into the region, and the length up to the region's end. */
  lemma TranslationMeans(regions: seq<VuRegion>, len: u64, addr: u64, k: nat)
    requires len > 0 && k < |regions| && regions[k].gpa + regions[k].size < U64 && addr + len < U64
    requires regions[k].gpa <= addr < regions[k].gpa + regions[k].size
    requires forall j :: 0 <= j < k ==> !(regions[j].gpa <= addr < (regions[j].gpa + regions[j].size) % U64)
    ensures var r := regions[k]; var left := r.gpa + r.size - addr;
      GpaToVa(regions, len, addr)
      == Some(Mapped((r.mmapAddr + r.mmapOffset + (addr - r.gpa)) % U64, if len <= left then len else left))
  {
    assert FirstAt(regions, addr, 0) == k by {
      assert forall j :: 0 <= j < k ==> !StartsIn(regions[j], addr);
      assert StartsIn(regions[k], addr);
    }
    WithinMeans(regions[k], len, addr);
    hide StartsIn, Within;
  }

  lemma WithinMeans(r: VuRegion, len: u64, addr: u64)
    requires r.gpa + r.size < U64 && addr + len < U64 && r.gpa <= addr < r.gpa + r.size
    ensures StartsIn(r, addr)
    ensures var left := r.gpa + r.size - addr;
      Within(r, len, addr)
      == Mapped((r.mmapAddr + r.mmapOffset + (addr - r.gpa)) % U64, if len <= left then len else left)
  {
    AddBoth(addr - r.gpa, r.mmapAddr + r.mmapOffset);
  }

  lemma AddBoth(a: nat, b: nat)
    ensures (a + b % U64) % U64 == (b + a) % U64
  {
  }

  // ---- the two translators agree, and where they do not -------------------------------

  ghost predicate Sane(regions: seq<VuRegion>) {
    && (forall i :: 0 <= i < |regions| ==> regions[i].gpa + regions[i].size < U64)
    && (forall i, j :: 0 <= i < j < |regions| ==>
          regions[i].gpa + regions[i].size <= regions[j].gpa || regions[j].gpa + regions[j].size <= regions[i].gpa)
  }

  /** vu_gpa_to_va accepts the whole range, at this address. */
  ghost predicate WholeAt(regions: seq<VuRegion>, len: u64, addr: u64, va: u64) {
    GpaToVa(regions, len, addr) == Some(Mapped(va, len))
  }

  /** The range runs past 2^64 and comes back at or below its region's end. */
  predicate WrapsUnnoticed(regions: seq<VuRegion>, len: u64, addr: u64) {
    var k := FirstAt(regions, addr, 0);
    k < |regions| && addr + len >= U64 && addr + len - U64 <= regions[k].gpa + regions[k].size
  }

  lemma HvaInRegion(regions: seq<VuRegion>, len: u64, addr: u64, k: nat)
    requires Sane(regions) && k < |regions| && StartsIn(regions[k], addr)
    ensures len > 0 && Holds(AsRegion(regions[k]), addr, len)
        ==> GpaToHva(BuiltMem(regions), addr, len)
            == Some(Add64(AsRegion(regions[k]).hva, addr - regions[k].gpa))
    ensures !Holds(AsRegion(regions[k]), addr, len) ==> GpaToHva(BuiltMem(regions), addr, len) == None
  {
    var mem := BuiltMem(regions);
    assert forall j :: 0 <= j < |regions| && j != k ==> !Holds(mem[j], addr, len) by {
      forall j | 0 <= j < |regions| && j != k ensures !Holds(mem[j], addr, len) {
        assert mem[j] == AsRegion(regions[j]);
      }
    }
    assert mem[k] == AsRegion(regions[k]);
    OnlyHolder(mem, addr, len, k);
  }

  lemma {:induction false} OnlyHolder(mem: seq<Region>, gpa: u64, len: u64, k: nat)
    requires k < |mem| && forall j :: 0 <= j < |mem| && j != k ==> !Holds(mem[j], gpa, len)
    ensures len > 0 && Holds(mem[k], gpa, len)
        ==> GpaToHva(mem, gpa, len) == Some(Add64(mem[k].hva, gpa - mem[k].gpa))
    ensures !Holds(mem[k], gpa, len) ==> GpaToHva(mem, gpa, len) == None
    decreases k
  {
    if k > 0 {
      OnlyHolder(mem[1..], gpa, len, k - 1);
    }
  }

  lemma Add64Assoc(a: u64, b: u64, c: u64)
    ensures Add64(Add64(a, b), c) == Add64(c, Add64(a, b))
  {
  }

  /** For disjoint regions that end below 2^64, virtq_gpa_to_hva over build_mem's map
      returns a pointer exactly when vu_gpa_to_va accepts the whole range at that
      pointer, if and only if the range does not wrap past 2^64 unnoticed. */
  lemma TranslatorsAgreeIff(regions: seq<VuRegion>, len: u64, addr: u64)
    requires Sane(regions)
    ensures (forall va: u64 :: GpaToHva(BuiltMem(regions), addr, len) == Some(va) <==> WholeAt(regions, len, addr, va))
        <==> !WrapsUnnoticed(regions, len, addr)
  {
    var k := FirstAt(regions, addr, 0);
    if k < |regions| {
      var r := regions[k];
      assert Add64(r.gpa, r.size) == r.gpa + r.size;
      HvaInRegion(regions, len, addr, k);
      var va := Add64(addr - r.gpa, Add64(r.mmapAddr, r.mmapOffset));
      Add64Assoc(r.mmapAddr, r.mmapOffset, addr - r.gpa);
      if WrapsUnnoticed(regions, len, addr) {
        assert WholeAt(regions, len, addr, va);
      }
    } else {
      forall i | 0 <= i < |regions| ensures !Holds(BuiltMem(regions)[i], addr, len) {
        assert !StartsIn(regions[i], addr);
        assert Add64(regions[i].gpa, regions[i].size) == regions[i].gpa + regions[i].size;
      }
    }
  }

  /** A region just below 2^64 and a range that leaves it, passes 2^64 and comes back
      below the region: vu_gpa_to_va takes all of it, virtq_gpa_to_hva refuses. */
  lemma TranslatorsDisagree()
    ensures var regions := [VuRegion(U64 - 0x2000, 0, 0x1000, 0, 0x1000)]; var gpa := U64 - 0x2000;
      && Sane(regions) && WrapsUnnoticed(regions, 0x3000, gpa)
      && GpaToVa(regions, 0x3000, gpa) == Some(Mapped(0x1000, 0x3000))
      && GpaToHva(BuiltMem(regions), gpa, 0x3000) == None
  {
    var regions := [VuRegion(U64 - 0x2000, 0, 0x1000, 0, 0x1000)];
    assert FirstAt(regions, U64 - 0x2000, 0) == 0;
    assert BuiltMem(regions)[1..] == [];
  }
}
