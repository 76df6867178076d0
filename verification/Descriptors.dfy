/** Descriptors and the memory they live in. */
module Descriptors {
  import opened Machine
  import opened Ring16
  import opened GuestMemory
  import opened LogStore

  const DESC_SIZE: nat := 16

  /** struct vring_desc. */
  datatype Desc = Desc(addr: u64, len: u32, flags: u16, next: u16)
  {
    predicate HasNext() { flags % 2 == 1 }
    predicate IsWrite() { flags / 2 % 2 == 1 }
    predicate IsIndirect() { flags / 4 % 2 == 1 }
  }

  /** The device process's address space. */
  type Host = map<u64, byte>

  function Byte(host: Host, p: u64): byte {
    if p in host then host[p] else 0
  }

  function Read16(host: Host, p: u64): u16 {
    Byte(host, p) + 0x100 * Byte(host, Add64(p, 1))
  }

  function Read32(host: Host, p: u64): u32 {
    Read16(host, p) + 0x1_0000 * Read16(host, Add64(p, 2))
  }

  function Read64(host: Host, p: u64): u64 {
    Read32(host, p) + 0x1_0000_0000 * Read32(host, Add64(p, 4))
  }

  /** The descriptor stored at a host address. */
  function DescAtHost(host: Host, p: u64): Desc {
    Desc(Read64(host, p), Read32(host, Add64(p, 8)), Read16(host, Add64(p, 12)), Read16(host, Add64(p, 14)))
  }

  /** n bytes from a host address on. */
  function BytesAt(host: Host, p: u64, n: nat): (s: seq<byte>)
    ensures |s| == n
  {
    seq<byte>(n, i requires 0 <= i < n => Byte(host, (p + i) % U64))
  }

  // ---- what is stored is what is read ------------------------------------------------

  /** n bytes of a number, least significant first. */
  function Little(v: nat, n: nat): (s: seq<byte>)
    ensures |s| == n
  {
    if n == 0 then [] else [v % 0x100] + Little(v / 0x100, n - 1)
  }

  /** struct vring_desc in memory. */
  function Encode(d: Desc): (s: seq<byte>)
    ensures |s| == DESC_SIZE
  {
    Little(d.addr, 8) + Little(d.len, 4) + Little(d.flags, 2) + Little(d.next, 2)
  }

  lemma {:induction false} LittleSplit(v: nat, m: nat, n: nat, base: nat, hi: nat, lo: nat)
    requires base == Power(m) && v == hi * base + lo && lo < base
    ensures Little(v, m + n) == Little(lo, m) + Little(hi, n)
    decreases m
  {
    if m == 0 {
      assert Little(lo, 0) + Little(hi, n) == Little(hi, n);
    } else {
      var b := Power(m - 1);
      assert hi * base == (hi * b) * 0x100;
      assert v == (hi * b) * 0x100 + lo;
      assert v % 0x100 == lo % 0x100 && v / 0x100 == hi * b + lo / 0x100;
      LittleSplit(v / 0x100, m - 1, n, b, hi, lo / 0x100);
    }
  }

  function Power(n: nat): nat {
    if n == 0 then 1 else 0x100 * Power(n - 1)
  }

  lemma Powers()
    ensures Power(2) == 0x1_0000 && Power(4) == 0x1_0000_0000
  {
    assert Power(0) == 1 && Power(1) == 0x100 && Power(2) == 0x1_0000 && Power(3) == 0x100_0000;
  }

  /** A stretch of a stretch of memory. */
  lemma BytesWithin(host: Host, p: u64, n: nat, k: nat, m: nat)
    requires k + m <= n && k < U64
    ensures BytesAt(host, p, n)[k..k + m] == BytesAt(host, Add64(p, k), m)
  {
    forall i | 0 <= i < m ensures BytesAt(host, p, n)[k..k + m][i] == BytesAt(host, Add64(p, k), m)[i] {
      AddOn(p, k, i);
    }
  }

  lemma AddOn(p: u64, k: u64, i: nat)
    ensures (Add64(p, k) + i) % U64 == (p + (k + i)) % U64
  {
  }

  lemma Read16Stored(host: Host, p: u64, v: u16)
    requires BytesAt(host, p, 2) == Little(v, 2)
    ensures Read16(host, p) == v
  {
    var s := BytesAt(host, p, 2);
    assert s[0] == Byte(host, p) && s[1] == Byte(host, Add64(p, 1));
    assert Little(v, 2) == [v % 0x100] + ([v / 0x100 % 0x100] + Little(v / 0x100 / 0x100, 0));
  }

  lemma Read32Stored(host: Host, p: u64, v: u32)
    requires BytesAt(host, p, 4) == Little(v, 4)
    ensures Read32(host, p) == v
  {
    hide Power;
    var lo: u16, hi: u16 := v % 0x1_0000, v / 0x1_0000;
    Powers();
    LittleSplit(v, 2, 2, 0x1_0000, hi, lo);
    BytesWithin(host, p, 4, 0, 2);
    BytesWithin(host, p, 4, 2, 2);
    assert Little(v, 4)[0..2] == Little(lo, 2) && Little(v, 4)[2..4] == Little(hi, 2);
    assert Add64(p, 0) == p;
    hide BytesAt, Little, Add64, Read16;
    Read16Stored(host, p, lo);
    Read16Stored(host, Add64(p, 2), hi);
  }

  lemma Read64Stored(host: Host, p: u64, v: u64)
    requires BytesAt(host, p, 8) == Little(v, 8)
    ensures Read64(host, p) == v
  {
    hide Power, Byte;
    var lo: u32, hi: u32 := v % 0x1_0000_0000, v / 0x1_0000_0000;
    Powers();
    LittleSplit(v, 4, 4, 0x1_0000_0000, hi, lo);
    BytesWithin(host, p, 8, 0, 4);
    BytesWithin(host, p, 8, 4, 4);
    assert Little(v, 8)[0..4] == Little(lo, 4) && Little(v, 8)[4..8] == Little(hi, 4);
    assert Add64(p, 0) == p;
    hide BytesAt, Little, Add64, Read32;
    Read32Stored(host, p, lo);
    Read32Stored(host, Add64(p, 4), hi);
  }

  /** Reading a descriptor back from the 16 bytes the driver stored, wherever they lie:
      every bit of address, length, flags and next. */
  lemma StoredDescReads(host: Host, p: u64, d: Desc)
    requires BytesAt(host, p, DESC_SIZE) == Encode(d)
    ensures DescAtHost(host, p) == d
  {
    var s := Encode(d);
    BytesWithin(host, p, DESC_SIZE, 0, 8);
    BytesWithin(host, p, DESC_SIZE, 8, 4);
    BytesWithin(host, p, DESC_SIZE, 12, 2);
    BytesWithin(host, p, DESC_SIZE, 14, 2);
    hide BytesAt, Little;
    assert s[0..8] == Little(d.addr, 8) && s[8..12] == Little(d.len, 4);
    assert s[12..14] == Little(d.flags, 2) && s[14..16] == Little(d.next, 2);
    assert Add64(p, 0) == p;
    hide Add64, Read16, Read32, Read64;
    Read64Stored(host, p, d.addr);
    Read32Stored(host, Add64(p, 8), d.len);
    Read16Stored(host, Add64(p, 12), d.flags);
    Read16Stored(host, Add64(p, 14), d.next);
  }

  /** VRING_DESC_F_NEXT, VRING_DESC_F_WRITE and VRING_DESC_F_INDIRECT, next to any other
      flags. */
  lemma FlagBits(d: Desc, next: bool, write: bool, indirect: bool, others: nat)
    requires d.flags == (if next then 1 else 0) + (if write then 2 else 0) + (if indirect then 4 else 0) + 8 * others
    ensures d.HasNext() == next && d.IsWrite() == write && d.IsIndirect() == indirect
  {
  }

  /** Entry k of a table of stored descriptors. */
  lemma StoredTableReads(host: Host, p: u64, ds: seq<Desc>, k: nat)
    requires k < |ds| && DESC_SIZE * |ds| < U64
    requires BytesAt(host, p, DESC_SIZE * |ds|) == EncodeAll(ds)
    ensures DescAtHost(host, (p + DESC_SIZE * k) % U64) == ds[k]
  {
    BytesWithin(host, p, DESC_SIZE * |ds|, DESC_SIZE * k, DESC_SIZE);
    EncodeAllAt(ds, k);
    StoredDescReads(host, Add64(p, DESC_SIZE * k), ds[k]);
  }

  function EncodeAll(ds: seq<Desc>): (s: seq<byte>)
    ensures |s| == DESC_SIZE * |ds|
  {
    if ds == [] then [] else Encode(ds[0]) + EncodeAll(ds[1..])
  }

  lemma {:induction false} EncodeAllAt(ds: seq<Desc>, k: nat)
    requires k < |ds|
    ensures EncodeAll(ds)[DESC_SIZE * k..DESC_SIZE * k + DESC_SIZE] == Encode(ds[k])
    decreases k
  {
    hide Encode;
    if k > 0 {
      EncodeAllAt(ds[1..], k - 1);
      var h, t := Encode(ds[0]), EncodeAll(ds[1..]);
      assert (h + t)[DESC_SIZE * k..DESC_SIZE * k + DESC_SIZE]
          == t[DESC_SIZE * (k - 1)..DESC_SIZE * (k - 1) + DESC_SIZE];
    }
  }
}
