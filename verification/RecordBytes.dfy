/** Which bytes the log handler emits for a chain: from the descriptors the driver wrote
    and the bytes in its buffers to the records in the log. */
module RecordBytes {
  import opened Machine
  import opened GuestMemory
  import opened LogStore
  import opened WireFormat
  import opened Descriptors
  import opened DescriptorMap
  import opened DescriptorMeaning
  import opened VirtqHandler

  /** What a buffer is worth: nothing if VRING_DESC_F_WRITE is set or part of it is
      unmapped, otherwise the bytes at its host address. */
  ghost predicate PartOf(env: Env, d: Desc, part: seq<byte>) {
    match GpaToHva(env.mem, d.addr, d.len)
    case None => part == []
    case Some(va) =>
      if d.flags / 2 % 2 == 1 then part == []
      else |part| == d.len && forall k :: 0 <= k < d.len ==> part[k] == Byte(env.host, (va + k) % U64)
  }

  ghost predicate PartsOf(env: Env, ds: seq<Desc>, parts: seq<seq<byte>>) {
    |parts| == |ds| && forall i :: 0 <= i < |ds| ==> PartOf(env, ds[i], parts[i])
  }

  function Concat(parts: seq<seq<byte>>): seq<byte> {
    if parts == [] then [] else parts[0] + Concat(parts[1..])
  }

  ghost predicate NoneIndirect(ds: seq<Desc>) {
    forall i :: 0 <= i < |ds| ==> ds[i].flags / 4 % 2 == 0
  }

  lemma PartIsPayload(env: Env, d: Desc, part: seq<byte>)
    requires PartOf(env, d, part)
    ensures Payload(env, d) == part
  {
    hide GpaToHva;
  }

  lemma {:induction false} PartsArePayloads(env: Env, ds: seq<Desc>, parts: seq<seq<byte>>)
    requires PartsOf(env, ds, parts)
    ensures Payloads(env, ds) == Concat(parts)
  {
    hide PartOf, Payload;
    if ds != [] {
      PartIsPayload(env, ds[0], parts[0]);
      PartsArePayloads(env, ds[1..], parts[1..]);
    }
  }

  /** One data descriptor of the walker's chain. */
  lemma ChainStep(env: Env, t: Table, i: nat, k: nat, d: Desc)
    requires k > 0 && i < Size(env, t) && DescAt(env, t, i) == d && d.flags / 4 % 2 == 0
    ensures Chain(env, t, i, k) == [d] + (if d.HasNext() then Chain(env, t, d.next, k - 1) else [])
    ensures NotNested(env, t, i, k) == (d.HasNext() ==> NotNested(env, t, d.next, k - 1))
  {
    hide DescAt, Target;
  }

  /** An indirect descriptor of the queue's own table. */
  lemma ChainOver(env: Env, j: nat, k: nat, t: Table)
    requires k > 0 && j < |env.desc| && env.desc[j].flags / 4 % 2 == 1 && Target(env, env.desc[j]) == Some(t)
    ensures Chain(env, Ring, j, k) == Chain(env, t, 0, k)
    ensures NotNested(env, Ring, j, k) == NotNested(env, t, 0, k)
  {
    hide DescAtHost, Target;
  }

  lemma RingDesc(env: Env, i: nat)
    requires i < |env.desc|
    ensures Size(env, Ring) == |env.desc| && DescAt(env, Ring, i) == env.desc[i]
  {
  }

  /** The walker's chain through a table is the proper chain that lies in it. */
  lemma {:induction false} ChainProper(env: Env, t: Table, table: seq<Desc>, i: nat, ds: seq<Desc>, k: nat)
    requires |table| == Size(env, t) && forall n :: 0 <= n < |table| ==> DescAt(env, t, n) == table[n]
    requires IsChain(table, i, ds) && NoneIndirect(ds) && |ds| <= k
    ensures Chain(env, t, i, k) == ds && NotNested(env, t, i, k)
    decreases |ds|
  {
    hide DescAt, Size, Chain, NotNested;
    ChainStep(env, t, i, k, ds[0]);
    assert ds == [ds[0]] + ds[1..];
    if ds[0].HasNext() {
      ChainProper(env, t, table, ds[0].next, ds[1..], k - 1);
    }
  }

  lemma {:induction false} ChainPath(env: Env, i: nat, ds: seq<Desc>, j: nat, k: nat)
    requires Path(env.desc, i, ds, j) && NoneIndirect(ds) && |ds| <= k
    ensures Chain(env, Ring, i, k) == ds + Chain(env, Ring, j, k - |ds|)
    ensures NotNested(env, Ring, i, k) == NotNested(env, Ring, j, k - |ds|)
    decreases |ds|
  {
    hide DescAt, Size, Chain, NotNested;
    if ds == [] {
      assert [] + Chain(env, Ring, j, k) == Chain(env, Ring, j, k);
    } else {
      RingDesc(env, i);
      ChainStep(env, Ring, i, k, ds[0]);
      ChainPath(env, ds[0].next, ds[1..], j, k - 1);
      AppendPath(ds, Chain(env, Ring, j, k - |ds|));
    }
  }

  lemma AppendPath(ds: seq<Desc>, rest: seq<Desc>)
    requires ds != []
    ensures ds + rest == [ds[0]] + (ds[1..] + rest)
  {
  }

  /** The first 4096 bytes. */
  predicate Clipped(all: seq<byte>, rec: seq<byte>) {
    rec == if |all| <= 4096 then all else all[..4096]
  }

  /** A chain in the queue's own table: its record is the first 4096 bytes of its
      device-readable, wholly mapped buffers in chain order. */
  lemma RecordOfChain(env: Env, head: nat, ds: seq<Desc>, parts: seq<seq<byte>>)
    requires IsChain(env.desc, head, ds) && NoneIndirect(ds) && |ds| <= |env.desc|
    requires PartsOf(env, ds, parts)
    ensures Halts(env, Start(head)) && Clipped(Concat(parts), Record(env, head))
  {
    hide IsChain, NoneIndirect, Chain, NotNested, Payloads, PartsOf, Concat, Halts, Record;
    ChainProper(env, Ring, env.desc, head, ds, |env.desc|);
    PartsArePayloads(env, ds, parts);
    var n := RecordMeaning(env, head);
  }

  /** A chain that breaks off: at an index out of range, at an indirect descriptor whose
      table is not mapped, or because as many links were followed as the queue has
      descriptors. What was gathered by then is the record. */
  lemma RecordOfBroken(env: Env, head: nat, ds: seq<Desc>, j: nat, parts: seq<seq<byte>>)
    requires Path(env.desc, head, ds, j) && NoneIndirect(ds) && |ds| <= |env.desc|
    requires || j >= |env.desc| || |ds| == |env.desc|
             || (env.desc[j].flags / 4 % 2 == 1 && GpaToHva(env.mem, env.desc[j].addr, env.desc[j].len) == None)
    requires PartsOf(env, ds, parts)
    ensures Halts(env, Start(head)) && Clipped(Concat(parts), Record(env, head))
  {
    var k := |env.desc| - |ds|;
    assert Chain(env, Ring, j, k) == [] && NotNested(env, Ring, j, k) by {
      hide DescAtHost, GpaToHva;
    }
    hide Path, NoneIndirect, Chain, NotNested, Payloads, PartsOf, Concat, Halts, Record, GpaToHva;
    ChainPath(env, head, ds, j, |env.desc|);
    assert ds + [] == ds;
    PartsArePayloads(env, ds, parts);
    var n := RecordMeaning(env, head);
  }

  /** A chain that goes over into an indirect table the driver stored at guest address
      d.addr: the buffers named in the table follow those named before it, and nothing
      named after it counts. */
  lemma RecordOfIndirect(env: Env, head: nat, before: seq<Desc>, j: nat, va: u64, inside: seq<Desc>, ds: seq<Desc>,
                         parts: seq<seq<byte>>)
    requires Path(env.desc, head, before, j) && NoneIndirect(before) && |before| < |env.desc|
    requires j < |env.desc| && env.desc[j].flags / 4 % 2 == 1
    requires GpaToHva(env.mem, env.desc[j].addr, env.desc[j].len) == Some(va)
    requires env.desc[j].len == DESC_SIZE * |inside| && BytesAt(env.host, va, DESC_SIZE * |inside|) == EncodeAll(inside)
    requires IsChain(inside, 0, ds) && NoneIndirect(ds) && |before| + |ds| <= |env.desc|
    requires PartsOf(env, before + ds, parts)
    ensures Halts(env, Start(head)) && Clipped(Concat(parts), Record(env, head))
  {
    hide IsChain, NoneIndirect, Payloads, PartsOf, Concat, Halts, Record, Path, Chain, NotNested, Target, DescAt;
    hide BytesAt, EncodeAll, GpaToHva, Size;
    var t := Indirect(va, |inside|);
    var k := |env.desc| - |before|;
    StoredTable(env, env.desc[j], va, inside);
    ChainProper(env, t, inside, 0, ds, k);
    ChainPath(env, head, before, j, |env.desc|);
    ChainOver(env, j, k, t);
    PartsArePayloads(env, before + ds, parts);
    var n := RecordMeaning(env, head);
  }

  /** What an indirect descriptor names: the entries the driver stored, and no more. */
  lemma StoredTable(env: Env, d: Desc, va: u64, inside: seq<Desc>)
    requires GpaToHva(env.mem, d.addr, d.len) == Some(va)
    requires d.len == DESC_SIZE * |inside| && BytesAt(env.host, va, DESC_SIZE * |inside|) == EncodeAll(inside)
    ensures var t := Indirect(va, |inside|);
      && Target(env, d) == Some(t) && Size(env, t) == |inside|
      && forall n :: 0 <= n < |inside| ==> DescAt(env, t, n) == inside[n]
  {
    hide BytesAt, EncodeAll, DescAtHost, GpaToHva, Target, DescAt;
    NamedTable(env, d, va, |inside|);
    forall n | 0 <= n < |inside| ensures DescAt(env, Indirect(va, |inside|), n) == inside[n] {
      StoredTableReads(env.host, va, inside, n);
      EntryAt(env, va, |inside|, n);
    }
  }

  lemma NamedTable(env: Env, d: Desc, va: u64, n: nat)
    requires GpaToHva(env.mem, d.addr, d.len) == Some(va) && d.len == DESC_SIZE * n
    ensures Target(env, d) == Some(Indirect(va, n)) && Size(env, Indirect(va, n)) == n
  {
    hide GpaToHva;
    SizeBack(n);
  }

  lemma EntryAt(env: Env, va: u64, size: nat, n: nat)
    requires n < size
    ensures DescAt(env, Indirect(va, size), n) == DescAtHost(env.host, (va + DESC_SIZE * n) % U64)
  {
    hide DescAtHost;
  }

  lemma SizeBack(n: nat)
    ensures DESC_SIZE * n / DESC_SIZE == n
  {
  }

  // ---- from the driver's buffer to the log ------------------------------------------------

  /** A driver that puts a log line in one mapped, device-readable buffer adds exactly one
      record to the log, with the line's level and message and the sink's next number. */
  lemma OneBufferOneRecord(env: Env, head: nat, va: u64, level: nat, msg: seq<byte>, s: SinkState)
    requires head < |env.desc| && level < 4 && Carried(msg) && (msg != [] ==> msg[|msg| - 1] != RETURN)
    requires env.desc[head].flags % 8 == 0
    requires env.desc[head].len == |LogRec(level, msg)| && BytesAt(env.host, va, |LogRec(level, msg)|) == LogRec(level, msg)
    requires GpaToHva(env.mem, env.desc[head].addr, env.desc[head].len) == Some(va)
    ensures Halts(env, Start(head))
    ensures AfterEmit(s, Record(env, head))
         == SinkState(s.records + [LogRecord(s.seqno, level, msg)], (s.seqno + 1) % U32)
  {
    hide LogRec, Halts, Record, ParseChain, Carried, Concat, PartOf, BytesAt;
    var d, line := env.desc[head], LogRec(level, msg);
    LineLength(level, msg);
    TransportsAgreeIff(level, msg);
    PartOfLine(env, d, va, line);
    OneDescriptor(env.desc, head);
    assert PartsOf(env, [d], [line]);
    RecordOfChain(env, head, [d], [line]);
    ConcatOne(line);
  }

  lemma LineLength(level: nat, msg: seq<byte>)
    requires level < 10 && Carried(msg)
    ensures |LogRec(level, msg)| < 4096
  {
    ShortLineShape(level, msg);
    hide LogRec;
  }

  lemma PartOfLine(env: Env, d: Desc, va: u64, line: seq<byte>)
    requires d.flags % 8 == 0 && d.len == |line| && BytesAt(env.host, va, |line|) == line
    requires GpaToHva(env.mem, d.addr, d.len) == Some(va)
    ensures PartOf(env, d, line)
  {
    hide GpaToHva, BytesAt, Byte;
    FlagBits(d, false, false, false, d.flags / 8);
    forall k | 0 <= k < |line| ensures line[k] == Byte(env.host, (va + k) % U64) {
      ByteOf(env.host, va, |line|, k);
    }
  }

  lemma ByteOf(host: Host, va: u64, n: nat, k: nat)
    requires k < n
    ensures BytesAt(host, va, n)[k] == Byte(host, (va + k) % U64)
  {
    hide Byte;
  }

  lemma OneDescriptor(table: seq<Desc>, i: nat)
    requires i < |table| && table[i].flags % 8 == 0
    ensures IsChain(table, i, [table[i]]) && NoneIndirect([table[i]])
  {
  }

  lemma ConcatOne(part: seq<byte>)
    ensures Concat([part]) == part
  {
    assert [part][1..] == [];
    assert part + [] == part;
  }

  /** A chain of device-writable buffers adds nothing. */
  lemma WritableChainSilent(env: Env, head: nat, ds: seq<Desc>, s: SinkState)
    requires IsChain(env.desc, head, ds) && NoneIndirect(ds) && |ds| <= |env.desc|
    requires forall i :: 0 <= i < |ds| ==> ds[i].flags / 2 % 2 == 1
    ensures Halts(env, Start(head)) && Record(env, head) == [] && AfterEmit(s, Record(env, head)) == s
  {
    hide IsChain, NoneIndirect, GpaToHva;
    var parts: seq<seq<byte>> := seq(|ds|, _ => []);
    assert PartsOf(env, ds, parts);
    RecordOfChain(env, head, ds, parts);
    NothingConcat(parts);
    hide Halts, Record;
  }

  lemma {:induction false} NothingConcat(parts: seq<seq<byte>>)
    requires forall i :: 0 <= i < |parts| ==> parts[i] == []
    ensures Concat(parts) == []
  {
    if parts != [] {
      NothingConcat(parts[1..]);
    }
  }
}
