/** vlog_virtq_handle: walking guest-controlled descriptor chains and completing them. */
module VirtqHandler {
  import opened Machine
  import opened Ring16
  import opened GuestMemory
  import opened LogStore
  import opened WireFormat
  import opened Descriptors

  const VIRTQ_MAX_RECORD: nat := 4096

  /** What a walk reads: the queue's descriptor table, the memory map, host memory. */
  datatype Env = Env(desc: seq<Desc>, mem: seq<Region>, host: Host)

  /** The queue's own table, or an indirect one at a host address. */
  datatype Table = Ring | Indirect(va: u64, size: nat)

  function Size(env: Env, t: Table): nat {
    if t.Ring? then |env.desc| else t.size
  }

  function DescAt(env: Env, t: Table, i: nat): Desc
    requires i < Size(env, t)
  {
    if t.Ring? then env.desc[i] else DescAtHost(env.host, (t.va + DESC_SIZE * i) % U64)
  }

  /** The table an indirect descriptor points at, if it translates. */
  function Target(env: Env, d: Desc): (t: Option<Table>)
    ensures t.Some? ==> t.value.Indirect? && t.value.va < U64 && t.value.size < U32
  {
    match GpaToHva(env.mem, d.addr, d.len)
    case None => None
    case Some(va) => Some(Indirect(va, d.len / DESC_SIZE))
  }

  /** The bytes a descriptor contributes: none if it is for the device to write, or does
      not translate. */
  function Payload(env: Env, d: Desc): seq<byte> {
    if d.IsWrite() then []
    else
      match GpaToHva(env.mem, d.addr, d.len)
      case None => []
      case Some(va) => BytesAt(env.host, va, d.len)
  }

  function Capped(s: seq<byte>): (r: seq<byte>)
    ensures |r| <= VIRTQ_MAX_RECORD
  {
    if |s| <= VIRTQ_MAX_RECORD then s else s[..VIRTQ_MAX_RECORD]
  }

  // ---- the inner loop, one turn at a time ------------------------------------------

  /** The loop's variables: current table and index, links followed, record so far. */
  datatype Cfg = Cfg(t: Table, i: nat, x: nat, rec: seq<byte>)

  datatype Walk = More(c: Cfg) | Done(rec: seq<byte>)

  function Turn(env: Env, c: Cfg): Walk {
    if c.x >= |env.desc| || c.i >= Size(env, c.t) then Done(c.rec)
    else
      var d := DescAt(env, c.t, c.i);
      if d.IsIndirect() then
        match Target(env, d)
        case None => Done(c.rec)
        case Some(t) => More(Cfg(t, 0, c.x, c.rec))
      else
        var rec := Capped(c.rec + Payload(env, d));
        if d.HasNext() then More(Cfg(c.t, d.next, c.x + 1, rec)) else Done(rec)
  }

  /** The walk after at most n turns. */
  function After(env: Env, c: Cfg, n: nat): Walk
    decreases n
  {
    if n == 0 then More(c)
    else
      match Turn(env, c)
      case Done(rec) => Done(rec)
      case More(c') => After(env, c', n - 1)
  }

  ghost predicate Halts(env: Env, c: Cfg) {
    exists n: nat :: After(env, c, n).Done?
  }

  function Start(head: nat): Cfg {
    Cfg(Ring, head, 0, [])
  }

  /** The record of the chain at head. */
  ghost function Record(env: Env, head: nat): seq<byte>
    requires Halts(env, Start(head))
  {
    var n: nat :| After(env, Start(head), n).Done?;
    After(env, Start(head), n).rec
  }

  lemma {:induction false} DoneStays(env: Env, c: Cfg, n: nat, m: nat)
    requires After(env, c, n).Done? && n <= m
    ensures After(env, c, m) == After(env, c, n)
    decreases n
  {
    hide Turn;
    if Turn(env, c).More? {
      DoneStays(env, Turn(env, c).c, n - 1, m - 1);
    }
  }

  lemma RecordIs(env: Env, head: nat, n: nat)
    requires After(env, Start(head), n).Done?
    ensures Halts(env, Start(head)) && Record(env, head) == After(env, Start(head), n).rec
  {
    var m: nat :| After(env, Start(head), m).Done? && Record(env, head) == After(env, Start(head), m).rec;
    DoneStays(env, Start(head), if n < m then n else m, if n < m then m else n);
  }

  /** The handler's local record buffer, char rec[VIRTQ_MAX_RECORD] and rec_len. */
  class RecordBuffer {
    const data: array<byte>
    var len: nat
    ghost var contents: seq<byte>

    ghost predicate Valid()
      reads this, data
    {
      data.Length == VIRTQ_MAX_RECORD && len <= VIRTQ_MAX_RECORD && contents == data[..len]
    }

    constructor ()
      ensures Valid() && fresh(data) && contents == []
    {
      data := new byte[VIRTQ_MAX_RECORD];
      len := 0;
      contents := [];
    }

    /** memcpy of the part of a payload that still fits. */
    method Append(host: Host, va: u64, n: nat)
      requires Valid()
      modifies this, data
      ensures Valid() && contents == Capped(old(contents) + BytesAt(host, va, n))
    {
      var copy := n;
      if copy > VIRTQ_MAX_RECORD - len {
        copy := VIRTQ_MAX_RECORD - len;
      }
      forall k | 0 <= k < copy {
        data[len + k] := Byte(host, (va + k) % U64);
      }
      ghost var all := contents + BytesAt(host, va, n);
      len := len + copy;
      contents := data[..len];
      assert contents == all[..len];
      assert Capped(all) == all[..len];
    }

    method Get() returns (s: seq<byte>)
      requires Valid()
      ensures s == contents
    {
      return data[..len];
    }
  }

  lemma AfterTurn(env: Env, c: Cfg, n: nat)
    requires After(env, c, n).Done?
    ensures n > 0
    ensures After(env, c, n) == match Turn(env, c) case Done(rec) => Done(rec) case More(c') => After(env, c', n - 1)
  {
    hide Turn;
  }

  lemma TurnAtData(env: Env, c: Cfg, d: Desc)
    requires c.x < |env.desc| && c.i < Size(env, c.t) && d == DescAt(env, c.t, c.i) && !d.IsIndirect()
    ensures Turn(env, c) ==
      var rec := Capped(c.rec + Payload(env, d));
      if d.HasNext() then More(Cfg(c.t, d.next, c.x + 1, rec)) else Done(rec)
  {
  }

  lemma TurnElsewhere(env: Env, c: Cfg)
    ensures c.x >= |env.desc| || c.i >= Size(env, c.t) ==> Turn(env, c) == Done(c.rec)
    ensures c.x < |env.desc| && c.i < Size(env, c.t) && DescAt(env, c.t, c.i).IsIndirect() ==>
      Turn(env, c) ==
        match Target(env, DescAt(env, c.t, c.i))
        case None => Done(c.rec)
        case Some(t) => More(Cfg(t, 0, c.x, c.rec))
  {
    hide DescAt;
  }

  /** A data descriptor's turn: its payload is appended as far as it fits. */
  method AppendPayload(buf: RecordBuffer, env: Env, d: Desc)
    requires buf.Valid()
    modifies buf, buf.data
    ensures buf.Valid() && buf.contents == Capped(old(buf.contents) + Payload(env, d))
  {
    assert Capped(buf.contents + []) == buf.contents;
    if !d.IsWrite() {
      var data := VirtqGpaToHva(env.mem, d.addr, d.len);
      if data.Some? {
        buf.Append(env.host, data.value, d.len);
      }
    }
  }

  /** The inner loop of vlog_virtq_handle. It must be called on a chain whose walk ends;
      HaltsIff says which do. */
  method WalkChain(env: Env, head: u16) returns (rec: seq<byte>)
    requires Halts(env, Start(head))
    ensures rec == Record(env, head)
  {
    var buf := new RecordBuffer();
    var table: Table, i: nat, x: nat := Ring, head, 0;
    ghost var n: nat :| After(env, Start(head), n).Done?;
    RecordIs(env, head, n);
    ghost var result := Record(env, head);
    hide After, Turn, DescAt, DescAtHost, Target, Payload, Capped, Record, RecordBuffer.Valid;
    while x < |env.desc|
      invariant buf.Valid() && fresh(buf) && fresh(buf.data)
      invariant After(env, Cfg(table, i, x, buf.contents), n) == Done(result)
      decreases n
    {
      ghost var c := Cfg(table, i, x, buf.contents);
      AfterTurn(env, c, n);
      TurnElsewhere(env, c);
      if i >= Size(env, table) {
        rec := buf.Get();
        return;
      }
      var d := DescAt(env, table, i);
      if d.IsIndirect() {
        var t := TargetOf(env, d);
        if t.None? {
          rec := buf.Get();
          return;
        }
        table, i := t.value, 0;
      } else {
        TurnAtData(env, c, d);
        AppendPayload(buf, env, d);
        if !d.HasNext() {
          rec := buf.Get();
          return;
        }
        i := d.next;
        x := x + 1;
      }
      n := n - 1;
    }
    AfterTurn(env, Cfg(table, i, x, buf.contents), n);
    TurnElsewhere(env, Cfg(table, i, x, buf.contents));
    rec := buf.Get();
  }

  method TargetOf(env: Env, d: Desc) returns (t: Option<Table>)
    ensures t == Target(env, d)
  {
    var va := VirtqGpaToHva(env.mem, d.addr, d.len);
    if va.None? {
      return None;
    }
    return Some(Indirect(va.value, d.len / DESC_SIZE));
  }

  // ---- what the walk means -----------------------------------------------------------

  /** The data descriptors on a chain, in order: from index i of a table, at most k of
      them; an indirect descriptor of the queue's own table is replaced by the chain of
      its table, which ends the walk of the first one. */
  function Chain(env: Env, t: Table, i: nat, k: nat): seq<Desc>
    decreases k, t.Ring?
  {
    if k == 0 || i >= Size(env, t) then []
    else
      var d := DescAt(env, t, i);
      if d.IsIndirect() then
        if t.Indirect? then []
        else
          match Target(env, d)
          case None => []
          case Some(u) => Chain(env, u, 0, k)
      else [d] + (if d.HasNext() then Chain(env, t, d.next, k - 1) else [])
  }

  /** No indirect descriptor on the part of the chain that lies in an indirect table, as
      section 2.7.5.3 of VIRTIO 1.2 requires of the driver. */
  predicate NotNested(env: Env, t: Table, i: nat, k: nat)
    decreases k, t.Ring?
  {
    if k == 0 || i >= Size(env, t) then true
    else
      var d := DescAt(env, t, i);
      if d.IsIndirect() then
        && t.Ring?
        && (match Target(env, d)
            case None => true
            case Some(u) => NotNested(env, u, 0, k))
      else d.HasNext() ==> NotNested(env, t, d.next, k - 1)
  }

  function Payloads(env: Env, ds: seq<Desc>): seq<byte> {
    if ds == [] then [] else Payload(env, ds[0]) + Payloads(env, ds[1..])
  }

  lemma CappedTwice(a: seq<byte>, b: seq<byte>, c: seq<byte>)
    ensures Capped(Capped(a + b) + c) == Capped(a + (b + c))
  {
    assert a + b + c == a + (b + c);
  }

  /** A walk of k more links ends within k + 2 turns, with the chain's payloads appended. */
  lemma {:induction false} WalkFrom(env: Env, c: Cfg, k: nat) returns (n: nat)
    requires c.x <= |env.desc| && k == |env.desc| - c.x && |c.rec| <= VIRTQ_MAX_RECORD
    requires NotNested(env, c.t, c.i, k)
    ensures After(env, c, n) == Done(Capped(c.rec + Payloads(env, Chain(env, c.t, c.i, k))))
    ensures n <= k + (if c.t.Ring? then 2 else 1)
    decreases k, c.t.Ring?, 1
  {
    hide DescAt, Payload, Target, Capped;
    assert Capped(c.rec + []) == c.rec by {
      CappedSmall(c.rec);
    }
    if k == 0 || c.i >= Size(env, c.t) || DescAt(env, c.t, c.i).IsIndirect() {
      n := WalkStop(env, c, k);
    } else {
      var d := DescAt(env, c.t, c.i);
      var rec := Capped(c.rec + Payload(env, d));
      TurnAtData(env, c, d);
      if d.HasNext() {
        var rest := Chain(env, c.t, d.next, k - 1);
        var c' := Cfg(c.t, d.next, c.x + 1, rec);
        var m := WalkFrom(env, c', k - 1);
        n := m + 1;
        CappedTwice(c.rec, Payload(env, d), Payloads(env, rest));
        assert ([d] + rest)[1..] == rest;
        hide Turn;
      } else {
        n := 1;
        assert [d][1..] == [];
        assert Payload(env, d) + [] == Payload(env, d);
        hide Turn;
      }
    }
  }

  lemma CappedSmall(s: seq<byte>)
    requires |s| <= VIRTQ_MAX_RECORD
    ensures Capped(s + []) == s && s + [] == s
  {
    assert s + [] == s;
  }

  lemma {:induction false} WalkStop(env: Env, c: Cfg, k: nat) returns (n: nat)
    requires c.x <= |env.desc| && k == |env.desc| - c.x && |c.rec| <= VIRTQ_MAX_RECORD
    requires NotNested(env, c.t, c.i, k)
    requires k == 0 || c.i >= Size(env, c.t) || DescAt(env, c.t, c.i).IsIndirect()
    ensures After(env, c, n) == Done(Capped(c.rec + Payloads(env, Chain(env, c.t, c.i, k))))
    ensures n <= k + (if c.t.Ring? then 2 else 1)
    decreases k, c.t.Ring?, 0
  {
    hide DescAt, Payload, Target, Capped;
    CappedSmall(c.rec);
    TurnElsewhere(env, c);
    if k == 0 || c.i >= Size(env, c.t) {
      n := 1;
      hide Turn;
    } else {
      match Target(env, DescAt(env, c.t, c.i))
      case None =>
        n := 1;
        hide Turn;
      case Some(u) =>
        var m := WalkFrom(env, Cfg(u, 0, c.x, c.rec), k);
        n := m + 1;
        hide Turn;
    }
  }

  /** The record vlog_virtq_handle assembles is the first VIRTQ_MAX_RECORD bytes of the
      in-order concatenation of every readable, translatable, device-readable buffer on
      the chain, and the walk ends after at most num links whatever the table holds,
      cycles and wild indices included. */
  lemma RecordMeaning(env: Env, head: nat) returns (n: nat)
    requires NotNested(env, Ring, head, |env.desc|)
    ensures Halts(env, Start(head))
    ensures Record(env, head) == Capped(Payloads(env, Chain(env, Ring, head, |env.desc|)))
    ensures n <= |env.desc| + 2 && After(env, Start(head), n).Done?
    ensures |Chain(env, Ring, head, |env.desc|)| <= |env.desc|
  {
    n := WalkFrom(env, Start(head), |env.desc|);
    var all := Payloads(env, Chain(env, Ring, head, |env.desc|));
    assert [] + all == all;
    RecordIs(env, head, n);
    ChainLength(env, Ring, head, |env.desc|);
  }

  lemma {:induction false} ChainLength(env: Env, t: Table, i: nat, k: nat)
    ensures |Chain(env, t, i, k)| <= k
    decreases k, t.Ring?
  {
    hide DescAt, Target;
    if k > 0 && i < Size(env, t) {
      var d := DescAt(env, t, i);
      if d.IsIndirect() {
        if t.Ring? && Target(env, d).Some? {
          ChainLength(env, Target(env, d).value, 0, k);
        }
      } else if d.HasNext() {
        ChainLength(env, t, d.next, k - 1);
      }
    }
  }

  // ---- exactly which walks end ---------------------------------------------------------

  /** Entry 0 of an indirect table, if it is indirect itself, leads to another table. */
  function Hop(env: Env, t: Table): Option<Table> {
    if Size(env, t) == 0 || !DescAt(env, t, 0).IsIndirect() then None
    else Target(env, DescAt(env, t, 0))
  }

  function Hops(env: Env, t: Table, m: nat): Option<Table>
    decreases m
  {
    if m == 0 then Some(t)
    else
      match Hop(env, t)
      case None => None
      case Some(u) => Hops(env, u, m - 1)
  }

  /** Following entry 0 from table to table comes back to t. */
  ghost predicate HopCycle(env: Env, t: Table) {
    exists m: nat :: m > 0 && Hops(env, t, m) == Some(t)
  }

  /** The walk from c enters an indirect table that lies on a hop cycle. */
  ghost predicate EntersCycle(env: Env, c: Cfg) {
    exists n: nat :: At0(env, After(env, c, n)) && HopCycle(env, After(env, c, n).c.t)
  }

  /** The walk goes on at entry 0 of a table, with links to spare. */
  predicate At0(env: Env, w: Walk) {
    w.More? && w.c.i == 0 && w.c.x < |env.desc|
  }

  lemma {:induction false} AfterSum(env: Env, c: Cfg, n: nat, m: nat)
    requires After(env, c, n).More?
    ensures After(env, c, n + m) == After(env, After(env, c, n).c, m)
    decreases n
  {
    hide Turn;
    if n > 0 {
      AfterSum(env, Turn(env, c).c, n - 1, m);
    }
  }

  /** Following hops is what the walk does at entry 0. */
  lemma {:induction false} HopTurns(env: Env, c: Cfg, m: nat)
    requires c.i == 0 && c.x < |env.desc| && Hops(env, c.t, m).Some?
    ensures After(env, c, m) == More(Cfg(Hops(env, c.t, m).value, 0, c.x, c.rec))
    decreases m
  {
    hide DescAt, Target;
    if m > 0 {
      TurnElsewhere(env, c);
      HopTurns(env, Cfg(Hop(env, c.t).value, 0, c.x, c.rec), m - 1);
      hide Turn;
    }
  }

  lemma {:induction false} RoundAndRound(env: Env, c: Cfg, m: nat, k: nat) returns (n: nat)
    requires m > 0 && After(env, c, m) == More(c)
    ensures n >= k && After(env, c, n) == More(c)
    decreases k
  {
    if k == 0 {
      n := 0;
    } else {
      var r := RoundAndRound(env, c, m, k - 1);
      AfterSum(env, c, m, r);
      n := m + r;
    }
  }

  lemma CycleNeverEnds(env: Env, c: Cfg)
    requires EntersCycle(env, c)
    ensures !Halts(env, c)
  {
    hide Turn, Hops, After;
    var n: nat :| At0(env, After(env, c, n)) && HopCycle(env, After(env, c, n).c.t);
    var c' := After(env, c, n).c;
    var m: nat :| m > 0 && Hops(env, c'.t, m) == Some(c'.t);
    HopTurns(env, c', m);
    forall k: nat ensures After(env, c, k).More? {
      var r := RoundAndRound(env, c', m, k);
      AfterSum(env, c, n, r);
      if After(env, c, k).Done? {
        DoneStays(env, c, k, n + r);
      }
    }
  }

  /** The number of links followed never falls, and a turn that follows none is a hop. */
  lemma {:induction false} LinksGrow(env: Env, c: Cfg, n: nat)
    requires After(env, c, n).More?
    ensures After(env, c, n).c.x >= c.x
    ensures c.x <= |env.desc| ==> After(env, c, n).c.x <= |env.desc|
    decreases n
  {
    hide DescAt, Payload, Target, Capped;
    if n > 0 {
      LinksGrow(env, Turn(env, c).c, n - 1);
    }
  }

  /** From turn n on the walk never ends and follows no more links. */
  ghost predicate OnlyHops(env: Env, c: Cfg, n: nat) {
    && After(env, c, n).More?
    && forall k: nat :: k >= n ==> After(env, c, k).More? && After(env, c, k).c.x == After(env, c, n).c.x
  }

  /** An endless walk ends up hopping. */
  lemma {:induction false} EndsUpHopping(env: Env, c: Cfg) returns (n: nat)
    requires !Halts(env, c) && c.x <= |env.desc|
    ensures OnlyHops(env, c, n)
    decreases |env.desc| - c.x
  {
    hide Turn;
    assert forall j: nat :: After(env, c, j).More?;
    if j: nat :| After(env, c, j).c.x != c.x {
      LinksGrow(env, c, j);
      var c' := After(env, c, j).c;
      forall k: nat ensures After(env, c', k).More? {
        AfterSum(env, c, j, k);
      }
      var m := EndsUpHopping(env, c');
      n := j + m;
      AfterSum(env, c, j, m);
      forall k: nat | k >= n ensures After(env, c, k).c.x == After(env, c, n).c.x {
        AfterSum(env, c, j, k - j);
      }
    } else {
      n := 0;
      assert After(env, c, 0).c == c;
    }
  }

  /** A turn that follows no link but goes on is a hop into an indirect table. */
  lemma StillIsHop(env: Env, c: Cfg)
    requires Turn(env, c).More? && Turn(env, c).c.x == c.x
    ensures var c' := Turn(env, c).c;
      c'.i == 0 && c'.rec == c.rec && c.x < |env.desc| && c'.t.Indirect?
      && c'.t.va < U64 && c'.t.size < U32
    ensures c.i == 0 ==> Hop(env, c.t) == Some(Turn(env, c).c.t)
  {
    hide DescAt, Payload, Capped;
  }

  lemma {:induction false} HoppingAlong(env: Env, c: Cfg, j: nat)
    requires OnlyHops(env, c, 0) && c.i == 0
    ensures Hops(env, c.t, j) == Some(After(env, c, j).c.t)
    decreases j
  {
    hide Turn, Hop;
    if j > 0 {
      assert After(env, c, 1) == match Turn(env, c) case Done(rec) => Done(rec) case More(d) => After(env, d, 0);
      assert After(env, c, 1).More? && After(env, c, 0).c == c;
      StillIsHop(env, c);
      var c' := Turn(env, c).c;
      OnlyHopsFrom(env, c, 1);
      AfterSum(env, c, 1, j - 1);
      HoppingAlong(env, c', j - 1);
    }
  }

  lemma OnlyHopsFrom(env: Env, c: Cfg, n: nat)
    requires OnlyHops(env, c, n)
    ensures OnlyHops(env, After(env, c, n).c, 0)
  {
    var d := After(env, c, n).c;
    assert After(env, d, 0) == More(d);
    forall k: nat ensures After(env, d, k).More? && After(env, d, k).c.x == d.x {
      AfterSum(env, c, n, k);
    }
  }

  lemma OnlyHopsLater(env: Env, c: Cfg, n: nat, m: nat)
    requires OnlyHops(env, c, n) && m >= n
    ensures OnlyHops(env, c, m)
  {
  }

  // ---- two indices with the same value, by counting -------------------------------------

  function Range(b: nat): (r: set<nat>)
    ensures |r| == b && forall x: nat :: x in r <==> x < b
  {
    if b == 0 then {} else Range(b - 1) + {b - 1}
  }

  function Elements(s: seq<nat>): (r: set<nat>)
    ensures forall x: nat :: x in r <==> x in s
  {
    set x | x in s
  }

  lemma {:induction false} DistinctSize(s: seq<nat>)
    requires forall i, j :: 0 <= i < j < |s| ==> s[i] != s[j]
    ensures |Elements(s)| == |s|
  {
    if s == [] {
      assert Elements(s) == {};
    } else {
      var n := |s| - 1;
      DistinctSize(s[..n]);
      assert Elements(s) == Elements(s[..n]) + {s[n]};
    }
  }

  lemma DistinctBelow(s: seq<nat>, b: nat)
    requires forall k :: 0 <= k < |s| ==> s[k] < b
    requires forall i, j :: 0 <= i < j < |s| ==> s[i] != s[j]
    ensures |s| <= b
  {
    DistinctSize(s);
    SubsetSize(Elements(s), Range(b));
  }

  lemma Pigeonhole(s: seq<nat>, b: nat) returns (i: nat, j: nat)
    requires |s| > b && forall k :: 0 <= k < |s| ==> s[k] < b
    ensures i < j < |s| && s[i] == s[j]
  {
    assert exists i, j :: 0 <= i < j < |s| && s[i] == s[j] by {
      if forall i, j :: 0 <= i < j < |s| ==> s[i] != s[j] {
        DistinctBelow(s, b);
        assert false;
      }
    }
    i, j :| 0 <= i < j < |s| && s[i] == s[j];
  }

  lemma {:induction false} SubsetSize(a: set<nat>, b: set<nat>)
    requires a <= b
    ensures |a| <= |b|
  {
    if a != {} {
      var x :| x in a;
      SubsetSize(a - {x}, b - {x});
    }
  }

  function Code(t: Table): nat {
    if t.Ring? then 0 else t.va * U32 + t.size
  }

  lemma CodeInjective(t: Table, u: Table)
    requires t.Indirect? && u.Indirect? && t.size < U32 && u.size < U32 && Code(t) == Code(u)
    ensures t == u
  {
  }

  /** The tables an endless walk passes once it only hops. */
  lemma HoppedTable(env: Env, c: Cfg, n: nat, k: nat)
    requires OnlyHops(env, c, n) && k > n
    ensures After(env, c, k).More?
    ensures var d := After(env, c, k).c;
      d.i == 0 && d.x < |env.desc| && d.t.Indirect? && d.t.size < U32 && Code(d.t) < U64 * U32
  {
    hide Turn;
    AfterSum(env, c, k - 1, 1);
    var b := After(env, c, k - 1).c;
    assert After(env, b, 1) == match Turn(env, b) case Done(rec) => Done(rec) case More(d) => After(env, d, 0);
    StillIsHop(env, b);
    CodeBound(After(env, c, k).c.t);
  }

  /** An endless walk enters a hop cycle: there are only finitely many tables to hop to. */
  lemma EndlessEntersCycle(env: Env, c: Cfg)
    requires !Halts(env, c) && c.x <= |env.desc|
    ensures EntersCycle(env, c)
  {
    hide Turn, Hop, Hops, Code, After;
    var n := EndsUpHopping(env, c);
    var b := U64 * U32;
    forall k: nat | k > n
      ensures After(env, c, k).More? && Code(After(env, c, k).c.t) < b
    {
      HoppedTable(env, c, n, k);
    }
    var codes := seq(b + 1, k requires 0 <= k < b + 1 => Code(After(env, c, n + 1 + k).c.t));
    var i, j := Pigeonhole(codes, b);
    var p, q := n + 1 + i, n + 1 + j;
    HoppedTable(env, c, n, p);
    HoppedTable(env, c, n, q);
    CodeInjective(After(env, c, p).c.t, After(env, c, q).c.t);
    OnlyHopsLater(env, c, n, p);
    OnlyHopsFrom(env, c, p);
    HoppingAlong(env, After(env, c, p).c, q - p);
    AfterSum(env, c, p, q - p);
    assert At0(env, After(env, c, p)) && HopCycle(env, After(env, c, p).c.t);
  }

  lemma CodeBound(t: Table)
    requires t.Indirect? && t.va < U64 && t.size < U32
    ensures Code(t) < U64 * U32
  {
  }

  /** A chain's walk ends if and only if it never enters an indirect table whose first
      entries lead, table to table, back to itself. */
  lemma HaltsIff(env: Env, head: nat)
    ensures Halts(env, Start(head)) <==> !EntersCycle(env, Start(head))
  {
    if EntersCycle(env, Start(head)) {
      CycleNeverEnds(env, Start(head));
    }
    if !Halts(env, Start(head)) {
      EndlessEntersCycle(env, Start(head));
    }
  }

  // ---- a walk that never ends ----------------------------------------------------------

  /** A descriptor that names the table it lies in, as 16 bytes of memory: address 0x1000,
      length 16, the indirect flag. */
  const SELF_BYTES: seq<byte> := [0, 0x10, 0, 0, 0, 0, 0, 0, 16, 0, 0, 0, 4, 0, 0, 0]

  function SelfEnv(): Env {
    Env([Desc(0x1000, 16, 4, 0)], [Region(0x1000, 16, 0)],
        map p: u64 | p < 16 :: SELF_BYTES[p])
  }

  lemma SelfEntry()
    ensures DescAtHost(SelfEnv().host, 0) == Desc(0x1000, 16, 4, 0)
  {
    SelfWords();
    hide Read16, Read32, SelfEnv;
  }

  lemma SelfWords()
    ensures var h := SelfEnv().host;
      && Read64(h, 0) == 0x1000 && Read32(h, 8) == 16 && Read16(h, 12) == 4 && Read16(h, 14) == 0
  {
    var h := SelfEnv().host;
    assert Read16(h, 0) == 0x1000 && Read16(h, 2) == 0 && Read16(h, 4) == 0 && Read16(h, 6) == 0;
    assert Read16(h, 8) == 16 && Read16(h, 10) == 0;
  }

  lemma SelfTranslates()
    ensures GpaToHva([Region(0x1000, 16, 0)], 0x1000, 16) == Some(0)
  {
  }

  lemma SelfHop()
    ensures var env, t := SelfEnv(), Indirect(0, 1);
      && Hop(env, t) == Some(t) && |env.desc| == 1 && env.desc[0].IsIndirect() && Target(env, env.desc[0]) == Some(t)
  {
    hide DescAtHost, GpaToHva, Byte;
    SelfEntry();
    SelfTranslates();
    var env, t := SelfEnv(), Indirect(0, 1);
    assert Target(env, env.desc[0]) == Some(t);
    assert DescAt(env, t, 0) == env.desc[0];
    hide DescAt, Target;
  }

  /** A one-entry ring whose descriptor is indirect, to a one-entry table that holds the
      same descriptor: the walk goes round for ever. */
  lemma EndlessWalk()
    ensures EntersCycle(SelfEnv(), Start(0)) && !Halts(SelfEnv(), Start(0))
  {
    hide SelfEnv, Hop, Target, DescAtHost, Halts;
    var env, t := SelfEnv(), Indirect(0, 1);
    SelfHop();
    assert Hops(env, t, 0) == Some(t) && Hops(env, t, 1) == Hops(env, t, 0);
    assert HopCycle(env, t);
    var c := Cfg(t, 0, 0, []);
    TurnElsewhere(env, Start(0));
    assert Turn(env, Start(0)) == More(c);
    hide Turn;
    assert After(env, c, 0) == More(c);
    assert After(env, Start(0), 1) == More(c);
    assert At0(env, After(env, Start(0), 1));
    CycleNeverEnds(env, Start(0));
  }
}
