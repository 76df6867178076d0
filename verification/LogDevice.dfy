/** The MMIO log device and its guest library: sequences of register writes on one
    side, the command handler and the 64-bit range checks on the other. */
module LogDevice {
  import opened Machine
  import opened LogStore

  const RAM_BASE: nat := 0x10_0000
  const RAM_SIZE: nat := 0x100_0000

  const VLOG_MAGIC: u32 := 0x31474C56
  const VLOG_VERSION: u32 := 1
  const VLOG_MAX_MSG: nat := 4096
  const STATS_SIZE: nat := 8

  const REG_ID: u64 := 0x00
  const REG_VERSION: u64 := 0x04
  const REG_STATUS: u64 := 0x08
  const REG_CMD: u64 := 0x0C
  const REG_MSG_LO: u64 := 0x10
  const REG_MSG_HI: u64 := 0x14
  const REG_LEN: u64 := 0x18
  const REG_LEVEL: u64 := 0x1C
  const REG_SEQ: u64 := 0x20

  const CMD_NOP: u64 := 0
  const CMD_LOG: u64 := 1
  const CMD_FLUSH: u64 := 2
  const CMD_STAT: u64 := 3

  const ERR_NONE: bv8 := 0
  const ERR_BADCMD: bv8 := 1
  const ERR_BADADDR: bv8 := 2
  const ERR_BADLEN: bv8 := 3

  /** The whole range [addr, addr + len) lies in guest RAM, in unbounded integers. */
  predicate InRam(addr: nat, len: nat) {
    RAM_BASE <= addr && addr + len <= RAM_BASE + RAM_SIZE
  }

  /** vmm_gpa_to_host, as an offset into the RAM buffer. */
  function GpaToHost(gpa: u64, len: u64): (p: Option<nat>)
    ensures p == if gpa < RAM_BASE + RAM_SIZE && InRam(gpa, len) then Some(gpa - RAM_BASE) else None
  {
    if gpa < RAM_BASE then None
    else if gpa - RAM_BASE >= RAM_SIZE then None
    else if len > RAM_SIZE - (gpa - RAM_BASE) then None
    else Some(gpa - RAM_BASE)
  }

  /** Four bytes, least significant first. */
  function Word(v: u32): (w: seq<byte>)
    ensures |w| == 4
  {
    [v % 0x100, v / 0x100 % 0x100, v / 0x1_0000 % 0x100, v / 0x1_0000 / 0x100]
  }

  /** RAM with the stats block written at an offset. */
  function WithStats(ram: seq<byte>, off: nat, records: u32, bytes: u32): (r: seq<byte>)
    requires off + STATS_SIZE <= |ram|
    ensures |r| == |ram|
  {
    ram[..off] + Word(records) + Word(bytes) + ram[off + STATS_SIZE..]
  }

  class Device {
    const ram: array<byte>
    const store: Store
    var error: bool
    var code: bv8
    var lo: u32
    var hi: u32
    var len: u32
    var level: u32
    var seqno: u32
    var bytes: u32

    ghost predicate Valid()
      reads this, store
    {
      ram.Length == RAM_SIZE && store.Valid()
    }

    /** vlog_device_init: READY, no error, INFO. */
    constructor (ram: array<byte>, store: Store)
      requires ram.Length == RAM_SIZE && store.Valid()
      ensures Valid() && this.ram == ram && this.store == store
      ensures !error && code == 0 && seqno == 0 && bytes == 0
    {
      this.ram := ram;
      this.store := store;
      error, code := false, 0;
      lo, hi, len, level, seqno, bytes := 0, 0, 0, 1, 0, 0;
    }

    /** The STATUS register: READY, ERROR in bit 2, the error code from bit 8. */
    function Status(): (v: u32)
      reads this
    {
      1 + (if error then 4 else 0) + 0x100 * (code as nat)
    }

    /** In the low byte READY, bit 0, always and ERROR in bit 2; above it the code. */
    lemma StatusBits()
      ensures Status() % 0x100 == (if error then 5 else 1) && Status() / 0x100 == code as nat
    {
    }

    function MsgAddr(): u64
      reads this
    {
      lo + 0x1_0000_0000 * hi
    }

    /** set_error: bits are only added. */
    method SetError(e: bv8)
      modifies this`error, this`code
      ensures error && code == old(code) | e
    {
      error := true;
      code := code | e;
    }

    method ClearError()
      modifies this`error, this`code
      ensures !error && code == 0
    {
      error := false;
      code := 0;
    }

    /** vlog_device_mmio_read. */
    method MmioRead(offset: u64) returns (v: u64)
      ensures offset == REG_STATUS ==> v == Status()
      ensures offset == REG_SEQ ==> v == seqno
      ensures offset == REG_MSG_LO ==> v == lo
      ensures offset == REG_MSG_HI ==> v == hi
      ensures offset == REG_LEN ==> v == len
      ensures offset == REG_LEVEL ==> v == level
      ensures offset == REG_ID ==> v == VLOG_MAGIC
      ensures offset == REG_VERSION ==> v == VLOG_VERSION
      ensures offset > REG_SEQ || offset % 4 != 0 || offset == REG_CMD ==> v == 0
    {
      if offset == REG_ID { return VLOG_MAGIC; }
      if offset == REG_VERSION { return VLOG_VERSION; }
      if offset == REG_STATUS { return Status(); }
      if offset == REG_MSG_LO { return lo; }
      if offset == REG_MSG_HI { return hi; }
      if offset == REG_LEN { return len; }
      if offset == REG_LEVEL { return level; }
      if offset == REG_SEQ { return seqno; }
      return 0;
    }

    /** What a LOG command does: a record on success, an error code otherwise. */
    twostate predicate Logged()
      requires old(Valid())
      reads this, store, ram
    {
      var e := LogError(old(MsgAddr()), old(len));
      && Operands() && ram[..] == old(ram[..])
      && (if e == ERR_NONE
          then
            && error == old(error) && code == old(code)
            && seqno == (old(seqno) + 1) % U32 && bytes == (old(bytes) + old(len)) % U32
            && store.records == old(store.records)
                 + [LogRecord(old(seqno), old(level), Message(old(ram[..]), old(MsgAddr()), old(len)))]
          else error && code == old(code) | e && Counters())
    }

    /** What a STAT command does when it returns. */
    twostate predicate Reported()
      requires old(Valid())
      reads this, store, ram
    {
      var e := StatError(old(MsgAddr()), old(len));
      && Operands() && Counters()
      && (if e == ERR_NONE
          then
            && !error && code == 0
            && ram[..] == WithStats(old(ram[..]), old(MsgAddr()) - RAM_BASE, seqno, bytes)
          else error && code == old(code) | e && ram[..] == old(ram[..]))
    }

    twostate predicate Operands()
      reads this
    {
      lo == old(lo) && hi == old(hi) && len == old(len) && level == old(level)
    }

    twostate predicate Counters()
      reads this, store
    {
      seqno == old(seqno) && bytes == old(bytes) && store.records == old(store.records)
    }

    /** The LOG command. */
    method CommandLog()
      requires Valid()
      modifies this`error, this`code, this`seqno, this`bytes, store
      ensures Valid() && Logged()
    {
      if len > VLOG_MAX_MSG {
        SetError(ERR_BADLEN);
        return;
      }
      var addr := MsgAddr();
      if addr == 0 {
        SetError(ERR_BADADDR);
        return;
      }
      if len > 0 && (addr < RAM_BASE || (addr + len) % U64 < RAM_BASE) {
        SetError(ERR_BADADDR);
        return;
      }
      if len > 0 && (addr - RAM_BASE >= RAM_SIZE || len > RAM_SIZE - (addr - RAM_BASE)) {
        SetError(ERR_BADADDR);
        return;
      }
      if len == 0 {
        store.Append(seqno, level, []);
        seqno := (seqno + 1) % U32;
      } else {
        var p := GpaToHost(addr, len);
        store.Append(seqno, level, ram[p.value..p.value + len]);
        seqno := (seqno + 1) % U32;
        bytes := (bytes + len) % U32;
      }
    }

    /** The STAT command; false when it dereferences the NULL that vmm_gpa_to_host gives
        for a buffer running past RAM. */
    method CommandStat() returns (alive: bool)
      requires Valid()
      modifies this`error, this`code, ram
      ensures Valid()
      ensures alive <==> !StatOverrun(old(MsgAddr()), old(len))
      ensures alive ==> Reported()
    {
      if len < STATS_SIZE {
        SetError(ERR_BADLEN);
        return true;
      }
      var addr := MsgAddr();
      if addr == 0 {
        SetError(ERR_BADADDR);
        return true;
      }
      if addr < RAM_BASE || (STATS_SIZE + addr) % U64 < RAM_BASE {
        SetError(ERR_BADADDR);
        return true;
      }
      if addr - RAM_BASE > RAM_SIZE || STATS_SIZE > RAM_SIZE - (addr - RAM_BASE) {
        SetError(ERR_BADADDR);
        return true;
      }
      var p := GpaToHost(addr, len);
      if p.None? {
        return false;
      }
      WriteStats(p.value);
      ClearError();
      return true;
    }

    /** The two stores into the guest's struct vlog_stats. */
    method WriteStats(off: nat)
      requires off + STATS_SIZE <= ram.Length
      modifies ram
      ensures ram[..] == WithStats(old(ram[..]), off, seqno, bytes)
    {
      var records, total := Word(seqno), Word(bytes);
      hide Word;
      forall i | 0 <= i < 4 {
        ram[off + i] := records[i];
      }
      forall i | 0 <= i < 4 {
        ram[off + 4 + i] := total[i];
      }
    }

    /** vlog_device_mmio_write; false when the handler crashes. */
    method MmioWrite(offset: u64, value: u64) returns (alive: bool)
      requires Valid()
      modifies this, store, ram
      ensures Valid()
      ensures !alive <==> offset == REG_CMD && value == CMD_STAT && StatOverrun(old(MsgAddr()), old(len))
      ensures offset in {REG_MSG_LO, REG_MSG_HI, REG_LEN, REG_LEVEL} ==>
        && !error && code == 0 && Counters() && ram[..] == old(ram[..])
        && lo == (if offset == REG_MSG_LO then value % U32 else old(lo))
        && hi == (if offset == REG_MSG_HI then value % U32 else old(hi))
        && len == (if offset == REG_LEN then value % U32 else old(len))
        && level == (if offset == REG_LEVEL then value % U32 else old(level))
      ensures offset == REG_CMD && value == CMD_LOG ==> Logged()
      ensures offset == REG_CMD && value == CMD_STAT && alive ==> Reported()
      ensures offset == REG_CMD && value !in {CMD_LOG, CMD_STAT} ==>
        && Operands() && Counters() && ram[..] == old(ram[..])
        && (if value in {CMD_NOP, CMD_FLUSH} then !error && code == 0 else error && code == ERR_BADCMD)
      ensures offset !in {REG_CMD, REG_MSG_LO, REG_MSG_HI, REG_LEN, REG_LEVEL} ==>
        error == old(error) && code == old(code) && Operands() && Counters() && ram[..] == old(ram[..])
    {
      alive := true;
      if offset == REG_MSG_LO {
        lo := value % U32;
        ClearError();
      } else if offset == REG_MSG_HI {
        hi := value % U32;
        ClearError();
      } else if offset == REG_LEN {
        len := value % U32;
        ClearError();
      } else if offset == REG_LEVEL {
        level := value % U32;
        ClearError();
      } else if offset == REG_CMD {
        if value == CMD_NOP {
          ClearError();
        } else if value == CMD_LOG {
          CommandLog();
        } else if value == CMD_FLUSH {
          ClearError();
        } else if value == CMD_STAT {
          alive := CommandStat();
        } else {
          ClearError();
          SetError(ERR_BADCMD);
        }
      }
    }

    // ---- the guest library -------------------------------------------------------

    /** Address and length operands, as both library calls program them. */
    method Program(gpa: u64, n: u32)
      requires Valid()
      modifies this, store, ram
      ensures Valid() && Counters() && ram[..] == old(ram[..])
      ensures MsgAddr() == gpa && len == n && !error && code == 0
    {
      var alive := MmioWrite(REG_MSG_LO, gpa % U32);
      alive := MmioWrite(REG_MSG_HI, gpa / U32);
      alive := MmioWrite(REG_LEN, n);
    }

    /** The library's reading of STATUS. */
    method ReadResult() returns (result: nat)
      ensures result == if error then code as nat else 0
    {
      var st := MmioRead(REG_STATUS);
      if st / 4 % 2 == 1 {
        return st / 0x100 % 0x100;
      }
      return 0;
    }

    /** What the two calls depend on and change. */
    ghost function State(): DeviceState
      reads this, store, ram
    {
      DeviceState(seqno, bytes, store.records, ram[..])
    }

    /** vlog_write. */
    method VlogWrite(lvl: u32, gpa: u64, n: u32) returns (result: nat)
      requires Valid()
      modifies this, store, ram
      ensures Valid()
      ensures result == LogError(gpa, n) as nat
      ensures State() == LogCall(old(State()), lvl, gpa, n)
    {
      hide Status, LogError, Message;
      Program(gpa, n);
      var alive := MmioWrite(REG_LEVEL, lvl);
      alive := MmioWrite(REG_CMD, CMD_LOG);
      result := ReadResult();
    }

    /** vlog_stat; None when the device crashes. */
    method VlogStat(gpa: u64, n: u32) returns (result: Option<nat>)
      requires Valid()
      modifies this, store, ram
      ensures Valid()
      ensures result.None? <==> StatOverrun(gpa, n)
      ensures result.Some? ==> result.value == StatError(gpa, n) as nat
      ensures result.Some? ==> State() == StatCall(old(State()), gpa, n)
    {
      Program(gpa, n);
      var alive := MmioWrite(REG_CMD, CMD_STAT);
      if !alive {
        return None;
      }
      var r := ReadResult();
      result := Some(r);
    }
  }

  // ---- what the calls promise ------------------------------------------------------

  /** The documented outcome of a LOG, but for a null pointer. */
  function LogError(addr: u64, len: u32): bv8 {
    if len > VLOG_MAX_MSG then ERR_BADLEN
    else if addr == 0 || (len > 0 && !InRam(addr, len)) then ERR_BADADDR
    else ERR_NONE
  }

  function Message(ram: seq<byte>, addr: u64, len: u32): seq<byte>
    requires |ram| == RAM_SIZE && LogError(addr, len) == ERR_NONE
  {
    if len == 0 then [] else ram[addr - RAM_BASE..addr - RAM_BASE + len]
  }

  function StatError(addr: u64, len: u32): bv8 {
    if len < STATS_SIZE then ERR_BADLEN
    else if !InRam(addr, STATS_SIZE) then ERR_BADADDR
    else ERR_NONE
  }

  /** The stats block fits in RAM but the buffer the guest offered runs past its end. */
  predicate StatOverrun(addr: u64, len: u32) {
    StatError(addr, len) == ERR_NONE && !InRam(addr, len)
  }

  datatype DeviceState = DeviceState(seqno: u32, bytes: u32, records: seq<LogRecord>, ram: seq<byte>)

  /** One record carrying the guest's bytes, numbered by SEQ, exactly on success. */
  function LogCall(s: DeviceState, lvl: u32, addr: u64, n: u32): DeviceState
    requires |s.ram| == RAM_SIZE
  {
    if LogError(addr, n) != ERR_NONE then s
    else
      DeviceState((s.seqno + 1) % U32, (s.bytes + n) % U32,
                  s.records + [LogRecord(s.seqno, lvl, Message(s.ram, addr, n))], s.ram)
  }

  /** The two counters, little-endian, at the buffer's start, exactly on success. */
  function StatCall(s: DeviceState, addr: u64, n: u32): DeviceState
    requires |s.ram| == RAM_SIZE
  {
    if StatError(addr, n) != ERR_NONE then s
    else s.(ram := WithStats(s.ram, addr - RAM_BASE, s.seqno, s.bytes))
  }

  // ---- any sequence of calls -----------------------------------------------------

  datatype GuestCall = Log(lvl: u32, addr: u64, n: u32) | Stat(addr: u64, n: u32) | Store(addr: u64, value: byte)

  /** The guest's own stores to RAM run between its library calls. A STAT whose buffer
      overruns RAM crashes the device. */
  function Call(s: DeviceState, c: GuestCall): (t: Option<DeviceState>)
    requires |s.ram| == RAM_SIZE
    ensures t.Some? ==> |t.value.ram| == RAM_SIZE
    ensures t.None? <==> Crashes(c)
  {
    match c
    case Log(lvl, addr, n) => Some(LogCall(s, lvl, addr, n))
    case Stat(addr, n) => if StatOverrun(addr, n) then None else Some(StatCall(s, addr, n))
    case Store(addr, value) => Some(if InRam(addr, 1) then s.(ram := s.ram[addr - RAM_BASE := value]) else s)
  }

  predicate Crashes(c: GuestCall) {
    c.Stat? && StatOverrun(c.addr, c.n)
  }

  /** A sequence of calls, or None once one of them has crashed the device. */
  function Calls(s: DeviceState, cs: seq<GuestCall>): (t: Option<DeviceState>)
    requires |s.ram| == RAM_SIZE
    ensures t.Some? ==> |t.value.ram| == RAM_SIZE
  {
    if cs == [] then Some(s)
    else
      match Calls(s, cs[..|cs| - 1])
      case None => None
      case Some(t) => Call(t, cs[|cs| - 1])
  }

  predicate Succeeds(c: GuestCall) {
    c.Log? && LogError(c.addr, c.n) == ERR_NONE
  }

  /** How many LOG calls succeed, and the bytes they carry, in unbounded integers. */
  function Successes(cs: seq<GuestCall>): nat {
    if cs == [] then 0
    else Successes(cs[..|cs| - 1]) + (if Succeeds(cs[|cs| - 1]) then 1 else 0)
  }

  function TotalBytes(cs: seq<GuestCall>): nat {
    if cs == [] then 0
    else TotalBytes(cs[..|cs| - 1]) + (if Succeeds(cs[|cs| - 1]) then SizeOf(cs[|cs| - 1]) else 0)
  }

  lemma AddMod(a: nat, b: nat)
    ensures (a % U32 + b) % U32 == (a + b) % U32
  {
  }

  /** Over any sequence of library calls from a fresh device: it is alive exactly if no
      STAT overran RAM, and then SEQ and the byte total are the count and summed lengths
      of the successes modulo 2^32, and the log holds one record for each success,
      numbered in order. */
  lemma {:induction false} CountersMatch(ram: seq<byte>, cs: seq<GuestCall>)
    requires |ram| == RAM_SIZE
    ensures var t := Calls(DeviceState(0, 0, [], ram), cs);
      && (t.Some? <==> forall i :: 0 <= i < |cs| ==> !Crashes(cs[i]))
      && (t.Some? ==>
            var s := t.value;
            && s.seqno == Successes(cs) % U32
            && s.bytes == TotalBytes(cs) % U32
            && |s.records| == Successes(cs)
            && forall i :: 0 <= i < |s.records| ==>
                 s.records[i].seqno == i % U32 && |s.records[i].bytes| <= VLOG_MAX_MSG)
  {
    hide Call, Succeeds, Crashes;
    if cs != [] {
      var init, c := cs[..|cs| - 1], cs[|cs| - 1];
      CountersMatch(ram, init);
      AddMod(Successes(init), 1);
      AddMod(TotalBytes(init), SizeOf(c));
      var t := Calls(DeviceState(0, 0, [], ram), init);
      if t.Some? && !Crashes(c) {
        CallCounts(t.value, c);
      }
    }
  }

  function SizeOf(c: GuestCall): nat {
    if c.Log? then c.n else 0
  }

  /** What one call does to the counters and the log. */
  lemma CallCounts(s: DeviceState, c: GuestCall)
    requires |s.ram| == RAM_SIZE && !Crashes(c)
    ensures Call(s, c).Some?
    ensures var t := Call(s, c).value;
      if Succeeds(c) then
        && t.seqno == (s.seqno + 1) % U32 && t.bytes == (s.bytes + SizeOf(c)) % U32
        && |t.records| == |s.records| + 1 && t.records[..|s.records|] == s.records
        && t.records[|s.records|].seqno == s.seqno && |t.records[|s.records|].bytes| <= VLOG_MAX_MSG
      else t.seqno == s.seqno && t.bytes == s.bytes && t.records == s.records
  {
    hide WithStats, InRam, StatOverrun, StatError;
    if Succeeds(c) {
      LoggedBytes(s, c.lvl, c.addr, c.n);
    }
  }

  /** A LOG that succeeds appends one record: the guest's level, SEQ's number, and byte
      for byte the guest's memory at its address. */
  lemma LoggedBytes(s: DeviceState, lvl: u32, addr: u64, n: u32)
    requires |s.ram| == RAM_SIZE && LogError(addr, n) == ERR_NONE
    ensures Call(s, Log(lvl, addr, n)).Some?
    ensures var t := Call(s, Log(lvl, addr, n)).value; var r := LastRecord(t);
      && t.records == s.records + [r] && t.ram == s.ram
      && t.seqno == (s.seqno + 1) % U32 && t.bytes == (s.bytes + n) % U32
      && r.seqno == s.seqno && r.level == lvl && |r.bytes| == n
      && forall k :: 0 <= k < n ==> 0 <= addr + k - RAM_BASE < RAM_SIZE && r.bytes[k] == s.ram[addr + k - RAM_BASE]
  {
  }

  function LastRecord(s: DeviceState): LogRecord {
    if s.records == [] then LogRecord(0, 0, []) else s.records[|s.records| - 1]
  }

  /** A call that does not write the byte at guest address a. */
  predicate Spares(c: GuestCall, a: nat) {
    match c
    case Log(_, _, _) => true
    case Stat(addr, n) => StatError(addr, n) != ERR_NONE || a < addr || addr + STATS_SIZE <= a
    case Store(addr, _) => addr != a
  }

  lemma CallSpares(s: DeviceState, c: GuestCall, a: nat)
    requires |s.ram| == RAM_SIZE && InRam(a, 1) && Spares(c, a) && Call(s, c).Some?
    ensures Call(s, c).value.ram[a - RAM_BASE] == s.ram[a - RAM_BASE]
  {
    if c.Stat? && StatError(c.addr, c.n) == ERR_NONE {
      StatTouchesOnly(s, c.addr, c.n);
      hide StatCall, WithStats;
    }
  }

  lemma {:induction false} CallsSpare(s: DeviceState, cs: seq<GuestCall>, a: nat)
    requires |s.ram| == RAM_SIZE && InRam(a, 1) && Calls(s, cs).Some?
    requires forall i :: 0 <= i < |cs| ==> Spares(cs[i], a)
    ensures Calls(s, cs).value.ram[a - RAM_BASE] == s.ram[a - RAM_BASE]
  {
    hide Call, Spares, InRam;
    if cs != [] {
      var n := |cs| - 1;
      CallsSpare(s, cs[..n], a);
      CallSpares(Calls(s, cs[..n]).value, cs[n], a);
    }
  }

  lemma {:induction false} CallsAppend(s: DeviceState, a: seq<GuestCall>, b: seq<GuestCall>)
    requires |s.ram| == RAM_SIZE && Calls(s, a + b).Some?
    ensures Calls(s, a).Some? && Calls(s, a + b) == Calls(Calls(s, a).value, b)
  {
    hide Call;
    if b == [] {
      assert a + b == a;
    } else {
      var n := |b| - 1;
      assert (a + b)[..|a| + n] == a + b[..n];
      CallsAppend(s, a, b[..n]);
    }
  }

  /** A guest that stores a byte and later, having left it alone, logs a message with that
      byte at position k finds it at position k of the record. */
  lemma StoredIsLogged(s: DeviceState, earlier: seq<GuestCall>, addr: u64, n: u32, lvl: u32, k: nat, b: byte,
                       between: seq<GuestCall>)
    requires |s.ram| == RAM_SIZE && k < n && LogError(addr, n) == ERR_NONE && addr + k < U64
    requires Calls(s, earlier + [Store(addr + k, b)] + between + [Log(lvl, addr, n)]).Some?
    requires forall i :: 0 <= i < |between| ==> Spares(between[i], addr + k)
    ensures var r := LastRecord(Calls(s, earlier + [Store(addr + k, b)] + between + [Log(lvl, addr, n)]).value);
      |r.bytes| == n && r.level == lvl && r.bytes[k] == b
  {
    hide Call, LogError, Spares;
    var a := addr + k;
    assert InRam(a, 1) by {
      LoggedInRam(addr, n, k);
    }
    hide InRam;
    var first, most := earlier + [Store(a, b)], earlier + [Store(a, b)] + between;
    CallsAppend(s, most, [Log(lvl, addr, n)]);
    CallsAppend(s, first, between);
    CallsAppend(s, earlier, [Store(a, b)]);
    var t0, t1, t2 := Calls(s, earlier).value, Calls(s, first).value, Calls(s, most).value;
    OneCall(t0, Store(a, b));
    StoreWrites(t0, a, b);
    CallsSpare(t1, between, a);
    OneCall(t2, Log(lvl, addr, n));
    LoggedBytes(t2, lvl, addr, n);
  }

  lemma OneCall(s: DeviceState, c: GuestCall)
    requires |s.ram| == RAM_SIZE
    ensures Calls(s, [c]) == Call(s, c)
  {
    hide Call;
    assert [c][..0] == [];
  }

  lemma LoggedInRam(addr: u64, n: u32, k: nat)
    requires LogError(addr, n) == ERR_NONE && k < n
    ensures InRam(addr + k, 1)
  {
  }

  lemma StoreWrites(s: DeviceState, a: u64, b: byte)
    requires |s.ram| == RAM_SIZE && InRam(a, 1)
    ensures Call(s, Store(a, b)).Some? && Call(s, Store(a, b)).value.ram[a - RAM_BASE] == b
  {
  }

  /** A STAT that succeeds stores the two counters and changes no other byte of RAM. */
  lemma StatTouchesOnly(s: DeviceState, addr: u64, n: u32)
    requires |s.ram| == RAM_SIZE && StatError(addr, n) == ERR_NONE && !StatOverrun(addr, n)
    ensures Call(s, Stat(addr, n)).Some?
    ensures var t := Call(s, Stat(addr, n)).value; var off := addr - RAM_BASE;
      && t.ram[off..off + 4] == Word(s.seqno) && t.ram[off + 4..off + 8] == Word(s.bytes)
      && (forall i :: 0 <= i < RAM_SIZE && !(off <= i < off + STATS_SIZE) ==> t.ram[i] == s.ram[i])
      && t.seqno == s.seqno && t.bytes == s.bytes && t.records == s.records
  {
    hide Word;
  }

  /** The little-endian word determines the number. */
  lemma WordValue(v: u32)
    ensures var w := Word(v);
      w[0] as int + 0x100 * w[1] as int + 0x1_0000 * w[2] as int + 0x100_0000 * w[3] as int == v
  {
    var a := v / 0x100;
    var b := v / 0x1_0000;
    assert b == a / 0x100;
    assert v == 0x100 * a + v % 0x100;
    assert a == 0x100 * b + a % 0x100;
    assert b == 0x100 * (b / 0x100) + b % 0x100;
  }

  // ---- against the documented contract -----------------------------------------------

  /** The contract's outcome for LOG: with LEN == 0 the address is not examined. */
  function DocumentedLog(addr: u64, n: u32): bv8 {
    if n > 4096 then 3
    else if n > 0 && !(0x10_0000 <= addr && addr + n <= 0x110_0000) then 2
    else 0
  }

  /** The device meets the documented LOG outcome except for an empty message at a null
      address, which it refuses. */
  lemma LogMeetsContractIff(addr: u64, n: u32)
    ensures LogError(addr, n) == DocumentedLog(addr, n) <==> !(addr == 0 && n == 0)
  {
  }

  /** A STAT's outcome: the device needs eight bytes in RAM, and crashes exactly if they
      are there but the rest of the buffer the guest offered is not. */
  lemma StatOutcome(addr: u64, n: u32)
    ensures StatError(addr, n) == if n < 8 then 3 else if 0x10_0000 <= addr <= 0x10F_FFF8 then 0 else 2
    ensures Crashes(Stat(addr, n)) <==> n >= 8 && 0x10_0000 <= addr <= 0x10F_FFF8 && addr + n > 0x110_0000
  {
  }

  /** Eight bytes that fit at the end of RAM, in a buffer of nine. */
  lemma OverrunHappens()
    ensures Crashes(Stat(RAM_BASE + RAM_SIZE - STATS_SIZE, STATS_SIZE + 1))
  {
  }
}
