/** The "<level> <message>" wire format: the line a runner builds, and the two
    parsers that read it back, one in the network listener and one in the sink of
    the virtio backend. */
module WireFormat {
  import opened Machine
  import opened LogStore

  const LINE_MAX_LEN: nat := 4096

  /** What a parser makes of one record. */
  datatype Parsed = Parsed(level: u32, msg: seq<byte>)

  // ---- logrec -------------------------------------------------------------

  /** What "%d" prints. */
  function Signed(n: int): seq<byte> {
    if n < 0 then [MINUS] + Decimal(-n) else Decimal(n)
  }

  /** The line logrec builds for an already formatted message: prefix and message cut
      to leave room for the newline. */
  function LogRec(level: int, msg: seq<byte>): (line: seq<byte>) {
    var full := Signed(level) + [SPACE] + msg;
    (if |full| > LINE_MAX_LEN - 2 then full[..LINE_MAX_LEN - 2] else full) + [NEWLINE]
  }

  /** logrec up to its writes: prefix and message printed into the line buffer, then the
      newline, in place. Nothing is emitted if the prefix alone fills the buffer. */
  method LogRecLine(level: int, msg: seq<byte>) returns (line: array<byte>, n: nat)
    ensures fresh(line) && line.Length == LINE_MAX_LEN && n < LINE_MAX_LEN
    ensures line[..n] == if |Signed(level)| + 1 < LINE_MAX_LEN then LogRec(level, msg) else []
  {
    hide Signed;
    line := new byte[LINE_MAX_LEN](_ => 0);
    var prefix := Signed(level) + [SPACE];
    n := |prefix|;
    if n >= LINE_MAX_LEN {
      n := 0;
      return;
    }
    forall i | 0 <= i < n {
      line[i] := prefix[i];
    }
    // vsnprintf stores what fits, with room for its NUL, and returns the full length
    var m := |msg|;
    forall i | 0 <= i < m && n + i < LINE_MAX_LEN - 1 {
      line[n + i] := msg[i];
    }
    ghost var full := prefix + msg;
    n := n + m;
    if n > LINE_MAX_LEN - 2 {
      n := LINE_MAX_LEN - 2;
    }
    assert line[..n] == full[..n];
    line[n] := NEWLINE;
    n := n + 1;
    line[n] := NUL;
  }

  // ---- process_line ----------------------------------------------------------

  /** The index of the first b at or after position i, or the length. */
  function IndexOf(s: seq<byte>, b: byte, i: nat): (k: nat)
    requires i <= |s|
    ensures i <= k <= |s|
    ensures forall j :: i <= j < k ==> s[j] != b
    ensures k < |s| ==> s[k] == b
    decreases |s| - i
  {
    if i == |s| || s[i] == b then i else IndexOf(s, b, i + 1)
  }

  /** The C string in a buffer. */
  function CString(s: seq<byte>): seq<byte> {
    s[..IndexOf(s, NUL, 0)]
  }

  predicate IsBlank(b: byte) {
    b == SPACE || TAB <= b <= RETURN
  }

  function SkipBlanks(s: seq<byte>): seq<byte> {
    if s != [] && IsBlank(s[0]) then SkipBlanks(s[1..]) else s
  }

  /** The longest prefix of digits. */
  function DigitPrefix(s: seq<byte>): (d: seq<byte>)
    ensures |d| <= |s| && d == s[..|d|]
    ensures forall i :: 0 <= i < |d| ==> IsDigit(d[i])
    ensures |d| < |s| ==> !IsDigit(s[|d|])
  {
    if s == [] || !IsDigit(s[0]) then [] else [s[0]] + DigitPrefix(s[1..])
  }

  /** strtoul with base 10, saturating at ULONG_MAX; a minus sign negates modulo 2^64. */
  function Strtoul(s: seq<byte>): nat {
    var t := SkipBlanks(s);
    var negative := t != [] && t[0] == MINUS;
    var u := if t != [] && (t[0] == MINUS || t[0] == PLUS) then t[1..] else t;
    var v := Value(DigitPrefix(u));
    if v >= U64 then U64 - 1
    else if negative then (U64 - v) % U64
    else v
  }

  /** process_line: the level and message of one line without its newline. */
  function ParseLine(line: seq<byte>): Parsed {
    var s := CString(line);
    var k := IndexOf(s, SPACE, 0);
    if k < |s| then Parsed(Strtoul(s[..k]) % U32, s[k + 1..])
    else Parsed(Strtoul(s) % U32, [])
  }

  // ---- vlog_sink_emit ---------------------------------------------------------

  /** Without its trailing newlines and carriage returns. */
  function Strip(s: seq<byte>): (t: seq<byte>)
    ensures |t| <= |s| && t == s[..|t|]
    ensures t != [] ==> t[|t| - 1] != NEWLINE && t[|t| - 1] != RETURN
  {
    if s != [] && (s[|s| - 1] == NEWLINE || s[|s| - 1] == RETURN) then Strip(s[..|s| - 1]) else s
  }

  /** What vlog_sink_emit appends for a chain's bytes, if anything. */
  function ParseChain(bytes: seq<byte>): Option<Parsed> {
    var s := Strip(bytes);
    if s == [] then None
    else if |s| >= 2 && IsDigit(s[0]) && s[1] == SPACE then Some(Parsed(s[0] - ZERO, s[2..]))
    else Some(Parsed(1, s))
  }

  /** Nothing but newlines and carriage returns. */
  predicate Silent(bytes: seq<byte>) {
    forall i :: 0 <= i < |bytes| ==> bytes[i] == NEWLINE || bytes[i] == RETURN
  }

  lemma {:induction false} SilentIff(bytes: seq<byte>)
    ensures ParseChain(bytes).None? <==> Silent(bytes)
    ensures Strip(bytes) == [] <==> Silent(bytes)
  {
    if bytes != [] {
      var n := |bytes| - 1;
      SilentIff(bytes[..n]);
      assert bytes == bytes[..n] + [bytes[n]];
    }
  }

  /** A line without a level prefix is a record of level INFO. */
  lemma PlainLineReads(bytes: seq<byte>)
    requires bytes != [] && bytes[|bytes| - 1] != NEWLINE && bytes[|bytes| - 1] != RETURN
    requires |bytes| < 2 || !(48 <= bytes[0] <= 57) || bytes[1] != 32
    ensures ParseChain(bytes + [NEWLINE]) == Some(Parsed(1, bytes))
  {
    hide Strip;
    StripNewline(bytes);
    StripDone(bytes);
  }

  /** The sink's log and next sequence number. */
  datatype SinkState = SinkState(records: seq<LogRecord>, seqno: u32)

  /** What emitting one chain's bytes does to the sink. */
  function AfterEmit(s: SinkState, bytes: seq<byte>): SinkState {
    match ParseChain(bytes)
    case None => s
    case Some(p) => SinkState(s.records + [LogRecord(s.seqno, p.level, p.msg)], (s.seqno + 1) % U32)
  }

  /** The sink of the virtio backend. */
  class Sink {
    const store: Store
    var seqno: u32

    ghost predicate Valid()
      reads this, store
    {
      store.Valid() && seqno < U32
    }

    ghost function State(): SinkState
      reads this, store
    {
      SinkState(store.records, seqno)
    }

    constructor (store: Store)
      requires store.Valid()
      ensures Valid() && this.store == store && State() == SinkState(store.records, 0)
    {
      this.store := store;
      seqno := 0;
    }

    /** vlog_sink_emit. */
    method Emit(bytes: seq<byte>)
      requires Valid()
      modifies this, store
      ensures Valid()
      ensures State() == AfterEmit(old(State()), bytes)
    {
      hide Strip, ParseChain;
      var len := StripLength(bytes);
      ParsedAs(bytes, len);
      if len == 0 {
        return;
      }
      var level, p := 1, 0;
      if len >= 2 && ZERO <= bytes[0] <= NINE && bytes[1] == SPACE {
        level := bytes[0] - ZERO;
        p := 2;
      }
      store.Append(seqno, level, bytes[p..len]);
      seqno := (seqno + 1) % U32;
    }
  }

  lemma {:induction false} ParsedAs(bytes: seq<byte>, len: nat)
    requires len <= |bytes| && Strip(bytes) == bytes[..len]
    ensures ParseChain(bytes) ==
      if len == 0 then None
      else if len >= 2 && ZERO <= bytes[0] <= NINE && bytes[1] == SPACE
        then Some(Parsed(bytes[0] - ZERO, bytes[2..len]))
      else Some(Parsed(1, bytes[0..len]))
  {
    hide Strip;
    var s := bytes[..len];
    if len >= 2 {
      assert s[2..] == bytes[2..len];
    }
    assert bytes[0..len] == s;
  }

  /** The first loop of vlog_sink_emit. */
  method StripLength(bytes: seq<byte>) returns (len: nat)
    ensures len <= |bytes| && Strip(bytes) == bytes[..len]
  {
    len := |bytes|;
    assert bytes[..len] == bytes;
    while len > 0 && (bytes[len - 1] == NEWLINE || bytes[len - 1] == RETURN)
      invariant 0 <= len <= |bytes|
      invariant Strip(bytes[..len]) == Strip(bytes)
    {
      assert bytes[..len][..len - 1] == bytes[..len - 1];
      len := len - 1;
    }
  }

  // ---- round trip and agreement ---------------------------------------------------

  lemma NoStop(s: seq<byte>, b: byte)
    requires b !in s
    ensures IndexOf(s, b, 0) == |s|
  {
  }

  lemma FirstAt(s: seq<byte>, b: byte, k: nat)
    requires k < |s| && s[k] == b && forall j :: 0 <= j < k ==> s[j] != b
    ensures IndexOf(s, b, 0) == k
  {
  }

  /** A message logrec can carry intact: no NUL (it is a C string), no newline, and
      short enough for the line buffer. */
  ghost predicate Carried(msg: seq<byte>) {
    NUL !in msg && NEWLINE !in msg && |msg| <= LINE_MAX_LEN - 4
  }

  /** A C string without a newline. */
  ghost predicate Plain(msg: seq<byte>) {
    NUL !in msg && NEWLINE !in msg
  }

  /** A C int. */
  ghost predicate Int32(level: int) {
    -0x8000_0000 <= level < 0x8000_0000
  }

  /** The part of a message that fits in a line behind the prefix for its level. */
  function Kept(level: int, msg: seq<byte>): seq<byte> {
    var room := 4093 - |Signed(level)|;
    if room <= 0 then [] else if |msg| <= room then msg else msg[..room]
  }

  function Ten(k: nat): nat {
    if k == 0 then 1 else 10 * Ten(k - 1)
  }

  lemma {:induction false} DecimalShort(n: nat, k: nat)
    requires k > 0 && n < Ten(k)
    ensures |Decimal(n)| <= k
  {
    if n >= 10 {
      DecimalShort(n / 10, k - 1);
    }
  }

  lemma SignedShort(level: int)
    requires Int32(level)
    ensures 0 < |Signed(level)| <= 11
    ensures forall i :: 0 <= i < |Signed(level)| ==> IsDigit(Signed(level)[i]) || Signed(level)[i] == MINUS
  {
    assert Ten(1) == 10 && Ten(2) == 100 && Ten(3) == 1000 && Ten(4) == 10000 && Ten(5) == 100000;
    assert Ten(10) == 10_000_000_000;
    DecimalShort(if level < 0 then -level else level, 10);
  }

  /** The line logrec builds: level, space, what fits of the message, and one newline. */
  lemma LineShape(level: int, msg: seq<byte>)
    requires Int32(level) && Plain(msg)
    ensures LogRec(level, msg) == (Signed(level) + [SPACE] + Kept(level, msg)) + [NEWLINE]
    ensures |LogRec(level, msg)| <= 4095 && Plain(Signed(level) + [SPACE] + Kept(level, msg))
  {
    SignedShort(level);
    hide Signed;
    var full := Signed(level) + [SPACE] + msg;
    assert |full| > 4094 ==> full[..4094] == Signed(level) + [SPACE] + msg[..4093 - |Signed(level)|];
  }

  /** The line of a one-digit level and a message that fits. */
  lemma ShortLineShape(level: nat, msg: seq<byte>)
    requires level < 10 && Carried(msg)
    ensures LogRec(level, msg) == ([ZERO + level, SPACE] + msg) + [NEWLINE]
  {
    assert Decimal(level) == [ZERO + level];
    assert [ZERO + level] + [SPACE] + msg == [ZERO + level, SPACE] + msg;
  }

  lemma {:induction false} BlanksSkipped(blanks: seq<byte>, s: seq<byte>)
    requires forall i :: 0 <= i < |blanks| ==> blanks[i] == 32 || 9 <= blanks[i] <= 13
    requires s == [] || !(s[0] == 32 || 9 <= s[0] <= 13)
    ensures SkipBlanks(blanks + s) == s
  {
    if blanks == [] {
      assert blanks + s == s;
    } else {
      assert (blanks + s)[1..] == blanks[1..] + s;
      BlanksSkipped(blanks[1..], s);
    }
  }

  lemma {:induction false} DigitsTaken(ds: seq<byte>, rest: seq<byte>)
    requires (forall i :: 0 <= i < |ds| ==> IsDigit(ds[i])) && (rest == [] || !IsDigit(rest[0]))
    ensures DigitPrefix(ds + rest) == ds
  {
    if ds == [] {
      assert ds + rest == rest;
    } else {
      assert (ds + rest)[1..] == ds[1..] + rest;
      DigitsTaken(ds[1..], rest);
    }
  }

  /** strtoul over blanks, an optional sign, digits (none give 0) and whatever follows. */
  lemma StrtoulReads(blanks: seq<byte>, sign: seq<byte>, ds: seq<byte>, rest: seq<byte>)
    requires forall i :: 0 <= i < |blanks| ==> blanks[i] == 32 || 9 <= blanks[i] <= 13
    requires sign == [] || sign == [43] || sign == [45]
    requires forall i :: 0 <= i < |ds| ==> IsDigit(ds[i])
    requires rest == [] || !IsDigit(rest[0])
    requires sign == [] && ds == [] && rest != [] ==> !(rest[0] == 32 || 9 <= rest[0] <= 13 || rest[0] == 43 || rest[0] == 45)
    ensures Strtoul(blanks + (sign + (ds + rest)))
         == if Value(ds) >= U64 then U64 - 1
            else if sign == [45] && Value(ds) > 0 then U64 - Value(ds)
            else Value(ds)
  {
    hide SkipBlanks, DigitPrefix, Value, Strtoul;
    var u := ds + rest;
    assert u != [] ==> u[0] == if ds != [] then ds[0] else rest[0];
    BlanksSkipped(blanks, sign + u);
    DigitsTaken(ds, rest);
    SignTaken(blanks + (sign + u), sign, u);
  }

  lemma SignTaken(s: seq<byte>, sign: seq<byte>, u: seq<byte>)
    requires SkipBlanks(s) == sign + u
    requires sign == [] || sign == [43] || sign == [45]
    requires sign == [] && u != [] ==> u[0] != 43 && u[0] != 45
    ensures var v := Value(DigitPrefix(u));
      Strtoul(s) == if v >= U64 then U64 - 1 else if sign == [45] && v > 0 then U64 - v else v
  {
    hide SkipBlanks, DigitPrefix, Value;
    var t := sign + u;
    assert sign == [] ==> t == u;
    assert sign != [] ==> t[1..] == u;
  }

  lemma SignedReads(level: int)
    requires Int32(level)
    ensures Strtoul(Signed(level)) % U32 == level % U32
  {
    var n: nat := if level < 0 then -level else level;
    var sign := if level < 0 then [45] else [];
    DecimalValue(n);
    assert Signed(level) == [] + (sign + (Decimal(n) + []));
    StrtoulReads([], sign, Decimal(n), []);
  }

  /** Round trip through the listener's parser, whatever the level a C int holds and
      whatever the message: the level comes back as an unsigned 32-bit number. */
  lemma ListenerReadsBack(level: int, msg: seq<byte>)
    requires Int32(level) && NUL !in msg
    ensures ParseLine(Signed(level) + [SPACE] + msg) == Parsed(level % U32, msg)
  {
    SignedShort(level);
    SignedReads(level);
    hide Signed, Strtoul;
    var p := Signed(level);
    var s := p + [SPACE] + msg;
    NoStop(s, NUL);
    assert s[..|s|] == s;
    FirstAt(s, SPACE, |p|);
    assert s[..|p|] == p && s[|p| + 1..] == msg;
  }

  lemma StripDone(s: seq<byte>)
    requires s != [] && s[|s| - 1] != NEWLINE && s[|s| - 1] != RETURN
    ensures Strip(s) == s
  {
  }

  lemma StripNewline(s: seq<byte>)
    ensures Strip(s + [NEWLINE]) == Strip(s)
  {
    assert (s + [NEWLINE])[..|s|] == s;
  }

  /** Stripping a level prefix plus message strips only the message. */
  lemma {:induction false} StripPrefixed(d: byte, msg: seq<byte>)
    ensures Strip([d, SPACE] + msg) == [d, SPACE] + Strip(msg)
  {
    var s := [d, SPACE] + msg;
    if msg != [] && (msg[|msg| - 1] == NEWLINE || msg[|msg| - 1] == RETURN) {
      assert s[..|s| - 1] == [d, SPACE] + msg[..|msg| - 1];
      StripPrefixed(d, msg[..|msg| - 1]);
    } else {
      StripDone(s);
    }
  }

  /** What the sink reads from the line logrec built: the level, and the message without
      trailing carriage returns. */
  lemma SinkReads(level: nat, msg: seq<byte>)
    requires level < 10 && Carried(msg)
    ensures ParseChain(LogRec(level, msg)) == Some(Parsed(level, Strip(msg)))
  {
    ShortLineShape(level, msg);
    hide LogRec, Strip, ParseChain;
    StripNewline([ZERO + level, SPACE] + msg);
    StripPrefixed(ZERO + level, msg);
    ParsePrefixed(LogRec(level, msg), level, Strip(msg));
  }

  lemma ParsePrefixed(bytes: seq<byte>, level: nat, t: seq<byte>)
    requires level < 10 && Strip(bytes) == [ZERO + level, SPACE] + t
    ensures ParseChain(bytes) == Some(Parsed(level, t))
  {
    hide Strip;
    assert ([ZERO + level, SPACE] + t)[2..] == t;
  }

  /** For levels 0 to 3 and a message the line can carry, the listener reads back exactly
      the level and message; the sink does too if and only if the message does not end
      in a carriage return. */
  lemma TransportsAgreeIff(level: nat, msg: seq<byte>)
    requires level < 4 && Carried(msg)
    ensures LogRec(level, msg)[..|LogRec(level, msg)| - 1] == [ZERO + level, SPACE] + msg
    ensures ParseLine(LogRec(level, msg)[..|LogRec(level, msg)| - 1]) == Parsed(level, msg)
    ensures ParseChain(LogRec(level, msg)) == Some(Parsed(level, msg))
       <==> (msg != [] ==> msg[|msg| - 1] != RETURN)
  {
    ShortLineShape(level, msg);
    ListenerReadsBack(level, msg);
    assert Signed(level) + [SPACE] + msg == [ZERO + level, SPACE] + msg;
    SinkReads(level, msg);
    hide LogRec, ParseLine, ParseChain, Signed;
    if msg != [] {
      assert msg[|msg| - 1] in msg;
    }
  }

  /** A message that is one carriage return reaches the sink's log empty. */
  lemma ReturnIsLost()
    ensures Carried([RETURN]) && ParseChain(LogRec(0, [RETURN])) == Some(Parsed(0, []))
  {
    SinkReads(0, [RETURN]);
    assert [RETURN][..0] == [];
    assert Strip([RETURN]) == Strip([]);
  }
}
