/** Bytes, decimal printing, and the record format of the shared log store. */
module LogStore {
  import opened Machine

  const NUL: byte := 0
  const TAB: byte := 9
  const NEWLINE: byte := 10
  const RETURN: byte := 13
  const SPACE: byte := 32
  const PLUS: byte := 43
  const MINUS: byte := 45
  const ZERO: byte := 48
  const NINE: byte := 57

  datatype LogRecord = LogRecord(seqno: u32, level: u32, bytes: seq<byte>)

  // ---- decimal numbers ------------------------------------------------------

  predicate IsDigit(b: byte) {
    ZERO <= b <= NINE
  }

  /** What %u prints. */
  function Decimal(n: nat): (s: seq<byte>)
    ensures |s| > 0 && forall i :: 0 <= i < |s| ==> IsDigit(s[i])
  {
    if n < 10 then [ZERO + n] else Decimal(n / 10) + [ZERO + n % 10]
  }

  /** The value of a string of digits. */
  function Value(s: seq<byte>): nat
    requires forall i :: 0 <= i < |s| ==> IsDigit(s[i])
  {
    if s == [] then 0
    else
      assert IsDigit(s[|s| - 1]);
      Value(s[..|s| - 1]) * 10 + (s[|s| - 1] - ZERO)
  }

  lemma {:induction false} DecimalValue(n: nat)
    ensures Value(Decimal(n)) == n
  {
    if n >= 10 {
      DecimalValue(n / 10);
      assert Decimal(n)[..|Decimal(n)| - 1] == Decimal(n / 10);
    } else {
      assert Decimal(n)[..0] == [];
    }
  }

  // ---- the record format ------------------------------------------------------

  /** level_name. */
  function LevelName(level: nat): seq<byte> {
    if level == 0 then [68, 69, 66, 85, 71]          // DEBUG
    else if level == 1 then [73, 78, 70, 79]         // INFO
    else if level == 2 then [87, 65, 82, 78]         // WARN
    else if level == 3 then [69, 82, 82, 79, 82]     // ERROR
    else [76, 86, 76, 63]                            // LVL?
  }

  /** "[seq] " and the level's name with its space. */
  function Header(seqno: u32, level: u32): seq<byte> {
    [91] + Decimal(seqno) + [93] + ([SPACE] + LevelName(level) + [SPACE])
  }

  /** One appended record: "[seq] LEVEL bytes" and a newline. */
  function Line(r: LogRecord): seq<byte> {
    Header(r.seqno, r.level) + r.bytes + [NEWLINE]
  }

  function Text(records: seq<LogRecord>): seq<byte> {
    if records == [] then [] else Line(records[0]) + Text(records[1..])
  }

  /** The log file behind logstore_append. */
  class Store {
    var text: seq<byte>
    ghost var records: seq<LogRecord>

    ghost predicate Valid()
      reads this
    {
      text == Text(records)
    }

    constructor ()
      ensures Valid() && records == []
    {
      text := [];
      records := [];
    }

    method Append(seqno: u32, level: u32, bytes: seq<byte>)
      requires Valid()
      modifies this
      ensures Valid() && records == old(records) + [LogRecord(seqno, level, bytes)]
    {
      TextAppend(records, LogRecord(seqno, level, bytes));
      ghost var was, head := text, Header(seqno, level);
      text := text + Header(seqno, level);
      if |bytes| > 0 {
        text := text + bytes;
      }
      text := text + [NEWLINE];
      Join(was, head, bytes, text);
      records := records + [LogRecord(seqno, level, bytes)];
    }
  }

  lemma Join(was: seq<byte>, head: seq<byte>, bytes: seq<byte>, text: seq<byte>)
    requires text == (if |bytes| > 0 then was + head + bytes else was + head) + [NEWLINE]
    ensures text == was + (head + bytes + [NEWLINE])
  {
  }

  lemma {:induction false} TextAppend(records: seq<LogRecord>, r: LogRecord)
    ensures Text(records + [r]) == Text(records) + Line(r)
  {
    if records == [] {
      assert records + [r] == [r];
    } else {
      assert (records + [r])[1..] == records[1..] + [r];
      TextAppend(records[1..], r);
    }
  }

  // ---- the file determines the records ---------------------------------------------

  /** A newline inside the message, followed by what could be another record's header. */
  ghost predicate Forging(bytes: seq<byte>) {
    exists a: seq<byte>, n: u32, l: u32, b: seq<byte> :: bytes == a + ([NEWLINE] + (Header(n, l) + b))
  }

  /** Two records the format cannot tell apart: they differ at most in levels that both
      print as "LVL?". */
  ghost predicate Alike(r: LogRecord, s: LogRecord) {
    r.seqno == s.seqno && SameLevel(r.level, s.level) && r.bytes == s.bytes
  }

  predicate SameLevel(a: u32, b: u32) {
    a == b || (a > 3 && b > 3)
  }

  lemma NamesTell(a: u32, b: u32)
    ensures LevelName(a) == LevelName(b) <==> SameLevel(a, b)
  {
    forall l: u32 ensures l == 0 ==> LevelName(l)[0] == 68
      ensures l == 1 ==> LevelName(l)[0] == 73
      ensures l == 2 ==> LevelName(l)[0] == 87
      ensures l == 3 ==> LevelName(l)[0] == 69
      ensures l > 3 ==> LevelName(l)[0] == 76
    {
    }
  }

  /** A prefix of two strings that ends at the first occurrence of a byte is the same. */
  lemma {:induction false} FirstStop(a: seq<byte>, b: seq<byte>, x: seq<byte>, y: seq<byte>, stop: byte)
    requires a + [stop] + x == b + [stop] + y
    requires stop !in a && stop !in b
    ensures a == b && x == y
  {
    var s, t := a + [stop] + x, b + [stop] + y;
    assert s[0] == t[0];
    if a != [] && b != [] {
      assert s[1..] == a[1..] + [stop] + x && t[1..] == b[1..] + [stop] + y;
      FirstStop(a[1..], b[1..], x, y, stop);
    } else {
      assert s[1..] == t[1..];
    }
  }

  lemma NameHasNoSpace(level: nat)
    ensures SPACE !in LevelName(level)
  {
  }

  lemma HeaderSplit(seqno: u32, level: u32, rest: seq<byte>)
    ensures (Header(seqno, level) + rest)[1..]
         == Decimal(seqno) + [93] + ([SPACE] + (LevelName(level) + [SPACE] + rest))
  {
  }

  /** A header tells the sequence number and the level's name, and where it ends. */
  lemma SameHeader(n: u32, l: u32, x: seq<byte>, m: u32, k: u32, y: seq<byte>)
    requires Header(n, l) + x == Header(m, k) + y
    ensures n == m && SameLevel(l, k) && x == y
  {
    HeaderSplit(n, l, x);
    HeaderSplit(m, k, y);
    var p, q := LevelName(l) + [SPACE] + x, LevelName(k) + [SPACE] + y;
    NameHasNoSpace(l);
    NameHasNoSpace(k);
    hide Header, LevelName;
    FirstStop(Decimal(n), Decimal(m), [SPACE] + p, [SPACE] + q, 93);
    DecimalValue(n);
    DecimalValue(m);
    assert p == ([SPACE] + p)[1..] && q == ([SPACE] + q)[1..];
    FirstStop(LevelName(l), LevelName(k), x, y, SPACE);
    NamesTell(l, k);
  }

  lemma HeaderHasNoNewline(n: u32, l: u32)
    ensures NEWLINE !in Header(n, l)
  {
    assert NEWLINE !in LevelName(l);
    hide LevelName;
  }

  ghost predicate AllAlike(rs: seq<LogRecord>, ss: seq<LogRecord>) {
    |rs| == |ss| && forall i :: 0 <= i < |rs| ==> Alike(rs[i], ss[i])
  }

  ghost predicate NoneForging(rs: seq<LogRecord>) {
    forall i :: 0 <= i < |rs| ==> !Forging(rs[i].bytes)
  }

  lemma TextHead(rs: seq<LogRecord>)
    requires rs != []
    ensures Text(rs) == Header(rs[0].seqno, rs[0].level) + (rs[0].bytes + ([NEWLINE] + Text(rs[1..])))
  {
    hide Header;
    assert Header(rs[0].seqno, rs[0].level) + rs[0].bytes + [NEWLINE] + Text(rs[1..])
        == Header(rs[0].seqno, rs[0].level) + (rs[0].bytes + ([NEWLINE] + Text(rs[1..])));
  }

  /** What starts with a header has no newline before the header's end. */
  lemma NewlineAfter(h: seq<byte>, x: seq<byte>, p: seq<byte>, y: seq<byte>)
    requires NEWLINE !in h && h + x == p + ([NEWLINE] + y)
    ensures |h| <= |p| && p == h + p[|h|..]
  {
    var t := h + x;
    assert t[|p|] == NEWLINE;
    assert forall i :: 0 <= i < |h| ==> t[i] == h[i] && h[i] != NEWLINE;
    assert p[..|h|] == t[..|h|] == h;
  }

  lemma DropBoth(a: seq<byte>, b: seq<byte>, t: seq<byte>, y: seq<byte>) returns (p: seq<byte>)
    requires a + ([NEWLINE] + t) == b + ([NEWLINE] + y) && |a| < |b|
    ensures b == a + ([NEWLINE] + p) && t == p + ([NEWLINE] + y)
  {
    p := b[|a| + 1..];
    var whole := a + ([NEWLINE] + t);
    assert a == whole[..|a|] == b[..|a|];
    assert whole[|a|] == NEWLINE == b[|a|];
    assert t == whole[|a| + 1..] == p + ([NEWLINE] + y);
  }

  /** If a message goes on where another record's message ended, it forges. */
  lemma LongerForges(a: seq<byte>, b: seq<byte>, rs: seq<LogRecord>, y: seq<byte>)
    requires a + ([NEWLINE] + Text(rs)) == b + ([NEWLINE] + y) && |a| < |b|
    ensures Forging(b)
  {
    var p := DropBoth(a, b, Text(rs), y);
    assert rs != [];
    TextHead(rs);
    var n, l := rs[0].seqno, rs[0].level;
    HeaderHasNoNewline(n, l);
    hide Header, Text;
    NewlineAfter(Header(n, l), rs[0].bytes + ([NEWLINE] + Text(rs[1..])), p, y);
    assert b == a + ([NEWLINE] + (Header(n, l) + p[|Header(n, l)|..]));
  }

  /** For messages that do not forge, the file's text determines the record list: two
      lists leave the same file if and only if they agree record by record. */
  lemma {:induction false} TextDetermines(rs: seq<LogRecord>, ss: seq<LogRecord>)
    requires NoneForging(rs) && NoneForging(ss)
    ensures Text(rs) == Text(ss) <==> AllAlike(rs, ss)
    decreases |rs|
  {
    if rs != [] {
      TextHead(rs);
    }
    if ss != [] {
      TextHead(ss);
    }
    if rs != [] && ss != [] {
      var r, s, x, y := rs[0], ss[0], Text(rs[1..]), Text(ss[1..]);
      TextDetermines(rs[1..], ss[1..]);
      if Text(rs) == Text(ss) {
        hide Header, Text, LevelName, Forging;
        SameHeader(r.seqno, r.level, r.bytes + ([NEWLINE] + x), s.seqno, s.level, s.bytes + ([NEWLINE] + y));
        if |r.bytes| < |s.bytes| {
          LongerForges(r.bytes, s.bytes, rs[1..], y);
        }
        if |s.bytes| < |r.bytes| {
          LongerForges(s.bytes, r.bytes, ss[1..], x);
        }
        SplitAt(r.bytes, s.bytes, x, y);
        assert forall i :: 1 <= i < |rs| ==> rs[i] == rs[1..][i - 1] && ss[i] == ss[1..][i - 1];
      }
      if AllAlike(rs, ss) {
        assert AllAlike(rs[1..], ss[1..]);
        hide Header, LevelName;
        assert Header(r.seqno, r.level) == Header(s.seqno, s.level) by {
          AlikeHeaders(r, s);
        }
      }
    }
  }

  lemma SplitAt(a: seq<byte>, b: seq<byte>, x: seq<byte>, y: seq<byte>)
    requires |a| == |b| && a + ([NEWLINE] + x) == b + ([NEWLINE] + y)
    ensures a == b && x == y
  {
    var s, t := a + ([NEWLINE] + x), b + ([NEWLINE] + y);
    assert a == s[..|a|] && b == t[..|a|];
    assert x == s[|a| + 1..] && y == t[|a| + 1..];
  }

  lemma AlikeHeaders(r: LogRecord, s: LogRecord)
    requires Alike(r, s)
    ensures Header(r.seqno, r.level) == Header(s.seqno, s.level)
  {
    NamesTell(r.level, s.level);
    hide LevelName;
  }

  /** The text "[10] LEVEL hi" and a newline, for each level. */
  function SampleLine(name: seq<byte>): seq<byte> {
    [91, 49, 48, 93, 32] + name + [32, 104, 105, 10]
  }

  /** The level names as they appear in the file: DEBUG, INFO, WARN, ERROR, and LVL? for
      every other level. */
  lemma TextSamples(level: u32)
    ensures Text([LogRecord(10, level, [104, 105])])
         == SampleLine(if level == 0 then [68, 69, 66, 85, 71]
                       else if level == 1 then [73, 78, 70, 79]
                       else if level == 2 then [87, 65, 82, 78]
                       else if level == 3 then [69, 82, 82, 79, 82]
                       else [76, 86, 76, 63])
  {
    TextOfOne(LogRecord(10, level, [104, 105]));
    assert Decimal(1) == [49] && Decimal(10) == [49, 48];
  }

  /** A record's text is that of two records. */
  ghost predicate ReadsAsTwo(r: LogRecord) {
    exists s, t :: Text([s, t]) == Text([r])
  }

  lemma TextOfOne(r: LogRecord)
    ensures Text([r]) == Header(r.seqno, r.level) + (r.bytes + ([NEWLINE] + []))
  {
    TextHead([r]);
    assert [r][1..] == [];
    hide Header;
  }

  /** A record's text is also that of two records if and only if its message forges. */
  lemma ForgesIff(r: LogRecord)
    ensures ReadsAsTwo(r) <==> Forging(r.bytes)
  {
    TextOfOne(r);
    if s, t :| Text([s, t]) == Text([r]) {
      TextHead([s, t]);
      assert [s, t][1..] == [t];
      hide Header, Forging;
      SameHeader(s.seqno, s.level, s.bytes + ([NEWLINE] + Text([t])), r.seqno, r.level, r.bytes + ([NEWLINE] + []));
      assert |Text([t])| > 0 by {
        TextOfOne(t);
      }
      hide Text;
      assert |s.bytes + ([NEWLINE] + Text([t]))| == |r.bytes + ([NEWLINE] + [])|;
      LongerForges(s.bytes, r.bytes, [t], []);
    }
    if Forging(r.bytes) {
      var a: seq<byte>, n: u32, l: u32, b: seq<byte> :| r.bytes == a + ([NEWLINE] + (Header(n, l) + b));
      ForgedPair(r, a, n, l, b);
    }
  }

  lemma ForgedPair(r: LogRecord, a: seq<byte>, n: u32, l: u32, b: seq<byte>)
    requires r.bytes == a + ([NEWLINE] + (Header(n, l) + b))
    ensures Text([LogRecord(r.seqno, r.level, a), LogRecord(n, l, b)]) == Text([r])
  {
    var s, t := LogRecord(r.seqno, r.level, a), LogRecord(n, l, b);
    TextOfOne(r);
    TextOfOne(t);
    TextHead([s, t]);
    assert [s, t][1..] == [t];
    hide Header, Text;
    var h, k, e := Header(r.seqno, r.level), Header(n, l), [NEWLINE] + [];
    assert a + ([NEWLINE] + (k + (b + e))) == (a + ([NEWLINE] + (k + b))) + e;
  }

  /** A message that forges; a newline alone does not. */
  lemma NewlineForges()
    ensures Forging([NEWLINE] + Header(1, 1)) && !Forging([97, NEWLINE, 98])
  {
    var h := Header(1, 1);
    assert [NEWLINE] + h == [] + ([NEWLINE] + (h + []));
    forall a: seq<byte>, n: u32, l: u32, b: seq<byte>
      ensures |a + ([NEWLINE] + (Header(n, l) + b))| > 4
    {
      hide LevelName;
    }
  }
}
