/** The network listener: bytes of many connections, in arbitrary chunks, become one
    log of lines. */
module LineSplitter {
  import opened Machine
  import opened LogStore
  import opened WireFormat

  const NL_LINE_MAX: nat := 4200

  /** The longest piece of a line that is recorded at once. */
  const PIECE: nat := NL_LINE_MAX - 1

  // ---- feed, byte by byte -----------------------------------------------------

  /** A connection's unfinished line, and the lines completed so far. */
  datatype Progress = Progress(pending: seq<byte>, lines: seq<seq<byte>>)

  /** The three branches of feed. */
  function FeedByte(p: Progress, ch: byte): Progress {
    if ch == NEWLINE then Progress([], p.lines + [p.pending])
    else if |p.pending| < NL_LINE_MAX - 1 then Progress(p.pending + [ch], p.lines)
    else Progress([ch], p.lines + [p.pending])
  }

  function FeedAll(p: Progress, data: seq<byte>): Progress {
    if data == [] then p
    else FeedByte(FeedAll(p, data[..|data| - 1]), data[|data| - 1])
  }

  /** The record of the n-th line of the log; sequence numbers are 32 bits. */
  function Rec(n: nat, line: seq<byte>): LogRecord {
    LogRecord(n % U32, ParseLine(line).level, ParseLine(line).msg)
  }

  /** The records a list of lines becomes, numbered on from n. */
  function Recs(n: nat, lines: seq<seq<byte>>): (r: seq<LogRecord>)
    ensures |r| == |lines|
  {
    seq<LogRecord>(|lines|, i requires 0 <= i < |lines| => Rec(n + i, lines[i]))
  }

  lemma RecsNext(n: nat, lines: seq<seq<byte>>, line: seq<byte>)
    ensures Recs(n, lines + [line]) == Recs(n, lines) + [Rec(n + |lines|, line)]
  {
    hide Rec;
  }

  lemma RecsOne(n: nat, line: seq<byte>)
    ensures Recs(n, [line]) == [Rec(n, line)] && Recs(n, []) == []
  {
    hide Rec;
  }

  lemma CStringCut(s: seq<byte>, k: nat)
    requires k < |s| && s[k] == NUL
    ensures CString(s) == CString(s[..k])
  {
    var i, j := IndexOf(s, NUL, 0), IndexOf(s[..k], NUL, 0);
    assert i <= k;
    if j < k {
      assert s[j] == NUL;
    }
    assert i < k ==> s[..k][i] == NUL;
    assert s[..k][..j] == s[..j];
  }

  class Conn {
    const buf: array<byte>
    var len: nat

    ghost predicate Valid()
      reads this
    {
      buf.Length == NL_LINE_MAX && len <= NL_LINE_MAX - 1
    }

    ghost function Pending(): seq<byte>
      requires Valid()
      reads this, buf
    {
      buf[..len]
    }

    constructor ()
      ensures Valid() && fresh(buf) && Pending() == []
    {
      buf := new byte[NL_LINE_MAX](i => 0);
      len := 0;
    }
  }

  class Netlog {
    const store: Store
    var seqno: u32
    ghost var count: nat  // lines recorded so far

    ghost predicate Valid()
      reads this, store
    {
      store.Valid() && seqno == count % U32
    }

    constructor (store: Store)
      requires store.Valid()
      ensures Valid() && this.store == store && count == 0
    {
      this.store := store;
      seqno := 0;
      count := 0;
    }

    /** process_line on a C string in a buffer. */
    method ProcessLine(line: seq<byte>)
      requires Valid()
      modifies this, store
      ensures Valid() && count == old(count) + 1
      ensures store.records == old(store.records) + [Rec(old(count), line)]
    {
      var p := ParseLine(line);
      store.Append(seqno, p.level, p.msg);
      seqno := (seqno + 1) % U32;
      count := count + 1;
    }

    /** feed: a chunk of one connection. */
    method Feed(c: Conn, data: seq<byte>)
      requires Valid() && c.Valid()
      modifies this, store, c, c.buf
      ensures Valid() && c.Valid()
      ensures var p := FeedAll(Progress(old(c.Pending()), []), data);
        && c.Pending() == p.pending
        && count == old(count) + |p.lines|
        && store.records == old(store.records) + Recs(old(count), p.lines)
    {
      ghost var start, n, was := Progress(c.Pending(), []), count, store.records;
      ghost var p := start;
      assert data[..0] == [] && was + Recs(n, []) == was;
      for i := 0 to |data|
        invariant Fed(c, was, n, p) && p == FeedAll(start, data[..i])
      {
        assert data[..i + 1][..i] == data[..i];
        p := FeedOne(c, data[i], was, n, p);
      }
      assert data[..|data|] == data;
    }

    /** The connection and the log stand at p, counting from n records. */
    ghost predicate Fed(c: Conn, was: seq<LogRecord>, n: nat, p: Progress)
      reads this, store, c, c.buf
    {
      && Valid() && c.Valid()
      && c.Pending() == p.pending && count == n + |p.lines| && store.records == was + Recs(n, p.lines)
    }

    /** One turn of feed's loop. */
    method FeedOne(c: Conn, ch: byte, ghost was: seq<LogRecord>, ghost n: nat, ghost p: Progress)
      returns (ghost q: Progress)
      requires Fed(c, was, n, p)
      modifies this, store, c, c.buf
      ensures q == FeedByte(p, ch) && Fed(c, was, n, q)
    {
      hide Recs, Rec;
      q := FeedByte(p, ch);
      RecsNext(n, p.lines, p.pending);
      Assoc(was, Recs(n, p.lines), Rec(n + |p.lines|, p.pending));
      if ch == NEWLINE {
        FlushLine(c);
        c.len := 0;
      } else if c.len < NL_LINE_MAX - 1 {
        c.buf[c.len] := ch;
        c.len := c.len + 1;
      } else {
        FlushLine(c);
        c.len := 0;
        c.buf[c.len] := ch;
        c.len := c.len + 1;
      }
    }

    /** Terminating the buffered line and recording it. */
    method FlushLine(c: Conn)
      requires Valid() && c.Valid()
      modifies this, store, c.buf
      ensures Valid() && c.Pending() == old(c.Pending())
      ensures count == old(count) + 1
      ensures store.records == old(store.records) + [Rec(old(count), old(c.Pending()))]
    {
      c.buf[c.len] := NUL;
      CStringCut(c.buf[..], c.len);
      assert c.buf[..][..c.len] == c.buf[..c.len];
      ProcessLine(c.buf[..]);
    }
  }

  // ---- what splitting means ---------------------------------------------------------

  /** A line in pieces of at most PIECE bytes; the empty line is one empty piece. */
  function Cut(line: seq<byte>): (r: seq<seq<byte>>)
    ensures |r| > 0 && |r[|r| - 1]| <= PIECE
  {
    if |line| <= PIECE then [line] else [line[..PIECE]] + Cut(line[PIECE..])
  }

  /** The cut, piece by piece: 4199 bytes each, the last what remains. */
  lemma {:induction false} CutExact(line: seq<byte>, i: nat)
    ensures |Cut(line)| == if line == [] then 1 else (|line| + 4198) / 4199
    ensures i < |Cut(line)| ==>
      4199 * i <= |line| && Cut(line)[i] == if |line| <= 4199 * (i + 1) then line[4199 * i..] else line[4199 * i..4199 * (i + 1)]
  {
    if |line| > PIECE {
      var rest := line[PIECE..];
      CutExact(rest, if i > 0 then i - 1 else 0);
      if 0 < i < |Cut(line)| {
        assert Cut(line)[i] == Cut(rest)[i - 1];
        assert line[4199 * i..] == rest[4199 * (i - 1)..];
        assert |line| > 4199 * (i + 1) ==> line[4199 * i..4199 * (i + 1)] == rest[4199 * (i - 1)..4199 * i];
      }
    }
  }

  /** A stream split at its newlines, each line cut into pieces; what follows the last
      newline contributes its full pieces, and its last piece is still pending. */
  function Split(stream: seq<byte>): Progress {
    var k := IndexOf(stream, NEWLINE, 0);
    var pieces := Cut(stream[..k]);
    if k == |stream| then Progress(pieces[|pieces| - 1], pieces[..|pieces| - 1])
    else
      var r := Split(stream[k + 1..]);
      Progress(r.pending, pieces + r.lines)
  }

  lemma {:induction false} CutNext(line: seq<byte>, ch: byte)
    ensures var r := Cut(line); var n := |r| - 1;
      Cut(line + [ch]) == if |r[n]| < PIECE then r[..n] + [r[n] + [ch]] else r + [[ch]]
  {
    if |line| > PIECE {
      assert (line + [ch])[..PIECE] == line[..PIECE];
      assert (line + [ch])[PIECE..] == line[PIECE..] + [ch];
      CutNext(line[PIECE..], ch);
    } else if |line| == PIECE {
      assert (line + [ch])[..PIECE] == line && (line + [ch])[PIECE..] == [ch];
    }
  }

  lemma NewlineFrom(s: seq<byte>, t: seq<byte>)
    ensures var k := IndexOf(s, NEWLINE, 0);
      IndexOf(s + t, NEWLINE, 0) == if k < |s| then k else |s| + IndexOf(t, NEWLINE, 0)
  {
    var k, l, m := IndexOf(s, NEWLINE, 0), IndexOf(t, NEWLINE, 0), IndexOf(s + t, NEWLINE, 0);
    if k < |s| {
      assert (s + t)[k] == NEWLINE;
      assert forall j :: 0 <= j < k ==> (s + t)[j] == s[j];
    } else {
      assert forall j :: 0 <= j < |s| ==> (s + t)[j] == s[j];
      assert l < |t| ==> (s + t)[|s| + l] == NEWLINE;
      assert |s| <= m < |s + t| ==> t[m - |s|] == NEWLINE;
    }
  }

  /** A stream is its first line, and the rest once that line is complete. */
  lemma SplitFirst(line: seq<byte>, rest: seq<byte>)
    requires NEWLINE !in line
    ensures Split(line + [NEWLINE] + rest) == Progress(Split(rest).pending, Cut(line) + Split(rest).lines)
  {
    var s := line + [NEWLINE] + rest;
    NewlineFrom(line, [NEWLINE] + rest);
    NoStop(line, NEWLINE);
    assert IndexOf([NEWLINE] + rest, NEWLINE, 0) == 0;
    assert s == line + ([NEWLINE] + rest);
    assert s[..|line|] == line && s[|line| + 1..] == rest;
    hide Cut, IndexOf;
  }

  lemma SplitUnfinished(line: seq<byte>)
    requires NEWLINE !in line
    ensures var pieces := Cut(line); var n := |pieces| - 1;
      Split(line) == Progress(pieces[n], pieces[..n]) && pieces[..n] + [pieces[n]] == pieces
  {
    NoStop(line, NEWLINE);
    assert line[..|line|] == line;
    hide Cut, IndexOf;
  }

  lemma BehindLines(pre: seq<seq<byte>>, p: Progress, ch: byte)
    ensures var q := FeedByte(p, ch);
      FeedByte(Progress(p.pending, pre + p.lines), ch) == Progress(q.pending, pre + q.lines)
  {
    assert pre + p.lines + [p.pending] == pre + (p.lines + [p.pending]);
  }

  lemma AtNewline(stream: seq<byte>, k: nat, ch: byte)
    requires k < |stream| && stream[k] == NEWLINE
    ensures stream == stream[..k] + [NEWLINE] + stream[k + 1..]
    ensures stream + [ch] == stream[..k] + [NEWLINE] + (stream[k + 1..] + [ch])
  {
  }

  /** One more byte of the stream does to the split exactly what feed does. */
  lemma {:induction false} SplitNext(stream: seq<byte>, ch: byte)
    ensures Split(stream + [ch]) == FeedByte(Split(stream), ch)
  {
    hide Split, Cut;
    var k := IndexOf(stream, NEWLINE, 0);
    if k < |stream| {
      var line, rest := stream[..k], stream[k + 1..];
      AtNewline(stream, k, ch);
      SplitNext(rest, ch);
      SplitFirst(line, rest);
      SplitFirst(line, rest + [ch]);
      BehindLines(Cut(line), Split(rest), ch);
      hide FeedByte;
    } else {
      SplitNextUnfinished(stream, ch);
    }
  }

  lemma SplitNextUnfinished(stream: seq<byte>, ch: byte)
    requires NEWLINE !in stream
    ensures Split(stream + [ch]) == FeedByte(Split(stream), ch)
  {
    SplitUnfinished(stream);
    hide Split, Cut;
    if ch == NEWLINE {
      SplitFirst(stream, []);
      assert stream + [ch] == stream + [NEWLINE] + [];
      SplitNothing();
    } else {
      SplitUnfinished(stream + [ch]);
      CutNext(stream, ch);
    }
  }

  lemma SplitNothing()
    ensures Split([]) == Progress([], []) && Cut([]) == [[]]
  {
  }

  lemma {:induction false} FeedIsSplit(stream: seq<byte>)
    ensures FeedAll(Progress([], []), stream) == Split(stream)
  {
    if stream == [] {
      SplitNothing();
    } else {
      var n := |stream| - 1;
      FeedIsSplit(stream[..n]);
      SplitNext(stream[..n], stream[n]);
      assert stream == stream[..n] + [stream[n]];
    }
  }

  // ---- no byte is lost -----------------------------------------------------------------

  function Flat(lines: seq<seq<byte>>): seq<byte> {
    if lines == [] then [] else Flat(lines[..|lines| - 1]) + lines[|lines| - 1]
  }

  function NoNewlines(s: seq<byte>): seq<byte> {
    if s == [] then []
    else NoNewlines(s[..|s| - 1]) + (if s[|s| - 1] == NEWLINE then [] else [s[|s| - 1]])
  }

  lemma FlatNext(p: Progress, ch: byte)
    ensures var q := FeedByte(p, ch);
      Flat(q.lines) + q.pending == Flat(p.lines) + p.pending + (if ch == NEWLINE then [] else [ch])
  {
    assert (p.lines + [p.pending])[..|p.lines|] == p.lines;
    assert Flat(p.lines + [p.pending]) == Flat(p.lines) + p.pending;
  }

  ghost predicate Pieces(p: Progress) {
    && (forall i :: 0 <= i < |p.lines| ==> |p.lines[i]| <= PIECE && NEWLINE !in p.lines[i])
    && |p.pending| <= PIECE && NEWLINE !in p.pending
  }

  lemma PiecesNext(p: Progress, ch: byte)
    requires Pieces(p)
    ensures Pieces(FeedByte(p, ch))
  {
  }

  lemma NoNewlinesNext(s: seq<byte>, ch: byte)
    ensures NoNewlines(s + [ch]) == NoNewlines(s) + (if ch == NEWLINE then [] else [ch])
  {
    assert (s + [ch])[..|s|] == s;
  }

  /** The recorded pieces and the pending one hold every byte but the newlines, in order,
      and no piece is longer than PIECE or contains a newline. */
  lemma {:induction false} NothingLost(stream: seq<byte>)
    ensures var p := Split(stream);
      Flat(p.lines) + p.pending == NoNewlines(stream) && Pieces(p)
  {
    if stream == [] {
      SplitNothing();
    } else {
      hide Split, Flat, NoNewlines, Pieces, FeedByte;
      var s, ch := stream[..|stream| - 1], stream[|stream| - 1];
      NothingLost(s);
      assert stream == s + [ch];
      SplitNext(s, ch);
      NoNewlinesNext(s, ch);
      FlatNext(Split(s), ch);
      PiecesNext(Split(s), ch);
    }
  }

  // ---- many connections ------------------------------------------------------------------

  datatype Event = Event(conn: nat, chunk: seq<byte>)
  datatype Entry = Entry(conn: nat, line: seq<byte>)

  function PendingOf(pend: map<nat, seq<byte>>, c: nat): seq<byte> {
    if c in pend then pend[c] else []
  }

  function Tag(c: nat, lines: seq<seq<byte>>): seq<Entry> {
    if lines == [] then [] else Tag(c, lines[..|lines| - 1]) + [Entry(c, lines[|lines| - 1])]
  }

  /** Feeding the chunks in the order poll delivers them: every connection's unfinished
      line, and the log of lines in the order they are recorded. */
  function Serve(events: seq<Event>): (map<nat, seq<byte>>, seq<Entry>) {
    if events == [] then (map[], [])
    else
      var e := events[|events| - 1];
      var (pend, log) := Serve(events[..|events| - 1]);
      var p := FeedAll(Progress(PendingOf(pend, e.conn), []), e.chunk);
      (pend[e.conn := p.pending], log + Tag(e.conn, p.lines))
  }

  /** Everything one connection sent. */
  function Stream(events: seq<Event>, c: nat): seq<byte> {
    if events == [] then []
    else
      var e := events[|events| - 1];
      Stream(events[..|events| - 1], c) + (if e.conn == c then e.chunk else [])
  }

  /** The lines of the log that came from one connection. */
  function LinesOf(log: seq<Entry>, c: nat): seq<seq<byte>> {
    if log == [] then []
    else
      LinesOf(log[..|log| - 1], c) + (if log[|log| - 1].conn == c then [log[|log| - 1].line] else [])
  }

  lemma {:induction false} LinesOfConcat(a: seq<Entry>, b: seq<Entry>, c: nat)
    ensures LinesOf(a + b, c) == LinesOf(a, c) + LinesOf(b, c)
  {
    if b == [] {
      assert a + b == a;
    } else {
      LinesOfConcat(a, b[..|b| - 1], c);
      assert (a + b)[..|a + b| - 1] == a + b[..|b| - 1];
    }
  }

  lemma {:induction false} LinesOfTag(d: nat, lines: seq<seq<byte>>, c: nat)
    ensures LinesOf(Tag(d, lines), c) == if d == c then lines else []
  {
    if lines != [] {
      var n := |lines| - 1;
      LinesOfTag(d, lines[..n], c);
      assert Tag(d, lines)[..|Tag(d, lines)| - 1] == Tag(d, lines[..n]);
      assert lines == lines[..n] + [lines[n]];
    }
  }

  /** A chunk fed after a stream is the stream continued. */
  lemma {:induction false} FeedContinues(p: Progress, a: seq<byte>, b: seq<byte>)
    ensures FeedAll(p, a + b) == FeedAll(FeedAll(p, a), b)
  {
    if b == [] {
      assert a + b == a;
    } else {
      FeedContinues(p, a, b[..|b| - 1]);
      assert (a + b)[..|a + b| - 1] == a + b[..|b| - 1];
    }
  }

  /** Lines recorded earlier only stand in front. */
  lemma {:induction false} FeedPrefix(pending: seq<byte>, lines: seq<seq<byte>>, b: seq<byte>)
    ensures var p := FeedAll(Progress(pending, []), b);
      FeedAll(Progress(pending, lines), b) == Progress(p.pending, lines + p.lines)
  {
    if b != [] {
      FeedPrefix(pending, lines, b[..|b| - 1]);
      var q := FeedAll(Progress(pending, []), b[..|b| - 1]);
      assert lines + q.lines + [q.pending] == lines + (q.lines + [q.pending]);
    }
  }

  /** However the chunks of any number of connections interleave, the lines recorded for
      a connection are the split of its own stream, and so is its unfinished line. */
  lemma {:induction false} PerConnection(events: seq<Event>, c: nat)
    ensures var (pend, log) := Serve(events);
      Progress(PendingOf(pend, c), LinesOf(log, c)) == Split(Stream(events, c))
  {
    if events == [] {
      SplitNothing();
    } else {
      var n := |events| - 1;
      var e := events[n];
      PerConnection(events[..n], c);
      hide Split, LinesOf;
      var (pend, log) := Serve(events[..n]);
      var p := FeedAll(Progress(PendingOf(pend, e.conn), []), e.chunk);
      LinesOfConcat(log, Tag(e.conn, p.lines), c);
      LinesOfTag(e.conn, p.lines, c);
      if e.conn == c {
        var s := Stream(events[..n], c);
        FeedIsSplit(s);
        FeedIsSplit(s + e.chunk);
        FeedContinues(Progress([], []), s, e.chunk);
        FeedPrefix(PendingOf(pend, c), LinesOf(log, c), e.chunk);
      } else {
        assert Stream(events, c) == Stream(events[..n], c);
      }
    }
  }

  function Lines(log: seq<Entry>): seq<seq<byte>> {
    if log == [] then [] else Lines(log[..|log| - 1]) + [log[|log| - 1].line]
  }

  lemma LinesNext(log: seq<Entry>, e: Entry)
    ensures Lines(log + [e]) == Lines(log) + [e.line]
  {
    assert (log + [e])[..|log|] == log;
  }

  lemma TagNext(c: nat, lines: seq<seq<byte>>, line: seq<byte>)
    ensures Tag(c, lines + [line]) == Tag(c, lines) + [Entry(c, line)]
  {
    assert (lines + [line])[..|lines|] == lines;
  }

  lemma Assoc<T>(a: seq<T>, b: seq<T>, x: T)
    ensures a + (b + [x]) == (a + b) + [x]
  {
  }

  lemma {:induction false} LinesConcat(a: seq<Entry>, c: nat, lines: seq<seq<byte>>)
    ensures Lines(a + Tag(c, lines)) == Lines(a) + lines
  {
    if lines == [] {
      assert a + Tag(c, lines) == a;
    } else {
      hide Lines, Tag;
      var init, last := lines[..|lines| - 1], lines[|lines| - 1];
      assert lines == init + [last];
      LinesConcat(a, c, init);
      TagNext(c, init, last);
      Assoc(a, Tag(c, init), Entry(c, last));
      LinesNext(a + Tag(c, init), Entry(c, last));
      Assoc(Lines(a), init, last);
    }
  }

  lemma RecsConcat(n: nat, a: seq<seq<byte>>, b: seq<seq<byte>>)
    ensures Recs(n, a + b) == Recs(n, a) + Recs(n + |a|, b)
  {
    hide Rec;
    var all, x, y := Recs(n, a + b), Recs(n, a), Recs(n + |a|, b);
    forall i | 0 <= i < |all| ensures all[i] == (x + y)[i] {
      assert i < |a| || (a + b)[i] == b[i - |a|];
    }
  }

  /** What the store holds after a run of the listener, given Netlog.Feed's contract:
      the records each chunk appends, one chunk after the other. */
  function Stored(events: seq<Event>): seq<LogRecord> {
    if events == [] then []
    else
      var e := events[|events| - 1];
      var s := Stored(events[..|events| - 1]);
      var p := FeedAll(Progress(PendingOf(Serve(events[..|events| - 1]).0, e.conn), []), e.chunk);
      s + Recs(|s|, p.lines)
  }

  lemma ServeNext(events: seq<Event>, e: Event) returns (lines: seq<seq<byte>>)
    ensures Serve(events + [e]).1 == Serve(events).1 + Tag(e.conn, lines)
    ensures Stored(events + [e]) == Stored(events) + Recs(|Stored(events)|, lines)
  {
    hide Recs, Tag, FeedAll;
    assert (events + [e])[..|events|] == events;
    lines := FeedAll(Progress(PendingOf(Serve(events).0, e.conn), []), e.chunk).lines;
  }

  lemma RecsOfLog(log: seq<Entry>, c: nat, lines: seq<seq<byte>>)
    ensures Recs(0, Lines(log)) + Recs(|Lines(log)|, lines) == Recs(0, Lines(log + Tag(c, lines)))
  {
    hide Recs, Lines, Tag;
    LinesConcat(log, c, lines);
    RecsConcat(0, Lines(log), lines);
  }

  lemma {:induction false} StoredLines(events: seq<Event>)
    ensures Stored(events) == Recs(0, Lines(Serve(events).1))
  {
    if events != [] {
      hide Serve, Stored, Recs, Lines, Tag;
      var init, e := events[..|events| - 1], events[|events| - 1];
      assert events == init + [e];
      StoredLines(init);
      var lines := ServeNext(init, e);
      RecsOfLog(Serve(init).1, e.conn, lines);
    }
  }

  /** Over a whole run the stored records are the log's lines, parsed, in order, numbered
      0, 1, 2, ... modulo 2^32 whichever connection they came from. */
  lemma {:induction false} NumbersRun(events: seq<Event>)
    ensures var lines := Lines(Serve(events).1);
      && |Stored(events)| == |lines|
      && forall i :: 0 <= i < |lines| ==>
           && Stored(events)[i].seqno == i % U32
           && Parsed(Stored(events)[i].level, Stored(events)[i].bytes) == ParseLine(lines[i])
  {
    StoredLines(events);
    hide Serve, Stored, Lines, ParseLine;
  }

  // ---- end to end ---------------------------------------------------------------------

  /** A line logrec builds, fed to the listener on a fresh connection in any chunks,
      becomes exactly one record, with the level, as an unsigned 32-bit number, and what
      fitted of the message it was built from. */
  lemma OneRecordEach(n: nat, level: int, msg: seq<byte>)
    requires Int32(level) && Plain(msg)
    ensures var p := FeedAll(Progress([], []), LogRec(level, msg));
      p.pending == [] && Recs(n, p.lines) == [LogRecord(n % U32, level % U32, Kept(level, msg))]
  {
    LineShape(level, msg);
    hide LogRec, FeedAll, Split, ParseLine, Recs, Signed;
    var s := Signed(level) + [SPACE] + Kept(level, msg);
    ListenerReadsBack(level, Kept(level, msg));
    FeedIsSplit(LogRec(level, msg));
    SplitOneLine(s);
    RecsOne(n, s);
    hide Kept;
  }

  lemma SplitOneLine(s: seq<byte>)
    requires NEWLINE !in s && |s| <= PIECE
    ensures Split(s + [NEWLINE]) == Progress([], [s])
  {
    hide Split, Cut;
    SplitFirst(s, []);
    SplitNothing();
    ShortLine(s);
    assert s + [NEWLINE] + [] == s + [NEWLINE];
    assert [s] + [] == [s];
  }

  lemma ShortLine(s: seq<byte>)
    requires |s| <= PIECE
    ensures Cut(s) == [s]
  {
  }
}
