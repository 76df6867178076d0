/** The runner's best-effort log sink: lines go to a collector over a connection that
    may be absent, slow or lost, with a bounded buffer in between. */
module RetryBuffer {
  import opened Machine
  import opened LogStore

  const PEND_MAX: nat := 2048
  const LOG_BACKOFF_MAX: nat := 64

  /** The sink's globals: connected when g_log_fd is a descriptor. */
  datatype Sink = Sink(connected: bool, skip: nat, backoff: nat, pend: seq<byte>)

  const IDLE_SINK := Sink(false, 0, 1, [])

  /** What the system calls of one emit answer: whether connect succeeds, what the write
      of the pending bytes and of the line return, and whether each failure would block. */
  datatype Env = Env(connects: bool, wrotePend: int, blockPend: bool, wroteLine: int, blockLine: bool)

  /** An emit's effect: the sink after it, the bytes the collector got, whether a
      connection was attempted, and whether the line was sent or buffered whole. */
  datatype Outcome = Outcome(sink: Sink, sent: seq<byte>, attempted: bool, kept: bool)

  // ---- the code ---------------------------------------------------------------

  predicate Fits(pend: seq<byte>, line: seq<byte>) {
    |pend| + |line| <= PEND_MAX
  }

  /** log_pend. */
  function Pend(pend: seq<byte>, line: seq<byte>): seq<byte> {
    if Fits(pend, line) then pend + line else pend
  }

  function Double(backoff: nat): nat {
    if backoff < LOG_BACKOFF_MAX then backoff * 2 else backoff
  }

  /** log_sink_drop. */
  function Drop(s: Sink): Sink {
    Sink(false, s.backoff, Double(s.backoff), s.pend)
  }

  /** A write never takes more than it was given. */
  predicate Possible(s: Sink, line: seq<byte>, e: Env) {
    e.wrotePend <= |s.pend| && e.wroteLine <= |line|
  }

  /** log_sink_emit with a collector named. */
  function Emit(s: Sink, line: seq<byte>, e: Env): Outcome
    requires Possible(s, line, e)
  {
    if s.connected then Deliver(s, line, e, false)
    else if s.skip > 0 then
      Outcome(s.(skip := s.skip - 1, pend := Pend(s.pend, line)), [], false, Fits(s.pend, line))
    else if !e.connects then
      Outcome(Sink(false, s.backoff, Double(s.backoff), Pend(s.pend, line)), [], true, Fits(s.pend, line))
    else Deliver(s.(connected := true, backoff := 1), line, e, true)
  }

  /** The part of log_sink_emit that has a connection: pending bytes first. */
  function Deliver(s: Sink, line: seq<byte>, e: Env, attempted: bool): Outcome
    requires Possible(s, line, e)
  {
    if s.pend != [] && e.wrotePend != |s.pend| then
      if e.wrotePend > 0 then
        var rest := s.pend[e.wrotePend..];
        Outcome(s.(pend := Pend(rest, line)), s.pend[..e.wrotePend], attempted, Fits(rest, line))
      else
        var s' := if e.blockPend then s else Drop(s);
        Outcome(s'.(pend := Pend(s.pend, line)), [], attempted, Fits(s.pend, line))
    else if e.wroteLine == |line| then
      Outcome(s.(pend := []), s.pend + line, attempted, true)
    else
      var s' := if e.blockLine then s.(pend := []) else Drop(s.(pend := []));
      var part := if e.wroteLine > 0 then line[..e.wroteLine] else [];
      Outcome(s'.(pend := Pend([], line)), s.pend + part, attempted, Fits([], line))
  }

  /** The sink in place: a fixed array and its fill count. */
  class LogSink {
    var connected: bool
    var skip: nat
    var backoff: nat
    const buf: array<byte>
    var len: nat

    ghost predicate Valid()
      reads this
    {
      buf.Length == PEND_MAX && len <= PEND_MAX
    }

    ghost function View(): Sink
      requires Valid()
      reads this, buf
    {
      Sink(connected, skip, backoff, buf[..len])
    }

    constructor ()
      ensures Valid() && fresh(buf) && View() == IDLE_SINK
    {
      connected, skip, backoff, len := false, 0, 1, 0;
      buf := new byte[PEND_MAX](i => 0);
    }

    /** log_pend. */
    method LogPend(line: seq<byte>)
      requires Valid()
      modifies this`len, buf
      ensures Valid() && buf[..len] == Pend(old(buf[..len]), line)
    {
      if len + |line| > PEND_MAX {
        return;
      }
      forall i | 0 <= i < |line| {
        buf[len + i] := line[i];
      }
      len := len + |line|;
      assert buf[..len] == old(buf[..len]) + line;
    }

    /** log_sink_drop. */
    method LogSinkDrop()
      requires Valid()
      modifies this`connected, this`skip, this`backoff
      ensures View() == Drop(old(View()))
    {
      connected := false;
      skip := backoff;
      if backoff < LOG_BACKOFF_MAX {
        backoff := backoff * 2;
      }
    }

    /** The memmove after a partial write of the pending bytes. */
    method Consume(w: nat)
      requires Valid() && w <= len
      modifies this`len, buf
      ensures Valid() && buf[..len] == old(buf[..len])[w..]
    {
      forall i | 0 <= i < len - w {
        buf[i] := buf[i + w];
      }
      len := len - w;
    }

    /** log_sink_emit: returns the bytes the collector receives. */
    method LogSinkEmit(line: seq<byte>, e: Env) returns (sent: seq<byte>)
      requires Valid() && Possible(View(), line, e)
      modifies this, buf
      ensures Valid()
      ensures var r := Emit(old(View()), line, e); View() == r.sink && sent == r.sent
    {
      sent := [];
      if !connected {
        if skip > 0 {
          skip := skip - 1;
          LogPend(line);
          return;
        }
        connected := e.connects;
        if !connected {
          skip := backoff;
          if backoff < LOG_BACKOFF_MAX {
            backoff := backoff * 2;
          }
          LogPend(line);
          return;
        }
        backoff := 1;
      }
      if len > 0 {
        var w := e.wrotePend;
        if w == len {
          sent := buf[..len];
          len := 0;
        } else if w > 0 {
          sent := buf[..w];
          Consume(w);
          LogPend(line);
          return;
        } else {
          if !e.blockPend {
            LogSinkDrop();
          }
          LogPend(line);
          return;
        }
      }
      var w := e.wroteLine;
      sent := sent + (if w > 0 then line[..w] else []);
      if w != |line| {
        if !e.blockLine {
          LogSinkDrop();
        }
        LogPend(line);
      }
    }
  }

  // ---- runs ----------------------------------------------------------------------

  datatype Emission = Emission(line: seq<byte>, env: Env)

  /** A run's history: the sink, all bytes delivered, the lines kept, how many emits in a
      row passed without a connection or an attempt at one, and how many connections and
      attempts in a row have failed. */
  datatype History = History(sink: Sink, delivered: seq<byte>, kept: seq<seq<byte>>, idle: nat, fails: nat)

  const FRESH := History(IDLE_SINK, [], [], 0, 0)

  function Next(h: History, em: Emission): History
    requires Possible(h.sink, em.line, em.env)
  {
    var r := Emit(h.sink, em.line, em.env);
    History(r.sink, h.delivered + r.sent, if r.kept then h.kept + [em.line] else h.kept,
            if h.sink.connected || r.attempted then 0 else h.idle + 1, FailsAfter(h, em))
  }

  // What an emit meets, told from the answers of the system calls alone.

  predicate HasConnection(s: Sink, e: Env) {
    s.connected || (s.skip == 0 && e.connects)
  }

  /** How many pending bytes the collector took. */
  function Taken(s: Sink, e: Env): nat {
    if HasConnection(s, e) && e.wrotePend > 0 then e.wrotePend else 0
  }

  /** Did this emit write a line with the pending bytes out of the way? */
  predicate WroteLine(s: Sink, e: Env) {
    HasConnection(s, e) && (s.pend == [] || e.wrotePend == |s.pend|)
  }

  predicate WroteWhole(s: Sink, line: seq<byte>, e: Env) {
    WroteLine(s, e) && e.wroteLine == |line|
  }

  /** A write that fails for another reason than a handshake under way. */
  predicate HardError(s: Sink, line: seq<byte>, e: Env) {
    && HasConnection(s, e)
    && if WroteLine(s, e) then e.wroteLine != |line| && !e.blockLine
       else e.wrotePend <= 0 && !e.blockPend
  }

  /** A line neither written whole nor fitting behind what is still pending. */
  predicate Lost(s: Sink, line: seq<byte>, e: Env)
    requires Possible(s, line, e)
  {
    !WroteWhole(s, line, e) && (|s.pend| - Taken(s, e)) + |line| > 2048
  }

  function FailsAfter(h: History, em: Emission): nat {
    if HasConnection(h.sink, em.env) then (if HardError(h.sink, em.line, em.env) then 1 else 0)
    else if h.sink.skip == 0 then h.fails + 1
    else h.fails
  }

  ghost predicate Run(states: seq<History>, ems: seq<Emission>) {
    && |states| == |ems| + 1
    && states[0] == FRESH
    && forall i :: 0 <= i < |ems| ==>
         Possible(states[i].sink, ems[i].line, ems[i].env) && states[i + 1] == Next(states[i], ems[i])
  }

  /** The premise: a fresh line's write takes all of it or nothing. */
  predicate AllOrNothing(line: seq<byte>, e: Env) {
    e.wroteLine == |line| || e.wroteLine <= 0
  }

  function Flat(lines: seq<seq<byte>>): seq<byte> {
    if lines == [] then [] else Flat(lines[..|lines| - 1]) + lines[|lines| - 1]
  }

  /** Some of the lines, in order. */
  ghost predicate Subsequence(kept: seq<seq<byte>>, lines: seq<seq<byte>>) {
    if lines == [] then kept == []
    else
      var n := |lines| - 1;
      || Subsequence(kept, lines[..n])
      || (kept != [] && kept[|kept| - 1] == lines[n] && Subsequence(kept[..|kept| - 1], lines[..n]))
  }

  function LinesOf(ems: seq<Emission>): seq<seq<byte>> {
    if ems == [] then [] else LinesOf(ems[..|ems| - 1]) + [ems[|ems| - 1].line]
  }

  /** What was delivered, followed by what is pending, is whole lines in order. */
  ghost predicate Faithful(h: History) {
    h.delivered + h.sink.pend == Flat(h.kept)
  }

  /** The lines of a run's first i emits that were not lost, in order. */
  function Survivors(states: seq<History>, ems: seq<Emission>, i: nat): seq<seq<byte>>
    requires i <= |ems| <= |states|
    requires forall j :: 0 <= j < i ==> Possible(states[j].sink, ems[j].line, ems[j].env)
  {
    if i == 0 then []
    else
      Survivors(states, ems, i - 1)
      + (if Lost(states[i - 1].sink, ems[i - 1].line, ems[i - 1].env) then [] else [ems[i - 1].line])
  }

  /** 2 to the power n, but no more than 64. */
  function Gap(n: nat): nat {
    if n == 0 then 1 else if n < 6 then 2 * Gap(n - 1) else 64
  }

  /** The buffer's bound and, after so many failures in a row, the exact gap: the emits
      let pass so far and those still to pass add up to it. */
  ghost predicate Bounded(h: History) {
    && |h.sink.pend| <= 2048
    && h.sink.backoff == Gap(h.fails)
    && (h.sink.connected ==> h.sink.skip == 0 && h.idle == 0 && h.fails == 0)
    && (!h.sink.connected ==> h.idle + h.sink.skip == if h.fails == 0 then 0 else Gap(h.fails - 1))
  }

  lemma GapsGrow(n: nat)
    ensures 1 <= Gap(n) <= 64 && Gap(n + 1) == Double(Gap(n))
  {
    assert Gap(1) == 2 && Gap(2) == 4 && Gap(3) == 8 && Gap(4) == 16 && Gap(5) == 32 && Gap(6) == 64;
  }

  /** What one emit does, from the answers alone: which line is lost, how many bytes are
      sent and stay, whether a connection is tried and whether one is left. */
  lemma EmitExact(s: Sink, line: seq<byte>, e: Env)
    requires Possible(s, line, e)
    ensures var r := Emit(s, line, e);
      && (r.kept <==> !Lost(s, line, e))
      && |r.sent| == Taken(s, e) + (if WroteLine(s, e) && e.wroteLine > 0 then e.wroteLine else 0)
      && |r.sink.pend| == |s.pend| - Taken(s, e) + (if r.kept && !WroteWhole(s, line, e) then |line| else 0)
      && (r.attempted <==> !s.connected && s.skip == 0)
      && (r.sink.connected <==> HasConnection(s, e) && !HardError(s, line, e))
  {
  }

  lemma FlatNext(kept: seq<seq<byte>>, line: seq<byte>)
    ensures Flat(kept + [line]) == Flat(kept) + line
  {
    assert (kept + [line])[..|kept|] == kept;
  }

  lemma BoundedNext(h: History, em: Emission)
    requires Bounded(h) && Possible(h.sink, em.line, em.env)
    ensures Bounded(Next(h, em))
  {
    GapsGrow(h.fails);
    GapsGrow(0);
    hide Gap;
  }

  /** One emit keeps the stream faithful if and only if it does not take part of a fresh
      line: then the line is buffered whole although its beginning is already sent. */
  lemma FaithfulIff(h: History, em: Emission)
    requires Faithful(h) && Possible(h.sink, em.line, em.env)
    ensures Faithful(Next(h, em)) <==> !WroteLine(h.sink, em.env) || AllOrNothing(em.line, em.env)
  {
    var r := Emit(h.sink, em.line, em.env);
    hide Emit, Flat, Fits;
    FlatNext(h.kept, em.line);
    var h' := Next(h, em);
    if !WroteLine(h.sink, em.env) || AllOrNothing(em.line, em.env) {
      EmitBytes(h.sink, em.line, em.env);
      Regroup(h.delivered, h.sink.pend, r.sent, r.sink.pend, if r.kept then em.line else []);
    } else {
      EmitLength(h.sink, em.line, em.env);
      assert |h.delivered + r.sent + r.sink.pend| != |h.delivered + h.sink.pend| + (if r.kept then |em.line| else 0);
    }
  }

  lemma Regroup(delivered: seq<byte>, pend: seq<byte>, sent: seq<byte>, pend': seq<byte>, line: seq<byte>)
    requires sent + pend' == pend + line
    ensures (delivered + sent) + pend' == (delivered + pend) + line
  {
    assert (delivered + sent) + pend' == delivered + (sent + pend');
  }

  /** The bytes of an emit: what was sent, then what is pending after it. */
  lemma EmitBytes(s: Sink, line: seq<byte>, e: Env)
    requires Possible(s, line, e) && (!WroteLine(s, e) || AllOrNothing(line, e))
    ensures var r := Emit(s, line, e);
      r.sent + r.sink.pend == s.pend + (if r.kept then line else [])
  {
    if s.pend != [] && e.wrotePend != |s.pend| && e.wrotePend > 0 {
      assert s.pend == s.pend[..e.wrotePend] + s.pend[e.wrotePend..];
    }
  }

  lemma EmitLength(s: Sink, line: seq<byte>, e: Env)
    requires Possible(s, line, e) && WroteLine(s, e) && !AllOrNothing(line, e)
    ensures var r := Emit(s, line, e);
      |r.sent| + |r.sink.pend| == |s.pend| + e.wroteLine + (if r.kept then |line| else 0)
  {
  }

  lemma {:induction false} RunNext(states: seq<History>, ems: seq<Emission>, i: nat)
    requires Run(states, ems) && i < |states|
    requires forall j :: 0 <= j < |ems| ==> AllOrNothing(ems[j].line, ems[j].env)
    ensures Faithful(states[i]) && Bounded(states[i])
    ensures Subsequence(states[i].kept, LinesOf(ems[..i]))
  {
    if i > 0 {
      RunNext(states, ems, i - 1);
      var h, em := states[i - 1], ems[i - 1];
      FaithfulIff(h, em);
      BoundedNext(h, em);
      LinesNext(ems, i);
      SubsequenceNext(h.kept, LinesOf(ems[..i - 1]), em.line);
      hide Emit, Bounded, Faithful, Subsequence, LinesOf, AllOrNothing, WroteLine, Possible;
    }
  }

  lemma LinesNext(ems: seq<Emission>, i: nat)
    requires 0 < i <= |ems|
    ensures LinesOf(ems[..i]) == LinesOf(ems[..i - 1]) + [ems[i - 1].line]
  {
    assert ems[..i][..i - 1] == ems[..i - 1];
  }

  lemma {:induction false} SubsequenceNext(kept: seq<seq<byte>>, lines: seq<seq<byte>>, line: seq<byte>)
    requires Subsequence(kept, lines)
    ensures Subsequence(kept, lines + [line]) && Subsequence(kept + [line], lines + [line])
  {
    assert (lines + [line])[..|lines|] == lines;
    assert (kept + [line])[..|kept|] == kept;
  }

  lemma {:induction false} KeptSurvive(states: seq<History>, ems: seq<Emission>, i: nat)
    requires Run(states, ems) && i < |states|
    ensures states[i].kept == Survivors(states, ems, i)
  {
    if i > 0 {
      KeptSurvive(states, ems, i - 1);
      EmitExact(states[i - 1].sink, ems[i - 1].line, ems[i - 1].env);
      hide Emit, Lost;
    }
  }

  /** In every run whose fresh lines are written whole or not at all, whatever connect and
      write do otherwise: the bytes delivered followed by the bytes pending are, whole and
      in order, exactly the emitted lines but those lost, a line being lost if it is not
      written whole and would bring the pending bytes past 2048. And after a run of
      failures the gap to the next attempt is exact: 1, 2, 4 and so on up to 64 emits. */
  lemma RetryKeepsOrder(states: seq<History>, ems: seq<Emission>)
    requires Run(states, ems)
    requires forall j :: 0 <= j < |ems| ==> AllOrNothing(ems[j].line, ems[j].env)
    ensures var h := states[|ems|]; var lines := Survivors(states, ems, |ems|);
      && h.delivered + h.sink.pend == Flat(lines) && Subsequence(lines, LinesOf(ems))
      && |h.sink.pend| <= 2048
      && (h.sink.connected ==> h.sink.skip == 0)
      && (!h.sink.connected && h.fails > 0 ==> h.idle + h.sink.skip == Gap(h.fails - 1))
      && h.idle <= 64
  {
    RunNext(states, ems, |ems|);
    KeptSurvive(states, ems, |ems|);
    assert ems[..|ems|] == ems;
    var h := states[|ems|];
    if h.fails > 0 {
      GapsGrow(h.fails - 1);
    }
    hide Run, Subsequence, Flat, Gap;
  }

  /** A write that takes one byte of a fresh two-byte line: that byte is delivered and
      then pending again. */
  lemma PartialWriteRepeats()
    ensures var h := FRESH; var em := Emission([1, 2], Env(true, 0, false, 1, true));
      && Faithful(h) && Possible(h.sink, em.line, em.env) && !Faithful(Next(h, em))
      && Next(h, em).delivered == [1] && Next(h, em).sink.pend == [1, 2]
  {
    var h, em := FRESH, Emission([1, 2], Env(true, 0, false, 1, true));
    FaithfulIff(h, em);
  }
}
