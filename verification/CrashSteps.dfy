/** Operations that are not interrupted: run back to back, the stores of the crash
    protocol are vu_queue_pop, vu_queue_push and vu_check_queue_inflights. */
module CrashSteps {
  import opened Machine
  import opened Ring16
  import opened SplitQueue
  import P = CrashProtocol

  /** A pop, from an idle process: re-reading the list, or the ring store by store. */
  function PopSteps(s: P.State, mapped: bool, eventIdx: bool): P.State
    requires s.q.WellFormed()
  {
    if s.q.broken then s
    else if s.q.resubmit != [] then P.PopAgain(s, mapped)
    else
      var c := P.CheckAvail(s);
      if c.pc.Idle? then c
      else
        var t := P.Take(c, mapped, eventIdx);
        if t.pc.Took? && t.pc.h < |t.q.infl| then P.RecordFlag(P.RecordCounter(t)) else t
  }

  /** The same queue, and the head is the one taken. */
  lemma PopIsSteps(s: P.State, mapped: bool, eventIdx: bool)
    requires s.q.WellFormed() && s.pc.Idle?
    ensures PopSteps(s, mapped, eventIdx).q == Pop(s.q, eventIdx, true, mapped)
    ensures PopSteps(s, mapped, eventIdx).pc.Idle?
    ensures mapped && NextPop(s.q).Some? ==> PopSteps(s, mapped, eventIdx).held == s.held + {NextPop(s.q).value}
    ensures !mapped || NextPop(s.q).None? ==> PopSteps(s, mapped, eventIdx).held == s.held
  {
    hide Wrap, RingSize, StoreCounter, StoreInflight;
    if !s.q.broken && s.q.resubmit == [] && !QueueEmpty(s.q) {
      TakeIs(s, P.CheckAvail(s), mapped, eventIdx);
    }
  }

  lemma TakeIs(s: P.State, c: P.State, mapped: bool, eventIdx: bool)
    requires s.q.WellFormed() && c == P.CheckAvail(s) && !QueueEmpty(s.q)
    ensures var t, h := P.Take(c, mapped, eventIdx), TakeHead(s.q, eventIdx);
      if h.1.None? then t.pc.Idle? && t.q == h.0 && t.held == s.held
      else if mapped then t == c.(q := CountInuse(h.0), pc := P.Took(h.1.value))
      else t.pc.Idle? && t.q == Panic(h.0) && t.held == s.held
    ensures TakeHead(s.q, eventIdx).1 == TakeHead(s.q, false).1
  {
    hide Wrap, RingSize;
  }

  /** A push on a device that is sound and stays so, store by store. */
  function PushSteps(s: P.State, h: u16, len: nat): P.State
    requires s.q.WellFormed() && h < s.q.num
  {
    P.PushIdx(P.PushClear(P.PushFlush(P.PushPrePut(P.PushFill(s, h, len)))))
  }

  lemma PushIsSteps(s: P.State, h: u16, len: nat)
    requires s.q.WellFormed() && h < s.q.num && !s.q.broken
    ensures PushSteps(s, h, len).q == Push(s.q, h, len, true, false)
    ensures PushSteps(s, h, len).pc.Idle?
    ensures PushSteps(s, h, len).done == s.done + [P.Owner(s.own, h)]
  {
    hide Wrap, RingSize, Outrun, Sub32;
  }

  /** Recovery, store by store. */
  function RecoverSteps(s: P.State): P.State
    requires s.q.WellFormed()
  {
    if s.q.version == 0 then P.RecoverFirst(s)
    else
      var r := if s.q.inflUsedIdx != s.q.usedIdxMem then P.RecoverIdx(P.RecoverClear(s)) else s;
      P.RecoverScan(r, Qsort(InflightEntries(r.q.infl)))
  }

  lemma RecoverIsSteps(s: P.State)
    requires s.q.WellFormed() && s.pc.Down? && P.Blank(s) && s.q.counter == 0
    ensures RecoverSteps(s).q == Recover(s.q)
    ensures RecoverSteps(s).pc.Idle?
    ensures s.q.version != 0 ==> QsortResult(InflightEntries(Repaired(s.q)), Qsort(InflightEntries(Repaired(s.q))))
  {
    hide Wrap, RingSize, CountInflight, InflightEntries, Qsort, QsortResult;
    if s.q.version != 0 {
      QsortOk(InflightEntries(Repaired(s.q)));
    }
  }
}
