/** Interrupt suppression over whole runs of flushes and notify checks, whatever else
    happens to the queue: pops, fills, the in-flight record, recovery, restarts.

    Beside the wrapped fields run two unbounded counters: `used` completions made, and
    `mark` their number when signalled_used was last set. */
module Interrupts {
  import opened Ring16
  import opened SplitQueue

  datatype State = State(q: Queue, used: nat, mark: nat)

  datatype Action =
    | Flush(count: nat)
    | Notify(onEmpty: bool, eventIdx: bool, noInterrupt: bool)
    | Restart                // a new process over the same memory
    | Other(q: Queue)        // anything else the driver or the device does

  /** Everything but a flush and a notify check leaves the completion indices and the
      signalled value alone; recovery reloads used_idx from the used ring. */
  ghost predicate SameCompletions(q: Queue, q': Queue) {
    && q'.usedIdxMem == q.usedIdxMem && q'.usedIdx == q.usedIdx
    && q'.signalledUsed == q.signalledUsed && q'.signalledValid == q.signalledValid
  }

  ghost predicate Enabled(s: State, a: Action) {
    match a
    case Flush(count) => count < WRAP
    case Other(q) => SameCompletions(s.q, q)
    case Notify(_, _, _) => true
    case Restart => true
  }

  /** The case in which vring_notify always interrupts. */
  predicate OnEmpty(q: Queue, notifyOnEmpty: bool) {
    notifyOnEmpty && q.inuse == 0 && QueueEmpty(q)
  }

  /** vu_queue_notify checks nothing on a broken device. */
  function Apply(s: State, a: Action): State {
    match a
    case Flush(count) =>
      s.(q := FlushUnlessBroken(s.q, count), used := if s.q.broken then s.used else s.used + count)
    case Notify(onEmpty, eventIdx, noInterrupt) =>
      if s.q.broken then s
      else
        s.(q := VringNotify(s.q, onEmpty, eventIdx, noInterrupt).0,
           mark := if eventIdx && !OnEmpty(s.q, onEmpty) then s.used else s.mark)
    case Restart => s.(q := FreshProcess(s.q))
    case Other(q) => s.(q := q)
  }

  ghost predicate Inv(s: State) {
    && s.q.usedIdx == s.q.usedIdxMem == Wrap(s.used)
    && (s.q.signalledValid ==> s.mark <= s.used < s.mark + 0x8000 && s.q.signalledUsed == Wrap(s.mark))
  }

  /** The exact meaning of the test in vu_queue_flush, for any count a 16-bit index can
      carry: signalled_used stays valid precisely while fewer than 2^15 completions
      have been made since it was set. */
  lemma OutrunExact(mark: nat, used: nat, count: nat)
    requires mark <= used < mark + 0x8000 && count < WRAP
    ensures Outrun(Wrap(mark), Wrap(used), Wrap(used + count)) <==> used + count >= mark + 0x8000
  {
    WrapInjective(used, used + count);
    var d := used + count - mark;
    if d < WRAP {
      WrapInjective(mark, used + count);
    } else {
      assert Wrap(mark + WRAP) == Wrap(mark);
      WrapInjective(mark + WRAP, used + count);
    }
  }

  lemma StepInv(s: State, a: Action)
    requires Inv(s) && Enabled(s, a)
    ensures Inv(Apply(s, a))
  {
    hide Wrap, Outrun, Sub32, QueueEmpty, LoadShadow, NotifyNeeded;
    if a.Flush? {
      WrapStep(s.used, a.count);
      if s.q.signalledValid {
        OutrunExact(s.mark, s.used, a.count);
      }
    }
    assert LoadShadow(s.q) == s.q.(shadow := LoadShadow(s.q).shadow) by {
      LoadShadowOnly(s.q);
    }
  }

  lemma LoadShadowOnly(q: Queue)
    ensures LoadShadow(q) == q.(shadow := LoadShadow(q).shadow)
  {
  }

  /** Any run of a queue whose completion count starts at `used` and that has not
      signalled yet. */
  ghost predicate Run(states: seq<State>, acts: seq<Action>) {
    && |states| == |acts| + 1
    && states[0].q.usedIdx == states[0].q.usedIdxMem == Wrap(states[0].used) && !states[0].q.signalledValid
    && forall i :: 0 <= i < |acts| ==> Enabled(states[i], acts[i]) && states[i + 1] == Apply(states[i], acts[i])
  }

  lemma {:induction false} RunInv(states: seq<State>, acts: seq<Action>, i: nat)
    requires Run(states, acts) && i < |states|
    ensures Inv(states[i])
  {
    if i > 0 {
      hide Inv, Enabled, Apply;
      RunInv(states, acts, i - 1);
      StepInv(states[i - 1], acts[i - 1]);
    }
  }

  /** In every run of flushes, each of fewer than 2^16 completions, notify checks and
      anything else: signalled_used is valid only while fewer than 2^15 completions were
      made since it was set; and on a device that is not broken vring_notify interrupts
      exactly in these cases: notification on emptiness is on, nothing is in use and
      nothing pending; event indices are off and the driver did not ask for silence; or
      they are on and signalled_used is not valid or the driver's used_event, read in
      unbounded counters, names a completion made since it was set. */
  lemma InterruptExact(states: seq<State>, acts: seq<Action>, onEmpty: bool, eventIdx: bool, noInterrupt: bool)
    requires Run(states, acts) && !states[|acts|].q.broken
    ensures var s := states[|acts|]; var q := s.q;
      && (q.signalledValid ==> s.mark <= s.used < s.mark + 0x8000)
      && (VringNotify(q, onEmpty, eventIdx, noInterrupt).1 <==>
            || (onEmpty && q.inuse == 0 && q.shadow == q.lastAvail && q.availIdx == q.lastAvail)
            || (!eventIdx && !noInterrupt)
            || (eventIdx && (!q.signalledValid || exists e :: s.mark <= e < s.used && Wrap(e) == q.usedEvent)))
  {
    var s := states[|acts|];
    RunInv(states, acts, |acts|);
    hide Run;
    if s.q.signalledValid {
      NeedEventExact(s.q.usedEvent, s.used, s.mark);
    }
  }
}
