/** The device steps of Wakeup are tx_kick: between a wake and the next rest, however the
    driver's steps fall in between, they compute what tx_kick computes from the values of
    avail->idx it reads. */
module WakeupKicks {
  import opened Ring16
  import opened Wakeup
  import opened KickSteps

  /** tx_kick stands where the device stands; base is what was consumed before the kick. */
  ghost predicate Stands(s: State, k: KickState, base: nat) {
    base <= s.consumed &&
    match s.device
    case Asleep => k == Over(s.lastAvail, s.availEvent, s.consumed - base)
    case Handling => k == Entering(s.lastAvail, s.availEvent, s.consumed - base)
    case Draining(upto, n) =>
      && s.consumed <= upto
      && k == if s.eventIdx
              then KickState.Rechecking(Wrap(upto), Wrap(upto), n + (upto - s.consumed), upto - base)
              else Over(Wrap(upto), s.availEvent, upto - base)
    case Publishing(n) => k == KickState.Rechecking(s.lastAvail, s.lastAvail, n, s.consumed - base)
    case Rechecking(n) => k == KickState.Rechecking(s.lastAvail, s.availEvent, n, s.consumed - base)
  }

  /** The read of avail->idx in a step, if it has one. */
  function ReadIn(s: State, a: Action): seq<u16> {
    if a.Snapshot? || a.Recheck? then [s.availIdx] else []
  }

  lemma ReadOne(eventIdx: bool, k: KickState, idx: u16)
    ensures OnReads(eventIdx, k, [idx]) == OnRead(eventIdx, k, idx) && OnReads(eventIdx, k, []) == k
  {
    OneMoreRead(eventIdx, k, [], idx);
    assert [] + [idx] == [idx];
  }

  lemma RingBound(num: nat)
    requires RingSize(num)
    ensures num <= 0x8000
  {
  }

  lemma StandsNext(s: State, a: Action, k: KickState, base: nat)
    requires Inv(s) && Enabled(s, a) && !a.Wake? && Stands(s, k, base)
    ensures Stands(Apply(s, a), OnReads(s.eventIdx, k, ReadIn(s, a)), base)
  {
    hide Wrap, Sub16, NeedEvent, RingSize, OnReads, Covered;
    ReadOne(s.eventIdx, k, s.availIdx);
    RingBound(s.num);
    if a.Snapshot? {
      WrapInjective(s.consumed, s.published);
    } else if a.HandlerDone? {
      WrapInjective(s.consumed, s.device.upto);
    } else if a.TakeChain? {
      WrapStep(s.consumed, 1);
      WrapInjective(s.consumed, s.device.upto);
    }
  }

  /** The reads of a stretch of a run. */
  function Reads(states: seq<State>, acts: seq<Action>): seq<u16>
    requires |states| == |acts| + 1
  {
    if acts == [] then []
    else
      var n := |acts| - 1;
      Reads(states[..n + 1], acts[..n]) + ReadIn(states[n], acts[n])
  }

  lemma {:induction false} ReadsConcat(eventIdx: bool, k: KickState, a: seq<u16>, b: seq<u16>)
    requires |b| <= 1
    ensures OnReads(eventIdx, k, a + b) == OnReads(eventIdx, OnReads(eventIdx, k, a), b)
  {
    if b == [] {
      assert a + b == a;
    } else {
      OneMoreRead(eventIdx, k, a, b[0]);
      OneMoreRead(eventIdx, OnReads(eventIdx, k, a), [], b[0]);
      assert b == [b[0]] && [] + [b[0]] == [b[0]];
    }
  }

  /** A stretch of a run that starts with a wake. */
  ghost predicate Kicked(states: seq<State>, acts: seq<Action>) {
    && |states| == |acts| + 1 && acts != [] && acts[0].Wake?
    && Inv(states[0])
    && (forall i :: 0 <= i < |acts| ==> Enabled(states[i], acts[i]) && states[i + 1] == Apply(states[i], acts[i]))
    && forall i :: 1 <= i < |acts| ==> !acts[i].Wake?
  }

  lemma {:induction false} KickedStands(states: seq<State>, acts: seq<Action>)
    requires Kicked(states, acts)
    ensures var s, t := states[0], states[|acts|];
      && Inv(t) && t.eventIdx == s.eventIdx
      && Stands(t, OnReads(s.eventIdx, Entering(s.lastAvail, s.availEvent, 0), Reads(states, acts)), s.consumed)
  {
    hide Inv, Enabled, Wrap, OnRead;
    var n := |acts| - 1;
    StepInv(states[0], acts[0]);
    if n == 0 {
      assert Reads(states[..1], acts[..0]) == [];
      assert Reads(states, acts) == [];
      hide Apply;
      WakeEnters(states[0]);
    } else {
      var s, k := states[0], Entering(states[0].lastAvail, states[0].availEvent, 0);
      var before, acted := states[..n + 1], acts[..n];
      KickedStands(before, acted);
      StepInv(states[n], acts[n]);
      var r := Reads(before, acted);
      StandsNext(states[n], acts[n], OnReads(s.eventIdx, k, r), s.consumed);
      ReadsConcat(s.eventIdx, k, r, ReadIn(states[n], acts[n]));
      SameFeature(states[n], acts[n]);
      hide Stands, Reads, OnReads, Apply;
    }
  }

  lemma WakeEnters(s: State)
    requires Enabled(s, Wake)
    ensures Stands(Apply(s, Wake), Entering(s.lastAvail, s.availEvent, 0), s.consumed)
    ensures Apply(s, Wake).eventIdx == s.eventIdx
  {
    assert OnReads(s.eventIdx, Entering(s.lastAvail, s.availEvent, 0), []) == Entering(s.lastAvail, s.availEvent, 0);
  }

  lemma SameFeature(s: State, a: Action)
    ensures Apply(s, a).eventIdx == s.eventIdx
  {
  }

  /** From a wake to the next rest the device has done one tx_kick: last_avail,
      avail_event and the number of chains it took are those tx_kick ends with on the
      values of avail->idx that were there to read. */
  lemma WakeToRestIsTxKick(states: seq<State>, acts: seq<Action>)
    requires Kicked(states, acts) && states[|acts|].device.Asleep?
    ensures var s, t := states[0], states[|acts|];
      && s.consumed <= t.consumed
      && OnReads(s.eventIdx, Entering(s.lastAvail, s.availEvent, 0), Reads(states, acts))
         == Over(t.lastAvail, t.availEvent, t.consumed - s.consumed)
  {
    KickedStands(states, acts);
    hide Inv, OnReads, Kicked;
  }
}
