/** Kicks with EVENT_IDX: tx_kick on one side, the driver's publish-then-check on the
    other, interleaved store by store.

    The device publishes avail_event, the index at which it wants the next kick, and
    re-checks the ring; the driver publishes chains and then decides with
    vring_need_event whether to kick. All indices are 16-bit; `published`, `checked`,
    `consumed` and `event` are the unbounded counters behind them. */
module Wakeup {
  import opened Ring16

  datatype DevicePc =
    | Asleep                              // outside tx_kick
    | Handling                            // about to read avail->idx
    | Draining(upto: nat, n: nat)         // the handler's snapshot, chains done so far
    | Publishing(n: nat)                  // the handler returned n
    | Rechecking(n: nat)                  // avail_event stored

  datatype DriverPc = Quiet | MustKick

  datatype State = State(
    eventIdx: bool, num: nat,
    availIdx: u16, availEvent: u16, lastAvail: u16, kick: bool,
    device: DevicePc, driver: DriverPc,
    published: nat, checked: nat, consumed: nat, event: nat)

  datatype Action =
    | Publish | Check | Kick
    | Wake | Snapshot | TakeChain | HandlerDone | PublishEvent | Recheck

  /** A queue with nothing outstanding at index `start`, whose avail_event word is `e`. */
  function Init(eventIdx: bool, num: nat, start: nat, e: u16): State {
    State(eventIdx, num, Wrap(start), e, Wrap(start), false, Asleep, Quiet, start, start, start, start)
  }

  ghost predicate Enabled(s: State, a: Action) {
    match a
    // at most num chains outstanding, and a check at least every 2^16 - 1 publications
    case Publish => s.driver.Quiet? && s.published < s.consumed + s.num && s.published + 1 < s.checked + WRAP
    case Check => s.driver.Quiet? && s.checked < s.published
    case Kick => s.driver.MustKick?
    case Wake => s.device.Asleep? && s.kick
    case Snapshot => s.device.Handling?
    case TakeChain => s.device.Draining? && s.lastAvail != Wrap(s.device.upto)
    case HandlerDone => s.device.Draining? && s.lastAvail == Wrap(s.device.upto)
    case PublishEvent => s.device.Publishing?
    case Recheck => s.device.Rechecking?
  }

  function Apply(s: State, a: Action): State {
    match a
    case Publish => s.(availIdx := Wrap(s.availIdx + 1), published := s.published + 1)
    case Check =>
      var kick := !s.eventIdx || NeedEvent(s.availEvent, s.availIdx, Wrap(s.checked));
      s.(checked := s.published, driver := if kick then MustKick else Quiet)
    case Kick => s.(kick := true, driver := Quiet)
    case Wake => s.(kick := false, device := Handling)
    case Snapshot => s.(device := Draining(s.published, 0))
    case TakeChain =>
      if s.device.Draining?
      then s.(lastAvail := Wrap(s.lastAvail + 1), consumed := s.consumed + 1,
              device := Draining(s.device.upto, s.device.n + 1))
      else s
    case HandlerDone =>
      if s.device.Draining? && s.eventIdx then s.(device := Publishing(s.device.n)) else s.(device := Asleep)
    case PublishEvent =>
      if s.device.Publishing?
      then s.(availEvent := s.lastAvail, event := s.consumed, device := Rechecking(s.device.n))
      else s
    case Recheck =>
      if s.availIdx == s.lastAvail || (s.device.Rechecking? && s.device.n == 0)
      then s.(device := Asleep)
      else s.(device := Handling)
  }

  ghost predicate Run(s0: State, states: seq<State>, acts: seq<Action>) {
    && |states| == |acts| + 1
    && states[0] == s0
    && forall i :: 0 <= i < |acts| ==> Enabled(states[i], acts[i]) && states[i + 1] == Apply(states[i], acts[i])
  }

  /** A kick is on its way, or the driver has not yet decided about anything past k. */
  ghost predicate Covered(s: State, k: nat) {
    s.kick || s.driver.MustKick? || s.checked <= k
  }

  ghost predicate Inv(s: State) {
    && RingSize(s.num)
    && s.consumed <= s.published <= s.consumed + s.num
    && s.checked <= s.published < s.checked + WRAP
    && s.availIdx == Wrap(s.published) && s.lastAvail == Wrap(s.consumed)
    && (s.eventIdx ==> s.availEvent == Wrap(s.event))
    && (s.eventIdx && !s.device.Draining? && !s.device.Publishing? ==> s.event == s.consumed)
    && (s.device.Asleep? ==> Covered(s, s.consumed))
    && (s.device.Draining? ==>
          && s.consumed <= s.device.upto <= s.published
          && (s.eventIdx ==> s.event + s.device.n == s.consumed)
          && (s.eventIdx && s.event == s.device.upto ==> Covered(s, s.device.upto))
          && (!s.eventIdx ==> Covered(s, s.device.upto)))
    && (s.device.Publishing? ==>
          s.eventIdx && s.event + s.device.n == s.consumed && (s.device.n == 0 ==> Covered(s, s.consumed)))
    && (s.device.Rechecking? ==> s.eventIdx && (s.device.n == 0 ==> Covered(s, s.consumed)))
  }

  lemma CheckInv(s: State)
    requires Inv(s) && Enabled(s, Check)
    ensures Inv(Apply(s, Check))
  {
    if s.eventIdx {
      NeedEventExact(s.availEvent, s.published, s.checked);
      // An event index within the unchecked publications forces the kick.
      assert s.checked <= s.event < s.published ==> NeedEvent(s.availEvent, s.availIdx, Wrap(s.checked));
    }
    hide Wrap, NeedEvent;
  }

  lemma StepInv(s: State, a: Action)
    requires Inv(s) && Enabled(s, a)
    ensures Inv(Apply(s, a))
  {
    match a
    case Check => CheckInv(s);
    case Publish => WrapStep(s.published, 1); hide Wrap;
    case TakeChain =>
      WrapStep(s.consumed, 1);
      WrapInjective(s.consumed, s.device.upto);
      hide Wrap;
    case HandlerDone => WrapInjective(s.consumed, s.device.upto); hide Wrap;
    case Recheck => WrapInjective(s.consumed, s.published); hide Wrap;
    case _ => hide Wrap;
  }

  lemma {:induction false} RunInv(s0: State, states: seq<State>, acts: seq<Action>, i: nat)
    requires Run(s0, states, acts) && Inv(s0) && i < |states|
    ensures Inv(states[i])
  {
    hide Inv, Enabled, Apply;
    if i > 0 {
      RunInv(s0, states, acts, i - 1);
      StepInv(states[i - 1], acts[i - 1]);
    }
  }

  /** The device sleeps, no kick is on its way and the driver has decided about all it published. */
  ghost predicate AtRest(s: State) {
    s.device.Asleep? && !s.kick && s.driver.Quiet? && s.checked == s.published
  }

  /** Under every interleaving, with or without EVENT_IDX, once everything is at rest
      the device has consumed all that was published, and avail->idx says so. */
  lemma NoLostWakeup(eventIdx: bool, num: nat, start: nat, states: seq<State>, acts: seq<Action>)
    requires RingSize(num) && Run(Init(eventIdx, num, start, Wrap(start)), states, acts)
    ensures var s := states[|acts|];
      AtRest(s) ==> s.availIdx == s.lastAvail && s.published == s.consumed
  {
    RunInv(Init(eventIdx, num, start, Wrap(start)), states, acts, |acts|);
    hide Run;
  }

  ghost predicate AlwaysSeen(num: nat, start: nat, e: u16) {
    forall states: seq<State>, acts: seq<Action> :: Run(Init(true, num, start, e), states, acts) ==>
      (AtRest(states[|acts|]) ==> states[|acts|].availIdx == states[|acts|].lastAvail)
  }

  /** The n == 0 exit of tx_kick rests on the word it finds: with EVENT_IDX no wakeup is
      ever lost if and only if avail_event initially equals last_avail. */
  lemma SafeIffEventMatches(num: nat, start: nat, e: u16)
    requires RingSize(num)
    ensures AlwaysSeen(num, start, e) <==> e == Wrap(start)
  {
    if e == Wrap(start) {
      forall states: seq<State>, acts: seq<Action> | Run(Init(true, num, start, e), states, acts)
        ensures AtRest(states[|acts|]) ==> states[|acts|].availIdx == states[|acts|].lastAvail
      {
        NoLostWakeup(true, num, start, states, acts);
      }
    } else {
      var states := LostWakeup(num, start, e);
    }
  }

  /** One publication and its check go unnoticed when avail_event is elsewhere. */
  lemma LostWakeup(num: nat, start: nat, e: u16) returns (states: seq<State>)
    requires RingSize(num) && e != Wrap(start)
    ensures Run(Init(true, num, start, e), states, [Publish, Check])
    ensures AtRest(states[2]) && states[2].availIdx != states[2].lastAvail
    ensures !AlwaysSeen(num, start, e)
  {
    var s0 := Init(true, num, start, e);
    var s1 := Apply(s0, Publish);
    var s2 := Apply(s1, Check);
    states := [s0, s1, s2];
    WrapStep(start, 1);
    WrapInjective(start, start + 1);
    NeedEventExact(e, start + 1, start);
    assert !NeedEvent(e, s1.availIdx, Wrap(start));
    hide Wrap, NeedEvent;
    assert Run(s0, states, [Publish, Check]);
  }
}
