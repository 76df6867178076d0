/** Runs of the crash protocol at which a recovery or completion guarantee fails. */
module CrashExamples {
  import opened Machine
  import opened Ring16
  import opened SplitQueue
  import opened CrashProtocol
  import opened CrashRuns

  lemma RunNext(num: nat, states: seq<State>, acts: seq<Action>, a: Action, s: State)
    requires Run(num, states, acts) && Step(states[|acts|], a, s)
    ensures Run(num, states + [s], acts + [a])
  {
    hide Step;
    var more, done := states + [s], acts + [a];
    forall i | 0 <= i < |done| ensures Step(more[i], done[i], more[i + 1]) {
      assert i < |acts| ==> more[i] == states[i] && more[i + 1] == states[i + 1];
    }
  }

  /** A ring of two entries whose first process has started. */
  lemma Started() returns (states: seq<State>, acts: seq<Action>)
    ensures Run(2, states, acts) && states[|acts|] == RecoverFirst(Init(2))
  {
    RunNext(2, [Init(2)], [], FirstStart, RecoverFirst(Init(2)));
    states, acts := [Init(2)] + [RecoverFirst(Init(2))], [] + [FirstStart];
  }

  /** Then both chains are published. */
  lemma TwoPublished() returns (states: seq<State>, acts: seq<Action>)
    ensures Run(2, states, acts)
    ensures var s := states[|acts|];
      && s.q.WellFormed() && s.q.avail == [0, 1] && s.q.availIdx == 2
      && s == RecoverFirst(Init(2)).(q := RecoverFirst(Init(2)).q.(avail := [0, 1], availIdx := 2),
                                     pubs := [0, 1], busy := s.busy)
  {
    states, acts := Started();
    var s := RecoverFirst(Init(2));
    var s1 := Publish(s, 0);
    RunNext(2, states, acts, DriverPublish(0), s1);
    states, acts := states + [s1], acts + [DriverPublish(0)];
    assert s1.q.avail == [0, 0];
    var s2 := Publish(s1, 1);
    RunNext(2, states, acts, DriverPublish(1), s2);
    states, acts := states + [s2], acts + [DriverPublish(1)];
    assert s2.q.avail == [0, 1];
  }

  /** And the first one is popped. */
  lemma OnePopped() returns (states: seq<State>, acts: seq<Action>)
    ensures Run(2, states, acts)
    ensures var s := states[|acts|];
      && s.pc.Idle? && !s.q.broken && s.q.WellFormed() && s.q.num == 2
      && s.pubs == [0, 1] && s.popped == 1 && s.done == [] && s.own == map[0 := 0]
      && s.q.resubmit == [] && s.q.inuse == 1 && s.q.lastAvail == 1 && s.q.shadow == 2
      && s.q.availIdx == 2 && s.q.avail == [0, 1] && s.q.version == 1
      && s.q.usedIdxMem == s.q.usedIdx == s.q.inflUsedIdx == 0 && s.q.lastBatchHead == 0
      && s.q.infl == [DescState(1, 0), DescState(0, 0)] && |s.q.used| == 2
  {
    states, acts := TwoPublished();
    hide Run;
    var s := states[|acts|];
    assert s.q.infl == [DescState(0, 0), DescState(0, 0)];
    var s1 := CheckAvail(s);
    RunNext(2, states, acts, PopCheck, s1);
    states, acts := states + [s1], acts + [PopCheck];
    var s2 := Take(s1, true, true);
    RunNext(2, states, acts, PopTake(true, true), s2);
    states, acts := states + [s2], acts + [PopTake(true, true)];
    var s3 := RecordCounter(s2);
    RunNext(2, states, acts, PopCounter, s3);
    states, acts := states + [s3], acts + [PopCounter];
    var s4 := RecordFlag(s3);
    RunNext(2, states, acts, PopFlag, s4);
    states, acts := states + [s4], acts + [PopFlag];
  }

  /** The second chain fails to map, which breaks the device; a push of the first chain
      then leaves it neither in flight nor completed. */
  lemma BrokenPushLoses(len: nat) returns (states: seq<State>, acts: seq<Action>)
    ensures Run(2, states, acts)
    ensures var s := states[|acts|];
      && Inv(s) && s.pc.Idle? && s.q.broken && 0 in s.own && s.q.WellFormed()
      && Push(s.q, 0, len, true, false).WellFormed() && !Kept(s, 0, Push(s.q, 0, len, true, false))
  {
    states, acts := OnePopped();
    var s := states[|acts|];
    var c := CheckAvail(s);
    var b := Take(c, false, true);
    RunNext(2, states, acts, PopCheck, c);
    states, acts := states + [c], acts + [PopCheck];
    RunNext(2, states, acts, PopTake(false, true), b);
    states, acts := states + [b], acts + [PopTake(false, true)];
    RunInv(2, states, acts, |acts|);
    PushKeepsChainIff(b, 0, len, false);
    hide Inv, Run;
  }

  /** The same loss on a sound device whose log walk panics during the push. */
  lemma PanickingPushLoses(len: nat) returns (states: seq<State>, acts: seq<Action>)
    ensures Run(2, states, acts)
    ensures var s := states[|acts|];
      && Inv(s) && s.pc.Idle? && !s.q.broken && 0 in s.own && s.q.WellFormed()
      && Push(s.q, 0, len, true, true).WellFormed() && !Kept(s, 0, Push(s.q, 0, len, true, true))
  {
    states, acts := OnePopped();
    var s := states[|acts|];
    RunInv(2, states, acts, |acts|);
    PushKeepsChainIff(s, 0, len, true);
    hide Inv, Run;
  }

  /** Recovery in a process that still counts its one element in use skips a chain: it
      sets last_avail_idx to 2 although the second chain was never popped. */
  lemma LeftoverCountSkips() returns (states: seq<State>, acts: seq<Action>)
    ensures Run(2, states, acts)
    ensures var s := states[|acts|]; var order := [Resubmit(0, 0)];
      && Inv(s) && CanScan(s, order) && s.popped == 1 && |s.pubs| == 2
      && Scan(s.q.(inuse := 1), order).lastAvail == 2
      && Scan(s.q, order).lastAvail == 1
  {
    states, acts := OnePopped();
    var s := Crash(states[|acts|]);
    RunNext(2, states, acts, ProcessCrash, s);
    states, acts := states + [s], acts + [ProcessCrash];
    RunInv(2, states, acts, |acts|);
    hide Inv, Run;
    RecoverOne(s);
  }

  lemma RecoverOne(s: State)
    requires s.pc.Down? && s.q.version == 1 && s.q.inflUsedIdx == s.q.usedIdxMem == 0 && s.q.inuse == 0
    requires s.q.infl == [DescState(1, 0), DescState(0, 0)]
    ensures var order := [Resubmit(0, 0)];
      CanScan(s, order) && Scan(s.q.(inuse := 1), order).lastAvail == 2 && Scan(s.q, order).lastAvail == 1
  {
    OneListed();
    hide CountInflight, InflightEntries, QsortResult;
  }

  lemma OneListed()
    ensures var d := [DescState(1, 0), DescState(0, 0)];
      CountInflight(d) == 1 && InflightEntries(d) == [Resubmit(0, 0)]
    ensures QsortResult([Resubmit(0, 0)], [Resubmit(0, 0)])
  {
    var d := [DescState(1, 0), DescState(0, 0)];
    assert d[..1] == [DescState(1, 0)] && d[..1][..0] == [];
    assert InflightEntries([]) == [] && CountInflight([]) == 0;
    assert InflightEntries(d[..1]) == [Resubmit(0, 0)];
  }
}
