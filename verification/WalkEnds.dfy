/** Which walks of vlog_virtq_handle end, by looking at the descriptors only: along the
    chain, the hops at each indirect descriptor must end. */
module WalkEnds {
  import opened Machine
  import opened GuestMemory
  import opened Descriptors
  import opened VirtqHandler

  /** More than there are indirect tables. */
  const TABLES: nat := U64 * U32

  /** A table an indirect descriptor can name. */
  predicate Nameable(t: Table) {
    t.Indirect? && t.va < U64 && t.size < U32
  }

  /** Following entry 0 from table to table stops. */
  predicate HopsEnd(env: Env, t: Table) {
    Hops(env, t, TABLES + 1).None?
  }

  /** Where it stops. */
  function LastHop(env: Env, t: Table, m: nat): Table
    requires Hops(env, t, m).None?
    decreases m
  {
    match Hop(env, t)
    case None => t
    case Some(u) => LastHop(env, u, m - 1)
  }

  /** The walk from descriptor i of a table, with k links left, ends. */
  predicate Ends(env: Env, t: Table, i: nat, k: nat)
    decreases k
  {
    if k == 0 || i >= Size(env, t) then true
    else
      var d := DescAt(env, t, i);
      if !d.IsIndirect() then d.HasNext() ==> Ends(env, t, d.next, k - 1)
      else
        match Target(env, d)
        case None => true
        case Some(u) => HopsEnd(env, u) && EndsAtFirst(env, LastHop(env, u, TABLES + 1), k)
  }

  /** The walk from entry 0 of a table ends. */
  predicate EndsAtFirst(env: Env, t: Table, k: nat)
    requires k > 0
    decreases k, 0
  {
    if Size(env, t) == 0 || DescAt(env, t, 0).IsIndirect() || !DescAt(env, t, 0).HasNext() then true
    else Ends(env, t, DescAt(env, t, 0).next, k - 1)
  }

  // ---- hops -----------------------------------------------------------------------------

  lemma {:induction false} HopsSum(env: Env, t: Table, a: nat, b: nat)
    requires Hops(env, t, a).Some?
    ensures Hops(env, t, a + b) == Hops(env, Hops(env, t, a).value, b)
    decreases a
  {
    hide Hop;
    if a > 0 {
      HopsSum(env, Hop(env, t).value, a - 1, b);
    }
  }

  lemma HopsBefore(env: Env, t: Table, a: nat, b: nat)
    requires a <= b && Hops(env, t, b).Some?
    ensures Hops(env, t, a).Some?
    decreases a
  {
    hide Hop;
    if a > 0 {
      HopsBefore(env, Hop(env, t).value, a - 1, b - 1);
    }
  }

  lemma {:induction false} HopsNameable(env: Env, t: Table, m: nat)
    requires Nameable(t) && Hops(env, t, m).Some?
    ensures Nameable(Hops(env, t, m).value)
    decreases m
  {
    hide DescAt;
    if m > 0 {
      HopsNameable(env, Hop(env, t).value, m - 1);
    }
  }

  lemma {:induction false} RoundCycle(env: Env, t: Table, p: nat, k: nat) returns (n: nat)
    requires p > 0 && Hops(env, t, p) == Some(t)
    ensures n >= k && Hops(env, t, n) == Some(t)
    decreases k
  {
    hide Hops;
    if k == 0 {
      n := 0;
      HopsNone(env, t);
    } else {
      var r := RoundCycle(env, t, p, k - 1);
      HopsSum(env, t, p, r);
      n := p + r;
    }
  }

  lemma HopsNone(env: Env, t: Table)
    ensures Hops(env, t, 0) == Some(t)
  {
  }

  /** Hops that go on past the number of tables go on for ever. */
  lemma HopsForever(env: Env, t: Table, m: nat)
    requires Nameable(t) && !HopsEnd(env, t)
    ensures Hops(env, t, m).Some?
  {
    hide Hops, Hop, Code;
    forall k: nat | k <= TABLES
      ensures Hops(env, t, k).Some? && Code(Hops(env, t, k).value) < TABLES && Nameable(Hops(env, t, k).value)
    {
      HopsBefore(env, t, k, TABLES + 1);
      HopsNameable(env, t, k);
      CodeBound(Hops(env, t, k).value);
    }
    var codes := seq(TABLES + 1, k requires 0 <= k < TABLES + 1 => Code(Hops(env, t, k).value));
    var i, j := Pigeonhole(codes, TABLES);
    var u := Hops(env, t, i).value;
    CodeInjective(u, Hops(env, t, j).value);
    HopsSum(env, t, i, j - i);
    var n := RoundCycle(env, u, j - i, m);
    HopsSum(env, t, i, n);
    HopsBefore(env, t, m, i + n);
  }

  lemma {:induction false} LastHopIs(env: Env, t: Table, m: nat) returns (n: nat)
    requires Hops(env, t, m).None?
    ensures Hops(env, t, n) == Some(LastHop(env, t, m)) && Hop(env, LastHop(env, t, m)).None?
    decreases m
  {
    hide Hop;
    if Hop(env, t).None? {
      n := 0;
    } else {
      n := LastHopIs(env, Hop(env, t).value, m - 1);
      n := n + 1;
    }
  }

  // ---- halting ----------------------------------------------------------------------------

  /** A walk ends exactly if it ends from a later point. */
  lemma HaltsLater(env: Env, c: Cfg, n: nat)
    requires After(env, c, n).More?
    ensures Halts(env, c) <==> Halts(env, After(env, c, n).c)
  {
    hide After;
    var d := After(env, c, n).c;
    if m: nat :| After(env, c, m).Done? {
      if m <= n {
        DoneStays(env, c, m, n);
      } else {
        AfterSum(env, c, n, m - n);
      }
    }
    if m: nat :| After(env, d, m).Done? {
      AfterSum(env, c, n, m);
    }
  }

  lemma OneTurn(env: Env, c: Cfg)
    ensures match Turn(env, c)
      case Done(_) => Halts(env, c)
      case More(d) => Halts(env, c) <==> Halts(env, d)
  {
    hide Turn;
    match Turn(env, c)
    case Done(rec) =>
      assert After(env, c, 1) == Done(rec);
    case More(d) =>
      assert After(env, d, 0) == More(d);
      assert After(env, c, 1) == More(d);
      HaltsLater(env, c, 1);
  }

  lemma HoppingNeverHalts(env: Env, c: Cfg)
    requires c.i == 0 && c.x < |env.desc| && Nameable(c.t) && !HopsEnd(env, c.t)
    ensures !Halts(env, c)
  {
    hide Hops, Hop, After, Turn;
    forall n: nat ensures After(env, c, n).More? {
      HopsForever(env, c.t, n);
      HopTurns(env, c, n);
    }
  }

  /** Where the hops stop, entry 0 is data, or the walk stops too. */
  lemma AtLastHop(env: Env, c: Cfg)
    requires c.i == 0 && c.x < |env.desc| && Hop(env, c.t).None?
    ensures Size(env, c.t) == 0 || DescAt(env, c.t, 0).IsIndirect() ==> Halts(env, c)
  {
    hide DescAt, Target;
    TurnElsewhere(env, c);
    OneTurn(env, c);
  }

  /** A data descriptor's turn goes on exactly if it has a next. */
  lemma AtData(env: Env, c: Cfg) returns (c': Cfg)
    requires c.x < |env.desc| && c.i < Size(env, c.t) && !DescAt(env, c.t, c.i).IsIndirect()
    ensures var d := DescAt(env, c.t, c.i);
      if d.HasNext() then (Halts(env, c) <==> Halts(env, c')) && c'.t == c.t && c'.i == d.next && c'.x == c.x + 1
      else Halts(env, c)
  {
    hide DescAt, Payload, Capped;
    var d := DescAt(env, c.t, c.i);
    TurnAtData(env, c, d);
    c' := Cfg(c.t, d.next, c.x + 1, Capped(c.rec + Payload(env, d)));
    OneTurn(env, c);
  }

  /** Entering a nameable table at entry 0. */
  lemma {:induction false} AtTarget(env: Env, c: Cfg, k: nat)
    requires c.i == 0 && c.x < |env.desc| && k == |env.desc| - c.x && Nameable(c.t)
    ensures Halts(env, c) <==> HopsEnd(env, c.t) && EndsAtFirst(env, LastHop(env, c.t, TABLES + 1), k)
    decreases k, 0
  {
    hide DescAt, Target, After, Halts, LastHop, Hops;
    if !HopsEnd(env, c.t) {
      HoppingNeverHalts(env, c);
    } else {
      var n := LastHopIs(env, c.t, TABLES + 1);
      var w := LastHop(env, c.t, TABLES + 1);
      HopTurns(env, c, n);
      HaltsLater(env, c, n);
      var e := Cfg(w, 0, c.x, c.rec);
      AtLastHop(env, e);
      if Size(env, w) > 0 && !DescAt(env, w, 0).IsIndirect() {
        var e' := AtData(env, e);
        if DescAt(env, w, 0).HasNext() {
          EndsIff(env, e', k - 1);
        }
      }
    }
  }

  lemma {:induction false} EndsIff(env: Env, c: Cfg, k: nat)
    requires c.x <= |env.desc| && k == |env.desc| - c.x
    ensures Halts(env, c) <==> Ends(env, c.t, c.i, k)
    decreases k, 1
  {
    hide DescAt, Target, Halts, HopsEnd, LastHop;
    TurnElsewhere(env, c);
    OneTurn(env, c);
    if k > 0 && c.i < Size(env, c.t) {
      var d := DescAt(env, c.t, c.i);
      if !d.IsIndirect() {
        var c' := AtData(env, c);
        if d.HasNext() {
          EndsIff(env, c', k - 1);
        }
      } else if Target(env, d).Some? {
        AtTarget(env, Cfg(Target(env, d).value, 0, c.x, c.rec), k);
      }
      hide Turn;
    }
  }

  /** A chain's walk ends if and only if at each indirect descriptor along it, within
      num links, following entry 0 from table to table stops. */
  lemma WalkEndsIff(env: Env, head: nat)
    ensures Halts(env, Start(head)) <==> Ends(env, Ring, head, |env.desc|)
  {
    EndsIff(env, Start(head), |env.desc|);
  }
}
