/** tx_kick as a function of what it reads: alternately the handler's snapshot of
    avail->idx and the re-check of it. */
module KickSteps {
  import opened Ring16

  datatype KickState =
    | Entering(last: u16, event: u16, total: nat)              // about to call the handler
    | Rechecking(last: u16, event: u16, n: nat, total: nat)    // about to re-check
    | Over(last: u16, event: u16, total: nat)

  /** One read of avail->idx and what follows up to the next one. */
  function OnRead(eventIdx: bool, k: KickState, idx: u16): KickState {
    match k
    case Entering(last, event, total) =>
      var n := Sub16(idx, last);
      if eventIdx then Rechecking(idx, idx, n, total + n) else Over(idx, event, total + n)
    case Rechecking(last, event, n, total) =>
      if idx == last || n == 0 then Over(last, event, total) else Entering(last, event, total)
    case Over(_, _, _) => k
  }

  function OnReads(eventIdx: bool, k: KickState, seen: seq<u16>): KickState {
    if seen == [] then k
    else OnRead(eventIdx, OnReads(eventIdx, k, seen[..|seen| - 1]), seen[|seen| - 1])
  }

  lemma OneMoreRead(eventIdx: bool, k: KickState, seen: seq<u16>, idx: u16)
    ensures OnReads(eventIdx, k, seen + [idx]) == OnRead(eventIdx, OnReads(eventIdx, k, seen), idx)
  {
    assert (seen + [idx])[..|seen|] == seen;
  }
}
