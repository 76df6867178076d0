/** Free-running 16-bit ring indices and the notification test on them.

    Every index the driver and the device exchange is a 16-bit counter that only
    ever goes up and wraps. The rest of the project keeps an unbounded counter
    beside each of them and shows, with the lemmas here, that the wrapped code
    decides exactly what the unbounded counters decide. */
module Ring16 {

  const WRAP: nat := 0x1_0000

  type u16 = n: nat | n < WRAP

  /** The value of an unbounded counter as stored in a uint16_t. */
  function Wrap(n: nat): (r: u16) {
    n % WRAP
  }

  /** C's uint16_t subtraction. */
  function Sub16(a: u16, b: u16): (r: u16) {
    (a + WRAP - b) % WRAP
  }

  /** C's cast of a uint16_t to int16_t. */
  function AsInt16(a: u16): (r: int) {
    if a < 0x8000 then a else a - WRAP
  }

  /** A queue size the virtio specification allows: a power of two of at most
      32768, used here only through the fact that it divides 2^16. */
  predicate RingSize(num: nat) {
    0 < num <= 0x8000 && WRAP % num == 0
  }

  /** vring_need_event: should moving the index from prev to newIdx raise an event
      for a peer that published eventIdx? */
  predicate NeedEvent(eventIdx: u16, newIdx: u16, prev: u16) {
    Sub16(Sub16(newIdx, eventIdx), 1) < Sub16(newIdx, prev)
  }

  /** Quotient and remainder are determined by their defining equation. */
  lemma DivModUnique(x: nat, d: nat, q: nat, r: nat)
    requires d > 0 && x == q * d + r && r < d
    ensures x / d == q && x % d == r
  {
    var k := q - x / d;
    assert k * d == x % d - r by {
      assert x == (x / d) * d + x % d;
      assert k * d == q * d - (x / d) * d;
    }
    SmallMultiple(k, d);
  }

  lemma SmallMultiple(k: int, d: nat)
    requires d > 0 && 0 < k * d + d && k * d < d
    ensures k == 0
  {
    assert k >= 1 ==> k * d >= d;
    assert k <= -1 ==> k * d + d <= 0;
  }

  lemma ModOfMultiple(q: nat, num: nat, r: nat)
    requires num > 0
    ensures (q * num + r) % num == r % num
  {
    var t := q + r / num;
    assert t * num + r % num == q * num + r by {
      assert t * num == q * num + (r / num) * num;
      assert r == (r / num) * num + r % num;
    }
    DivModUnique(q * num + r, num, t, r % num);
  }

  /** Wrapping an index at 2^16 does not change the ring slot it names. */
  lemma SlotOfWrapped(n: nat, num: nat)
    requires RingSize(num)
    ensures Wrap(n) % num == n % num
  {
    var m := WRAP / num;
    assert m * num == WRAP;
    var q, r := n / WRAP, n % WRAP;
    assert n == q * (m * num) + r;
    assert q * (m * num) == (q * m) * num;
    ModOfMultiple(q * m, num, r);
  }

  /** Two indices less than a ring apart share a slot only if they are equal. */
  lemma SlotsDistinct(a: nat, b: nat, num: nat)
    requires a < b < a + num
    ensures a % num != b % num
  {
    var k := b / num - a / num;
    assert b - a == k * num + (b % num - a % num) by {
      assert a == (a / num) * num + a % num;
      assert b == (b / num) * num + b % num;
      assert k * num == (b / num) * num - (a / num) * num;
    }
    assert k == 0 || k >= 1 || k <= -1;
    assert k >= 1 ==> k * num >= num;
    assert k <= -1 ==> k * num + num <= 0;
  }

  /** Counters at most 2^16 - 1 apart are equal exactly when their wrapped values are. */
  lemma WrapInjective(a: nat, b: nat)
    requires a <= b < a + WRAP
    ensures Wrap(a) == Wrap(b) <==> a == b
    ensures Sub16(Wrap(b), Wrap(a)) == b - a
  {
  }

  /** The stored index moves with the counter. */
  lemma WrapStep(n: nat, k: nat)
    ensures Wrap(Wrap(n) + k) == Wrap(n + k)
  {
  }

  /** The 16-bit test is exact: it fires if and only if some counter value the peer
      could have meant by eventIdx lies among the entries prev..newIdx - 1. */
  lemma NeedEventExact(eventIdx: u16, newIdx: nat, prev: nat)
    requires prev <= newIdx < prev + WRAP
    ensures NeedEvent(eventIdx, Wrap(newIdx), Wrap(prev))
       <==> exists e :: prev <= e < newIdx && Wrap(e) == eventIdx
  {
    WrapInjective(prev, newIdx);
    if NeedEvent(eventIdx, Wrap(newIdx), Wrap(prev)) {
      var e := NamedIndex(eventIdx, newIdx, newIdx - prev);
    }
    forall e | prev <= e < newIdx && Wrap(e) == eventIdx
      ensures NeedEvent(eventIdx, Wrap(newIdx), Wrap(prev))
    {
      DistanceBack(newIdx, e);
    }
  }

  lemma DistanceBack(newIdx: nat, e: nat)
    requires e < newIdx <= e + WRAP
    ensures Sub16(Sub16(Wrap(newIdx), Wrap(e)), 1) == newIdx - 1 - e
  {
    if newIdx < e + WRAP {
      WrapInjective(e, newIdx);
    }
  }

  lemma NamedIndex(eventIdx: u16, newIdx: nat, span: nat) returns (e: nat)
    requires Sub16(Sub16(Wrap(newIdx), eventIdx), 1) < span <= newIdx && span < WRAP
    ensures newIdx - span <= e < newIdx && Wrap(e) == eventIdx
  {
    var d := Sub16(Sub16(Wrap(newIdx), eventIdx), 1);
    e := newIdx - 1 - d;
    DistanceBack(newIdx, e);
    assert Sub16(Sub16(Wrap(newIdx), Wrap(e)), 1) == d;
  }
}
