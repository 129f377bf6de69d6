/**
 * The 16-bit packet clock of src/libsvc/packet_cage.c:6-28.  `packet_time_t` is a C
 * `unsigned int` that only ever carries the 16-bit values put on the wire.
 */
module SerialTime {
  const MAX_TIME := 65535
  const PERIOD := 65536
  const HALF := 32768

  /** The number of values of a C `unsigned int`. */
  const UINT_RANGE := 0x1_0000_0000

  type Stamp = t: int | 0 <= t <= MAX_TIME

  /** C's `%` on signed operands: the remainder takes the sign of the dividend. */
  function Rem(a: int, b: int): int
    requires b > 0
  {
    if a >= 0 then a % b else -((-a) % b)
  }

  function TimeInc(time: Stamp): Stamp {
    if time == MAX_TIME then 0 else time + 1
  }

  /** Unsigned addition, so it wraps at 2^32 before the remainder is taken. */
  function TimeIncBy(time: Stamp, delta: int): Stamp {
    (time + delta) % UINT_RANGE % (MAX_TIME + 1)
  }

  predicate IsNewer(time1: Stamp, time2: Stamp) {
    var delta := time1 - time2;
    || (delta > 0 && delta < (MAX_TIME + 1) / 2)
    || (delta < 0 && delta < -((MAX_TIME + 1) / 2))
  }

  function SubTime(time1: Stamp, time2: Stamp): int {
    var delta := time1 - time2;
    if IsNewer(time1, time2) then Rem(delta + (MAX_TIME + 1), MAX_TIME + 1)
    else Rem(-(-delta + (MAX_TIME + 1)), MAX_TIME + 1)
  }

  /** "s1 is greater than s2" as section 3.2 of RFC 1982 defines it for SERIAL_BITS = 16. */
  predicate SerialGreater(i1: Stamp, i2: Stamp) {
    || (i1 < i2 && i2 - i1 > HALF)
    || (i1 > i2 && i1 - i2 < HALF)
  }

  /** The stamp of an unwrapped time. */
  function Wrap(time: int): Stamp {
    time % PERIOD
  }

  lemma OneInHalf(q: int, r: int)
    requires -HALF <= q < HALF && -HALF <= r < HALF && Wrap(q) == Wrap(r)
    ensures q == r
  {
    assert (q - r) % PERIOD == 0;
  }

  /** `SubTime(a, b)` is the one signed 16-bit distance from b to a. */
  lemma SubTimeExact(a: Stamp, b: Stamp)
    ensures -32768 <= SubTime(a, b) < 32768
    ensures forall r :: -32768 <= r < 32768 ==> (r == SubTime(a, b) <==> r % 65536 == (a - b) % 65536)
    ensures IsNewer(a, b) <==> SubTime(a, b) > 0
    ensures IsNewer(a, b) <==> SerialGreater(a, b)
    ensures TimeIncBy(b, SubTime(a, b)) == a
  {
    var r := SubTime(a, b);
    assert r == a - b || r == a - b + PERIOD || r == a - b - PERIOD;
    assert (a - b + PERIOD) % PERIOD == (a - b) % PERIOD == (a - b - PERIOD) % PERIOD;
    forall q | -32768 <= q < 32768 && q % 65536 == (a - b) % 65536
      ensures q == r
    {
      OneInHalf(q, r);
    }
    assert b + r == a || b + r == a + PERIOD || b + r == a - PERIOD;
    assert (a - PERIOD) % UINT_RANGE == a - PERIOD + UINT_RANGE;
  }

  /** On unwrapped times less than half a period apart the comparison is exact. */
  lemma UnwrappedDistance(x: int, y: int)
    requires -HALF <= x - y < HALF
    ensures SubTime(Wrap(x), Wrap(y)) == x - y
    ensures IsNewer(Wrap(x), Wrap(y)) <==> x > y
  {
  }

  lemma WrapInc(x: int)
    ensures TimeInc(Wrap(x)) == Wrap(x + 1)
  {
  }

  lemma WrapIncBy(x: int, delta: nat)
    requires delta < UINT_RANGE - PERIOD
    ensures TimeIncBy(Wrap(x), delta) == Wrap(x + delta)
  {
  }

  /** Moving k places is undone by moving back. */
  lemma WrapShift(a: Stamp, b: Stamp, k: nat)
    requires k < HALF
    ensures Wrap(a + k) == b <==> a == Wrap(b - k)
    ensures Wrap(a + k) == Wrap(b + k) <==> a == b
  {
  }

  lemma WrapPeriods(x: int, periods: int)
    ensures Wrap(x - periods * PERIOD) == Wrap(x)
  {
    assert x - periods * PERIOD == (x / PERIOD - periods) * PERIOD + Wrap(x);
  }

  lemma WrapAgain(x: int, k: nat)
    ensures Wrap(Wrap(x) - k) == Wrap(x - k)
    ensures Wrap(Wrap(x) + k) == Wrap(x + k)
  {
    WrapPeriods(x - k, x / PERIOD);
    WrapPeriods(x + k, x / PERIOD);
  }

  lemma SumOfDistance(time: Stamp, from: Stamp)
    requires SubTime(time, from) >= 0
    ensures time == Wrap(from + SubTime(time, from))
  {
  }

  /** Moving i ticks towards a later stamp shortens the distance by i. */
  lemma Approach(time: Stamp, from: Stamp, i: nat, ahead: nat)
    requires i <= SubTime(time, from)
    requires ahead < HALF
    ensures SubTime(time, Wrap(from + i)) == SubTime(time, from) - i
    ensures IsNewer(time, TimeIncBy(Wrap(from + i), ahead)) <==> i + ahead < SubTime(time, from)
  {
    var d := SubTime(time, from);
    assert time == Wrap(from + d) && d < HALF by {
      SubTimeExact(time, from);
      SumOfDistance(time, from);
    }
    WrapIncBy(from + i, ahead);
    UnwrappedDistance(from + d, from + i + ahead);
    UnwrappedDistance(from + d, from + i);
  }

  /** The stamp of the k-th packet of a sender: `svc_time` starts at 0 and is
      incremented before each packet is stamped (src/libsvc/libsvc.c:30-38, 53). */
  function SentStamp(k: nat): Stamp {
    if k == 0 then 0 else TimeInc(SentStamp(k - 1))
  }

  lemma {:induction false} SentStampWraps(k: nat)
    ensures SentStamp(k) == k % 65536 == Wrap(k)
  {
    if k > 0 {
      SentStampWraps(k - 1);
      WrapInc(k - 1);
    }
  }

  /** A receiver recovers the exact distance between two packets of one sender exactly
      when they are less than half a period apart, however often the clock wrapped. */
  lemma SentDistance(j: nat, k: nat)
    ensures SubTime(SentStamp(k), SentStamp(j)) == k - j <==> -32768 <= k - j < 32768
    ensures -32768 <= k - j < 32768 ==> (IsNewer(SentStamp(k), SentStamp(j)) <==> k > j)
  {
    SentStampWraps(j);
    SentStampWraps(k);
    SubTimeExact(Wrap(k), Wrap(j));
    if -HALF <= k - j < HALF {
      UnwrappedDistance(k, j);
    }
  }
}
