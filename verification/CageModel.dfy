/**
 * The jitter buffer of src/libsvc/packet_cage.c as operations on values.  A `Cage` lists
 * the slots in playing order: `window[k]` is the slot k places after `head`.  The class
 * `PacketCage` runs these operations in place on the ring.
 */
module CageModel {
  import opened Options
  import opened SerialTime

  /** Beyond half a period the stamp of the last slot is no longer newer than that of the first. */
  const MAX_SIZE := HALF

  datatype Cage<T> = Cage(
    window: seq<Option<T>>,
    headTime: Stamp,
    tailTime: Stamp,
    starving: bool,
    newCage: bool,
    count: int)
  {
    predicate Sized() {
      1 <= |window| <= MAX_SIZE
    }
  }

  function Create<T>(size: nat): (c: Cage<T>)
    requires 1 <= size <= MAX_SIZE
  {
    Cage(seq(size, i => None), 0, 0, true, true, 0)
  }

  /** `packet_cage_pop`: forget the frame at the head, if any, and advance. */
  function Pop<T>(c: Cage<T>): Cage<T>
    requires c.Sized()
  {
    var count := if c.window[0].Some? then c.count - 1 else c.count;
    Cage(c.window[1..] + [None], TimeInc(c.headTime), c.tailTime,
         count == 0 || c.starving, count == 0 || c.newCage, count)
  }

  /** The body of the drop loop run n times: each pop is followed by the end of starvation. */
  function DropMany<T>(c: Cage<T>, n: nat): (r: Cage<T>)
    requires c.Sized()
    ensures |r.window| == |c.window|
  {
    if n == 0 then c else Pop(DropMany(c, n - 1)).(starving := false)
  }

  predicate Accepts<T>(c: Cage<T>, time: Stamp) {
    c.newCage || IsNewer(time, c.headTime)
  }

  function Anchor<T>(c: Cage<T>, time: Stamp): Cage<T> {
    if c.newCage then c.(headTime := time, tailTime := time, newCage := false) else c
  }

  predicate MustDrop<T>(c: Cage<T>, time: Stamp) {
    IsNewer(time, TimeIncBy(c.headTime, |c.window| - 1))
  }

  /** How often the drop loop runs: until `time` falls on the last slot. */
  function DropCount<T>(c: Cage<T>, time: Stamp): nat {
    var d := SubTime(time, c.headTime);
    if d > |c.window| - 1 then d - (|c.window| - 1) else 0
  }

  /** Write the frame at the distance of its stamp from the head. */
  function Store<T>(c: Cage<T>, frame: T, time: Stamp): Cage<T>
    requires 0 <= SubTime(time, c.headTime) < |c.window|
  {
    c.(window := c.window[SubTime(time, c.headTime) := Some(frame)],
       count := c.count + 1,
       tailTime := if IsNewer(time, c.tailTime) then time else c.tailTime)
  }

  function Put<T>(c: Cage<T>, frame: T, time: Stamp): (r: Cage<T>)
    requires c.Sized()
    ensures |r.window| == |c.window|
  {
    if Accepts(c, time) then
      var a := Anchor(c, time);
      DropLoopEnds(a, time);
      Store(DropMany(a, DropCount(a, time)), frame, time)
    else c
  }

  function Get<T>(c: Cage<T>): (r: (Cage<T>, Option<T>))
    requires c.Sized()
    ensures |r.0.window| == |c.window|
  {
    if c.starving then (c, None)
    else (Pop(c), c.window[0])
  }

  /** The i-th pop has moved the head time on by i. */
  lemma {:induction false} DropManyHeadTime<T>(c: Cage<T>, n: nat)
    requires c.Sized()
    ensures DropMany(c, n).headTime == Wrap(c.headTime + n)
    ensures DropMany(c, n).tailTime == c.tailTime
    ensures n > 0 ==> !DropMany(c, n).starving
    ensures n == 0 ==> DropMany(c, n) == c
  {
    if n > 0 {
      DropManyHeadTime(c, n - 1);
      WrapInc(c.headTime + n - 1);
    }
  }

  /** After i pops the stamp is i slots closer to the head. */
  lemma DropLoopGuard<T>(a: Cage<T>, time: Stamp, i: nat)
    requires a.Sized()
    requires time == a.headTime || IsNewer(time, a.headTime)
    requires i <= DropCount(a, time)
    ensures 0 <= SubTime(time, a.headTime)
    ensures SubTime(time, DropMany(a, i).headTime) == SubTime(time, a.headTime) - i
    ensures MustDrop(DropMany(a, i), time) <==> i < DropCount(a, time)
  {
    SubTimeExact(time, a.headTime);
    Approach(time, a.headTime, i, |a.window| - 1);
    DropManyHeadTime(a, i);
  }

  /** The drop loop of an accepted put stops after exactly `DropCount` pops, neither
      before nor after, and leaves the stamp min(d, size - 1) slots from the head. */
  lemma DropLoopEnds<T>(a: Cage<T>, time: Stamp)
    requires a.Sized()
    requires time == a.headTime || IsNewer(time, a.headTime)
    ensures forall i: nat :: i <= DropCount(a, time) ==>
              (MustDrop(DropMany(a, i), time) <==> i < DropCount(a, time))
    ensures var d := SubTime(time, a.headTime);
            SubTime(time, DropMany(a, DropCount(a, time)).headTime)
              == if d < |a.window| - 1 then d else |a.window| - 1
    ensures SubTime(time, a.headTime) >= 0
  {
    forall i: nat | i <= DropCount(a, time)
      ensures MustDrop(DropMany(a, i), time) <==> i < DropCount(a, time)
    {
      DropLoopGuard(a, time, i);
    }
    DropLoopGuard(a, time, DropCount(a, time));
  }

  /** One call on a cage, and what it returns to its caller. */
  datatype Event<T> = PutEvent(frame: T, time: Stamp) | GetEvent

  function Step<T>(c: Cage<T>, e: Event<T>): (r: (Cage<T>, Option<T>))
    requires c.Sized()
    ensures |r.0.window| == |c.window|
  {
    match e
    case PutEvent(frame, time) => (Put(c, frame, time), None)
    case GetEvent => Get(c)
  }

  function Run<T>(c: Cage<T>, es: seq<Event<T>>): (r: Cage<T>)
    requires c.Sized()
    ensures |r.window| == |c.window|
    decreases |es|
  {
    if es == [] then c else Run(Step(c, es[0]).0, es[1..])
  }

  /** A put that needs no drop only stores. */
  lemma PutInPlace<T>(c: Cage<T>, frame: T, time: Stamp)
    requires c.Sized() && Accepts(c, time) && DropCount(Anchor(c, time), time) == 0
    ensures 0 <= SubTime(time, Anchor(c, time).headTime) < |c.window|
    ensures Put(c, frame, time) == Store(Anchor(c, time), frame, time)
  {
    DropLoopEnds(Anchor(c, time), time);
    DropManyHeadTime(Anchor(c, time), 0);
  }

  lemma RunThree<T>(c: Cage<T>, e1: Event<T>, e2: Event<T>, e3: Event<T>)
    requires c.Sized()
    ensures Same(Run(c, [e1, e2, e3]), Step(Step(Step(c, e1).0, e2).0, e3).0)
  {
    var c1 := Step(c, e1).0;
    var c2 := Step(c1, e2).0;
    assert [e1, e2, e3][1..] == [e2, e3] && [e2, e3][1..] == [e3] && [e3][1..] == [];
    assert Run(c, [e1, e2, e3]) == Run(c1, [e2, e3]) == Run(c2, [e3]) == Run(Step(c2, e3).0, []);
  }

  /** A put starts no starvation and ends it exactly when it drops a slot, that is, when it does
      not anchor the cage and its stamp lies past the last slot. */
  lemma PutStarving<T>(c: Cage<T>, frame: T, time: Stamp)
    requires c.Sized()
    ensures Put(c, frame, time).starving <==> c.starving && (c.newCage || SubTime(time, c.headTime) < |c.window|)
  {
    SubTimeExact(time, c.headTime);
    SubTimeExact(time, time);
    if Accepts(c, time) {
      var a := Anchor(c, time);
      DropManyHeadTime(a, DropCount(a, time));
    }
  }
}
