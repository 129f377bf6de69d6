/**
 * The ring of src/libsvc/packet_cage.c updated in place.  Each method is one call made
 * under `cage_mutex`; what it does to the slots in playing order is the operation of the
 * same name in `CageModel`.
 */
module PacketCage {
  import opened Options
  import opened SerialTime
  import M = CageModel

  function NextPointInCage(size: nat, pos: nat): (next: nat)
    requires pos < size
    ensures next == (pos + 1) % size
  {
    if pos == size - 1 then 0 else pos + 1
  }

  /** `pos`, `size` are unsigned, so the sum wraps at 2^32 when `delta` is negative. */
  function DeltaPointInCage(size: nat, pos: nat, delta: int): nat
    requires size > 0
  {
    ((pos + delta) % UINT_RANGE % size + size) % UINT_RANGE % size
  }

  lemma ModLess(a: int, m: int)
    requires 0 <= a < m
    ensures a % m == a
  {
  }

  /** For the offsets a put computes the wrap never shows. */
  lemma DeltaPointWithinRing(size: nat, pos: nat, delta: nat)
    requires pos < size <= M.MAX_SIZE && delta < size
    ensures DeltaPointInCage(size, pos, delta) == if pos + delta < size then pos + delta else pos + delta - size
  {
    var p := if pos + delta < size then pos + delta else pos + delta - size;
    ModLess(pos + delta, UINT_RANGE);
    ModLess(p, size);
    if pos + delta >= size { AddMod(p, size); }
    assert (pos + delta) % size == p;
    ModLess(p + size, UINT_RANGE);
    AddMod(p, size);
  }

  lemma AddMod(p: int, m: int)
    requires 0 <= p < m
    ensures (p + m) % m == p
  {
  }

  /** The slots in playing order. */
  function Rotated<T>(slots: seq<T>, head: nat): seq<T>
    requires head <= |slots|
  {
    slots[head..] + slots[..head]
  }

  /** Writing slot `pos` of the ring writes the place `delta` after the head. */
  lemma RotatedUpdate<T>(slots: seq<T>, head: nat, delta: nat, v: T)
    requires head < |slots| <= M.MAX_SIZE && delta < |slots|
    ensures DeltaPointInCage(|slots|, head, delta) < |slots|
    ensures Rotated(slots[DeltaPointInCage(|slots|, head, delta) := v], head) == Rotated(slots, head)[delta := v]
  {
    DeltaPointWithinRing(|slots|, head, delta);
  }

  /** While the loop guard holds there is a pop left to do. */
  lemma LoopGoesOn<T>(c: M.Cage<T>, time: Stamp, n: nat)
    requires c.Sized() && M.Accepts(c, time)
    requires n <= M.DropCount(M.Anchor(c, time), time)
    requires M.MustDrop(M.DropMany(M.Anchor(c, time), n), time)
    ensures n < M.DropCount(M.Anchor(c, time), time)
  {
    M.DropLoopGuard(M.Anchor(c, time), time, n);
  }

  /** When it fails the frame fits, and storing it completes the put. */
  lemma LoopDone<T>(c: M.Cage<T>, d: M.Cage<T>, frame: T, time: Stamp, n: nat)
    requires c.Sized() && M.Accepts(c, time)
    requires n <= M.DropCount(M.Anchor(c, time), time)
    requires d == M.DropMany(M.Anchor(c, time), n) && !M.MustDrop(d, time)
    ensures 0 <= SubTime(time, d.headTime) < |d.window|
    ensures M.Put(c, frame, time) == M.Store(d, frame, time)
  {
    M.DropLoopGuard(M.Anchor(c, time), time, n);
  }

  /** Clearing the head slot and moving on shifts the playing order by one place. */
  lemma RotatedAdvance<T>(slots: seq<T>, head: nat, v: T)
    requires head < |slots|
    ensures Rotated(slots[head := v], NextPointInCage(|slots|, head)) == Rotated(slots, head)[1..] + [v]
  {
  }

  class PacketCage<T> {
    const size: nat
    const audioQueue: array<Option<T>>
    var head: nat
    var headTime: Stamp
    var tailTime: Stamp
    var cageStarvation: bool
    var newCage: bool
    var elementsCount: int

    ghost predicate Valid()
      reads this
    {
      1 <= size <= M.MAX_SIZE && audioQueue.Length == size && head < size
    }

    /** The cage with its slots in playing order. */
    ghost function View(): (c: M.Cage<T>)
      reads this, audioQueue
      requires Valid()
      ensures c.Sized() && |c.window| == size
    {
      M.Cage(Rotated(audioQueue[..], head), headTime, tailTime,
             cageStarvation, newCage, elementsCount)
    }

    constructor (queueSize: nat)
      requires 1 <= queueSize <= M.MAX_SIZE
      ensures Valid() && fresh(audioQueue) && size == queueSize
      ensures View() == M.Create(queueSize)
    {
      size := queueSize;
      head := 0;
      newCage := true;
      elementsCount := 0;
      headTime := 0;
      tailTime := 0;
      cageStarvation := true;
      audioQueue := new Option<T>[queueSize](i => None);
    }

    predicate IsEmpty()
      reads this
    {
      elementsCount == 0
    }

    method Pop()
      requires Valid()
      modifies this, audioQueue
      ensures Valid()
      ensures View() == M.Pop(old(View()))
    {
      ghost var slots := audioQueue[..];
      RotatedAdvance(slots, head, None);
      if audioQueue[head].Some? {
        elementsCount := elementsCount - 1;
      }
      audioQueue[head] := None;
      head := NextPointInCage(size, head);
      headTime := TimeInc(headTime);
      if IsEmpty() {
        cageStarvation := true;
        newCage := true;
      }
      assert audioQueue[..] == slots[old(head) := None];
    }

    /** The end of `packet_cage_put_data`: write the frame where its stamp says. */
    method Place(audioData: T, time: Stamp)
      requires Valid()
      requires 0 <= SubTime(time, headTime) < size
      modifies this, audioQueue
      ensures Valid()
      ensures View() == M.Store(old(View()), audioData, time)
    {
      var delta := SubTime(time, headTime);
      ghost var slots := audioQueue[..];
      RotatedUpdate(slots, head, delta, Some(audioData));
      var newElemPos := DeltaPointInCage(size, head, delta);
      audioQueue[newElemPos] := Some(audioData);
      assert audioQueue[..] == slots[newElemPos := Some(audioData)];
      elementsCount := elementsCount + 1;
      if IsNewer(time, tailTime) {
        tailTime := time;
      }
    }

    method PutData(audioData: T, time: Stamp)
      requires Valid()
      modifies this, audioQueue
      ensures Valid()
      ensures View() == M.Put(old(View()), audioData, time)
    {
      ghost var c := View();
      if newCage || IsNewer(time, headTime) {
        if newCage {
          headTime := time;
          tailTime := time;
          newCage := false;
        }
        ghost var a, n: nat := M.Anchor(c, time), 0;
        ghost var d := a;
        while IsNewer(time, TimeIncBy(headTime, size - 1))
          invariant Valid() && View() == d
          invariant n <= M.DropCount(a, time) && d == M.DropMany(a, n)
          decreases M.DropCount(a, time) - n
        {
          LoopGoesOn(c, time, n);
          Pop();
          cageStarvation := false;
          n, d := n + 1, M.Pop(d).(starving := false);
        }
        LoopDone(c, d, audioData, time, n);
        Place(audioData, time);
      }
    }

    method GetData() returns (res: Option<T>)
      requires Valid()
      modifies this, audioQueue
      ensures Valid()
      ensures (View(), res) == M.Get(old(View()))
    {
      if !cageStarvation {
        ghost var slots := audioQueue[..];
        RotatedAdvance(slots, head, None);
        res := audioQueue[head];
        if res.Some? {
          elementsCount := elementsCount - 1;
        }
        audioQueue[head] := None;
        head := NextPointInCage(size, head);
        headTime := TimeInc(headTime);
        if IsEmpty() {
          cageStarvation := true;
          newCage := true;
        }
        assert audioQueue[..] == slots[old(head) := None];
      } else {
        res := None;
      }
    }
  }
}
