/**
 * What `tail_time` of src/libsvc/packet_cage.c is, as long as nothing was overwritten: the
 * stamp of the newest frame stored, by which a put drains the cage exactly when its own
 * stamp is `size` or more ahead.
 */
module CageTail {
  import opened Options
  import opened SerialTime
  import opened CageModel
  import opened CageRefinement

  ghost predicate IsNewest<T>(frames: map<int, T>, u: int) {
    u in frames && forall v :: v in frames ==> v <= u
  }

  ghost predicate TailIsNewest<T>(c: Cage<T>, m: Playout<T>) {
    exists u :: IsNewest(m.frames, u) && c.tailTime == Wrap(u)
  }

  /** An anchored cage in which nothing was overwritten knows its newest frame. */
  ghost predicate TailKnown<T>(c: Cage<T>, m: Playout<T>) {
    !m.unanchored && m.lost == 0 ==> TailIsNewest(c, m)
  }

  predicate StepRaises<T>(c: Cage<T>, e: Event<T>)
    requires c.Sized()
  {
    e.PutEvent? && Accepts(c, e.time) && Put(c, e.frame, e.time).newCage
  }

  /** A put finishes with `new_cage` raised exactly when the frame is accepted, the cage was
      not waiting for an anchor, nothing was ever overwritten, and the stamp is `size` or more
      ahead of the newest one stored, so that the drop loop drains the cage. */
  lemma PutRaisesExactly<T>(c: Cage<T>, m: Playout<T>, frame: T, time: Stamp)
    requires Refines(c, m) && TailKnown(c, m)
    ensures StepRaises(c, PutEvent(frame, time)) <==>
              (!c.newCage && m.lost == 0 && IsNewer(time, c.headTime) && SubTime(time, c.tailTime) >= |c.window|)
  {
    if c.newCage {
      SubTimeExact(time, time);
      DropManyHeadTime(Anchor(c, time), 0);
    } else if Accepts(c, time) {
      PutAgrees(c, m, frame, time);
      if m.lost == 0 {
        AnchorAgrees(c, m, time);
        PutRaisesAhead(c, m, frame, time);
      }
    }
  }

  lemma PutRaisesAhead<T>(c: Cage<T>, m: Playout<T>, frame: T, time: Stamp)
    requires Refines(c, m) && TailKnown(c, m) && Accepts(c, time) && !c.newCage && m.lost == 0
    ensures Advance(m, SlideCount(m, |c.window|, Unwrap(m.base, time))).unanchored <==>
              SubTime(time, c.tailTime) >= |c.window|
  {
    var newest :| IsNewest(m.frames, newest) && c.tailTime == Wrap(newest);
    var u := Unwrap(m.base, time);
    AnchorAgrees(c, m, time);
    UnwrappedDistance(u, newest);
    var n := SlideCount(m, |c.window|, u);
    if n > 0 {
      var kept := Kept(m.frames, m.base + n);
      if newest < m.base + n {
        assert forall v :: v !in kept;
      } else {
        assert newest in kept;
      }
    }
  }

  /** An accepted put that misplaces no frame leaves `tail_time` the newest stamp exactly when
      it does not anchor the cage on a frame that waits behind the head. */
  lemma PutKeepsTail<T>(c: Cage<T>, m: Playout<T>, frame: T, time: Stamp)
    requires Refines(c, m) && TailKnown(c, m) && Accepts(c, time) && !Misplaces(c, PutEvent(frame, time))
    ensures TailKnown(Put(c, frame, time), WindowPut(m, |c.window|, frame, time)) <==> !FrameWaits(c)
  {
    if c.newCage {
      AnchorSetsTail(c, m, frame, time);
    } else {
      PutMovesTail(c, m, frame, time);
    }
  }

  lemma AnchorSetsTail<T>(c: Cage<T>, m: Playout<T>, frame: T, time: Stamp)
    requires Refines(c, m) && c.newCage && !Misplaces(c, PutEvent(frame, time))
    ensures TailKnown(Put(c, frame, time), WindowPut(m, |c.window|, frame, time)) <==> !FrameWaits(c)
  {
    var u, r := Unwrap(m.base, time), WindowPut(m, |c.window|, frame, time);
    AnchorAgrees(c, m, time);
    PutAgrees(c, m, frame, time);
    SubTimeExact(time, time);
    DropManyHeadTime(Anchor(c, time), 0);
    assert Put(c, frame, time).tailTime == time == Wrap(u);
    if FrameWaits(c) {
      var k :| 0 < k < |c.window| && c.window[k].Some?;
      assert c.window[k] == Lookup(m.frames, m.base + k);
      assert u == m.base && m.base + k in r.frames && r.lost == 0;
      forall v | IsNewest(r.frames, v)
        ensures Put(c, frame, time).tailTime != Wrap(v)
      {
        UnwrappedDistance(v, u);
      }
    } else {
      assert forall k :: 0 < k < |c.window| ==> c.window[k] == None;
      OnlyAtBase(c, m);
      assert IsNewest(r.frames, u);
    }
  }

  lemma PutMovesTail<T>(c: Cage<T>, m: Playout<T>, frame: T, time: Stamp)
    requires Refines(c, m) && TailKnown(c, m) && Accepts(c, time) && !c.newCage
    ensures TailKnown(Put(c, frame, time), WindowPut(m, |c.window|, frame, time))
  {
    var u, r := Unwrap(m.base, time), WindowPut(m, |c.window|, frame, time);
    var n := DropCount(c, time);
    AnchorAgrees(c, m, time);
    DropManyHeadTime(c, n);
    DropLoopGuard(c, time, n);
    if r.lost == 0 {
      var newest :| IsNewest(m.frames, newest) && c.tailTime == Wrap(newest);
      UnwrappedDistance(u, newest);
      assert IsNewest(r.frames, if u > newest then u else newest);
    }
  }

  lemma GetKeepsTail<T>(c: Cage<T>, m: Playout<T>)
    requires Refines(c, m) && TailKnown(c, m)
    ensures TailKnown(Get(c).0, WindowGet(m).0)
  {
    var r := WindowGet(m).0;
    if !c.starving && !r.unanchored && r.lost == 0 {
      var newest :| IsNewest(m.frames, newest) && c.tailTime == Wrap(newest);
      var v :| v in r.frames;
      assert IsNewest(r.frames, newest);
    }
  }

  /** No put of the run finds a frame waiting behind the head of a raised cage. */
  predicate NeverWaits<T>(c: Cage<T>, es: seq<Event<T>>)
    requires c.Sized()
    decreases |es|
  {
    es == [] || (!(es[0].PutEvent? && FrameWaits(c)) && NeverWaits(Step(c, es[0]).0, es[1..]))
  }

  /** In such a run `tail_time` is the newest stamp throughout. */
  lemma {:induction false} RunKeepsTail<T>(c: Cage<T>, m: Playout<T>, es: seq<Event<T>>)
    requires Refines(c, m) && TailKnown(c, m) && NeverWaits(c, es)
    ensures Refines(Run(c, es), WindowRun(m, |c.window|, es))
    ensures TailKnown(Run(c, es), WindowRun(m, |c.window|, es))
    decreases |es|
  {
    if es != [] {
      StepRefines(c, m, es[0]);
      match es[0] {
        case GetEvent => GetKeepsTail(c, m);
        case PutEvent(frame, time) =>
          NotAccepted(c, m, time);
          if Accepts(c, time) {
            PutKeepsTail(c, m, frame, time);
          }
      }
      RunKeepsTail(Step(c, es[0]).0, WindowStep(m, |c.window|, es[0]).0, es[1..]);
    }
  }
}
