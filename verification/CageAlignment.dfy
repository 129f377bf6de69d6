/**
 * When the slots of a cage stay aligned with their stamps: until a put moves the head time
 * of a raised cage in which a frame waits behind the head, and no longer.
 */
module CageAlignment {
  import opened Options
  import opened SerialTime
  import opened CageModel
  import opened CageLedger
  import opened CageRefinement
  import opened CageTail

  /** A cage never looks at its frames, so let each frame be the stamp it was put with: it is
      in the slot its stamp belongs to. */
  predicate Aligned(c: Cage<Stamp>) {
    forall k :: 0 <= k < |c.window| && c.window[k].Some? ==> c.window[k].value == Wrap(c.headTime + k)
  }

  lemma PopAligns(c: Cage<Stamp>)
    requires c.Sized() && Aligned(c)
    ensures Aligned(Pop(c))
  {
    WrapInc(c.headTime);
    assert forall k :: 0 <= k < |c.window| - 1 ==> Pop(c).window[k] == c.window[k + 1];
  }

  lemma {:induction false} DropManyAligns(c: Cage<Stamp>, n: nat)
    requires c.Sized() && Aligned(c)
    ensures Aligned(DropMany(c, n))
  {
    if n > 0 {
      DropManyAligns(c, n - 1);
      PopAligns(DropMany(c, n - 1));
    }
  }

  lemma AnchoredPutAligns(c: Cage<Stamp>, time: Stamp)
    requires c.Sized() && Aligned(c) && Accepts(c, time) && !c.newCage
    ensures Aligned(Put(c, time, time))
  {
    var n := DropCount(c, time);
    DropManyAligns(c, n);
    DropLoopEnds(c, time);
    SumOfDistance(time, DropMany(c, n).headTime);
  }

  lemma AnchoringPut<T>(c: Cage<T>, frame: T, time: Stamp)
    requires c.Sized() && c.newCage
    ensures Put(c, frame, time).window == c.window[0 := Some(frame)]
    ensures Put(c, frame, time).headTime == time && !Put(c, frame, time).newCage
    ensures Put(c, frame, time).starving == c.starving
  {
    SubTimeExact(time, time);
    DropManyHeadTime(Anchor(c, time), 0);
  }

  lemma AnchoringPutAligns(c: Cage<Stamp>, time: Stamp)
    requires c.Sized() && Aligned(c) && c.newCage
    ensures Aligned(Put(c, time, time)) <==> (time == c.headTime || !FrameWaits(c))
  {
    AnchoringPut(c, time, time);
    var r := Put(c, time, time);
    assert forall k :: 0 < k < |c.window| ==> r.window[k] == c.window[k];
    assert r.window[0] == Some(Wrap(time + 0));
    if time != c.headTime && FrameWaits(c) {
      var k :| 0 < k < |c.window| && c.window[k].Some?;
      WrapShift(c.headTime, time, k);
      assert r.window[k].value == Wrap(c.headTime + k);
    }
  }

  /** The exact condition: a put keeps an aligned cage aligned if and only if it does not move
      the head time of a raised cage in which a frame waits behind the head. */
  lemma PutAlignsExactly(c: Cage<Stamp>, time: Stamp)
    requires c.Sized() && Aligned(c)
    ensures Aligned(Put(c, time, time)) <==> !Misplaces(c, PutEvent(time, time))
  {
    if c.newCage {
      AnchoringPutAligns(c, time);
    } else if Accepts(c, time) {
      AnchoredPutAligns(c, time);
    }
  }

  predicate OwnStamps(es: seq<Event<Stamp>>) {
    forall i :: 0 <= i < |es| && es[i].PutEvent? ==> es[i].frame == es[i].time
  }

  /** The cage is aligned before and after every call of the run. */
  predicate AlwaysAligned(c: Cage<Stamp>, es: seq<Event<Stamp>>)
    requires c.Sized()
    decreases |es|
  {
    Aligned(c) && (es == [] || AlwaysAligned(Step(c, es[0]).0, es[1..]))
  }

  /** Over runs: every call leaves the cage aligned if and only if no put misplaces a frame. */
  lemma {:induction false} RunAlignsExactly(c: Cage<Stamp>, es: seq<Event<Stamp>>)
    requires c.Sized() && Aligned(c) && OwnStamps(es)
    ensures AlwaysAligned(c, es) <==> NeverMisplaces(c, es)
    decreases |es|
  {
    if es != [] {
      match es[0] {
        case GetEvent => PopAligns(c);
        case PutEvent(frame, time) => PutAlignsExactly(c, time);
      }
      if Aligned(Step(c, es[0]).0) {
        RunAlignsExactly(Step(c, es[0]).0, es[1..]);
      }
    }
  }

  // ----- the window -----

  /** The put that misplaces a frame is no put on the window. */
  lemma MisplacingPutDiffers<T>(c: Cage<T>, m: Playout<T>, frame: T, time: Stamp)
    requires Refines(c, m) && Misplaces(c, PutEvent(frame, time))
    ensures !Refines(Put(c, frame, time), WindowPut(m, |c.window|, frame, time))
  {
    var k :| 0 < k < |c.window| && c.window[k].Some?;
    var r, w := Put(c, frame, time), WindowPut(m, |c.window|, frame, time);
    AnchoringPut(c, frame, time);
    UnwrapIsStamp(m.base, time);
    assert w.base == Unwrap(m.base, time) && w.frames.Keys == {w.base};
    assert r.window[k].Some? && Lookup(w.frames, w.base + k) == None;
  }

  /** The cage refines the window before and after every call of the run. */
  ghost predicate AlwaysRefines<T>(c: Cage<T>, m: Playout<T>, es: seq<Event<T>>)
    decreases |es|
  {
    Refines(c, m) && (es == [] || AlwaysRefines(Step(c, es[0]).0, WindowStep(m, |c.window|, es[0]).0, es[1..]))
  }

  /** A run refines the window throughout if and only if no put misplaces a frame. */
  lemma {:induction false} RunRefinesExactly<T>(c: Cage<T>, m: Playout<T>, es: seq<Event<T>>)
    requires Refines(c, m)
    ensures AlwaysRefines(c, m, es) <==> NeverMisplaces(c, es)
    decreases |es|
  {
    if es != [] {
      if Misplaces(c, es[0]) {
        MisplacingPutDiffers(c, m, es[0].frame, es[0].time);
      } else {
        StepRefines(c, m, es[0]);
        RunRefinesExactly(Step(c, es[0]).0, WindowStep(m, |c.window|, es[0]).0, es[1..]);
      }
    }
  }

  /** In particular from a new cage on. */
  lemma NewCageRefinesExactly<T>(size: nat, es: seq<Event<T>>)
    requires 1 <= size <= MAX_SIZE
    ensures AlwaysRefines(Create<T>(size), EmptyWindow<T>(), es) <==> NeverMisplaces(Create<T>(size), es)
  {
    CreateRefines<T>(size);
    RunRefinesExactly(Create<T>(size), EmptyWindow<T>(), es);
  }

  /** The only slot of an aligned cage that can hold a stamp is as far on as the stamp is ahead. */
  lemma SlotOfStamp(c: Cage<Stamp>, time: Stamp, k: nat)
    requires c.Sized() && Aligned(c) && k < |c.window| && c.window[k].Some?
    ensures c.window[k].value == time <==> k == SubTime(time, c.headTime)
  {
    UnwrappedDistance(c.headTime + k, c.headTime);
    if k == SubTime(time, c.headTime) {
      SumOfDistance(time, c.headTime);
    }
  }

  /** In an aligned cage an accepted put overwrites a frame exactly when the window still holds
      one for the same time; the put that anchors the cage, when slot 0 is occupied. */
  lemma AlignedPutOverwrites(c: Cage<Stamp>, l: Ledger<Stamp>, time: Stamp)
    requires c.Sized() && Aligned(c) && Accepts(c, time)
    ensures LedgerStep(c, l, PutEvent(time, time)).overwritten == l.overwritten + One(Overwrites(c, time))
    ensures c.newCage ==> Overwrites(c, time) == c.window[0]
    ensures !c.newCage ==> Overwrites(c, time) == if Some(time) in c.window then Some(time) else None
  {
    PutOverwritesExactly(c, l, time, time);
    SubTimeExact(time, c.headTime);
    forall k | 0 <= k < |c.window| && c.window[k].Some?
      ensures c.window[k].value == time <==> k == SubTime(time, c.headTime)
    {
      SlotOfStamp(c, time, k);
    }
  }

  // ----- how it comes about -----

  /** Only one frame, n places from the last slot, in a raised cage that still plays. */
  ghost predicate OneFrameLeft<T>(c: Cage<T>, frame: T, time: Stamp, at: nat) {
    && c.Sized() && at < |c.window|
    && c.newCage && !c.starving && c.count == 1
    && c.headTime == Wrap(time - at)
    && forall k :: 0 <= k < |c.window| ==> c.window[k] == if k == at then Some(frame) else None
  }

  lemma RaisedWindow<T>(c: Cage<T>, m: Playout<T>, frame: T, time: Stamp)
    requires Refines(c, m) && StepRaises(c, PutEvent(frame, time))
    ensures var u, w := Unwrap(m.base, time), WindowPut(m, |c.window|, frame, time);
            && w.frames == map[u := frame] && w.base == u - (|c.window| - 1) && w.lost == 0
            && w.unanchored && !w.starving
  {
    if c.newCage {
      AnchoringPut(c, frame, time);
    }
    PutAgrees(c, m, frame, time);
  }

  lemma OneFrameShown<T>(r: Cage<T>, w: Playout<T>, frame: T, u: int)
    requires Agrees(r, w) && w.frames == map[u := frame] && w.lost == 0 && w.unanchored && !w.starving
    ensures OneFrameLeft(r, frame, Wrap(u), u - w.base)
  {
    WrapAgain(u, u - w.base);
    forall k | 0 <= k < |r.window|
      ensures r.window[k] == if k == u - w.base then Some(frame) else None
    {
      assert r.window[k] == Lookup(w.frames, w.base + k);
    }
  }

  /** What a raised put leaves behind: its frame alone in the last slot. */
  lemma RaisedPutLeaves<T>(c: Cage<T>, m: Playout<T>, frame: T, time: Stamp)
    requires Refines(c, m) && StepRaises(c, PutEvent(frame, time))
    ensures OneFrameLeft(Put(c, frame, time), frame, time, |c.window| - 1)
  {
    RaisedWindow(c, m, frame, time);
    PutAgrees(c, m, frame, time);
    UnwrapIsStamp(m.base, time);
    OneFrameShown(Put(c, frame, time), WindowPut(m, |c.window|, frame, time), frame, Unwrap(m.base, time));
  }

  /** Each get brings that frame one slot closer to the head, and the cage stays raised. */
  lemma {:induction false} GetsBringCloser<T>(c: Cage<T>, frame: T, time: Stamp, at: nat, n: nat)
    requires OneFrameLeft(c, frame, time, at) && n <= at
    ensures OneFrameLeft(Drain(c, n).0, frame, time, at - n)
    decreases n
  {
    if n > 0 {
      WrapInc(time - at);
      assert OneFrameLeft(Get(c).0, frame, time, at - 1);
      GetsBringCloser(Get(c).0, frame, time, at - 1, n - 1);
    }
  }

  /** A put that comes n gets after a raised put, before the frame of that put has reached the
      head, takes its own stamp as head time, and misplaces that frame unless its stamp is the
      one the head has come to. */
  lemma RaisedPutMisplaces<T>(c: Cage<T>, m: Playout<T>, frame: T, time: Stamp, n: nat, next: T, nextTime: Stamp)
    requires Refines(c, m) && StepRaises(c, PutEvent(frame, time)) && n < |c.window| - 1
    ensures var d, at := Drain(Put(c, frame, time), n).0, |c.window| - 1 - n;
            var r := Put(d, next, nextTime);
            && d.headTime == Wrap(time - at)
            && (Misplaces(d, PutEvent(next, nextTime)) <==> nextTime != Wrap(time - at))
            && r.window[0] == Some(next) && r.headTime == nextTime
            && r.window[at] == Some(frame) && !r.starving
            && (Wrap(r.headTime + at) == time <==> nextTime == Wrap(time - at))
  {
    var d, at := Drain(Put(c, frame, time), n).0, |c.window| - 1 - n;
    RaisedPutLeaves(c, m, frame, time);
    GetsBringCloser(Put(c, frame, time), frame, time, |c.window| - 1, n);
    assert d.window[at].Some?;
    AnchoringPut(d, next, nextTime);
    WrapShift(nextTime, time, at);
  }

  /** A cage of five slots with one frame at the head. */
  predicate OneAtHead(c: Cage<Stamp>, t: Stamp) {
    && |c.window| == 5 && c.window[0] == Some(t) && (forall k :: 0 < k < 5 ==> c.window[k] == None)
    && c.headTime == t && !c.newCage && c.count == 1
  }

  lemma FirstAnchors(t: Stamp)
    ensures OneAtHead(Put(Create<Stamp>(5), t, t), t)
  {
    AnchoringPut(Create<Stamp>(5), t, t);
    PutInPlace(Create<Stamp>(5), t, t);
  }

  lemma GapRaises(c: Cage<Stamp>, t: Stamp, t5: Stamp)
    requires OneAtHead(c, t) && t5 == Wrap(t + 5)
    ensures OneFrameLeft(Put(c, t5, t5), t5, t5, 4)
  {
    UnwrappedDistance(t + 5, t);
    WrapAgain(t + 5, 4);
    DropManyHeadTime(c, 1);
    assert DropMany(c, 1) == Pop(DropMany(c, 0)).(starving := false);
    DropLoopEnds(c, t5);
  }

  lemma NextAfterGap(c: Cage<Stamp>, t5: Stamp, t6: Stamp)
    requires |c.window| == 5 && OneFrameLeft(c, t5, t5, 4) && t6 == Wrap(t5 + 1)
    ensures var r := Put(c, t6, t6);
            && r.headTime == t6 && r.window == [Some(t6), None, None, None, Some(t5)]
            && !Aligned(r) && !r.starving
  {
    AnchoringPut(c, t6, t6);
    WrapShift(t6, t5, 4);
    assert Put(c, t6, t6).window[4].value == t5;
  }

  /** In the cage of five slots that every peer gets: the two packets after four lost ones, put
      back to back, end up in the wrong order: the next get returns the second, and the first is
      in the slot of t+10. */
  lemma GapMisplaces(t: Stamp)
    ensures var t5, t6 := Wrap(t + 5), Wrap(t + 6);
            var c := Run(Create<Stamp>(5), [PutEvent(t, t), PutEvent(t5, t5), PutEvent(t6, t6)]);
            && c.headTime == t6 && c.window == [Some(t6), None, None, None, Some(t5)]
            && !Aligned(c) && Get(c).1 == Some(t6)
  {
    var c, t5, t6 := Create<Stamp>(5), Wrap(t + 5), Wrap(t + 6);
    WrapAgain(5 + t, 1);
    var c1 := Put(c, t, t);
    var c2 := Put(c1, t5, t5);
    FirstAnchors(t);
    GapRaises(c1, t, t5);
    NextAfterGap(c2, t5, t6);
    RunThree(c, PutEvent(t, t), PutEvent(t5, t5), PutEvent(t6, t6));
  }
}
