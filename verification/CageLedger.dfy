/**
 * What becomes of the frames given to a cage, over every run: nothing here supposes that
 * stamps and slots are aligned.
 */
module CageLedger {
  import opened Options
  import opened SerialTime
  import opened CageModel

  /** Where the frames given to `put` ended up, apart from those still in a slot. */
  datatype Ledger<T> = Ledger(
    given: multiset<T>,
    rejected: multiset<T>,
    delivered: multiset<T>,
    dropped: multiset<T>,
    overwritten: multiset<T>)

  ghost function One<T>(slot: Option<T>): multiset<T> {
    match slot
    case None => multiset{}
    case Some(frame) => multiset{frame}
  }

  /** The frames in the slots. */
  ghost function Stored<T>(window: seq<Option<T>>): multiset<T> {
    if window == [] then multiset{} else One(window[0]) + Stored(window[1..])
  }

  /** The frames the first n pops throw away. */
  ghost function FirstStored<T>(window: seq<Option<T>>, n: nat): multiset<T> {
    Stored(window[..if n < |window| then n else |window|])
  }

  ghost function LedgerStep<T>(c: Cage<T>, l: Ledger<T>, e: Event<T>): Ledger<T>
    requires c.Sized()
  {
    match e
    case GetEvent => l.(delivered := l.delivered + One(Get(c).1))
    case PutEvent(frame, time) =>
      var given := l.given + multiset{frame};
      if !Accepts(c, time) then l.(given := given, rejected := l.rejected + multiset{frame})
      else
        var a := Anchor(c, time);
        var n := DropCount(a, time);
        DropLoopEnds(a, time);
        var d := DropMany(a, n);
        l.(given := given,
           dropped := l.dropped + FirstStored(c.window, n),
           overwritten := l.overwritten + One(d.window[SubTime(time, d.headTime)]))
  }

  ghost function LedgerRun<T>(c: Cage<T>, l: Ledger<T>, es: seq<Event<T>>): Ledger<T>
    requires c.Sized()
    decreases |es|
  {
    if es == [] then l else LedgerRun(Step(c, es[0]).0, LedgerStep(c, l, es[0]), es[1..])
  }

  ghost function EmptyLedger<T>(): Ledger<T> {
    Ledger(multiset{}, multiset{}, multiset{}, multiset{}, multiset{})
  }

  /** Every frame given is in exactly one place, and `elements_count` counts the occupied
      slots plus every overwrite so far. */
  ghost predicate Balanced<T>(c: Cage<T>, l: Ledger<T>) {
    && l.given == l.rejected + Stored(c.window) + l.delivered + l.dropped + l.overwritten
    && c.count == |Stored(c.window)| + |l.overwritten|
  }

  // ----- the ledger tells what happened -----

  /** The frames the puts of a run were given. */
  ghost function PutFrames<T>(es: seq<Event<T>>): multiset<T> {
    if es == [] then multiset{}
    else (if es[0].PutEvent? then multiset{es[0].frame} else multiset{}) + PutFrames(es[1..])
  }

  /** The frames the calls of a run returned. */
  ghost function Returned<T>(c: Cage<T>, es: seq<Event<T>>): multiset<T>
    requires c.Sized()
    decreases |es|
  {
    if es == [] then multiset{} else One(Step(c, es[0]).1) + Returned(Step(c, es[0]).0, es[1..])
  }

  lemma {:induction false} GivenAndDelivered<T>(c: Cage<T>, l: Ledger<T>, es: seq<Event<T>>)
    requires c.Sized()
    ensures Same(LedgerRun(c, l, es).given, l.given + PutFrames(es))
    ensures Same(LedgerRun(c, l, es).delivered, l.delivered + Returned(c, es))
    decreases |es|
  {
    if es == [] {
      assert l.given + multiset{} == l.given && l.delivered + multiset{} == l.delivered;
    } else {
      var c', l' := Step(c, es[0]).0, LedgerStep(c, l, es[0]);
      GivenAndDelivered(c', l', es[1..]);
      var one := if es[0].PutEvent? then multiset{es[0].frame} else multiset{};
      assert l'.given == l.given + one && l'.delivered == l.delivered + One(Step(c, es[0]).1);
      assert l.given + one + PutFrames(es[1..]) == l.given + (one + PutFrames(es[1..]));
      assert l.delivered + One(Step(c, es[0]).1) + Returned(c', es[1..])
          == l.delivered + (One(Step(c, es[0]).1) + Returned(c', es[1..]));
    }
  }

  lemma {:induction false} StoredConcat<T>(a: seq<Option<T>>, b: seq<Option<T>>)
    ensures Stored(a + b) == Stored(a) + Stored(b)
  {
    if a == [] {
      assert a + b == b;
    } else {
      assert (a + b)[1..] == a[1..] + b;
      StoredConcat(a[1..], b);
    }
  }

  lemma StoredUpdate<T>(window: seq<Option<T>>, k: nat, frame: T)
    requires k < |window|
    ensures Stored(window[k := Some(frame)]) + One(window[k]) == Stored(window) + multiset{frame}
  {
    var front, back := window[..k], window[k + 1..];
    assert window == front + ([window[k]] + back);
    assert window[k := Some(frame)] == front + ([Some(frame)] + back);
    StoredConcat(front, [window[k]] + back);
    StoredConcat(front, [Some(frame)] + back);
    assert ([window[k]] + back)[1..] == back == ([Some(frame)] + back)[1..];
  }

  lemma ShiftStored<T>(window: seq<Option<T>>)
    requires window != []
    ensures Same(Stored(window), One(window[0]) + Stored(window[1..] + [None]))
  {
    var rest := window[1..];
    StoredConcat(rest, [None]);
    assert Stored<T>([None]) == multiset{};
    assert Stored(rest) + multiset{} == Stored(rest);
    assert Stored(rest + [None]) == Stored(rest);
  }

  lemma PopStored<T>(c: Cage<T>)
    requires c.Sized()
    ensures Stored(c.window) == One(c.window[0]) + Stored(Pop(c).window)
    ensures Pop(c).count == c.count - |One(c.window[0])|
  {
    ShiftStored(c.window);
  }

  /** The window with its first n slots gone. */
  ghost predicate Shifted<T>(window: seq<Option<T>>, n: nat, later: seq<Option<T>>) {
    && |later| == |window|
    && forall k :: 0 <= k < |window| ==> later[k] == if k + n < |window| then window[k + n] else None
  }

  lemma ShiftOnce<T>(window: seq<Option<T>>, n: nat, later: seq<Option<T>>)
    requires window != [] && Shifted(window, n, later)
    ensures Shifted(window, n + 1, later[1..] + [None])
    ensures later[0] == if n < |window| then window[n] else None
  {
  }

  lemma {:induction false} DropManyWindow<T>(c: Cage<T>, n: nat)
    requires c.Sized()
    ensures Shifted(c.window, n, DropMany(c, n).window)
  {
    if n > 0 {
      DropManyWindow(c, n - 1);
      ShiftOnce(c.window, n - 1, DropMany(c, n - 1).window);
    }
  }

  lemma FirstStoredStep<T>(window: seq<Option<T>>, n: nat)
    ensures Same(FirstStored(window, n + 1), FirstStored(window, n) + One(if n < |window| then window[n] else None))
  {
    if n < |window| {
      assert window[..n + 1] == window[..n] + [window[n]];
      StoredConcat(window[..n], [window[n]]);
      assert Stored([window[n]]) == One(window[n]) + Stored<T>([]) == One(window[n]);
    } else {
      assert FirstStored(window, n) + multiset{} == FirstStored(window, n);
    }
  }

  lemma Regroup<T>(all: multiset<T>, first: multiset<T>, rest: multiset<T>, one: multiset<T>,
                   rest': multiset<T>, first': multiset<T>)
    requires Same(all, first + rest) && Same(rest, one + rest') && Same(first', first + one)
    ensures Same(all, first' + rest')
    ensures |first'| == |first| + |one|
  {
    assert first + (one + rest') == first + one + rest';
  }

  /** The bookkeeping of a put: `first` is dropped, `over` overwritten, `after` is stored. */
  lemma MoveFrames<T>(l: Ledger<T>, stored: multiset<T>, first: multiset<T>, rest: multiset<T>,
                      after: multiset<T>, over: multiset<T>, frame: T)
    requires l.given == l.rejected + stored + l.delivered + l.dropped + l.overwritten
    requires stored == first + rest
    requires after + over == rest + multiset{frame}
    ensures l.given + multiset{frame}
              == l.rejected + after + l.delivered + (l.dropped + first) + (l.overwritten + over)
    ensures |after| + |l.overwritten + over| == |stored| - |first| + |l.overwritten| + 1
  {
    var before := l.given + multiset{frame};
    var afterwards := l.rejected + after + l.delivered + (l.dropped + first) + (l.overwritten + over);
    forall x: T
      ensures before[x] == afterwards[x]
    {
      assert stored[x] == first[x] + rest[x];
      assert (after + over)[x] == (rest + multiset{frame})[x];
    }
    assert before == afterwards;
    assert |after + over| == |after| + |over|;
    assert |rest + multiset{frame}| == |rest| + 1;
    assert |stored| == |first| + |rest|;
  }

  lemma {:induction false} DropManyStored<T>(c: Cage<T>, n: nat)
    requires c.Sized()
    ensures Same(Stored(c.window), FirstStored(c.window, n) + Stored(DropMany(c, n).window))
    ensures DropMany(c, n).count == c.count - |FirstStored(c.window, n)|
  {
    if n == 0 {
      assert c.window[..0] == [];
      assert multiset{} + Stored(c.window) == Stored(c.window);
    } else {
      var before := DropMany(c, n - 1).window;
      DropManyStored(c, n - 1);
      DropManyWindow(c, n - 1);
      ShiftOnce(c.window, n - 1, before);
      ShiftStored(before);
      FirstStoredStep(c.window, n - 1);
      Regroup(Stored(c.window), FirstStored(c.window, n - 1), Stored(before), One(before[0]),
              Stored(before[1..] + [None]), FirstStored(c.window, n));
    }
  }

  lemma PutBalances<T>(c: Cage<T>, l: Ledger<T>, frame: T, time: Stamp)
    requires c.Sized() && Balanced(c, l) && Accepts(c, time)
    ensures Balanced(Put(c, frame, time), LedgerStep(c, l, PutEvent(frame, time)))
  {
    var a := Anchor(c, time);
    var n := DropCount(a, time);
    DropLoopEnds(a, time);
    DropManyStored(a, n);
    var d := DropMany(a, n);
    var off := SubTime(time, d.headTime);
    StoredUpdate(d.window, off, frame);
    assert Put(c, frame, time).window == d.window[off := Some(frame)];
    MoveFrames(l, Stored(c.window), FirstStored(c.window, n), Stored(d.window),
               Stored(d.window[off := Some(frame)]), One(d.window[off]), frame);
  }

  lemma StepBalances<T>(c: Cage<T>, l: Ledger<T>, e: Event<T>)
    requires c.Sized() && Balanced(c, l)
    ensures Balanced(Step(c, e).0, LedgerStep(c, l, e))
  {
    match e
    case GetEvent => PopStored(c);
    case PutEvent(frame, time) => if Accepts(c, time) { PutBalances(c, l, frame, time); }
  }

  lemma {:induction false} RunBalances<T>(c: Cage<T>, l: Ledger<T>, es: seq<Event<T>>)
    requires c.Sized() && Balanced(c, l)
    ensures Balanced(Run(c, es), LedgerRun(c, l, es))
    decreases |es|
  {
    if es != [] {
      StepBalances(c, l, es[0]);
      RunBalances(Step(c, es[0]).0, LedgerStep(c, l, es[0]), es[1..]);
    }
  }

  lemma {:induction false} StoredNone<T>(window: seq<Option<T>>)
    ensures |Stored(window)| == 0 <==> forall k :: 0 <= k < |window| ==> window[k] == None
  {
    if window != [] {
      StoredNone(window[1..]);
      assert |Stored(window)| == |One(window[0])| + |Stored(window[1..])|;
      assert forall k :: 0 <= k < |window[1..]| ==> window[1..][k] == window[k + 1];
      if forall k :: 0 <= k < |window[1..]| ==> window[1..][k] == None {
        assert forall k :: 0 < k < |window| ==> window[k] == window[1..][k - 1];
      }
    }
  }

  /** Frame conservation over every run from a new cage: the frames given are those of the puts,
      the frames delivered those the gets returned.  A count of zero means that every slot is
      NULL and nothing was ever overwritten, and then the cage starves and waits for an anchor. */
  lemma FrameConservation<T>(size: nat, es: seq<Event<T>>)
    requires 1 <= size <= 32768
    ensures var c, l := Run(Create<T>(size), es), LedgerRun(Create<T>(size), EmptyLedger<T>(), es);
            && Balanced(c, l)
            && l.given == PutFrames(es) && l.delivered == Returned(Create<T>(size), es)
            && (c.count == 0 <==> l.overwritten == multiset{} && forall k :: 0 <= k < size ==> c.window[k] == None)
            && (c.count == 0 ==> c.starving && c.newCage)
  {
    var c0 := Create<T>(size);
    StoredNone(c0.window);
    EmptyAlwaysStarves(c0, EmptyLedger<T>(), es);
    RunBalances(c0, EmptyLedger<T>(), es);
    GivenAndDelivered(c0, EmptyLedger<T>(), es);
    var c, l := Run(c0, es), LedgerRun(c0, EmptyLedger<T>(), es);
    StoredNone(c.window);
    assert |l.overwritten| == 0 <==> l.overwritten == multiset{};
  }

  // ----- starvation -----

  /** A cage with nothing to count starves and waits for an anchor. */
  predicate EmptyStarves<T>(c: Cage<T>) {
    c.count == 0 ==> c.starving && c.newCage
  }

  /** Starvation never ends in a get, and ends in a put exactly when that put dropped at
      least one slot; and every call leaves an empty cage starving. */
  lemma StarvationEnds<T>(c: Cage<T>, l: Ledger<T>, e: Event<T>)
    requires c.Sized() && Balanced(c, l) && EmptyStarves(c)
    ensures EmptyStarves(Step(c, e).0)
    ensures c.starving && !Step(c, e).0.starving <==>
              c.starving && e.PutEvent? && Accepts(c, e.time) && DropCount(Anchor(c, e.time), e.time) > 0
  {
    StepBalances(c, l, e);
    if e.PutEvent? && Accepts(c, e.time) {
      var a := Anchor(c, e.time);
      DropManyHeadTime(a, DropCount(a, e.time));
      DropLoopEnds(a, e.time);
      StoredIn(Step(c, e).0.window, SubTime(e.time, DropMany(a, DropCount(a, e.time)).headTime));
    }
  }

  lemma StoredIn<T>(window: seq<Option<T>>, k: nat)
    requires k < |window| && window[k].Some?
    ensures |Stored(window)| > 0
  {
    StoredNone(window);
  }

  /** Between calls, in every run, a cage with nothing to count is starving and waits for
      an anchor. */
  lemma {:induction false} EmptyAlwaysStarves<T>(c: Cage<T>, l: Ledger<T>, es: seq<Event<T>>)
    requires c.Sized() && Balanced(c, l) && EmptyStarves(c)
    ensures EmptyStarves(Run(c, es))
    decreases |es|
  {
    if es != [] {
      StarvationEnds(c, l, es[0]);
      StepBalances(c, l, es[0]);
      EmptyAlwaysStarves(Step(c, es[0]).0, LedgerStep(c, l, es[0]), es[1..]);
    }
  }

  /** The results of n gets in a row. */
  function Drain<T>(c: Cage<T>, n: nat): (r: (Cage<T>, seq<Option<T>>))
    requires c.Sized()
    ensures |r.1| == n && |r.0.window| == |c.window|
    decreases n
  {
    if n == 0 then (c, [])
    else
      var (d, frame) := Get(c);
      var (last, frames) := Drain(d, n - 1);
      (last, [frame] + frames)
  }

  /** One more than the place of the last frame. */
  function Extent<T>(window: seq<Option<T>>): (n: nat)
    ensures n <= |window|
    ensures forall k :: n <= k < |window| ==> window[k] == None
    ensures n > 0 ==> window[n - 1].Some?
  {
    if window == [] then 0
    else if window[|window| - 1].Some? then |window|
    else Extent(window[..|window| - 1])
  }

  lemma ExtentIs<T>(window: seq<Option<T>>, n: nat)
    requires n <= |window|
    requires forall k :: n <= k < |window| ==> window[k] == None
    requires n > 0 ==> window[n - 1].Some?
    ensures Extent(window) == n
  {
  }

  lemma CountIsOccupied<T>(c: Cage<T>, l: Ledger<T>)
    requires c.Sized() && Balanced(c, l) && l.overwritten == multiset{}
    ensures c.count == 0 <==> Extent(c.window) == 0
  {
    StoredNone(c.window);
  }

  /** A cage that still plays and in which nothing was overwritten. */
  ghost predicate Plays<T>(c: Cage<T>, l: Ledger<T>) {
    c.Sized() && Balanced(c, l) && l.overwritten == multiset{} && EmptyStarves(c) && !c.starving
  }

  lemma GetShrinks<T>(c: Cage<T>, l: Ledger<T>)
    requires Plays(c, l)
    ensures Extent(c.window) > 0
    ensures Extent(Get(c).0.window) == Extent(c.window) - 1
    ensures if Extent(c.window) == 1 then Get(c).0.starving && Get(c).0.newCage
            else Plays(Get(c).0, LedgerStep(c, l, GetEvent))
  {
    CountIsOccupied(c, l);
    var d, e := Get(c).0, Extent(c.window);
    StepBalances(c, l, GetEvent);
    StarvationEnds(c, l, GetEvent);
    ShiftOnce(c.window, 0, c.window);
    forall k | e - 1 <= k < |d.window|
      ensures d.window[k] == None
    {
    }
    ExtentIs(d.window, e - 1);
    CountIsOccupied(d, LedgerStep(c, l, GetEvent));
  }

  /** A playing cage in which nothing was overwritten goes on playing until the get that
      takes its last frame; with that get it starves and waits for an anchor. */
  lemma {:induction false} DrainStarves<T>(c: Cage<T>, l: Ledger<T>, n: nat)
    requires Plays(c, l) && n <= Extent(c.window)
    ensures Extent(Drain(c, n).0.window) == Extent(c.window) - n
    ensures Drain(c, n).0.starving <==> n == Extent(c.window)
    ensures Drain(c, n).0.starving ==> Drain(c, n).0.newCage
    decreases n
  {
    GetShrinks(c, l);
    if n > 0 {
      if Extent(c.window) == 1 {
        assert Drain(Get(c).0, 0) == (Get(c).0, []);
      } else {
        DrainStarves(Get(c).0, LedgerStep(c, l, GetEvent), n - 1);
      }
    }
  }

  lemma DrainFirst<T>(c: Cage<T>, n: nat)
    requires c.Sized() && n > 0 && !c.starving
    ensures Drain(c, n).1 == [c.window[0]] + Drain(Pop(c), n - 1).1
  {
  }

  lemma ReturnsShift<T>(window: seq<Option<T>>, later: seq<Option<T>>, frames: seq<Option<T>>)
    requires |later| == |window| > |frames| && Shifted(window, 1, later)
    requires forall i :: 0 <= i < |frames| ==> frames[i] == later[i]
    ensures var all := [window[0]] + frames;
            forall i :: 0 <= i < |all| ==> all[i] == window[i]
  {
  }

  /** Drain bound: the gets up to then return the slots in order, so every stored frame. */
  lemma {:induction false} DrainReturnsAll<T>(c: Cage<T>, l: Ledger<T>, n: nat)
    requires Plays(c, l) && n <= Extent(c.window)
    ensures forall i :: 0 <= i < n ==> Drain(c, n).1[i] == c.window[i]
    decreases n
  {
    GetShrinks(c, l);
    if n > 0 {
      DrainFirst(c, n);
      if Extent(c.window) > 1 {
        DrainReturnsAll(Get(c).0, LedgerStep(c, l, GetEvent), n - 1);
      }
      ShiftOnce(c.window, 0, c.window);
      ReturnsShift(c.window, Pop(c).window, Drain(Pop(c), n - 1).1);
    }
  }

  // ----- overwriting -----

  /** The frame a put overwrites: the one in the slot that many places on as its stamp is ahead
      of the head time, if that is within the cage and occupied.  The put that anchors a cage
      counts from its own stamp, so that is slot 0. */
  function Overwrites<T>(c: Cage<T>, time: Stamp): Option<T>
    requires c.Sized() && Accepts(c, time)
  {
    var off := if c.newCage then 0 else SubTime(time, c.headTime);
    if 0 <= off < |c.window| then c.window[off] else None
  }

  /** A put that is not accepted rejects its frame; one that is overwrites exactly that frame, if
      any. */
  lemma PutOverwritesExactly<T>(c: Cage<T>, l: Ledger<T>, frame: T, time: Stamp)
    requires c.Sized()
    ensures var r := LedgerStep(c, l, PutEvent(frame, time));
            && (Accepts(c, time) <==> c.newCage || SubTime(time, c.headTime) > 0)
            && r.rejected == (if Accepts(c, time) then l.rejected else l.rejected + multiset{frame})
            && r.overwritten == (if Accepts(c, time) then l.overwritten + One(Overwrites(c, time)) else l.overwritten)
  {
    SubTimeExact(time, c.headTime);
    if Accepts(c, time) {
      var a := Anchor(c, time);
      var n := DropCount(a, time);
      DropLoopEnds(a, time);
      DropManyWindow(a, n);
      SubTimeExact(time, time);
    }
  }

  lemma StaysOverwritten<T>(c: Cage<T>, l: Ledger<T>, e: Event<T>)
    requires c.Sized()
    ensures |l.overwritten| <= |LedgerStep(c, l, e).overwritten|
  {
  }

  /** After a single overwrite the count can no longer reach zero, so a cage that plays never
      starves again, whatever is put and got. */
  lemma {:induction false} OverwrittenNeverStarves<T>(c: Cage<T>, l: Ledger<T>, es: seq<Event<T>>)
    requires c.Sized() && Balanced(c, l) && l.overwritten != multiset{} && !c.starving
    ensures !Run(c, es).starving
    decreases |es|
  {
    if es != [] {
      var c', l' := Step(c, es[0]).0, LedgerStep(c, l, es[0]);
      StepBalances(c, l, es[0]);
      StaysOverwritten(c, l, es[0]);
      assert |l.overwritten| > 0;
      StaysPlaying(c, l, es[0]);
      OverwrittenNeverStarves(c', l', es[1..]);
    }
  }

  lemma StaysPlaying<T>(c: Cage<T>, l: Ledger<T>, e: Event<T>)
    requires c.Sized() && Balanced(c, l) && |l.overwritten| > 0 && !c.starving
    ensures !Step(c, e).0.starving
  {
    StepBalances(c, l, e);
    if e.PutEvent? && Accepts(c, e.time) {
      var a := Anchor(c, e.time);
      DropManyHeadTime(a, DropCount(a, e.time));
    }
  }

  lemma StoreAt<T>(c: Cage<T>, frame: T, time: Stamp, at: nat)
    requires c.Sized() && !c.newCage && at == SubTime(time, c.headTime) && 0 < at < |c.window|
    ensures var r := Put(c, frame, time);
            && r.window == c.window[at := Some(frame)] && r.count == c.count + 1
            && r.headTime == c.headTime && !r.newCage
  {
    SubTimeExact(time, c.headTime);
    PutInPlace(c, frame, time);
  }

  /** Such a run: frames stamped 0, 1 and 1 in a cage of five slots; the second frame stamped 1
      overwrites the first, and the two frames stored count as three. */
  lemma OverwrittenAt1<T>(x: T, y: T, z: T)
    ensures var es := [PutEvent(x, 0), PutEvent(y, 1), PutEvent(z, 1)];
            var c, l := Run(Create<T>(5), es), LedgerRun(Create<T>(5), EmptyLedger<T>(), es);
            && c.window == [Some(x), Some(z), None, None, None] && c.count == 3
            && |l.overwritten| == 1
  {
    var c0 := Create<T>(5);
    var c1 := Put(c0, x, 0);
    var c2 := Put(c1, y, 1);
    var c3 := Put(c2, z, 1);
    PutInPlace(c0, x, 0);
    StoreAt(c1, y, 1, 1);
    StoreAt(c2, z, 1, 1);
    RunThree(c0, PutEvent(x, 0), PutEvent(y, 1), PutEvent(z, 1));
    FrameConservation<T>(5, [PutEvent(x, 0), PutEvent(y, 1), PutEvent(z, 1)]);
    TwoStored(c3.window, x, z);
  }

  lemma TwoStored<T>(window: seq<Option<T>>, x: T, z: T)
    requires |window| >= 2 && window[0] == Some(x) && window[1] == Some(z)
    requires forall k :: 2 <= k < |window| ==> window[k] == None
    ensures |Stored(window)| == 2
  {
    var rest := window[1..];
    StoredNone(rest[1..]);
    assert |Stored(rest)| == |One(rest[0])| + |Stored(rest[1..])|;
    assert |Stored(window)| == |One(window[0])| + |Stored(rest)|;
  }

  // ----- one call in closed form, whatever the alignment -----

  /** The drop loop raises `new_cage` when one of its pops leaves nothing to count. */
  lemma {:induction false} DropManyRaises<T>(c: Cage<T>, n: nat)
    requires c.Sized()
    ensures DropMany(c, n).newCage <==>
              c.newCage || exists i: nat :: 1 <= i <= n && c.count == |FirstStored(c.window, i)|
  {
    if n > 0 {
      DropManyRaises(c, n - 1);
      DropManyStored(c, n);
      assert DropMany(c, n).count == c.count - |FirstStored(c.window, n)|;
      assert Pop(DropMany(c, n - 1)).count == DropMany(c, n).count;
    }
  }

  /** How far ahead of the head a put stores, counted before its drops. */
  function PutAhead<T>(c: Cage<T>, time: Stamp): int {
    if c.newCage then 0 else SubTime(time, c.headTime)
  }

  /** What an accepted put does to every field: its frame goes to the slot of its stamp, or to
      the last slot behind as many drops as it takes; the other frames move up by the drops;
      an anchoring put renames the head and drops nothing. */
  lemma PutEffect<T>(c: Cage<T>, frame: T, time: Stamp)
    requires c.Sized() && (c.newCage || SubTime(time, c.headTime) > 0)
    ensures var r, d, size := Put(c, frame, time), PutAhead(c, time), |c.window|;
            var n: nat := if d < size then 0 else d - (size - 1);
            && 0 <= d
            && (forall k :: 0 <= k < size ==>
                  r.window[k] == if k == d - n then Some(frame) else if k + n < size then c.window[k + n] else None)
            && r.headTime == (if c.newCage then time else Wrap(c.headTime + n))
            && r.tailTime == (if c.newCage || IsNewer(time, c.tailTime) then time else c.tailTime)
            && r.count == c.count - |FirstStored(c.window, n)| + 1
            && (r.starving <==> c.starving && n == 0)
            && (r.newCage <==> exists i: nat :: 1 <= i <= n && c.count == |FirstStored(c.window, i)|)
  {
    var a := Anchor(c, time);
    var n := DropCount(a, time);
    PutParts(c, frame, time);
    PutWindow(c, frame, time);
    DropManyHeadTime(a, n);
    DropManyStored(a, n);
    DropManyRaises(a, n);
  }

  lemma PutWindow<T>(c: Cage<T>, frame: T, time: Stamp)
    requires c.Sized() && (c.newCage || SubTime(time, c.headTime) > 0)
    ensures var d, n := PutAhead(c, time), DropCount(Anchor(c, time), time);
            forall k :: 0 <= k < |c.window| ==>
              Put(c, frame, time).window[k]
                == if k == d - n then Some(frame) else if k + n < |c.window| then c.window[k + n] else None
  {
    PutParts(c, frame, time);
    DropManyWindow(Anchor(c, time), DropCount(Anchor(c, time), time));
  }

  lemma PutParts<T>(c: Cage<T>, frame: T, time: Stamp)
    requires c.Sized() && (c.newCage || SubTime(time, c.headTime) > 0)
    ensures var a, d := Anchor(c, time), PutAhead(c, time);
            var n := DropCount(a, time);
            && 0 <= d && n == (if d < |c.window| then 0 else d - (|c.window| - 1))
            && SubTime(time, DropMany(a, n).headTime) == d - n
            && Put(c, frame, time) == Store(DropMany(a, n), frame, time)
  {
    SubTimeExact(time, c.headTime);
    SubTimeExact(time, time);
    DropLoopEnds(Anchor(c, time), time);
  }

  /** Any other put changes nothing. */
  lemma PutRejected<T>(c: Cage<T>, frame: T, time: Stamp)
    requires c.Sized() && !c.newCage && SubTime(time, c.headTime) <= 0
    ensures Put(c, frame, time) == c
  {
    SubTimeExact(time, c.headTime);
  }

  /** What a get does to every field. */
  lemma GetEffect<T>(c: Cage<T>)
    requires c.Sized()
    ensures c.starving ==> Get(c) == (c, None)
    ensures !c.starving ==>
              var (r, frame) := Get(c);
              && frame == c.window[0]
              && Shifted(c.window, 1, r.window)
              && r.headTime == Wrap(c.headTime + 1) && r.tailTime == c.tailTime
              && r.count == c.count - (if frame.Some? then 1 else 0)
              && (r.starving <==> r.count == 0)
              && (r.newCage <==> c.newCage || r.count == 0)
  {
    ShiftOnce(c.window, 0, c.window);
    WrapInc(c.headTime);
  }
}
