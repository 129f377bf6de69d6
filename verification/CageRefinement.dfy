/**
 * The jitter buffer as a sliding window over unwrapped time: a map from times to frames
 * of which the cage plays the entry at `base` next.  A cage refines this window until a put
 * moves the head time of a raised cage in which a frame waits behind the head;
 * `CageAlignment` shows that such a put always breaks the alignment.
 */
module CageRefinement {
  import opened Options
  import opened SerialTime
  import opened CageModel

  /** `lost` counts the frames that were overwritten, which `elements_count` keeps on
      counting. */
  datatype Playout<T> = Playout(
    base: int,
    frames: map<int, T>,
    lost: nat,
    starving: bool,
    unanchored: bool)

  /** The entries at `from` and later. */
  function Kept<T>(frames: map<int, T>, from: int): map<int, T> {
    map u | u in frames && u >= from :: frames[u]
  }

  /** The unwrapped time closest to the window's base that carries the stamp. */
  function Unwrap(base: int, time: Stamp): int {
    base + SubTime(time, Wrap(base))
  }

  /** Slide the window n places, ending starvation if it moved. */
  function Advance<T>(m: Playout<T>, n: nat): Playout<T> {
    if n == 0 then m
    else
      var kept := Kept(m.frames, m.base + n);
      m.(base := m.base + n, frames := kept, starving := false,
         unanchored := m.unanchored || (kept == map[] && m.lost == 0))
  }

  predicate WindowAccepts<T>(m: Playout<T>, time: Stamp) {
    m.unanchored || Unwrap(m.base, time) > m.base
  }

  /** The anchoring stamp becomes the base.  If that moves the base, a frame waiting at the
      base moves along, and is overwritten by the frame that is being put. */
  function Reanchor<T>(m: Playout<T>, time: Stamp): Playout<T> {
    var u := Unwrap(m.base, time);
    if !m.unanchored then m
    else if u == m.base then m.(unanchored := false)
    else m.(base := u, frames := if m.base in m.frames then map[u := m.frames[m.base]] else map[], unanchored := false)
  }

  /** The lowest base at which a window of this size reaches the time u. */
  function SlideCount<T>(m: Playout<T>, size: nat, u: int): nat {
    if u - (size - 1) > m.base then u - (size - 1) - m.base else 0
  }

  function WindowPut<T>(m: Playout<T>, size: nat, frame: T, time: Stamp): Playout<T> {
    if !WindowAccepts(m, time) then m
    else
      var u, a := Unwrap(m.base, time), Reanchor(m, time);
      var b := Advance(a, SlideCount(a, size, u));
      b.(frames := b.frames[u := frame], lost := if u in b.frames then b.lost + 1 else b.lost)
  }

  function WindowGet<T>(m: Playout<T>): (Playout<T>, Option<T>) {
    if m.starving then (m, None)
    else
      var kept := Kept(m.frames, m.base + 1);
      var empty := kept == map[] && m.lost == 0;
      (m.(base := m.base + 1, frames := kept, starving := empty, unanchored := m.unanchored || empty),
       Lookup(m.frames, m.base))
  }

  function WindowStep<T>(m: Playout<T>, size: nat, e: Event<T>): (Playout<T>, Option<T>) {
    match e
    case PutEvent(frame, time) => (WindowPut(m, size, frame, time), None)
    case GetEvent => WindowGet(m)
  }

  ghost predicate Shows<T>(window: seq<Option<T>>, frames: map<int, T>, base: int) {
    forall k :: 0 <= k < |window| ==> window[k] == Lookup(frames, base + k)
  }

  /** The cage's slots hold exactly the window's entries, each at the place its time says. */
  ghost predicate Agrees<T>(c: Cage<T>, m: Playout<T>) {
    && c.Sized()
    && c.headTime == Wrap(m.base)
    && Shows(c.window, m.frames, m.base)
    && (forall u :: u in m.frames ==> m.base <= u < m.base + |c.window|)
    && c.count == |m.frames| + m.lost
    && c.starving == m.starving
    && c.newCage == m.unanchored
  }

  /** The invariant of the runs in which the stamps stay aligned with the slots.  A cage that
      waits for an anchor holds one frame at most. */
  ghost predicate Refines<T>(c: Cage<T>, m: Playout<T>) {
    && Agrees(c, m)
    && (m.unanchored ==> m.lost == 0 && forall u, v :: u in m.frames && v in m.frames ==> u == v)
  }

  /** A raised cage in which a frame waits behind the head. */
  predicate FrameWaits<T>(c: Cage<T>) {
    c.newCage && exists k :: 0 < k < |c.window| && c.window[k].Some?
  }

  /** The put moves the head time of such a cage, but not its frame. */
  predicate Misplaces<T>(c: Cage<T>, e: Event<T>) {
    e.PutEvent? && FrameWaits(c) && e.time != c.headTime
  }

  // ----- one step -----

  lemma KeptStep<T>(frames: map<int, T>, base: int)
    requires forall u :: u in frames ==> base <= u
    ensures |Kept(frames, base + 1)| == if base in frames then |frames| - 1 else |frames|
  {
    var kept := Kept(frames, base + 1);
    if base in frames {
      assert kept.Keys == frames.Keys - {base};
    } else {
      assert kept == frames;
    }
    assert |kept| == |kept.Keys| && |frames| == |frames.Keys|;
  }

  lemma PopAdvances<T>(c: Cage<T>, m: Playout<T>)
    requires Agrees(c, m)
    ensures Agrees(Pop(c).(starving := false), Advance(m, 1))
    ensures Pop(c).newCage == Advance(m, 1).unanchored
    ensures Pop(c).count == 0 <==> Advance(m, 1).frames == map[] && m.lost == 0
  {
    var kept := Kept(m.frames, m.base + 1);
    KeptStep(m.frames, m.base);
    WrapInc(m.base);
    assert c.window[0] == Lookup(m.frames, m.base + 0);
    assert kept == map[] <==> |kept| == 0;
    forall k | 0 <= k < |c.window|
      ensures Pop(c).window[k] == Lookup(kept, m.base + 1 + k)
    {
      if k + 1 < |c.window| {
        assert c.window[k + 1] == Lookup(m.frames, m.base + (k + 1));
      }
    }
  }

  lemma AdvanceFurther<T>(m: Playout<T>, n: nat)
    ensures Advance(Advance(m, n), 1) == Advance(m, n + 1)
  {
  }

  lemma {:induction false} DropManyAdvances<T>(c: Cage<T>, m: Playout<T>, n: nat)
    requires Agrees(c, m)
    ensures Agrees(DropMany(c, n), Advance(m, n))
  {
    if n > 0 {
      DropManyAdvances(c, m, n - 1);
      PopAdvances(DropMany(c, n - 1), Advance(m, n - 1));
      AdvanceFurther(m, n - 1);
    }
  }

  lemma OnlyAtBase<T>(c: Cage<T>, m: Playout<T>)
    requires Agrees(c, m) && forall k :: 0 < k < |c.window| ==> c.window[k] == None
    ensures m.frames == if m.base in m.frames then map[m.base := m.frames[m.base]] else map[]
  {
    forall u | u in m.frames
      ensures u == m.base
    {
      assert c.window[u - m.base] == Lookup(m.frames, m.base + (u - m.base));
    }
  }

  /** Re-anchoring a window renames its base, and with it at most the frame at the base. */
  lemma ReanchorAgrees<T>(c: Cage<T>, m: Playout<T>, time: Stamp)
    requires Refines(c, m) && c.newCage && !(FrameWaits(c) && time != c.headTime)
    ensures Agrees(Anchor(c, time), Reanchor(m, time))
  {
    UnwrapIsStamp(m.base, time);
    SubTimeExact(time, time);
    if Unwrap(m.base, time) != m.base {
      assert time != c.headTime;
      assert forall k :: 0 < k < |c.window| ==> c.window[k] == None;
      OnlyAtBase(c, m);
      assert c.window[0] == Lookup(m.frames, m.base + 0);
    }
  }

  lemma AnchorAgrees<T>(c: Cage<T>, m: Playout<T>, time: Stamp)
    requires Refines(c, m) && Accepts(c, time) && !(FrameWaits(c) && time != c.headTime)
    ensures WindowAccepts(m, time)
    ensures Agrees(Anchor(c, time), Reanchor(m, time))
    ensures Unwrap(m.base, time) - Reanchor(m, time).base == SubTime(time, Anchor(c, time).headTime)
    ensures 0 <= SubTime(time, Anchor(c, time).headTime) < HALF
    ensures SlideCount(Reanchor(m, time), |c.window|, Unwrap(m.base, time)) == DropCount(Anchor(c, time), time)
    ensures time == Wrap(Unwrap(m.base, time))
  {
    SubTimeExact(time, Wrap(m.base));
    UnwrapIsStamp(m.base, time);
    if m.unanchored {
      SubTimeExact(time, time);
      ReanchorAgrees(c, m, time);
    }
  }

  lemma UnwrapIsStamp(base: int, time: Stamp)
    ensures Wrap(Unwrap(base, time)) == time
  {
    SubTimeExact(time, Wrap(base));
  }

  lemma StoreAgrees<T>(d: Cage<T>, b: Playout<T>, frame: T, time: Stamp, u: int)
    requires Agrees(d, b)
    requires b.base <= u < b.base + |d.window|
    requires SubTime(time, d.headTime) == u - b.base
    ensures Agrees(Store(d, frame, time),
              b.(frames := b.frames[u := frame], lost := if u in b.frames then b.lost + 1 else b.lost))
  {
  }

  lemma PutAgrees<T>(c: Cage<T>, m: Playout<T>, frame: T, time: Stamp)
    requires Refines(c, m) && Accepts(c, time) && !Misplaces(c, PutEvent(frame, time))
    ensures Agrees(Put(c, frame, time), WindowPut(m, |c.window|, frame, time))
  {
    var a, am, u := Anchor(c, time), Reanchor(m, time), Unwrap(m.base, time);
    var n := DropCount(a, time);
    AnchorAgrees(c, m, time);
    DropManyAdvances(a, am, n);
    DropLoopGuard(a, time, n);
    StoreAgrees(DropMany(a, n), Advance(am, n), frame, time, u);
  }

  lemma NotAccepted<T>(c: Cage<T>, m: Playout<T>, time: Stamp)
    requires Refines(c, m)
    ensures Accepts(c, time) <==> WindowAccepts(m, time)
  {
  }

  /** Every put that does not misplace a frame is a put on the window. */
  lemma PutRefines<T>(c: Cage<T>, m: Playout<T>, frame: T, time: Stamp)
    requires Refines(c, m) && !Misplaces(c, PutEvent(frame, time))
    ensures Refines(Put(c, frame, time), WindowPut(m, |c.window|, frame, time))
  {
    NotAccepted(c, m, time);
    if Accepts(c, time) {
      PutAgrees(c, m, frame, time);
    }
  }

  /** Every get is a get on the window and returns the same frame. */
  lemma GetRefines<T>(c: Cage<T>, m: Playout<T>)
    requires Refines(c, m)
    ensures Get(c).1 == WindowGet(m).1
    ensures Refines(Get(c).0, WindowGet(m).0)
  {
    if !c.starving {
      PopAdvances(c, m);
      assert c.window[0] == Lookup(m.frames, m.base + 0);
    }
  }

  // ----- whole runs -----

  /** The window before any frame arrived. */
  function EmptyWindow<T>(): Playout<T> {
    Playout(0, map[], 0, true, true)
  }

  lemma CreateRefines<T>(size: nat)
    requires 1 <= size <= MAX_SIZE
    ensures Refines(Create<T>(size), EmptyWindow<T>())
  {
  }

  /** No put of the run misplaces a frame. */
  predicate NeverMisplaces<T>(c: Cage<T>, es: seq<Event<T>>)
    requires c.Sized()
    decreases |es|
  {
    es == [] || (!Misplaces(c, es[0]) && NeverMisplaces(Step(c, es[0]).0, es[1..]))
  }

  function WindowRun<T>(m: Playout<T>, size: nat, es: seq<Event<T>>): Playout<T>
    decreases |es|
  {
    if es == [] then m else WindowRun(WindowStep(m, size, es[0]).0, size, es[1..])
  }

  /** What the calls of a run return, in order. */
  function Returns<T>(c: Cage<T>, es: seq<Event<T>>): seq<Option<T>>
    requires c.Sized()
    decreases |es|
  {
    if es == [] then [] else [Step(c, es[0]).1] + Returns(Step(c, es[0]).0, es[1..])
  }

  function WindowReturns<T>(m: Playout<T>, size: nat, es: seq<Event<T>>): seq<Option<T>>
    decreases |es|
  {
    if es == [] then [] else [WindowStep(m, size, es[0]).1] + WindowReturns(WindowStep(m, size, es[0]).0, size, es[1..])
  }

  lemma StepRefines<T>(c: Cage<T>, m: Playout<T>, e: Event<T>)
    requires Refines(c, m) && !Misplaces(c, e)
    ensures Refines(Step(c, e).0, WindowStep(m, |c.window|, e).0)
    ensures Step(c, e).1 == WindowStep(m, |c.window|, e).1
  {
    match e
    case PutEvent(frame, time) => PutRefines(c, m, frame, time);
    case GetEvent => GetRefines(c, m);
  }

  /** Cage refinement: a run in which no put misplaces a frame is, call by call, a run of the
      sliding window, and returns the same frames. */
  lemma {:induction false} RunRefines<T>(c: Cage<T>, m: Playout<T>, es: seq<Event<T>>)
    requires Refines(c, m) && NeverMisplaces(c, es)
    ensures Refines(Run(c, es), WindowRun(m, |c.window|, es))
    ensures Returns(c, es) == WindowReturns(m, |c.window|, es)
    decreases |es|
  {
    if es != [] {
      StepRefines(c, m, es[0]);
      RunRefines(Step(c, es[0]).0, WindowStep(m, |c.window|, es[0]).0, es[1..]);
    }
  }

  // ----- in-order playout -----

  /** The put re-anchors the window at another time than its base. */
  predicate Reanchors<T>(m: Playout<T>, e: Event<T>) {
    e.PutEvent? && m.unanchored && Unwrap(m.base, e.time) != m.base
  }

  predicate NeverReanchors<T>(m: Playout<T>, size: nat, es: seq<Event<T>>)
    decreases |es|
  {
    es == [] || (!Reanchors(m, es[0]) && NeverReanchors(WindowStep(m, size, es[0]).0, size, es[1..]))
  }

  lemma MisplacingReanchors<T>(c: Cage<T>, m: Playout<T>, e: Event<T>)
    requires Agrees(c, m) && Misplaces(c, e)
    ensures Reanchors(m, e)
  {
    UnwrapIsStamp(m.base, e.time);
  }

  /** The last frame accepted for each unwrapped time during the run. */
  function Accepted<T>(m: Playout<T>, size: nat, es: seq<Event<T>>): map<int, T>
    decreases |es|
  {
    if es == [] then map[]
    else
      var rest := Accepted(WindowStep(m, size, es[0]).0, size, es[1..]);
      if es[0].PutEvent? && WindowAccepts(m, es[0].time)
      then map[Unwrap(m.base, es[0].time) := es[0].frame] + rest
      else rest
  }

  /** The unwrapped times at which the gets of the run play, leaving out starving gets. */
  function PlayedTimes<T>(m: Playout<T>, size: nat, es: seq<Event<T>>): seq<int>
    decreases |es|
  {
    if es == [] then []
    else
      var rest := PlayedTimes(WindowStep(m, size, es[0]).0, size, es[1..]);
      if es[0].GetEvent? && !m.starving then [m.base] + rest else rest
  }

  /** What the non-starving gets of the run return. */
  function Played<T>(c: Cage<T>, es: seq<Event<T>>): seq<Option<T>>
    requires c.Sized()
    decreases |es|
  {
    if es == [] then []
    else
      var rest := Played(Step(c, es[0]).0, es[1..]);
      if es[0].GetEvent? && !c.starving then [Step(c, es[0]).1] + rest else rest
  }

  lemma StepMovesForward<T>(m: Playout<T>, size: nat, e: Event<T>)
    requires !Reanchors(m, e)
    ensures WindowStep(m, size, e).0.base >= m.base + if e.GetEvent? && !m.starving then 1 else 0
  {
  }

  lemma {:induction false} PlayedLater<T>(m: Playout<T>, size: nat, es: seq<Event<T>>)
    requires NeverReanchors(m, size, es)
    ensures forall i :: 0 <= i < |PlayedTimes(m, size, es)| ==> PlayedTimes(m, size, es)[i] >= m.base
    ensures forall u :: u in Accepted(m, size, es) ==> u >= m.base
    ensures forall i, j :: 0 <= i < j < |PlayedTimes(m, size, es)| ==>
              PlayedTimes(m, size, es)[i] < PlayedTimes(m, size, es)[j]
    decreases |es|
  {
    if es != [] {
      StepMovesForward(m, size, es[0]);
      PlayedLater(WindowStep(m, size, es[0]).0, size, es[1..]);
    }
  }

  /** The accepted frames still ahead do not change as the run goes on. */
  lemma AcceptedAhead<T>(m: Playout<T>, size: nat, es: seq<Event<T>>, u: int)
    requires es != [] && NeverReanchors(m, size, es)
    requires u >= WindowStep(m, size, es[0]).0.base
    ensures var m' := WindowStep(m, size, es[0]).0;
            Lookup(m.frames + Accepted(m, size, es), u) == Lookup(m'.frames + Accepted(m', size, es[1..]), u)
  {
  }

  /** The frames of a run are those accepted for the times at which it plays. */
  ghost predicate PlaysAccepted<T>(frames: seq<Option<T>>, accepted: map<int, T>, times: seq<int>) {
    |frames| == |times| && forall i :: 0 <= i < |times| ==> frames[i] == Lookup(accepted, times[i])
  }

  /** What is played later can be looked up among all accepted frames. */
  lemma PlayedAhead<T>(m: Playout<T>, size: nat, es: seq<Event<T>>, frames: seq<Option<T>>)
    requires es != [] && NeverReanchors(m, size, es)
    requires var m' := WindowStep(m, size, es[0]).0;
             PlaysAccepted(frames, m'.frames + Accepted(m', size, es[1..]), PlayedTimes(m', size, es[1..]))
    ensures PlaysAccepted(frames, m.frames + Accepted(m, size, es),
                          PlayedTimes(WindowStep(m, size, es[0]).0, size, es[1..]))
  {
    var m' := WindowStep(m, size, es[0]).0;
    var times := PlayedTimes(m', size, es[1..]);
    PlayedLater(m', size, es[1..]);
    forall i | 0 <= i < |times|
      ensures frames[i] == Lookup(m.frames + Accepted(m, size, es), times[i])
    {
      AcceptedAhead(m, size, es, times[i]);
    }
  }

  /** A get plays the frame accepted for the base. */
  lemma PlayedNow<T>(m: Playout<T>, size: nat, es: seq<Event<T>>)
    requires es != [] && es[0].GetEvent? && !m.starving && NeverReanchors(m, size, es)
    ensures WindowGet(m).1 == Lookup(m.frames + Accepted(m, size, es), m.base)
  {
    PlayedLater(WindowStep(m, size, es[0]).0, size, es[1..]);
  }

  /** In-order playout: until a put re-anchors the window, the frames played are those
      accepted for strictly increasing unwrapped times, NULL exactly where no frame was
      accepted. */
  lemma {:induction false} InOrderPlayout<T>(c: Cage<T>, m: Playout<T>, es: seq<Event<T>>)
    requires Refines(c, m) && NeverReanchors(m, |c.window|, es)
    ensures var times := PlayedTimes(m, |c.window|, es);
            && PlaysAccepted(Played(c, es), m.frames + Accepted(m, |c.window|, es), times)
            && (forall i, j :: 0 <= i < j < |times| ==> times[i] < times[j])
    decreases |es|
  {
    PlayedLater(m, |c.window|, es);
    if es != [] {
      if Misplaces(c, es[0]) {
        MisplacingReanchors(c, m, es[0]);
      }
      StepRefines(c, m, es[0]);
      InOrderPlayout(Step(c, es[0]).0, WindowStep(m, |c.window|, es[0]).0, es[1..]);
      PlayedAhead(m, |c.window|, es, Played(Step(c, es[0]).0, es[1..]));
      if es[0].GetEvent? && !m.starving {
        PlayedNow(m, |c.window|, es);
      }
    }
  }

  /** Every accepted time carries the stamp its frame was put with. */
  lemma {:induction false} AcceptedStamps<T>(m: Playout<T>, size: nat, es: seq<Event<T>>, u: int)
    requires u in Accepted(m, size, es)
    ensures PutEvent(Accepted(m, size, es)[u], Wrap(u)) in es
    decreases |es|
  {
    var m' := WindowStep(m, size, es[0]).0;
    if u in Accepted(m', size, es[1..]) {
      AcceptedStamps(m', size, es[1..], u);
    } else {
      UnwrapIsStamp(m.base, es[0].time);
    }
  }

  predicate NeverDrops<T>(c: Cage<T>, es: seq<Event<T>>)
    requires c.Sized()
    decreases |es|
  {
    es == [] || ((es[0].PutEvent? && Accepts(c, es[0].time) ==> DropCount(Anchor(c, es[0].time), es[0].time) == 0)
                 && NeverDrops(Step(c, es[0]).0, es[1..]))
  }

  /** While no put has to drop, playout moves exactly one tick per non-starving get. */
  lemma {:induction false} ConsecutivePlayout<T>(c: Cage<T>, m: Playout<T>, es: seq<Event<T>>)
    requires Refines(c, m) && NeverDrops(c, es) && NeverReanchors(m, |c.window|, es)
    ensures forall i :: 0 <= i < |PlayedTimes(m, |c.window|, es)| ==> PlayedTimes(m, |c.window|, es)[i] == m.base + i
    decreases |es|
  {
    if es != [] {
      if Misplaces(c, es[0]) {
        MisplacingReanchors(c, m, es[0]);
      }
      if es[0].PutEvent? && Accepts(c, es[0].time) {
        AnchorAgrees(c, m, es[0].time);
        DropManyHeadTime(c, 0);
      }
      StepRefines(c, m, es[0]);
      ConsecutivePlayout(Step(c, es[0]).0, WindowStep(m, |c.window|, es[0]).0, es[1..]);
    }
  }

  /** The same from the put that anchors an empty cage: every frame played was put with the
      stamp of the time at which it is played, and those times strictly increase, across
      any number of wraps of the 16-bit clock. */
  lemma PlayoutFromAnchor<T>(c: Cage<T>, m: Playout<T>, first: T, time: Stamp, es: seq<Event<T>>)
    requires Refines(c, m) && c.newCage && m.frames == map[]
    requires NeverReanchors(WindowPut(m, |c.window|, first, time), |c.window|, es)
    ensures var c', times := Put(c, first, time), PlayedTimes(WindowPut(m, |c.window|, first, time), |c.window|, es);
            && |Played(c', es)| == |times|
            && (forall i :: 0 <= i < |times| && Played(c', es)[i].Some? ==>
                  PutEvent(Played(c', es)[i].value, Wrap(times[i])) in [PutEvent(first, time)] + es)
            && (forall i, j :: 0 <= i < j < |times| ==> times[i] < times[j])
  {
    var size := |c.window|;
    var c', m' := Put(c, first, time), WindowPut(m, size, first, time);
    assert !FrameWaits(c) by {
      forall k | 0 <= k < size
        ensures c.window[k] == None
      {
        assert c.window[k] == Lookup(m.frames, m.base + k);
      }
    }
    PutRefines(c, m, first, time);
    InOrderPlayout(c', m', es);
    var times, accepted := PlayedTimes(m', size, es), Accepted(m', size, es);
    forall i | 0 <= i < |times| && Played(c', es)[i].Some?
      ensures PutEvent(Played(c', es)[i].value, Wrap(times[i])) in [PutEvent(first, time)] + es
    {
      if times[i] in accepted {
        AcceptedStamps(m', size, es, times[i]);
      } else {
        assert m'.frames == map[Unwrap(m.base, time) := first];
        UnwrapIsStamp(m.base, time);
      }
    }
  }
}
