/**
 * The bounded queue of src/libsvc/packet_queue.c between one producer, the audio callback
 * (src/libsvc/libsvc.c:25-28), and one consumer, the sending thread (40-48).  A move is one
 * statement of one thread; the two mutexes are binary semaphores, since `queue_empty_mutex`
 * is locked by one thread and unlocked by the other.
 */
module PacketQueue {
  import opened Audio
  import opened Options

  function NextPoint(size: nat, pos: nat): (next: nat)
    requires pos < size
    ensures next < size
  {
    if pos == size - 1 then 0 else pos + 1
  }

  datatype Thread = Producer | Consumer

  /** The statement of `packet_queue_push_data` the producer is about to run. */
  datatype PushAt =
    | PushLock                              // line 45
    | PushSignal(frame: Frame)              // line 47
    | PushAdvance(frame: Frame)             // lines 49-55
    | PushCopy(frame: Frame, newTail: nat)  // line 56
    | PushUnlock                            // lines 51, 58

  /** The statement of `packet_queue_pop_data` the consumer is about to run. */
  datatype PopAt =
    | PopWait       // line 63
    | PopPass       // line 64
    | PopLock       // line 66
    | PopCopy       // line 68
    | PopAdvance    // line 69
    | PopTest       // line 71
    | PopUnlock     // line 73

  /** `accepted` and `popped` record what the run has done so far. */
  datatype State = State(
    size: nat,
    head: nat,
    tail: nat,
    slots: seq<Frame>,
    queueMutex: Option<Thread>,
    emptyLocked: bool,
    push: PushAt,
    pop: PopAt,
    buffer: Frame,
    accepted: seq<Frame>,
    popped: seq<Frame>)
  {
    predicate InRange() {
      size >= 2 && |slots| == size && head < size && tail < size && (push.PushCopy? ==> push.newTail < size)
    }

    predicate IsEmpty() {
      tail == head
    }
  }

  datatype Move = Produce(frame: Frame) | Consume

  /** The producer's next statement; None when it would block. */
  function PushMove(s: State, frame: Frame): (r: Option<State>)
    requires s.InRange()
    ensures r.Some? ==> r.value.InRange()
  {
    match s.push
    case PushLock =>
      if s.queueMutex.Some? then None
      else Some(s.(queueMutex := Some(Producer), push := PushSignal(frame)))
    case PushSignal(x) =>
      Some(s.(emptyLocked := s.emptyLocked && !s.IsEmpty(), push := PushAdvance(x)))
    case PushAdvance(x) =>
      var newTail := NextPoint(s.size, s.tail);
      if newTail == s.head then Some(s.(push := PushUnlock))
      else Some(s.(tail := newTail, push := PushCopy(x, newTail), accepted := s.accepted + [x]))
    case PushCopy(x, newTail) =>
      Some(s.(slots := s.slots[newTail := AudioCopy(s.slots[newTail], x)], push := PushUnlock))
    case PushUnlock =>
      Some(s.(queueMutex := None, push := PushLock))
  }

  /** The consumer's next statement; None when it would block. */
  function PopMove(s: State): (r: Option<State>)
    requires s.InRange()
    ensures r.Some? ==> r.value.InRange()
  {
    match s.pop
    case PopWait =>
      if s.emptyLocked then None else Some(s.(emptyLocked := true, pop := PopPass))
    case PopPass =>
      Some(s.(emptyLocked := false, pop := PopLock))
    case PopLock =>
      if s.queueMutex.Some? then None
      else Some(s.(queueMutex := Some(Consumer), pop := PopCopy))
    case PopCopy =>
      Some(s.(buffer := AudioCopy(s.buffer, s.slots[s.head]), pop := PopAdvance))
    case PopAdvance =>
      Some(s.(head := NextPoint(s.size, s.head), pop := PopTest, popped := s.popped + [s.buffer]))
    case PopTest =>
      if !s.IsEmpty() then Some(s.(pop := PopUnlock))
      else if s.emptyLocked then None
      else Some(s.(emptyLocked := true, pop := PopUnlock))
    case PopUnlock =>
      Some(s.(queueMutex := None, pop := PopWait))
  }

  function TryMove(s: State, m: Move): (r: Option<State>)
    requires s.InRange()
    ensures r.Some? ==> r.value.InRange()
  {
    match m
    case Produce(frame) => PushMove(s, frame)
    case Consume => PopMove(s)
  }

  /** Any interleaving: a thread scheduled while it is blocked stays where it is. */
  function Run(s: State, schedule: seq<Move>): (r: State)
    requires s.InRange()
    ensures r.InRange()
    decreases |schedule|
  {
    if schedule == [] then s
    else
      match TryMove(s, schedule[0])
      case None => Run(s, schedule[1..])
      case Some(next) => Run(next, schedule[1..])
  }

  /** `packet_queue_create`: the empty queue starts with `queue_empty_mutex` locked. */
  function Create(slots: seq<Frame>, buffer: Frame): State {
    State(|slots|, 0, 0, slots, None, true, PushLock, PopWait, buffer, [], [])
  }

  // ----- ring positions -----

  /** The slot of the n-th step around the ring. */
  function Pos(size: nat, n: nat): (p: nat)
    requires size > 0
    ensures p < size
  {
    if n == 0 then 0 else NextPoint(size, Pos(size, n - 1))
  }

  lemma {:induction false} PosDistance(size: nat, n: nat, k: nat)
    requires size > 0 && k <= size
    ensures Pos(size, n + k) == if Pos(size, n) + k < size then Pos(size, n) + k else Pos(size, n) + k - size
  {
    if k > 0 {
      PosDistance(size, n, k - 1);
      assert Pos(size, n + k) == NextPoint(size, Pos(size, n + (k - 1)));
    }
  }

  /** Fewer than `size` steps apart the slots differ. */
  lemma PosDiffer(size: nat, i: nat, j: nat)
    requires size > 0 && i < j < i + size
    ensures Pos(size, i) != Pos(size, j)
  {
    PosDistance(size, i, j - i);
  }

  // ----- the invariant of every interleaving -----

  /** Everything that ever goes through the queue: pop reads the slot behind the one push
      wrote first, so the initial content of slot 0 comes out ahead of all pushed frames. */
  function Stream(first: Frame, s: State): seq<Frame> {
    [first] + s.accepted
  }

  predicate InCriticalPop(s: State) {
    s.pop.PopCopy? || s.pop.PopAdvance? || s.pop.PopTest? || s.pop.PopUnlock?
  }

  ghost predicate Exclusive(s: State) {
    && (s.queueMutex == Some(Producer) <==> !s.push.PushLock?)
    && (s.queueMutex == Some(Consumer) <==> InCriticalPop(s))
  }

  /** The empty queue keeps `queue_empty_mutex` locked, but for the two moments in which a
      thread inside the queue is about to settle it. */
  ghost predicate Gated(s: State) {
    && (s.pop.PopPass? || s.pop.PopLock? ==> !s.IsEmpty() || s.push.PushAdvance?)
    && (s.pop.PopCopy? || s.pop.PopAdvance? ==> !s.IsEmpty())
    && (s.emptyLocked <==> s.pop.PopPass? || (s.IsEmpty() && !s.push.PushAdvance? && !s.pop.PopTest?))
  }

  ghost predicate Counted(s: State)
    requires s.InRange()
  {
    && |s.popped| <= |s.accepted| < |s.popped| + s.size
    && s.head == Pos(s.size, |s.popped|)
    && s.tail == Pos(s.size, |s.accepted|)
    && (s.push.PushCopy? ==>
          s.accepted != [] && s.push.newTail == s.tail && s.push.frame == s.accepted[|s.accepted| - 1]
          && |s.popped| < |s.accepted|)
  }

  predicate Written(s: State, i: nat) {
    i < |s.accepted| || !s.push.PushCopy?
  }

  /** The slots from head to tail hold the stream, except one about to be written. */
  ghost predicate Holds(first: Frame, s: State)
    requires s.InRange() && Counted(s)
  {
    && (forall i :: |s.popped| <= i <= |s.accepted| && Written(s, i) ==> s.slots[Pos(s.size, i)] == Stream(first, s)[i])
    && s.popped == Stream(first, s)[..|s.popped|]
    && (s.pop.PopAdvance? ==> s.buffer == Stream(first, s)[|s.popped|])
  }

  ghost predicate Sized(s: State, frameSize: nat) {
    && (forall i :: 0 <= i < |s.slots| ==> |s.slots[i]| == frameSize)
    && |s.buffer| == frameSize
    && (s.push.PushSignal? || s.push.PushAdvance? || s.push.PushCopy? ==> |s.push.frame| == frameSize)
  }

  ghost predicate Inv(first: Frame, s: State) {
    && s.InRange() && Sized(s, |first|)
    && Exclusive(s) && Counted(s) && Gated(s) && Holds(first, s)
  }

  lemma EmptyMeansAllPopped(s: State)
    requires s.InRange() && Counted(s)
    ensures s.IsEmpty() <==> |s.accepted| == |s.popped|
  {
    if |s.accepted| > |s.popped| {
      PosDiffer(s.size, |s.popped|, |s.accepted|);
    }
  }

  lemma FullMeansOutstanding(s: State)
    requires s.InRange() && Counted(s)
    ensures NextPoint(s.size, s.tail) == s.head <==> |s.accepted| - |s.popped| == s.size - 1
  {
    var a, q := |s.accepted|, |s.popped|;
    assert NextPoint(s.size, s.tail) == Pos(s.size, a + 1);
    if a + 1 < q + s.size {
      PosDiffer(s.size, q, a + 1);
    } else {
      PosDistance(s.size, q, s.size);
    }
  }

  lemma AdvanceKeepsInv(first: Frame, s: State, frame: Frame)
    requires Inv(first, s) && s.push.PushAdvance?
    ensures Inv(first, PushMove(s, frame).value)
  {
    var s' := PushMove(s, frame).value;
    EmptyMeansAllPopped(s);
    FullMeansOutstanding(s);
    if s'.push.PushCopy? {
      assert Stream(first, s') == Stream(first, s) + [s.push.frame];
      EmptyMeansAllPopped(s');
    }
  }

  lemma CopyKeepsInv(first: Frame, s: State, frame: Frame)
    requires Inv(first, s) && s.push.PushCopy?
    ensures Inv(first, PushMove(s, frame).value)
  {
    var s' := PushMove(s, frame).value;
    forall i | |s.popped| <= i <= |s.accepted|
      ensures s'.slots[Pos(s.size, i)] == Stream(first, s)[i]
    {
      if i < |s.accepted| {
        PosDiffer(s.size, i, |s.accepted|);
        assert Written(s, i);
      }
    }
  }

  lemma PushKeepsInv(first: Frame, s: State, frame: Frame)
    requires Inv(first, s) && |frame| == |first|
    requires PushMove(s, frame).Some?
    ensures Inv(first, PushMove(s, frame).value)
  {
    match s.push {
      case PushLock =>
      case PushSignal(x) =>
      case PushAdvance(x) => AdvanceKeepsInv(first, s, frame);
      case PushCopy(x, newTail) => CopyKeepsInv(first, s, frame);
      case PushUnlock =>
    }
  }

  lemma PopKeepsInv(first: Frame, s: State)
    requires Inv(first, s)
    requires PopMove(s).Some?
    ensures Inv(first, PopMove(s).value)
  {
    var s' := PopMove(s).value;
    EmptyMeansAllPopped(s);
    match s.pop {
      case PopWait =>
      case PopPass =>
      case PopLock =>
      case PopCopy =>
        assert s.slots[Pos(s.size, |s.popped|)] == Stream(first, s)[|s.popped|];
      case PopAdvance =>
        var stream, q := Stream(first, s), |s.popped|;
        assert stream[..q + 1] == stream[..q] + [stream[q]];
        EmptyMeansAllPopped(s');
      case PopTest =>
      case PopUnlock =>
    }
  }

  predicate RightSize(schedule: seq<Move>, frameSize: nat) {
    forall i :: 0 <= i < |schedule| ==> schedule[i].Produce? ==> |schedule[i].frame| == frameSize
  }

  /** Whatever the schedule, the invariant holds. */
  lemma {:induction false} RunKeepsInv(first: Frame, s: State, schedule: seq<Move>)
    requires Inv(first, s) && RightSize(schedule, |first|)
    ensures Inv(first, Run(s, schedule))
    decreases |schedule|
  {
    if schedule != [] {
      var next := TryMove(s, schedule[0]);
      if next.Some? {
        match schedule[0]
        case Produce(frame) => PushKeepsInv(first, s, frame);
        case Consume => PopKeepsInv(first, s);
      }
      RunKeepsInv(first, if next.Some? then next.value else s, schedule[1..]);
    }
  }

  /** A new queue of `size` >= 2 buffers of one size. */
  ghost predicate NewQueue(s: State, slots: seq<Frame>, buffer: Frame) {
    && |slots| >= 2
    && (forall i :: 0 <= i < |slots| ==> |slots[i]| == |slots[0]|)
    && |buffer| == |slots[0]|
    && s == Create(slots, buffer)
  }

  lemma EveryRun(slots: seq<Frame>, buffer: Frame, schedule: seq<Move>)
    requires NewQueue(Create(slots, buffer), slots, buffer) && RightSize(schedule, |slots[0]|)
    ensures Inv(slots[0], Run(Create(slots, buffer), schedule))
  {
    RunKeepsInv(slots[0], Create(slots, buffer), schedule);
  }

  // ----- what it means -----

  predicate SameRing(s: State, s': State) {
    s.head == s'.head && s.tail == s'.tail && s.slots == s'.slots
  }

  /** head, tail and slots change only in moves of the thread that holds `queue_mutex`, and
      the consumer reads a slot only while holding it. */
  lemma GuardedAccess(slots: seq<Frame>, buffer: Frame, schedule: seq<Move>, m: Move)
    requires NewQueue(Create(slots, buffer), slots, buffer) && RightSize(schedule, |slots[0]|)
    ensures var s := Run(Create(slots, buffer), schedule);
            var holder := if m.Produce? then Producer else Consumer;
            && (TryMove(s, m).Some? && !SameRing(s, TryMove(s, m).value) ==> s.queueMutex == Some(holder))
            && (s.pop.PopCopy? ==> s.queueMutex == Some(Consumer))
  {
    EveryRun(slots, buffer, schedule);
  }

  /** A thread waits only for a mutex that is taken: the producer for `queue_mutex` at line 45,
      the consumer for the gate at lines 63 and 71 and for `queue_mutex` at line 66.  So a full
      queue never makes the producer wait. */
  lemma BlockedExactly(s: State, frame: Frame)
    requires s.InRange()
    ensures PushMove(s, frame) == None <==> s.push.PushLock? && s.queueMutex.Some?
    ensures PopMove(s) == None <==>
              || (s.pop.PopWait? && s.emptyLocked) || (s.pop.PopLock? && s.queueMutex.Some?)
              || (s.pop.PopTest? && s.tail == s.head && s.emptyLocked)
  {
  }

  /** The consumer never pops from an empty queue, the lock of line 71 never blocks, the
      consumer waits at line 63 only while every accepted frame is popped, at no point are
      both threads stuck, and both unlocks of `queue_empty_mutex` find it locked. */
  lemma NeverStuck(slots: seq<Frame>, buffer: Frame, schedule: seq<Move>, frame: Frame)
    requires NewQueue(Create(slots, buffer), slots, buffer) && RightSize(schedule, |slots[0]|)
    ensures var s := Run(Create(slots, buffer), schedule);
            && (s.pop.PopCopy? || s.pop.PopAdvance? ==> |s.popped| < |s.accepted|)
            && (s.pop.PopTest? ==> PopMove(s).Some?)
            && (s.pop.PopWait? && PopMove(s).None? ==> |s.accepted| == |s.popped|)
            && (PushMove(s, frame).Some? || PopMove(s).Some?)
            && (s.push.PushSignal? && s.IsEmpty() ==> s.emptyLocked)
            && (s.pop.PopPass? ==> s.emptyLocked)
  {
    EveryRun(slots, buffer, schedule);
    var s := Run(Create(slots, buffer), schedule);
    EmptyMeansAllPopped(s);
    if PushMove(s, frame).None? {
      match s.queueMutex.value {
        case Producer =>
        case Consumer => assert InCriticalPop(s);
      }
    }
  }

  /** The frames handed to push, in order, that the run does not refuse: one for each Produce
      that takes the mutex.  `held` is the one handed over and not yet decided on. */
  function Handed(s: State, schedule: seq<Move>, held: seq<Frame>): seq<Frame>
    requires s.InRange()
    decreases |schedule|
  {
    if schedule == [] then held
    else
      match TryMove(s, schedule[0])
      case None => Handed(s, schedule[1..], held)
      case Some(next) =>
        if schedule[0].Consume? then Handed(next, schedule[1..], held)
        else if s.push.PushLock? then Handed(next, schedule[1..], [schedule[0].frame])
        else if !s.push.PushAdvance? then Handed(next, schedule[1..], held)
        else if NextPoint(s.size, s.tail) == s.head then Handed(next, schedule[1..], [])
        else held + Handed(next, schedule[1..], [])
  }

  /** What the producer has in hand before it has decided. */
  function Holding(s: State): seq<Frame> {
    match s.push
    case PushSignal(frame) => [frame]
    case PushAdvance(frame) => [frame]
    case _ => []
  }

  lemma {:induction false} AcceptedAreHanded(s: State, schedule: seq<Move>)
    requires s.InRange()
    ensures Same(Run(s, schedule).accepted + Holding(Run(s, schedule)), s.accepted + Handed(s, schedule, Holding(s)))
    decreases |schedule|
  {
    if schedule != [] {
      match TryMove(s, schedule[0])
      case None => AcceptedAreHanded(s, schedule[1..]);
      case Some(next) =>
        AcceptedAreHanded(next, schedule[1..]);
        if schedule[0].Produce? && s.push.PushAdvance? && next.push.PushCopy? {
          var later := Handed(next, schedule[1..], []);
          assert s.accepted + Holding(s) + later == s.accepted + (Holding(s) + later);
        }
    }
  }

  /** What the consumer's buffer holds each time it has copied a frame. */
  function Copies(s: State, schedule: seq<Move>): seq<Frame>
    requires s.InRange()
    decreases |schedule|
  {
    if schedule == [] then []
    else
      var next := match TryMove(s, schedule[0]) case None => s case Some(t) => t;
      (if schedule[0].Consume? && s.pop.PopCopy? then [next.buffer] else []) + Copies(next, schedule[1..])
  }

  /** The copy the consumer has not counted yet. */
  function Uncounted(s: State): seq<Frame> {
    if s.pop.PopAdvance? then [s.buffer] else []
  }

  lemma {:induction false} PoppedAreCopies(s: State, schedule: seq<Move>)
    requires s.InRange()
    ensures Same(Run(s, schedule).popped + Uncounted(Run(s, schedule)), s.popped + Uncounted(s) + Copies(s, schedule))
    decreases |schedule|
  {
    if schedule == [] {
      assert s.popped + Uncounted(s) + [] == s.popped + Uncounted(s);
    } else {
      var next := match TryMove(s, schedule[0]) case None => s case Some(t) => t;
      var later := Copies(next, schedule[1..]);
      PoppedAreCopies(next, schedule[1..]);
      if schedule[0].Consume? && s.pop.PopCopy? {
        assert s.popped + Uncounted(s) + ([next.buffer] + later) == s.popped + [next.buffer] + later;
      } else {
        assert [] + later == later;
        assert next.popped + Uncounted(next) == s.popped + Uncounted(s);
      }
    }
  }

  /** Until the next copy the consumer's buffer holds the last frame popped. */
  predicate BufferIsLast(s: State, buffer: Frame) {
    !s.pop.PopAdvance? ==> s.buffer == if s.popped == [] then buffer else s.popped[|s.popped| - 1]
  }

  lemma {:induction false} RunKeepsBuffer(s: State, schedule: seq<Move>, buffer: Frame)
    requires s.InRange() && BufferIsLast(s, buffer)
    ensures BufferIsLast(Run(s, schedule), buffer)
    decreases |schedule|
  {
    if schedule != [] {
      RunKeepsBuffer(match TryMove(s, schedule[0]) case None => s case Some(next) => next, schedule[1..], buffer);
    }
  }

  /** Over every schedule of a new queue, the frames accepted are exactly those handed to push
      and not refused, the frames popped are exactly those the consumer copied, and between
      copies the consumer's buffer holds the last of them. */
  lemma AcceptedAndPopped(slots: seq<Frame>, buffer: Frame, schedule: seq<Move>)
    requires |slots| >= 2
    ensures var s0 := Create(slots, buffer);
            var s := Run(s0, schedule);
            && s.accepted + Holding(s) == Handed(s0, schedule, [])
            && s.popped + Uncounted(s) == Copies(s0, schedule)
            && BufferIsLast(s, buffer)
  {
    var s0 := Create(slots, buffer);
    AcceptedAreHanded(s0, schedule);
    PoppedAreCopies(s0, schedule);
    RunKeepsBuffer(s0, schedule, buffer);
    assert [] + Handed(s0, schedule, []) == Handed(s0, schedule, []);
    assert s0.popped + Uncounted(s0) + Copies(s0, schedule) == Copies(s0, schedule);
  }

  /** Delayed FIFO: the popped frames are a prefix of the initial content of slot 0 followed
      by the accepted frames in order. */
  lemma DelayedFifo(slots: seq<Frame>, buffer: Frame, schedule: seq<Move>)
    requires NewQueue(Create(slots, buffer), slots, buffer) && RightSize(schedule, |slots[0]|)
    ensures var s := Run(Create(slots, buffer), schedule);
            s.popped <= [slots[0]] + s.accepted && |s.popped| <= |s.accepted|
  {
    EveryRun(slots, buffer, schedule);
  }

  /** A push is refused exactly when size - 1 accepted frames are outstanding, and a push
      that is not never writes the slot the consumer reads next. */
  lemma RefusedExactlyWhenFull(slots: seq<Frame>, buffer: Frame, schedule: seq<Move>, frame: Frame)
    requires NewQueue(Create(slots, buffer), slots, buffer) && RightSize(schedule, |slots[0]|)
    ensures var s := Run(Create(slots, buffer), schedule);
            && (s.push.PushAdvance? ==>
                  (PushMove(s, frame).value.push.PushUnlock? <==> |s.accepted| - |s.popped| == s.size - 1))
            && (s.push.PushCopy? ==> s.push.newTail != s.head)
  {
    EveryRun(slots, buffer, schedule);
    var s := Run(Create(slots, buffer), schedule);
    EmptyMeansAllPopped(s);
    FullMeansOutstanding(s);
  }

  // ----- the two calls on the heap -----

  /** The moves of one whole push: the copy is skipped when the queue is full. */
  function WholePush(s: State, frame: Frame): seq<Move>
    requires s.InRange()
  {
    Repeat(Produce(frame), if NextPoint(s.size, s.tail) == s.head then 4 else 5)
  }

  const WHOLE_POP: seq<Move> := Repeat(Consume, 7)

  function Repeat(m: Move, n: nat): seq<Move> {
    seq(n, i => m)
  }

  /** The same move, n times. */
  function RunRepeated(s: State, m: Move, n: nat): (r: State)
    requires s.InRange()
    decreases n
  {
    if n == 0 then s
    else
      match TryMove(s, m)
      case None => RunRepeated(s, m, n - 1)
      case Some(next) => RunRepeated(next, m, n - 1)
  }

  lemma {:induction false} RunRepeat(s: State, m: Move, n: nat)
    requires s.InRange()
    ensures Same(Run(s, Repeat(m, n)), RunRepeated(s, m, n))
    decreases n
  {
    if n > 0 {
      assert Repeat(m, n)[1..] == Repeat(m, n - 1);
      RunRepeat(match TryMove(s, m) case None => s case Some(next) => next, m, n - 1);
    }
  }

  lemma PushMoves(s: State, frame: Frame)
    requires s.InRange() && s.push.PushLock? && s.queueMutex.None?
    ensures var newTail := NextPoint(s.size, s.tail);
            var signalled := s.(emptyLocked := s.emptyLocked && !s.IsEmpty());
            if newTail == s.head then RunRepeated(s, Produce(frame), 4) == signalled
            else RunRepeated(s, Produce(frame), 5) ==
                   signalled.(tail := newTail, accepted := s.accepted + [frame],
                              slots := s.slots[newTail := AudioCopy(s.slots[newTail], frame)])
  {
  }

  /** The consumer inside the lock with its copy. */
  function Copied(s: State): (r: State)
    requires s.InRange()
    ensures r.InRange()
  {
    s.(queueMutex := Some(Consumer), pop := PopAdvance, buffer := AudioCopy(s.buffer, s.slots[s.head]))
  }

  /** The first four moves of a pop: past the gate, into the lock, and the copy. */
  lemma PopEnters(s: State, n: nat)
    requires s.InRange() && s.pop.PopWait? && s.queueMutex.None? && !s.emptyLocked
    ensures Same(RunRepeated(s, Consume, n + 4),
              RunRepeated(Copied(s), Consume, n))
  {
    var s2 := s.(pop := PopLock);
    var s3 := s2.(queueMutex := Some(Consumer), pop := PopCopy);
    assert Same(RunRepeated(s, Consume, n + 4), RunRepeated(s2, Consume, n + 2));
    assert Same(RunRepeated(s2, Consume, n + 2), RunRepeated(s3, Consume, n + 1));
  }

  /** The last three: on to the next slot, closing the gate of an empty queue, and out. */
  lemma PopLeaves(s: State, n: nat)
    requires s.InRange() && s.pop.PopAdvance? && s.queueMutex == Some(Consumer) && !s.emptyLocked
    ensures var head := NextPoint(s.size, s.head);
            Same(RunRepeated(s, Consume, n + 3),
              RunRepeated(
                s.(queueMutex := None, pop := PopWait, head := head, popped := s.popped + [s.buffer],
                   emptyLocked := s.tail == head),
                Consume, n))
  {
    var s5 := s.(head := NextPoint(s.size, s.head), pop := PopTest, popped := s.popped + [s.buffer]);
    var s6 := s5.(emptyLocked := s5.tail == s5.head, pop := PopUnlock);
    assert Same(RunRepeated(s, Consume, n + 3), RunRepeated(s5, Consume, n + 2));
    assert Same(RunRepeated(s5, Consume, n + 2), RunRepeated(s6, Consume, n + 1));
  }

  lemma PopMoves(s: State, n: nat)
    requires s.InRange() && s.pop.PopWait? && s.queueMutex.None? && !s.emptyLocked && n == |WHOLE_POP|
    ensures var head, frame := NextPoint(s.size, s.head), AudioCopy(s.buffer, s.slots[s.head]);
            Same(RunRepeated(s, Consume, n),
              s.(buffer := frame, head := head, popped := s.popped + [frame], emptyLocked := s.tail == head))
  {
    PopEnters(s, n - 4);
    PopLeaves(Copied(s), n - 7);
  }

  lemma WholePushIs(s: State, frame: Frame)
    requires s.InRange() && s.push.PushLock? && s.queueMutex.None?
    ensures var newTail := NextPoint(s.size, s.tail);
            var signalled := s.(emptyLocked := s.emptyLocked && !s.IsEmpty());
            Same(Run(s, WholePush(s, frame)),
              if newTail == s.head then signalled
              else signalled.(tail := newTail, accepted := s.accepted + [frame],
                              slots := s.slots[newTail := AudioCopy(s.slots[newTail], frame)]))
  {
    RunRepeat(s, Produce(frame), if NextPoint(s.size, s.tail) == s.head then 4 else 5);
    PushMoves(s, frame);
  }

  lemma WholePopIs(s: State)
    requires s.InRange() && s.pop.PopWait? && s.queueMutex.None? && !s.emptyLocked
    ensures var head, frame := NextPoint(s.size, s.head), AudioCopy(s.buffer, s.slots[s.head]);
            Same(Run(s, WHOLE_POP),
              s.(buffer := frame, head := head, popped := s.popped + [frame], emptyLocked := s.tail == head))
  {
    RunRepeat(s, Consume, |WHOLE_POP|);
    PopMoves(s, |WHOLE_POP|);
  }

  class PacketQueue {
    const size: nat
    const audioQueue: array<Frame>
    var head: nat
    var tail: nat
    var queueEmptyLocked: bool
    ghost var buffer: Frame
    ghost var accepted: seq<Frame>
    ghost var popped: seq<Frame>

    ghost predicate Valid()
      reads this, audioQueue
    {
      size >= 2 && audioQueue.Length == size && head < size && tail < size
    }

    /** The queue while neither thread is inside a call. */
    ghost function View(): (s: State)
      reads this, audioQueue
      requires Valid()
      ensures s.InRange()
    {
      State(size, head, tail, audioQueue[..], None, queueEmptyLocked, PushLock, PopWait, buffer, accepted, popped)
    }

    /** A queue over the given buffers, whose contents `malloc` leaves unspecified. */
    constructor (queueSize: nat, buffers: seq<Frame>, ghost consumerBuffer: Frame)
      requires queueSize == |buffers| >= 2
      ensures Valid() && fresh(audioQueue)
      ensures View() == Create(buffers, consumerBuffer)
    {
      size := queueSize;
      head := 0;
      tail := 0;
      queueEmptyLocked := true;
      audioQueue := new Frame[queueSize](i requires 0 <= i < queueSize => buffers[i]);
      buffer := consumerBuffer;
      accepted := [];
      popped := [];
      new;
      assert audioQueue[..] == buffers;
    }

    /** `packet_queue_push_data` run without interruption is its moves in a row; it returns
        1 when the frame was refused. */
    method PushData(audioData: Frame) returns (code: int)
      requires Valid()
      modifies this, audioQueue
      ensures Valid()
      ensures View() == Run(old(View()), WholePush(old(View()), audioData))
      ensures code == if |accepted| == |old(accepted)| then 1 else 0
    {
      ghost var s := View();
      WholePushIs(s, audioData);
      if tail == head {
        queueEmptyLocked := false;
      }
      var newTail := NextPoint(size, tail);
      if newTail == head {
        return 1;
      }
      tail := newTail;
      accepted := accepted + [audioData];
      audioQueue[newTail] := AudioCopy(audioQueue[newTail], audioData);
      assert audioQueue[..] == s.slots[newTail := AudioCopy(s.slots[newTail], audioData)];
      return 0;
    }

    /** `packet_queue_pop_data` on a queue that does not make its caller wait. */
    method PopData(audioData: Frame) returns (copied: Frame)
      requires Valid() && !queueEmptyLocked && audioData == buffer
      modifies this
      ensures Valid()
      ensures View() == Run(old(View()), WHOLE_POP)
      ensures copied == buffer
    {
      WholePopIs(View());
      copied := AudioCopy(audioData, audioQueue[head]);
      head := NextPoint(size, head);
      if tail == head {
        queueEmptyLocked := true;
      }
      buffer := copied;
      popped := popped + [copied];
    }
  }
}
