/**
 * The order of the messages in the stream the server sends to one client, PDEL included,
 * whether or not it is ever handled.
 */
module Streams {
  import opened Options
  import opened Protocol

  datatype Tracker = Waiting | Open(ids: set<nat>) | Illegal

  /** YARE once and first; a peer is added when it is not there, set and deleted when it is. */
  function Track(t: Tracker, c: Command): Tracker {
    match t
    case Waiting => if c.Yare? then Open({}) else Illegal
    case Illegal => Illegal
    case Open(ids) =>
      match c
      case Yare(id) => Illegal
      case Sset(key, value) => t
      case Mesg(text) => t
      case Padd(id) => if id in ids then Illegal else Open(ids + {id})
      case Pset(id, key, value) => if id in ids then t else Illegal
      case Pdel(id) => if id in ids then Open(ids - {id}) else Illegal
  }

  function TrackAll(t: Tracker, cs: seq<Command>): Tracker
    decreases |cs|
  {
    if cs == [] then t else TrackAll(Track(t, cs[0]), cs[1..])
  }

  lemma {:induction false} TrackConcat(t: Tracker, a: seq<Command>, b: seq<Command>)
    ensures TrackAll(t, a + b) == TrackAll(TrackAll(t, a), b)
    decreases |a|
  {
    if a == [] {
      assert a + b == b;
    } else {
      assert (a + b)[1..] == a[1..] + b;
      TrackConcat(Track(t, a[0]), a[1..], b);
    }
  }

  lemma TrackLast(cs: seq<Command>, c: Command)
    ensures TrackAll(Waiting, cs + [c]) == Track(TrackAll(Waiting, cs), c)
  {
    TrackConcat(Waiting, cs, [c]);
    assert TrackAll(TrackAll(Waiting, cs), [c]) == TrackAll(Track(TrackAll(Waiting, cs), c), [c][1..]);
  }

  // ----- what a tracked stream looks like -----

  /** At position m the peer was added, and not deleted before position n. */
  predicate AddedAt(cs: seq<Command>, id: nat, m: int, n: int) {
    0 <= m < n <= |cs| && cs[m] == Padd(id) && forall q :: m < q < n ==> cs[q] != Pdel(id)
  }

  /** The peer was added and not deleted since. */
  ghost predicate Alive(cs: seq<Command>, id: nat, n: int) {
    exists m :: AddedAt(cs, id, m, n)
  }

  /** The messages about each id form a prefix of (PADD PSET* PDEL)*, behind one YARE. */
  ghost predicate WellFormed(cs: seq<Command>) {
    forall n :: 0 <= n < |cs| ==>
      && (cs[n].Yare? <==> n == 0)
      && (cs[n].Padd? ==> !Alive(cs, cs[n].id, n))
      && (cs[n].Pset? || cs[n].Pdel? ==> Alive(cs, cs[n].id, n))
  }

  lemma AliveGrows(cs: seq<Command>, c: Command, id: nat, n: nat)
    requires n <= |cs|
    ensures Alive(cs + [c], id, n) <==> Alive(cs, id, n)
  {
    var ds := cs + [c];
    if Alive(ds, id, n) {
      var m :| AddedAt(ds, id, m, n);
      assert forall q :: m <= q < n ==> cs[q] == ds[q];
      assert AddedAt(cs, id, m, n);
    }
    if Alive(cs, id, n) {
      var m :| AddedAt(cs, id, m, n);
      assert AddedAt(ds, id, m, n);
    }
  }

  lemma AliveStep(cs: seq<Command>, c: Command, id: nat)
    ensures Alive(cs + [c], id, |cs| + 1) <==> c == Padd(id) || (c != Pdel(id) && Alive(cs, id, |cs|))
  {
    var ds := cs + [c];
    if Alive(ds, id, |cs| + 1) {
      var m :| AddedAt(ds, id, m, |cs| + 1);
      assert forall q :: m <= q < |cs| ==> cs[q] == ds[q];
      assert m < |cs| ==> AddedAt(cs, id, m, |cs|);
      assert ds[|cs|] == c;
    }
    if c == Padd(id) {
      assert AddedAt(ds, id, |cs|, |cs| + 1);
    } else if c != Pdel(id) && Alive(cs, id, |cs|) {
      var m :| AddedAt(cs, id, m, |cs|);
      assert AddedAt(ds, id, m, |cs| + 1);
    }
  }

  /** A stream is tracked to the end exactly when it is well-formed and begun, and then the
      tracker holds the ids that are alive. */
  lemma {:induction false} TrackedIsWellFormed(cs: seq<Command>)
    ensures TrackAll(Waiting, cs) == Waiting <==> cs == []
    ensures TrackAll(Waiting, cs) != Illegal <==> WellFormed(cs)
    ensures TrackAll(Waiting, cs).Open? ==> forall id: nat :: id in TrackAll(Waiting, cs).ids <==> Alive(cs, id, |cs|)
    decreases |cs|
  {
    if cs != [] {
      var front, c := cs[..|cs| - 1], cs[|cs| - 1];
      assert cs == front + [c];
      TrackedIsWellFormed(front);
      TrackLast(front, c);
      forall n, id: nat | 0 <= n <= |front|
        ensures Alive(cs, id, n) <==> Alive(front, id, n)
      {
        AliveGrows(front, c, id, n);
      }
      forall id: nat
        ensures Alive(cs, id, |cs|) <==> c == Padd(id) || (c != Pdel(id) && Alive(front, id, |front|))
      {
        AliveStep(front, c, id);
      }
      assert WellFormed(cs) ==> WellFormed(front) by {
        assert forall n :: 0 <= n < |front| ==> front[n] == cs[n];
      }
      assert WellFormed(front) ==> forall n :: 0 <= n < |front| ==>
        && (cs[n].Yare? <==> n == 0)
        && (cs[n].Padd? ==> !Alive(cs, cs[n].id, n))
        && (cs[n].Pset? || cs[n].Pdel? ==> Alive(cs, cs[n].id, n)) by {
        assert forall n :: 0 <= n < |front| ==> front[n] == cs[n];
      }
    }
  }

  // ----- the messages about one peer, and the others -----

  predicate IsAbout(c: Command, id: nat) {
    (c.Padd? || c.Pset? || c.Pdel?) && c.id == id
  }

  /** The messages about a peer, in order. */
  function About(cs: seq<Command>, id: nat): seq<Command> {
    if cs == [] then [] else (if IsAbout(cs[0], id) then [cs[0]] else []) + About(cs[1..], id)
  }

  /** The messages about no peer, in order. */
  function AboutServer(cs: seq<Command>): seq<Command> {
    if cs == [] then []
    else (if cs[0].Padd? || cs[0].Pset? || cs[0].Pdel? then [] else [cs[0]]) + AboutServer(cs[1..])
  }

  lemma Prepend(a: seq<Command>, b: seq<Command>, c: seq<Command>)
    ensures Same(a + (b + c), a + b + c)
  {
    assert a + (b + c) == a + b + c;
  }

  lemma {:induction false} AboutConcat(a: seq<Command>, b: seq<Command>, id: nat)
    ensures Same(About(a + b, id), About(a, id) + About(b, id))
    decreases |a|
  {
    if a == [] {
      assert a + b == b;
      assert [] + About(b, id) == About(b, id);
    } else {
      AboutConcat(a[1..], b, id);
      assert (a + b)[1..] == a[1..] + b;
      Prepend(if IsAbout(a[0], id) then [a[0]] else [], About(a[1..], id), About(b, id));
    }
  }

  lemma {:induction false} AboutServerConcat(a: seq<Command>, b: seq<Command>)
    ensures Same(AboutServer(a + b), AboutServer(a) + AboutServer(b))
    decreases |a|
  {
    if a == [] {
      assert a + b == b;
      assert [] + AboutServer(b) == AboutServer(b);
    } else {
      AboutServerConcat(a[1..], b);
      assert (a + b)[1..] == a[1..] + b;
      Prepend(if a[0].Padd? || a[0].Pset? || a[0].Pdel? then [] else [a[0]], AboutServer(a[1..]), AboutServer(b));
    }
  }

  /** Some commands in a row, from part `from` on. */
  function Flat(parts: seq<seq<Command>>, from: nat): seq<Command>
    requires from <= |parts|
    decreases |parts| - from
  {
    if from == |parts| then [] else parts[from] + Flat(parts, from + 1)
  }

  lemma {:induction false} FlatPart(parts: seq<seq<Command>>, from: nat, id: nat)
    requires from <= |parts|
    requires forall i :: 0 <= i < |parts| ==> Same(About(parts[i], id), if i == id then parts[i] else [])
    ensures Same(About(Flat(parts, from), id), if from <= id < |parts| then parts[id] else [])
    decreases |parts| - from
  {
    if from < |parts| {
      var here, later := About(parts[from], id), About(Flat(parts, from + 1), id);
      FlatPart(parts, from + 1, id);
      AboutConcat(parts[from], Flat(parts, from + 1), id);
      assert Same(About(Flat(parts, from), id), here + later);
      if from == id {
        assert here + [] == here;
      } else {
        assert here == [] && [] + later == later;
      }
    }
  }

  lemma {:induction false} FlatServerPart(parts: seq<seq<Command>>, from: nat)
    requires from <= |parts|
    requires forall i :: 0 <= i < |parts| ==> Same(AboutServer(parts[i]), [])
    ensures Same(AboutServer(Flat(parts, from)), [])
    decreases |parts| - from
  {
    if from < |parts| {
      FlatServerPart(parts, from + 1);
      AboutServerConcat(parts[from], Flat(parts, from + 1));
    }
  }
}
