/**
 * The peers that can be heard and the mixing of what they say:
 * src/libsvc/libsvc_incoming.c.  The peers form a doubly linked list on the heap, each with
 * a cage of its own.
 */
module Incoming {
  import opened Options
  import opened SerialTime
  import opened Audio
  import M = CageModel
  import PC = PacketCage

  const CAGE_SIZE := 5

  class Peer {
    const cage: PC.PacketCage<Frame>
    var prev: Peer?
    var next: Peer?

    constructor (cage: PC.PacketCage<Frame>, next: Peer?)
      ensures this.cage == cage && this.next == next && this.prev == null
    {
      this.cage := cage;
      this.next := next;
      this.prev := null;
    }
  }

  /** The cages of some peers. */
  ghost function ViewsOf(peers: seq<Peer>): (views: seq<M.Cage<Frame>>)
    requires forall i :: 0 <= i < |peers| ==> peers[i].cage.Valid()
    reads (set p | p in peers :: p.cage), (set p | p in peers :: p.cage.audioQueue)
    ensures |views| == |peers| && forall i :: 0 <= i < |peers| ==> views[i] == peers[i].cage.View()
  {
    if peers == [] then [] else ViewsOf(peers[..|peers| - 1]) + [peers[|peers| - 1].cage.View()]
  }

  /** All frames in the slots have the same size. */
  predicate HoldsSize(c: M.Cage<Frame>, size: nat) {
    forall k :: 0 <= k < |c.window| && c.window[k].Some? ==> |c.window[k].value| == size
  }

  lemma {:induction false} DropsHoldSize(c: M.Cage<Frame>, n: nat, size: nat)
    requires c.Sized() && HoldsSize(c, size)
    ensures HoldsSize(M.DropMany(c, n), size)
  {
    if n > 0 {
      DropsHoldSize(c, n - 1, size);
    }
  }

  lemma PutHoldsSize(c: M.Cage<Frame>, frame: Frame, time: Stamp, size: nat)
    requires c.Sized() && HoldsSize(c, size) && |frame| == size
    ensures HoldsSize(M.Put(c, frame, time), size)
  {
    if M.Accepts(c, time) {
      var a := M.Anchor(c, time);
      DropsHoldSize(a, M.DropCount(a, time), size);
      M.DropLoopEnds(a, time);
    }
  }

  function Silence(size: nat): (f: Frame)
    ensures |f| == size && forall k :: 0 <= k < size ==> f[k] == 0.0
  {
    seq(size, i => 0.0)
  }

  /** What is mixed in for a peer: the frame its cage returned, or silence. */
  function Heard(frame: Option<Frame>, size: nat): Frame {
    match frame
    case None => Silence(size)
    case Some(f) => f
  }

  /** The mixer gets what each get returned, silence for a missing frame. */
  predicate AllHeard(returned: seq<Option<Frame>>, mixerBuffer: seq<Frame>, size: nat) {
    && |mixerBuffer| == |returned|
    && forall i :: 0 <= i < |returned| ==> mixerBuffer[i] == Heard(returned[i], size) && |mixerBuffer[i]| == size
  }

  lemma HeardNext(returned: seq<Option<Frame>>, mixerBuffer: seq<Frame>, frame: Option<Frame>, size: nat)
    requires AllHeard(returned, mixerBuffer, size) && (frame.Some? ==> |frame.value| == size)
    ensures AllHeard(returned + [frame], mixerBuffer + [Heard(frame, size)], size)
  {
  }

  /** The exact sum of sample k over the peers, a missing frame counting as zero. */
  function HeardSum(frames: seq<Option<Frame>>, k: nat): real
    requires forall i :: 0 <= i < |frames| && frames[i].Some? ==> k < |frames[i].value|
  {
    if frames == [] then 0.0
    else
      var last := frames[|frames| - 1];
      HeardSum(frames[..|frames| - 1], k) + if last.Some? then last.value[k] else 0.0
  }

  lemma {:induction false} HeardIsSum(frames: seq<Option<Frame>>, mixed: seq<Frame>, size: nat, k: nat)
    requires AllHeard(frames, mixed, size) && k < size
    ensures forall i :: 0 <= i < |frames| && frames[i].Some? ==> k < |frames[i].value|
    ensures Sum(mixed, k) == HeardSum(frames, k)
  {
    assert forall i :: 0 <= i < |frames| && frames[i].Some? ==> frames[i].value == mixed[i];
    if frames != [] {
      HeardIsSum(frames[..|frames| - 1], mixed[..|frames| - 1], size, k);
    }
  }

  lemma FittingAll(mixed: seq<Frame>, size: nat)
    requires forall i :: 0 <= i < |mixed| ==> |mixed[i]| == size
    ensures Fitting(mixed, size) == |mixed| && mixed[..Fitting(mixed, size)] == mixed
  {
  }

  lemma MixedIsHeard(returned: seq<Option<Frame>>, mixed: seq<Frame>, output: seq<real>)
    requires AllHeard(returned, mixed, |output|)
    requires forall k :: 0 <= k < |output| ==> output[k] == Sum(mixed, k)
    ensures forall i :: 0 <= i < |returned| && returned[i].Some? ==> |returned[i].value| == |output|
    ensures forall k :: 0 <= k < |output| ==> output[k] == HeardSum(returned, k)
  {
    assert forall i :: 0 <= i < |returned| && returned[i].Some? ==> returned[i].value == mixed[i];
    forall k | 0 <= k < |output|
      ensures output[k] == HeardSum(returned, k)
    {
      HeardIsSum(returned, mixed, |output|, k);
    }
  }

  /** The peers are distinct, each with its own cage and ring. */
  ghost predicate Separate(peers: seq<Peer>) {
    forall i, j :: 0 <= i < j < |peers| ==>
      peers[i] != peers[j] && peers[i].cage != peers[j].cage && peers[i].cage.audioQueue != peers[j].cage.audioQueue
  }

  lemma SeparateWithout(peers: seq<Peer>, at: nat)
    requires Separate(peers) && at < |peers|
    ensures Separate(peers[..at] + peers[at + 1..])
  {
  }

  lemma NotAmong(peer: Peer, peers: seq<Peer>)
    requires Separate([peer] + peers)
    ensures Separate(peers)
    ensures forall i :: 0 <= i < |peers| ==> peers[i] != peer
  {
    var all := [peer] + peers;
    forall i | 0 <= i < |peers|
      ensures peers[i] != peer && all[i + 1] == peers[i]
    {
      assert all[0] != all[i + 1];
    }
    forall i, j | 0 <= i < j < |peers|
      ensures peers[i] != peers[j] && peers[i].cage != peers[j].cage
      ensures peers[i].cage.audioQueue != peers[j].cage.audioQueue
    {
      assert all[i + 1] != all[j + 1];
    }
  }

  /** The i-th peer points to its neighbours. */
  ghost predicate LinkedAt(peers: seq<Peer>, i: nat)
    requires i < |peers|
    reads peers[i]
  {
    && peers[i].prev == (if i == 0 then null else peers[i - 1])
    && peers[i].next == (if i == |peers| - 1 then null else peers[i + 1])
  }

  class PeerList {
    const frameSize: nat
    var peerList: Peer?
    var peerCount: nat
    ghost var list: seq<Peer>
    ghost var cages: set<PC.PacketCage<Frame>>
    ghost var rings: set<array<Option<Frame>>>

    ghost predicate Linked()
      reads this, list
    {
      && peerList == (if list == [] then null else list[0])
      && peerCount == |list|
      && forall i :: 0 <= i < |list| ==> LinkedAt(list, i)
    }

    ghost predicate GoodCage(p: Peer)
      reads p.cage, p.cage.audioQueue
    {
      p.cage.Valid() && HoldsSize(p.cage.View(), frameSize)
    }

    /** The cages of the list and their rings are among those the list may change. */
    ghost predicate Owned()
      reads this, list
    {
      forall i :: 0 <= i < |list| ==> list[i].cage in cages && list[i].cage.audioQueue in rings
    }

    ghost predicate Valid()
      reads this, list, cages, rings
    {
      && Separate(list) && Linked() && Owned()
      && forall i :: 0 <= i < |list| ==> GoodCage(list[i])
    }

    constructor (frameSize: nat)
      ensures Valid() && list == [] && this.frameSize == frameSize
    {
      this.frameSize := frameSize;
      peerList := null;
      peerCount := 0;
      list, cages, rings := [], {}, {};
    }

    /** The pointer updates of `svc_peer_join`. */
    method PushFront(peer: Peer)
      requires Separate([peer] + list) && Linked() && peer.next == peerList && peer.prev == null
      modifies this, list
      ensures Separate(list) && Linked() && list == [peer] + old(list)
      ensures cages == old(cages) && rings == old(rings)
    {
      ghost var was := list;
      NotAmong(peer, list);
      peerCount := peerCount + 1;
      if peerList == null {
        peerList := peer;
      } else {
        peerList.prev := peer;
        peerList := peer;
      }
      list := [peer] + list;
      forall i | 0 <= i < |list|
        ensures LinkedAt(list, i)
      {
        if i > 0 {
          assert old(LinkedAt(was, i - 1));
          assert list[i] == was[i - 1];
        }
      }
    }

    /** A peer with a new cage, in front of the list but not yet linked from it. */
    method NewPeer() returns (peer: Peer)
      requires Valid()
      ensures fresh(peer) && fresh(peer.cage) && fresh(peer.cage.audioQueue)
      ensures peer.next == peerList && peer.prev == null
      ensures GoodCage(peer) && peer.cage.View() == M.Create(CAGE_SIZE)
      ensures Valid() && Separate([peer] + list)
    {
      var cage := new PC.PacketCage<Frame>(CAGE_SIZE);
      peer := new Peer(cage, peerList);
    }

    /** `svc_peer_join` puts the new peer in front. */
    method Join() returns (peer: Peer)
      requires Valid()
      modifies this, list
      ensures Valid() && list == [peer] + old(list)
      ensures fresh(peer) && fresh(peer.cage) && fresh(peer.cage.audioQueue)
      ensures peer.cage.View() == M.Create(5)
    {
      ghost var was := list;
      peer := NewPeer();
      PushFront(peer);
      cages, rings := cages + {peer.cage}, rings + {peer.cage.audioQueue};
      assert forall i :: 0 < i < |list| ==> list[i] == was[i - 1];
      assert Owned();
      forall i | 0 < i < |list|
        ensures GoodCage(list[i])
      {
        assert old(GoodCage(was[i - 1]));
      }
    }

    /** The pointer updates of `svc_peer_leave`. */
    method Unlink(peer: Peer, ghost at: nat)
      requires Separate(list) && Linked() && at < |list| && list[at] == peer
      modifies this, list
      ensures Separate(list) && Linked() && list == old(list)[..at] + old(list)[at + 1..]
      ensures cages == old(cages) && rings == old(rings)
    {
      ghost var was := list;
      assert LinkedAt(list, at);
      SeparateWithout(list, at);
      peerCount := peerCount - 1;
      if peerList == peer {
        peerList := peer.next;
      }
      if peer.prev != null {
        peer.prev.next := peer.next;
      }
      if peer.next != null {
        peer.next.prev := peer.prev;
      }
      list := list[..at] + list[at + 1..];
      forall i | 0 <= i < |list|
        ensures LinkedAt(list, i)
      {
        assert old(LinkedAt(was, if i < at then i else i + 1));
      }
    }

    /** `svc_peer_leave` takes the peer out wherever it is. */
    method Leave(peer: Peer, ghost at: nat)
      requires Valid() && at < |list| && list[at] == peer
      modifies this, list
      ensures Valid() && list == old(list)[..at] + old(list)[at + 1..]
    {
      ghost var was := list;
      Unlink(peer, at);
      forall i | 0 <= i < |list|
        ensures GoodCage(list[i])
      {
        assert old(GoodCage(was[if i < at then i else i + 1]));
      }
    }

    /** `svc_packet_recieve` with the decoded sound. */
    method Receive(peer: Peer, ghost at: nat, sound: Frame, time: Stamp)
      requires Valid() && at < |list| && list[at] == peer && |sound| == frameSize
      modifies peer.cage, peer.cage.audioQueue
      ensures Valid()
      ensures peer.cage.View() == M.Put(old(peer.cage.View()), sound, time)
      ensures forall i :: 0 <= i < |list| && i != at ==> list[i].cage.View() == old(list[i].cage.View())
    {
      PutHoldsSize(peer.cage.View(), sound, time, frameSize);
      peer.cage.PutData(sound, time);
      forall i | 0 <= i < |list| && i != at
        ensures GoodCage(list[i]) && list[i].cage.View() == old(list[i].cage.View())
      {
        assert old(GoodCage(list[i]));
      }
    }

    /** The get on one peer's cage; the other cages are not touched. */
    method TakeFrame(peer: Peer, ghost at: nat) returns (frame: Option<Frame>)
      requires Valid() && at < |list| && list[at] == peer
      modifies peer.cage, peer.cage.audioQueue
      ensures Valid()
      ensures (peer.cage.View(), frame) == M.Get(old(peer.cage.View()))
      ensures frame.Some? ==> |frame.value| == frameSize
      ensures forall i :: 0 <= i < |list| && i != at ==> list[i].cage.View() == old(list[i].cage.View())
    {
      assert old(GoodCage(list[at]));
      frame := peer.cage.GetData();
      forall i | 0 <= i < |list| && i != at
        ensures GoodCage(list[i]) && list[i].cage.View() == old(list[i].cage.View())
      {
        assert old(GoodCage(list[i]));
      }
    }

    /** The first i cages have had one get each since they looked as in `before`, with these
        results, and the others have had none. */
    ghost predicate Collected(i: nat, before: seq<M.Cage<Frame>>, returned: seq<Option<Frame>>)
      requires Valid()
      reads this, list, cages, rings
    {
      && |before| == |list| && i == |returned| <= |list|
      && (forall j :: 0 <= j < |list| ==> before[j].Sized())
      && (forall j :: 0 <= j < i ==> (list[j].cage.View(), returned[j]) == M.Get(before[j]))
      && (forall j :: i <= j < |list| ==> list[j].cage.View() == before[j])
    }

    /** One turn of the traversal. */
    method CollectNext(peer: Peer, ghost i: nat, ghost before: seq<M.Cage<Frame>>, ghost returned: seq<Option<Frame>>)
      returns (frame: Option<Frame>)
      requires Valid() && i < |list| && list[i] == peer && Collected(i, before, returned)
      modifies peer.cage, peer.cage.audioQueue
      ensures Valid() && Collected(i + 1, before, returned + [frame])
      ensures frame.Some? ==> |frame.value| == frameSize
      ensures peer.next == if i + 1 == |list| then null else list[i + 1]
    {
      assert LinkedAt(list, i);
      frame := TakeFrame(peer, i);
    }

    /** The traversal of `svc_request_incoming_audio`: exactly one get on the cage of every
        listed peer, in the order of the list. */
    method CollectFrames() returns (mixerBuffer: seq<Frame>, ghost returned: seq<Option<Frame>>)
      requires Valid() && |list| <= 1000
      modifies cages, rings
      ensures Valid()
      ensures Collected(|list|, old(ViewsOf(list)), returned)
      ensures AllHeard(returned, mixerBuffer, frameSize)
    {
      mixerBuffer, returned := [], [];
      var peer := peerList;
      ghost var i, before := 0, ViewsOf(list);
      while peer != null
        invariant Valid() && Collected(i, before, returned)
        invariant peer == (if i == |list| then null else list[i])
        invariant AllHeard(returned, mixerBuffer, frameSize)
        decreases |list| - i
      {
        var frame := CollectNext(peer, i, before, returned);
        HeardNext(returned, mixerBuffer, frame, frameSize);
        returned := returned + [frame];
        mixerBuffer := mixerBuffer + [Heard(frame, frameSize)];
        peer := peer.next;
        i := i + 1;
      }
    }

    /** `svc_request_incoming_audio`: every listed cage is read once, and every sample is the
        exact sum of what the cages returned. */
    method RequestIncomingAudio(output: array<real>) returns (ghost returned: seq<Option<Frame>>)
      requires Valid() && |list| <= 1000 && output.Length == frameSize
      modifies cages, rings, output
      ensures Valid()
      ensures Collected(|list|, old(ViewsOf(list)), returned)
      ensures forall i :: 0 <= i < |returned| && returned[i].Some? ==> |returned[i].value| == frameSize
      ensures forall k :: 0 <= k < frameSize ==> output[k] == HeardSum(returned, k)
    {
      var mixerBuffer: seq<Frame>;
      mixerBuffer, returned := CollectFrames();
      assert forall r :: r in rings ==> r as object != output;
      MixFrames(mixerBuffer, returned, output);
    }
  }

  /** Mix what was collected. */
  method MixFrames(mixerBuffer: seq<Frame>, ghost returned: seq<Option<Frame>>, output: array<real>)
    requires AllHeard(returned, mixerBuffer, output.Length)
    modifies output
    ensures forall i :: 0 <= i < |returned| && returned[i].Some? ==> |returned[i].value| == output.Length
    ensures forall k :: 0 <= k < output.Length ==> output[k] == HeardSum(returned, k)
  {
    var code := MixAudioStreams(mixerBuffer, output);
    FittingAll(mixerBuffer, output.Length);
    MixedIsHeard(returned, mixerBuffer, output[..]);
  }
}
