/**
 * The server of src/network/svcenet/server/main.c as operations on its dictionaries and
 * its peer table, together with the commands each operation sends.  The class `Server`
 * runs it in place.
 */
module ServerModel {
  import opened Dictionary
  import opened Protocol
  import opened Dstr

  /** Lines 225-234: the first table of peers.  Until it is allocated every lookup fails as
      it does in a table of empty slots. */
  const PEERS_SIZE := 10

  datatype Slot = Empty | Present(pub: Dict, priv: Dict)

  datatype Server = Server(data: Dict, peers: seq<Slot>)

  /** What a script can do to the dictionaries: `serverset` and `peerset`. */
  datatype ScriptOp =
    | ServerSet(key: string, value: string)
    | PeerSet(private: bool, id: int, key: string, value: string)

  /** The script's strings arrive as C strings.  A `peerset` of an absent peer is an error
      and changes nothing. */
  function Execute(s: Server, op: ScriptOp): (r: Server)
    ensures |r.peers| == |s.peers|
    ensures forall i :: 0 <= i < |s.peers| ==> r.peers[i].Present? == s.peers[i].Present?
  {
    match op
    case ServerSet(key, value) => s.(data := Set(s.data, CString(key), CString(value)))
    case PeerSet(private, id, key, value) =>
      if 0 <= id < |s.peers| && s.peers[id].Present? then
        var p := s.peers[id];
        s.(peers := s.peers[id :=
          if private then p.(priv := Set(p.priv, CString(key), CString(value)))
          else p.(pub := Set(p.pub, CString(key), CString(value)))])
      else s
  }

  function ExecuteAll(s: Server, script: seq<ScriptOp>): (r: Server)
    ensures |r.peers| == |s.peers|
    ensures forall i :: 0 <= i < |s.peers| ==> r.peers[i].Present? == s.peers[i].Present?
    decreases |script|
  {
    if script == [] then s else ExecuteAll(Execute(s, script[0]), script[1..])
  }

  /** `serverset` gives one entry of the server's data a new value, which `serverget` reads,
      and changes nothing else. */
  lemma ServerSetStores(s: Server, key: string, value: string)
    ensures var r := Execute(s, ServerSet(key, value));
            && ToMap(r.data) == ToMap(s.data)[CString(key) := CString(value)]
            && Get(r.data, CString(key)) == CString(value)
            && r.peers == s.peers
  {
    SetIsMapUpdate(s.data, CString(key), CString(value));
    GetIsLookup(Set(s.data, CString(key), CString(value)), CString(key));
  }

  /** The dictionary that `peerset` and `peerget` choose. */
  function Data(p: Slot, private: bool): Dict
    requires p.Present?
  {
    if private then p.priv else p.pub
  }

  /** `peerset` does so for the chosen dictionary of a peer that is present; for any other id
      it changes nothing at all. */
  lemma PeerSetStores(s: Server, private: bool, id: int, key: string, value: string)
    ensures var r := Execute(s, PeerSet(private, id, key, value));
            if 0 <= id < |s.peers| && s.peers[id].Present? then
              && r.peers[id].Present?
              && ToMap(Data(r.peers[id], private)) == ToMap(Data(s.peers[id], private))[CString(key) := CString(value)]
              && Get(Data(r.peers[id], private), CString(key)) == CString(value)
              && Data(r.peers[id], !private) == Data(s.peers[id], !private)
              && r.data == s.data
              && forall i :: 0 <= i < |s.peers| && i != id ==> r.peers[i] == s.peers[i]
            else r == s
  {
    if 0 <= id < |s.peers| && s.peers[id].Present? {
      var d := Data(s.peers[id], private);
      SetIsMapUpdate(d, CString(key), CString(value));
      GetIsLookup(Set(d, CString(key), CString(value)), CString(key));
    }
  }

  /** `get_new_peer` takes the first empty slot. */
  function FirstEmpty(peers: seq<Slot>): (id: nat)
    ensures id <= |peers|
    ensures id < |peers| ==> peers[id].Empty?
    ensures forall i :: 0 <= i < id ==> peers[i].Present?
  {
    if peers == [] || peers[0].Empty? then 0 else 1 + FirstEmpty(peers[1..])
  }

  predicate HasRoom(s: Server) {
    FirstEmpty(s.peers) < |s.peers|
  }

  /** There is room exactly while some slot is empty. */
  lemma {:induction false} RoomExactly(peers: seq<Slot>)
    ensures FirstEmpty(peers) < |peers| <==> exists i :: 0 <= i < |peers| && peers[i].Empty?
  {
    if FirstEmpty(peers) < |peers| {
      assert peers[FirstEmpty(peers)].Empty?;
    }
  }

  // ----- what is sent -----

  function ServerCommands(entries: seq<Entry>): (r: seq<Command>)
    ensures |r| == |entries|
    ensures forall i :: 0 <= i < |r| ==> r[i] == Sset(entries[i].key, entries[i].value)
  {
    seq(|entries|, i requires 0 <= i < |entries| => Sset(entries[i].key, entries[i].value))
  }

  function PeerCommands(id: nat, entries: seq<Entry>): (r: seq<Command>)
    ensures |r| == |entries|
    ensures forall i :: 0 <= i < |r| ==> r[i] == Pset(id, entries[i].key, entries[i].value)
  {
    seq(|entries|, i requires 0 <= i < |entries| => Pset(id, entries[i].key, entries[i].value))
  }

  /** One peer in the snapshot (604-631) or in an update (800-824). */
  function SlotCommands(id: nat, slot: Slot, all: bool): seq<Command> {
    match slot
    case Empty => []
    case Present(pub, priv) => (if all then [Padd(id)] else []) + PeerCommands(id, Sent(pub, all))
  }

  function TableCommands(peers: seq<Slot>, from: nat, all: bool): seq<Command>
    requires from <= |peers|
    decreases |peers| - from
  {
    if from == |peers| then []
    else SlotCommands(from, peers[from], all) + TableCommands(peers, from + 1, all)
  }

  function Snapshot(s: Server, id: nat): seq<Command> {
    [Yare(id)] + (ServerCommands(Sent(s.data, true)) + TableCommands(s.peers, 0, true))
  }

  function Update(s: Server): seq<Command> {
    ServerCommands(Sent(s.data, false)) + TableCommands(s.peers, 0, false)
  }

  // ----- the three operations that send -----

  /** An accepted connect: a fresh slot, the script, then the snapshot to the new peer and
      its PADD to the others. */
  function Connect(s: Server, script: seq<ScriptOp>): Server
    requires HasRoom(s)
  {
    ExecuteAll(s.(peers := s.peers[FirstEmpty(s.peers) := Present([], [])]), script)
  }

  /** A disconnect: the script still sees the peer; then its slot is freed. */
  function Disconnect(s: Server, id: nat, script: seq<ScriptOp>): Server
    requires id < |s.peers|
  {
    var r := ExecuteAll(s, script);
    r.(peers := r.peers[id := Empty])
  }

  function FlushSlot(slot: Slot): Slot {
    match slot
    case Empty => Empty
    case Present(pub, priv) => Present(Flushed(pub), priv)
  }

  /** `send_modified_data` clears the flags of what it sent. */
  function Flush(s: Server): Server {
    Server(Flushed(s.data), seq(|s.peers|, i requires 0 <= i < |s.peers| => FlushSlot(s.peers[i])))
  }

  // ----- to whom it is sent -----

  /** A packet handed to the network for the peer in a slot. */
  datatype Packet = Packet(to: nat, text: string)

  /** The same text for every peer that is present but one, slot by slot (645-649, 668-673,
      827-831). */
  function SentTo(peers: seq<Slot>, except: int, text: string, from: nat): seq<Packet>
    requires from <= |peers|
    decreases |peers| - from
  {
    if from == |peers| then []
    else
      (if peers[from].Present? && from != except then [Packet(from, text)] else [])
        + SentTo(peers, except, text, from + 1)
  }

  function ConnectSends(r: Server, id: nat): seq<Packet> {
    [Packet(id, PrintAll(Snapshot(r, id)))] + SentTo(r.peers, id, PrintAll([Padd(id)]), 0)
  }

  function DisconnectSends(r: Server, id: nat): seq<Packet> {
    SentTo(r.peers, id, PrintAll([Pdel(id)]), 0)
  }

  function FlushSends(s: Server): seq<Packet> {
    SentTo(s.peers, -1, PrintAll(Update(s)), 0)
  }

  /** The texts for one peer, in order. */
  function Received(sent: seq<Packet>, id: nat): seq<string> {
    if sent == [] then [] else (if sent[0].to == id then [sent[0].text] else []) + Received(sent[1..], id)
  }

  lemma ReceivedFirst(p: Packet, later: seq<Packet>, id: nat)
    ensures Received([p] + later, id) == (if p.to == id then [p.text] else []) + Received(later, id)
  {
    assert ([p] + later)[1..] == later;
  }

  lemma {:induction false} SentToExactly(peers: seq<Slot>, except: int, text: string, from: nat, id: nat)
    requires from <= |peers|
    ensures Received(SentTo(peers, except, text, from), id)
              == if from <= id < |peers| && peers[id].Present? && id != except then [text] else []
    decreases |peers| - from
  {
    if from < |peers| {
      var later := SentTo(peers, except, text, from + 1);
      SentToExactly(peers, except, text, from + 1, id);
      if peers[from].Present? && from != except {
        ReceivedFirst(Packet(from, text), later, id);
      } else {
        assert [] + later == later;
      }
    }
  }
}
