/**
 * State replication over channel 0: the server and its clients, with one ordered reliable
 * queue of text packets per client, under every interleaving of script commands, accepted
 * connects, disconnects, updates and deliveries.
 */
module Replication {
  import opened Options
  import opened Dstr
  import opened Dictionary
  import opened Protocol
  import opened ClientModel
  import opened ServerModel
  import opened Streams

  /** The connection of one peer: packets under way, the client behind it, and the record of
      all commands sent to it so far. */
  datatype Link = Link(queue: seq<string>, client: Client, sent: seq<Command>)

  const NEW_LINK := Link([], CONNECTED, [])

  /** `links[i]` is the connection of the peer in slot i. */
  datatype System = System(server: Server, links: seq<Link>)

  const START := System(Server([], seq(PEERS_SIZE, i => Empty)), seq(PEERS_SIZE, i => NEW_LINK))

  datatype Action =
    | Script(op: ScriptOp)
    | ConnectPeer(script: seq<ScriptOp>)
    | DisconnectPeer(id: nat, script: seq<ScriptOp>)
    | FlushData
    | Deliver(id: nat)

  predicate IsPresent(s: Server, id: nat) {
    id < |s.peers| && s.peers[id].Present?
  }

  function Send(l: Link, cmds: seq<Command>): Link {
    l.(queue := l.queue + [PrintAll(cmds)], sent := l.sent + cmds)
  }

  /** Send the same commands to every peer that is present, but for one. */
  function Broadcast(s: Server, links: seq<Link>, except: int, cmds: seq<Command>): (r: seq<Link>)
    requires |links| == |s.peers|
    ensures |r| == |links|
    ensures forall i :: 0 <= i < |r| ==>
              r[i] == if i != except && s.peers[i].Present? then Send(links[i], cmds) else links[i]
  {
    seq(|links|, i requires 0 <= i < |links| =>
      if i != except && s.peers[i].Present? then Send(links[i], cmds) else links[i])
  }

  predicate Sized(sys: System) {
    |sys.server.peers| == PEERS_SIZE == |sys.links|
  }

  /** One action; an action that is not possible changes nothing. */
  function Step(sys: System, a: Action): (r: System)
    requires Sized(sys)
    ensures Sized(r)
  {
    var s := sys.server;
    match a
    case Script(op) => sys.(server := Execute(s, op))
    case ConnectPeer(script) =>
      if !HasRoom(s) then sys
      else
        var id, r := FirstEmpty(s.peers), Connect(s, script);
        var links := sys.links[id := Send(NEW_LINK, Snapshot(r, id))];
        System(r, Broadcast(r, links, id, [Padd(id)]))
    case DisconnectPeer(id, script) =>
      if !IsPresent(s, id) then sys
      else
        var r := Disconnect(s, id, script);
        System(r, Broadcast(r, sys.links, id, [Pdel(id)]))
    case FlushData =>
      System(Flush(s), Broadcast(s, sys.links, -1, Update(s)))
    case Deliver(id) =>
      if !IsPresent(s, id) || sys.links[id].queue == [] then sys
      else
        var l := sys.links[id];
        sys.(links := sys.links[id := l.(queue := l.queue[1..], client := HandlePacket(l.client, l.queue[0]))])
  }

  function Run(sys: System, actions: seq<Action>): (r: System)
    requires Sized(sys)
    ensures Sized(r)
    decreases |actions|
  {
    if actions == [] then sys else Run(Step(sys, actions[0]), actions[1..])
  }

  // ----- the invariant -----

  ghost predicate WellFormedSlot(slot: Slot) {
    slot.Present? ==> UniqueKeys(slot.pub) && CKeys(slot.pub) && UniqueKeys(slot.priv)
  }

  ghost predicate WellFormedServer(s: Server) {
    && |s.peers| == PEERS_SIZE
    && UniqueKeys(s.data) && CKeys(s.data)
    && forall i :: 0 <= i < |s.peers| ==> WellFormedSlot(s.peers[i])
  }

  /** The client holds an agreeing copy of the public data of slot i. */
  ghost predicate Knows(f: Client, slot: Slot, i: nat) {
    slot.Present? ==> i < |f.peers| && f.peers[i].Added? && Agrees(f.peers[i].data, slot.pub)
  }

  /** What the client of slot `id` will know once its queue is drained. */
  ghost predicate InStep(s: Server, id: nat, f: Client) {
    && !f.broken
    && f.myId == id
    && Agrees(f.serverInfo, s.data)
    && forall i :: 0 <= i < |s.peers| ==> Knows(f, s.peers[i], i)
  }

  function PresentIds(s: Server): set<nat> {
    set i: nat | i < |s.peers| && s.peers[i].Present?
  }

  function Drained(l: Link): Client {
    HandlePackets(l.client, l.queue)
  }

  ghost predicate LinkInvariant(s: Server, id: nat, l: Link) {
    && InStep(s, id, Drained(l))
    && TrackAll(Waiting, l.sent) == Open(PresentIds(s))
  }

  ghost predicate Invariant(sys: System) {
    && Sized(sys)
    && WellFormedServer(sys.server)
    && forall id :: 0 <= id < PEERS_SIZE && sys.server.peers[id].Present? ==>
         LinkInvariant(sys.server, id, sys.links[id])
  }

  // ----- script commands -----

  lemma ExecuteKeepsServer(s: Server, op: ScriptOp)
    requires WellFormedServer(s)
    ensures WellFormedServer(Execute(s, op))
    ensures PresentIds(Execute(s, op)) == PresentIds(s)
  {
    match op
    case ServerSet(key, value) => SetNodes(s.data, CString(key), CString(value));
    case PeerSet(private, id, key, value) =>
      if 0 <= id < |s.peers| && s.peers[id].Present? {
        SetNodes(s.peers[id].pub, CString(key), CString(value));
        SetNodes(s.peers[id].priv, CString(key), CString(value));
      }
  }

  lemma ExecuteInStep(s: Server, op: ScriptOp, id: nat, f: Client)
    requires WellFormedServer(s) && InStep(s, id, f)
    ensures InStep(Execute(s, op), id, f)
  {
    match op
    case ServerSet(key, value) => SetAgrees(f.serverInfo, s.data, CString(key), CString(value));
    case PeerSet(private, i, key, value) =>
      if 0 <= i < |s.peers| && s.peers[i].Present? {
        assert Knows(f, s.peers[i], i);
        SetAgrees(f.peers[i].data, s.peers[i].pub, CString(key), CString(value));
      }
  }

  lemma {:induction false} ScriptKeeps(s: Server, script: seq<ScriptOp>)
    requires WellFormedServer(s)
    ensures WellFormedServer(ExecuteAll(s, script))
    ensures PresentIds(ExecuteAll(s, script)) == PresentIds(s)
    decreases |script|
  {
    if script != [] {
      ExecuteKeepsServer(s, script[0]);
      ScriptKeeps(Execute(s, script[0]), script[1..]);
    }
  }

  lemma {:induction false} ScriptInStep(s: Server, script: seq<ScriptOp>, id: nat, f: Client)
    requires WellFormedServer(s) && InStep(s, id, f)
    ensures InStep(ExecuteAll(s, script), id, f)
    decreases |script|
  {
    if script != [] {
      ExecuteKeepsServer(s, script[0]);
      ExecuteInStep(s, script[0], id, f);
      ScriptInStep(Execute(s, script[0]), script[1..], id, f);
    }
  }

  // ----- handling what is sent -----

  lemma {:induction false} ServerCommandsHandled(f: Client, entries: seq<Entry>)
    requires !f.broken
    ensures HandleAll(f, ServerCommands(entries)) == f.(serverInfo := Dictionary.Receive(f.serverInfo, entries))
    decreases |entries|
  {
    if entries != [] {
      var e := entries[0];
      assert ServerCommands(entries)[1..] == ServerCommands(entries[1..]);
      ServerCommandsHandled(f.(serverInfo := f.serverInfo[e.key := e.value]), entries[1..]);
    }
  }

  lemma {:induction false} PeerCommandsHandled(f: Client, id: nat, entries: seq<Entry>)
    requires !f.broken && id < |f.peers| && f.peers[id].Added?
    ensures HandleAll(f, PeerCommands(id, entries)) ==
              f.(peers := f.peers[id := Added(Dictionary.Receive(f.peers[id].data, entries))])
    decreases |entries|
  {
    if entries != [] {
      var e := entries[0];
      assert PeerCommands(id, entries)[1..] == PeerCommands(id, entries[1..]);
      var g := f.(peers := f.peers[id := Added(f.peers[id].data[e.key := e.value])]);
      PeerCommandsHandled(g, id, entries[1..]);
      assert f.peers[id := g.peers[id]][id := Added(Dictionary.Receive(g.peers[id].data, entries[1..]))]
          == f.peers[id := Added(Dictionary.Receive(g.peers[id].data, entries[1..]))];
    } else {
      assert f.peers[id := f.peers[id]] == f.peers;
    }
  }

  /** Nothing but the entry of slot `id` changed, and that is now an exact copy. */
  ghost predicate Copied(f: Client, r: Client, id: nat, pub: Dict) {
    && !r.broken && r.myId == f.myId && r.serverInfo == f.serverInfo
    && |f.peers| <= |r.peers|
    && id < |r.peers| && r.peers[id] == Added(ToMap(pub))
    && forall i :: 0 <= i < |f.peers| && i != id ==> r.peers[i] == f.peers[i]
  }

  lemma SlotHandled(f: Client, id: nat, slot: Slot, all: bool)
    requires !f.broken && id < PEERS_SIZE && slot.Present? && UniqueKeys(slot.pub)
    requires !all ==> Knows(f, slot, id)
    ensures Copied(f, HandleAll(f, SlotCommands(id, slot, all)), id, slot.pub)
  {
    if all {
      var g := Handle(f, Padd(id));
      assert HandleAll(f, [Padd(id)]) == HandleAll(g, [Padd(id)][1..]) == g;
      HandleAllConcat(f, [Padd(id)], PeerCommands(id, Sent(slot.pub, true)));
      PeerCommandsHandled(g, id, Sent(slot.pub, true));
      ReceiveSnapshot(slot.pub);
    } else {
      assert [] + PeerCommands(id, Sent(slot.pub, false)) == PeerCommands(id, Sent(slot.pub, false));
      PeerCommandsHandled(f, id, Sent(slot.pub, false));
      ReceiveUpdate(f.peers[id].data, slot.pub);
    }
  }

  /** Every slot from `from` on is copied, the ones before are as they were. */
  ghost predicate CopiedFrom(f: Client, r: Client, peers: seq<Slot>, from: nat) {
    && !r.broken && r.myId == f.myId && r.serverInfo == f.serverInfo
    && |f.peers| <= |r.peers|
    && (forall i :: from <= i < |peers| && peers[i].Present? ==>
          i < |r.peers| && r.peers[i] == Added(ToMap(peers[i].pub)))
    && (forall i :: 0 <= i < from && i < |f.peers| ==> r.peers[i] == f.peers[i])
  }

  lemma CopiedThenRest(f: Client, g: Client, r: Client, peers: seq<Slot>, from: nat)
    requires from < |peers|
    requires if peers[from].Present? then Copied(f, g, from, peers[from].pub) else g == f
    requires CopiedFrom(g, r, peers, from + 1)
    ensures CopiedFrom(f, r, peers, from)
  {
  }

  lemma KnowsAfterCopy(f: Client, g: Client, peers: seq<Slot>, from: nat)
    requires from < |peers|
    requires if peers[from].Present? then Copied(f, g, from, peers[from].pub) else g == f
    requires forall i :: from < i < |peers| ==> Knows(f, peers[i], i)
    ensures forall i :: from < i < |peers| ==> Knows(g, peers[i], i)
  {
  }

  lemma TableCut(f: Client, peers: seq<Slot>, from: nat, all: bool)
    requires from < |peers|
    ensures Same(HandleAll(f, TableCommands(peers, from, all)),
                 HandleAll(HandleAll(f, SlotCommands(from, peers[from], all)), TableCommands(peers, from + 1, all)))
    ensures peers[from].Empty? ==> HandleAll(f, SlotCommands(from, peers[from], all)) == f
  {
    HandleAllConcat(f, SlotCommands(from, peers[from], all), TableCommands(peers, from + 1, all));
  }

  lemma {:induction false} TableHandled(f: Client, peers: seq<Slot>, from: nat, all: bool)
    requires !f.broken && from <= |peers| <= PEERS_SIZE
    requires forall i :: from <= i < |peers| ==> WellFormedSlot(peers[i]) && (!all ==> Knows(f, peers[i], i))
    ensures CopiedFrom(f, HandleAll(f, TableCommands(peers, from, all)), peers, from)
    decreases |peers| - from
  {
    if from < |peers| {
      var g := HandleAll(f, SlotCommands(from, peers[from], all));
      TableCut(f, peers, from, all);
      if peers[from].Present? {
        SlotHandled(f, from, peers[from], all);
      }
      if !all {
        KnowsAfterCopy(f, g, peers, from);
      }
      TableHandled(g, peers, from + 1, all);
      CopiedThenRest(f, g, HandleAll(g, TableCommands(peers, from + 1, all)), peers, from);
    }
  }

  // ----- what is sent survives the wire -----

  predicate AllSendable(cmds: seq<Command>) {
    forall i :: 0 <= i < |cmds| ==> Sendable(cmds[i])
  }

  lemma {:induction false} SentKeys(d: Dict, all: bool)
    requires CKeys(d)
    ensures forall i :: 0 <= i < |Sent(d, all)| ==> '\0' !in Sent(d, all)[i].key
  {
    if d != [] {
      SentKeys(d[1..], all);
    }
  }

  lemma SlotSendable(id: nat, slot: Slot, all: bool)
    requires id < PEERS_SIZE && WellFormedSlot(slot)
    ensures AllSendable(SlotCommands(id, slot, all))
  {
    if slot.Present? {
      SentKeys(slot.pub, all);
      SendableConcat(if all then [Padd(id)] else [], PeerCommands(id, Sent(slot.pub, all)));
    }
  }

  lemma SendableConcat(a: seq<Command>, b: seq<Command>)
    requires AllSendable(a) && AllSendable(b)
    ensures AllSendable(a + b)
  {
  }

  lemma {:induction false} TableSendable(peers: seq<Slot>, from: nat, all: bool)
    requires from <= |peers| <= PEERS_SIZE
    requires forall i :: 0 <= i < |peers| ==> WellFormedSlot(peers[i])
    ensures AllSendable(TableCommands(peers, from, all))
    decreases |peers| - from
  {
    if from < |peers| {
      TableSendable(peers, from + 1, all);
      SlotSendable(from, peers[from], all);
      SendableConcat(SlotCommands(from, peers[from], all), TableCommands(peers, from + 1, all));
    }
  }

  lemma SnapshotSendable(s: Server, id: nat)
    requires WellFormedServer(s) && id < PEERS_SIZE
    ensures AllSendable(Snapshot(s, id))
  {
    var entries, table := ServerCommands(Sent(s.data, true)), TableCommands(s.peers, 0, true);
    SentKeys(s.data, true);
    TableSendable(s.peers, 0, true);
    SendableConcat(entries, table);
    SendableConcat([Yare(id)], entries + table);
  }

  lemma UpdateSendable(s: Server)
    requires WellFormedServer(s)
    ensures AllSendable(Update(s))
  {
    SentKeys(s.data, false);
    TableSendable(s.peers, 0, false);
    SendableConcat(ServerCommands(Sent(s.data, false)), TableCommands(s.peers, 0, false));
  }

  /** Sending puts the commands behind everything the client has yet to handle. */
  lemma SentIsHandled(l: Link, cmds: seq<Command>)
    requires AllSendable(cmds)
    ensures Drained(Send(l, cmds)) == HandleAll(Drained(l), cmds)
  {
    HandlePacketsAppend(l.client, l.queue, PrintAll(cmds));
    ReceiveInvertsPrint(cmds);
  }

  /** A PDEL is sent but changes nothing the client knows. */
  lemma PdelIsLost(l: Link, id: nat)
    ensures Drained(Send(l, [Pdel(id)])) == Drained(l)
  {
    HandlePacketsAppend(l.client, l.queue, PrintAll([Pdel(id)]));
    PdelIsNeverHandled(id);
  }

  // ----- what is sent keeps the stream well-formed -----

  lemma {:induction false} ServerCommandsTracked(ids: set<nat>, entries: seq<Entry>)
    ensures TrackAll(Open(ids), ServerCommands(entries)) == Open(ids)
    decreases |entries|
  {
    if entries != [] {
      assert ServerCommands(entries)[1..] == ServerCommands(entries[1..]);
      ServerCommandsTracked(ids, entries[1..]);
    }
  }

  lemma {:induction false} PeerCommandsTracked(ids: set<nat>, id: nat, entries: seq<Entry>)
    requires id in ids
    ensures TrackAll(Open(ids), PeerCommands(id, entries)) == Open(ids)
    decreases |entries|
  {
    if entries != [] {
      assert PeerCommands(id, entries)[1..] == PeerCommands(id, entries[1..]);
      PeerCommandsTracked(ids, id, entries[1..]);
    }
  }

  /** The present slots below `to`. */
  function PresentBelow(peers: seq<Slot>, to: nat): set<nat>
    requires to <= |peers|
  {
    set i: nat | i < to && peers[i].Present?
  }

  lemma TrackOne(t: Tracker, c: Command)
    ensures TrackAll(t, [c]) == Track(t, c)
  {
  }

  lemma {:induction false} TableTracked(peers: seq<Slot>, from: nat, all: bool, ids: set<nat>)
    requires from <= |peers|
    requires ids == PresentBelow(peers, if all then from else |peers|)
    ensures TrackAll(Open(ids), TableCommands(peers, from, all)) == Open(PresentBelow(peers, |peers|))
    decreases |peers| - from
  {
    if from < |peers| {
      var here, later := SlotCommands(from, peers[from], all), TableCommands(peers, from + 1, all);
      TrackConcat(Open(ids), here, later);
      var ids' := PresentBelow(peers, if all then from + 1 else |peers|);
      match peers[from]
      case Empty =>
        assert ids' == ids;
        TableTracked(peers, from + 1, all, ids');
      case Present(pub, priv) =>
        assert ids' == ids + {from};
        TrackConcat(Open(ids), if all then [Padd(from)] else [], PeerCommands(from, Sent(pub, all)));
        TrackOne(Open(ids), Padd(from));
        PeerCommandsTracked(ids', from, Sent(pub, all));
        TableTracked(peers, from + 1, all, ids');
    }
  }

  lemma SnapshotTracked(s: Server, id: nat)
    ensures TrackAll(Waiting, Snapshot(s, id)) == Open(PresentIds(s))
  {
    var entries := ServerCommands(Sent(s.data, true));
    TrackConcat(Waiting, [Yare(id)], entries + TableCommands(s.peers, 0, true));
    TrackOne(Waiting, Yare(id));
    TrackConcat(Open({}), entries, TableCommands(s.peers, 0, true));
    ServerCommandsTracked({}, Sent(s.data, true));
    TableTracked(s.peers, 0, true, {});
    assert PresentBelow(s.peers, |s.peers|) == PresentIds(s);
  }

  lemma UpdateTracked(s: Server)
    ensures TrackAll(Open(PresentIds(s)), Update(s)) == Open(PresentIds(s))
  {
    var ids := PresentIds(s);
    TrackConcat(Open(ids), ServerCommands(Sent(s.data, false)), TableCommands(s.peers, 0, false));
    ServerCommandsTracked(ids, Sent(s.data, false));
    assert PresentBelow(s.peers, |s.peers|) == ids;
    TableTracked(s.peers, 0, false, ids);
  }

  // ----- every action keeps the invariant -----

  lemma SnapshotInStep(s: Server, id: nat)
    requires WellFormedServer(s) && id < PEERS_SIZE
    ensures InStep(s, id, HandleAll(CONNECTED, Snapshot(s, id)))
  {
    var entries := Sent(s.data, true);
    var f0 := CONNECTED.(myId := id);
    HandleAllConcat(CONNECTED, [Yare(id)], ServerCommands(entries) + TableCommands(s.peers, 0, true));
    assert HandleAll(CONNECTED, [Yare(id)]) == HandleAll(f0, [Yare(id)][1..]) == f0;
    HandleAllConcat(f0, ServerCommands(entries), TableCommands(s.peers, 0, true));
    ServerCommandsHandled(f0, entries);
    ReceiveSnapshot(s.data);
    var f1 := f0.(serverInfo := ToMap(s.data));
    TableHandled(f1, s.peers, 0, true);
    ExactAgrees(s.data);
    forall i | 0 <= i < |s.peers| && s.peers[i].Present?
      ensures Agrees(ToMap(s.peers[i].pub), s.peers[i].pub)
    {
      assert WellFormedSlot(s.peers[i]);
      ExactAgrees(s.peers[i].pub);
    }
  }

  /** The client's copies are the server's dictionaries. */
  ghost predicate UpToDate(s: Server, f: Client) {
    && f.serverInfo == ToMap(s.data)
    && forall i :: 0 <= i < |s.peers| && s.peers[i].Present? ==>
         i < |f.peers| && f.peers[i] == Added(ToMap(s.peers[i].pub))
  }

  lemma UpdateHandled(s: Server, id: nat, f: Client)
    requires WellFormedServer(s) && InStep(s, id, f)
    ensures var r := HandleAll(f, Update(s));
            UpToDate(s, r) && UpToDate(Flush(s), r) && !r.broken && r.myId == id
  {
    var entries := Sent(s.data, false);
    HandleAllConcat(f, ServerCommands(entries), TableCommands(s.peers, 0, false));
    ServerCommandsHandled(f, entries);
    ReceiveUpdate(f.serverInfo, s.data);
    var f1 := f.(serverInfo := ToMap(s.data));
    forall i | 0 <= i < |s.peers|
      ensures Knows(f1, s.peers[i], i)
    {
      assert Knows(f, s.peers[i], i);
    }
    TableHandled(f1, s.peers, 0, false);
    FlushedToMap(s.data);
    forall i | 0 <= i < |s.peers| && s.peers[i].Present?
      ensures ToMap(Flush(s).peers[i].pub) == ToMap(s.peers[i].pub)
    {
      FlushedToMap(s.peers[i].pub);
    }
  }

  lemma UpToDateInStep(s: Server, id: nat, f: Client)
    requires WellFormedServer(s) && UpToDate(s, f) && !f.broken && f.myId == id
    ensures InStep(s, id, f)
  {
    ExactAgrees(s.data);
    forall i | 0 <= i < |s.peers|
      ensures Knows(f, s.peers[i], i)
    {
      assert WellFormedSlot(s.peers[i]);
      if s.peers[i].Present? {
        ExactAgrees(s.peers[i].pub);
      }
    }
  }

  lemma FlushKeepsServer(s: Server)
    requires WellFormedServer(s)
    ensures WellFormedServer(Flush(s))
    ensures PresentIds(Flush(s)) == PresentIds(s)
  {
  }

  lemma FlushKeeps(sys: System)
    requires Invariant(sys)
    ensures Invariant(Step(sys, FlushData))
  {
    var s := sys.server;
    FlushKeepsServer(s);
    UpdateSendable(s);
    forall id | 0 <= id < PEERS_SIZE && s.peers[id].Present?
      ensures LinkInvariant(Flush(s), id, Send(sys.links[id], Update(s)))
    {
      var l := sys.links[id];
      SentIsHandled(l, Update(s));
      UpdateHandled(s, id, Drained(l));
      UpToDateInStep(Flush(s), id, HandleAll(Drained(l), Update(s)));
      TrackConcat(Waiting, l.sent, Update(s));
      UpdateTracked(s);
    }
  }

  lemma ScriptKeepsInvariant(sys: System, op: ScriptOp)
    requires Invariant(sys)
    ensures Invariant(Step(sys, Script(op)))
  {
    ExecuteKeepsServer(sys.server, op);
    forall id | 0 <= id < PEERS_SIZE && sys.server.peers[id].Present?
      ensures LinkInvariant(Execute(sys.server, op), id, sys.links[id])
    {
      ExecuteInStep(sys.server, op, id, Drained(sys.links[id]));
    }
  }

  lemma DeliverKeeps(sys: System, id: nat)
    requires Invariant(sys)
    ensures Invariant(Step(sys, Deliver(id)))
  {
  }

  lemma DisconnectKeepsOthers(sys: System, id: nat, script: seq<ScriptOp>, i: nat)
    requires Invariant(sys) && IsPresent(sys.server, id)
    requires i < PEERS_SIZE && i != id && sys.server.peers[i].Present?
    ensures LinkInvariant(Disconnect(sys.server, id, script), i, Send(sys.links[i], [Pdel(id)]))
  {
    var s, e, r := sys.server, ExecuteAll(sys.server, script), Disconnect(sys.server, id, script);
    var l := sys.links[i];
    ScriptKeeps(s, script);
    ScriptInStep(s, script, i, Drained(l));
    PdelIsLost(l, id);
    forall k | 0 <= k < |r.peers|
      ensures Knows(Drained(l), r.peers[k], k)
    {
      assert Knows(Drained(l), e.peers[k], k);
    }
    assert PresentIds(r) == PresentIds(e) - {id};
    TrackConcat(Waiting, l.sent, [Pdel(id)]);
    TrackOne(Open(PresentIds(e)), Pdel(id));
  }

  lemma DisconnectKeeps(sys: System, id: nat, script: seq<ScriptOp>)
    requires Invariant(sys) && IsPresent(sys.server, id)
    ensures Invariant(Step(sys, DisconnectPeer(id, script)))
  {
    var e, r := ExecuteAll(sys.server, script), Disconnect(sys.server, id, script);
    ScriptKeeps(sys.server, script);
    forall i | 0 <= i < |r.peers|
      ensures WellFormedSlot(r.peers[i])
    {
      assert WellFormedSlot(e.peers[i]);
    }
    forall i | 0 <= i < PEERS_SIZE && r.peers[i].Present?
      ensures LinkInvariant(r, i, Send(sys.links[i], [Pdel(id)]))
    {
      DisconnectKeepsOthers(sys, id, script, i);
    }
  }

  /** A client that is told of a new peer holds an empty copy of its data, all of which is
      still dirty. */
  lemma PaddInStep(s: Server, id: nat, added: nat, f: Client)
    requires WellFormedServer(s) && InStep(s, id, f) && added < PEERS_SIZE && s.peers[added].Empty?
    ensures InStep(s.(peers := s.peers[added := Present([], [])]), id, HandleAll(f, [Padd(added)]))
  {
    var r, g := s.(peers := s.peers[added := Present([], [])]), Handle(f, Padd(added));
    assert HandleAll(f, [Padd(added)]) == HandleAll(g, [Padd(added)][1..]) == g;
    forall i | 0 <= i < |r.peers|
      ensures Knows(g, r.peers[i], i)
    {
      assert i != added ==> Knows(f, s.peers[i], i);
    }
  }

  lemma ConnectKeepsOthers(sys: System, script: seq<ScriptOp>, i: nat)
    requires Invariant(sys) && HasRoom(sys.server) && i < PEERS_SIZE && sys.server.peers[i].Present?
    ensures LinkInvariant(Connect(sys.server, script), i, Send(sys.links[i], [Padd(FirstEmpty(sys.server.peers))]))
  {
    var s, added, l := sys.server, FirstEmpty(sys.server.peers), sys.links[i];
    var s1 := s.(peers := s.peers[added := Present([], [])]);
    var f := HandleAll(Drained(l), [Padd(added)]);
    PaddInStep(s, i, added, Drained(l));
    NewSlotKeepsServer(s, added);
    ScriptInStep(s1, script, i, f);
    ScriptKeeps(s1, script);
    SentIsHandled(l, [Padd(added)]);
    TrackConcat(Waiting, l.sent, [Padd(added)]);
    TrackOne(Open(PresentIds(s)), Padd(added));
  }

  lemma NewSlotKeepsServer(s: Server, added: nat)
    requires WellFormedServer(s) && added < PEERS_SIZE
    ensures var s1 := s.(peers := s.peers[added := Present([], [])]);
            WellFormedServer(s1) && PresentIds(s1) == PresentIds(s) + {added}
  {
  }

  lemma NewLinkKeeps(r: Server, added: nat)
    requires WellFormedServer(r) && added < PEERS_SIZE
    ensures LinkInvariant(r, added, Send(NEW_LINK, Snapshot(r, added)))
  {
    SnapshotSendable(r, added);
    SentIsHandled(NEW_LINK, Snapshot(r, added));
    SnapshotInStep(r, added);
    assert [] + Snapshot(r, added) == Snapshot(r, added);
    SnapshotTracked(r, added);
  }

  lemma ConnectKeeps(sys: System, script: seq<ScriptOp>)
    requires Invariant(sys) && HasRoom(sys.server)
    ensures Invariant(Step(sys, ConnectPeer(script)))
  {
    var s, added, r := sys.server, FirstEmpty(sys.server.peers), Connect(sys.server, script);
    NewSlotKeepsServer(s, added);
    ScriptKeeps(s.(peers := s.peers[added := Present([], [])]), script);
    NewLinkKeeps(r, added);
    forall i | 0 <= i < PEERS_SIZE && i != added && r.peers[i].Present?
      ensures LinkInvariant(r, i, Send(sys.links[i], [Padd(added)]))
    {
      ConnectKeepsOthers(sys, script, i);
    }
  }

  /** Replication invariant: every action keeps it. */
  lemma StepKeeps(sys: System, a: Action)
    requires Invariant(sys)
    ensures Invariant(Step(sys, a))
  {
    match a
    case Script(op) => ScriptKeepsInvariant(sys, op);
    case ConnectPeer(script) => if HasRoom(sys.server) { ConnectKeeps(sys, script); }
    case DisconnectPeer(id, script) => if IsPresent(sys.server, id) { DisconnectKeeps(sys, id, script); }
    case FlushData => FlushKeeps(sys);
    case Deliver(id) => DeliverKeeps(sys, id);
  }

  lemma {:induction false} RunKeeps(sys: System, actions: seq<Action>)
    requires Invariant(sys)
    ensures Invariant(Run(sys, actions))
    decreases |actions|
  {
    if actions != [] {
      StepKeeps(sys, actions[0]);
      RunKeeps(Step(sys, actions[0]), actions[1..]);
    }
  }

  /** It holds in every reachable state. */
  lemma EveryRun(actions: seq<Action>)
    ensures Invariant(Run(START, actions)) && |Run(START, actions).server.peers| == 10
    ensures START.server.data == [] && forall i :: 0 <= i < 10 ==> START.server.peers[i].Empty?
  {
    RunKeeps(START, actions);
  }

  // ----- what it means -----

  /** What the server's handlers send in an action, and to whom. */
  function Sends(sys: System, a: Action): seq<Packet>
    requires Sized(sys)
  {
    var s, r := sys.server, Step(sys, a).server;
    match a
    case Script(_) => []
    case ConnectPeer(_) => if HasRoom(s) then ConnectSends(r, FirstEmpty(s.peers)) else []
    case DisconnectPeer(id, _) => if IsPresent(s, id) then DisconnectSends(r, id) else []
    case FlushData => FlushSends(s)
    case Deliver(_) => []
  }

  /** The queues get what the handlers send, each peer its own packets in order; a new peer
      starts with an empty queue. */
  lemma StepSends(sys: System, a: Action, id: nat)
    requires Sized(sys) && id < PEERS_SIZE && !a.Deliver?
    ensures var isNew := a.ConnectPeer? && HasRoom(sys.server) && id == FirstEmpty(sys.server.peers);
            Step(sys, a).links[id].queue == (if isNew then [] else sys.links[id].queue) + Received(Sends(sys, a), id)
  {
    var s, r, before := sys.server, Step(sys, a).server, sys.links[id].queue;
    assert before + [] == before;
    match a
    case Script(_) =>
    case FlushData => SentToExactly(s.peers, -1, PrintAll(Update(s)), 0, id);
    case DisconnectPeer(who, _) => SentToExactly(r.peers, who, PrintAll([Pdel(who)]), 0, id);
    case ConnectPeer(_) =>
      if HasRoom(s) {
        var added := FirstEmpty(s.peers);
        SentToExactly(r.peers, added, PrintAll([Padd(added)]), 0, id);
        var hello := SentTo(r.peers, added, PrintAll([Padd(added)]), 0);
        ReceivedFirst(Packet(added, PrintAll(Snapshot(r, added))), hello, id);
      }
  }

  /** The texts in a row. */
  function Joined(texts: seq<string>): string {
    if texts == [] then "" else texts[0] + Joined(texts[1..])
  }

  lemma RecordOne(cmds: seq<Command>, more: seq<Command>)
    ensures Same(PrintAll(cmds + more), PrintAll(cmds) + Joined([PrintAll(more)]))
    ensures Same(PrintAll(cmds), PrintAll(cmds) + Joined([]))
  {
    PrintAllConcat(cmds, more);
    assert Joined([PrintAll(more)]) == PrintAll(more) + Joined([PrintAll(more)][1..]) == PrintAll(more);
    assert PrintAll(cmds) + "" == PrintAll(cmds);
  }

  lemma ConnectReceived(r: Server, added: nat, id: nat)
    requires added < |r.peers|
    ensures Received(ConnectSends(r, added), id) ==
              if id == added then [PrintAll(Snapshot(r, added))]
              else if id < |r.peers| && r.peers[id].Present? then [PrintAll([Padd(added)])] else []
  {
    var hello := SentTo(r.peers, added, PrintAll([Padd(added)]), 0);
    SentToExactly(r.peers, added, PrintAll([Padd(added)]), 0, id);
    ReceivedFirst(Packet(added, PrintAll(Snapshot(r, added))), hello, id);
  }

  lemma ConnectRecords(l: Link, r: Server, added: nat, id: nat)
    requires added < |r.peers|
    ensures id == added ==>
              Same(PrintAll(Send(NEW_LINK, Snapshot(r, added)).sent), "" + Joined(Received(ConnectSends(r, added), id)))
    ensures id != added ==>
              Same(PrintAll((if id < |r.peers| && r.peers[id].Present? then Send(l, [Padd(added)]) else l).sent),
                   PrintAll(l.sent) + Joined(Received(ConnectSends(r, added), id)))
  {
    ConnectReceived(r, added, id);
    RecordOne(l.sent, [Padd(added)]);
    RecordOne([], Snapshot(r, added));
    assert [] + Snapshot(r, added) == Snapshot(r, added);
  }

  /** The record of what was sent to a peer since its connect is the text of its packets. */
  lemma StepRecords(sys: System, a: Action, id: nat)
    requires Sized(sys) && id < PEERS_SIZE
    ensures var isNew := a.ConnectPeer? && HasRoom(sys.server) && id == FirstEmpty(sys.server.peers);
            Same(PrintAll(Step(sys, a).links[id].sent),
                 (if isNew then "" else PrintAll(sys.links[id].sent)) + Joined(Received(Sends(sys, a), id)))
  {
    var s, r, before := sys.server, Step(sys, a).server, sys.links[id].sent;
    RecordOne(before, []);
    match a
    case Script(_) =>
    case Deliver(_) =>
    case FlushData =>
      SentToExactly(s.peers, -1, PrintAll(Update(s)), 0, id);
      RecordOne(before, Update(s));
    case DisconnectPeer(who, _) =>
      SentToExactly(r.peers, who, PrintAll([Pdel(who)]), 0, id);
      RecordOne(before, [Pdel(who)]);
    case ConnectPeer(_) =>
      if HasRoom(s) {
        ConnectRecords(sys.links[id], r, FirstEmpty(s.peers), id);
      }
  }

  /** A delivery hands the client of that peer its oldest packet and touches nothing else; no other
      action touches a client, but for the new client of a connect; and what is not possible
      changes nothing. */
  lemma StepClients(sys: System, a: Action, id: nat)
    requires Sized(sys) && id < PEERS_SIZE
    ensures !a.Deliver? ==>
              Step(sys, a).links[id].client ==
                if a.ConnectPeer? && HasRoom(sys.server) && id == FirstEmpty(sys.server.peers)
                then ClientModel.Client(0xFFFF_FFFF, map[], [], false) else sys.links[id].client
    ensures a.Deliver? ==> Step(sys, a).server == sys.server
    ensures a.Deliver? && (id != a.id || !IsPresent(sys.server, id) || sys.links[id].queue == []) ==>
              Step(sys, a).links[id] == sys.links[id]
    ensures a == Deliver(id) && IsPresent(sys.server, id) && sys.links[id].queue != [] ==>
              var l, l' := sys.links[id], Step(sys, a).links[id];
              [l.queue[0]] + l'.queue == l.queue && l'.client == HandlePacket(l.client, l.queue[0])
    ensures (a.ConnectPeer? && !HasRoom(sys.server)) || (a.DisconnectPeer? && !IsPresent(sys.server, a.id)) ==>
              Step(sys, a) == sys
  {
  }

  // ----- what a snapshot and an update consist of -----

  lemma {:induction false} ServerPart(entries: seq<Entry>, id: nat)
    ensures About(ServerCommands(entries), id) == []
    ensures AboutServer(ServerCommands(entries)) == ServerCommands(entries)
    decreases |entries|
  {
    if entries != [] {
      var cs := ServerCommands(entries);
      assert cs[1..] == ServerCommands(entries[1..]);
      ServerPart(entries[1..], id);
      assert [cs[0]] + cs[1..] == cs;
    }
  }

  lemma {:induction false} PeerPart(who: nat, entries: seq<Entry>, id: nat)
    ensures About(PeerCommands(who, entries), id) == if who == id then PeerCommands(who, entries) else []
    ensures AboutServer(PeerCommands(who, entries)) == []
    decreases |entries|
  {
    if entries != [] {
      var cs := PeerCommands(who, entries);
      assert cs[1..] == PeerCommands(who, entries[1..]);
      PeerPart(who, entries[1..], id);
      assert [cs[0]] + cs[1..] == cs;
    }
  }

  lemma SlotPart(who: nat, slot: Slot, all: bool, id: nat)
    ensures About(SlotCommands(who, slot, all), id) == if who == id then SlotCommands(who, slot, all) else []
    ensures AboutServer(SlotCommands(who, slot, all)) == []
  {
    if slot.Present? {
      var padd := if all then [Padd(who)] else [];
      AboutConcat(padd, PeerCommands(who, Sent(slot.pub, all)), id);
      AboutServerConcat(padd, PeerCommands(who, Sent(slot.pub, all)));
      PeerPart(who, Sent(slot.pub, all), id);
      if all {
        assert [Padd(who)][1..] == [];
      }
    }
  }

  function Parts(peers: seq<Slot>, all: bool): (parts: seq<seq<Command>>)
    ensures |parts| == |peers| && forall i :: 0 <= i < |peers| ==> parts[i] == SlotCommands(i, peers[i], all)
  {
    seq(|peers|, i requires 0 <= i < |peers| => SlotCommands(i, peers[i], all))
  }

  lemma {:induction false} TableIsFlat(peers: seq<Slot>, from: nat, all: bool)
    requires from <= |peers|
    ensures Same(TableCommands(peers, from, all), Flat(Parts(peers, all), from))
    decreases |peers| - from
  {
    if from < |peers| {
      TableIsFlat(peers, from + 1, all);
    }
  }

  /** In a table the messages about an id are those of its slot, and there are no others. */
  lemma TablePart(peers: seq<Slot>, all: bool, id: nat)
    requires id < |peers|
    ensures About(TableCommands(peers, 0, all), id) == SlotCommands(id, peers[id], all)
    ensures AboutServer(TableCommands(peers, 0, all)) == []
  {
    forall i | 0 <= i < |peers|
      ensures About(Parts(peers, all)[i], id) == if i == id then Parts(peers, all)[i] else []
      ensures AboutServer(Parts(peers, all)[i]) == []
    {
      SlotPart(i, peers[i], all, id);
    }
    TableIsFlat(peers, 0, all);
    FlatPart(Parts(peers, all), 0, id);
    FlatServerPart(Parts(peers, all), 0);
  }

  /** A snapshot is one YARE, every server entry once, and for each peer present one PADD and every
      public entry once; nothing else. */
  lemma SnapshotContents(s: Server, id: nat, i: nat)
    requires i < |s.peers|
    ensures AboutServer(Snapshot(s, id)) == [Yare(id)] + ServerCommands(Sent(s.data, true))
    ensures About(Snapshot(s, id), i) ==
              if s.peers[i].Present? then [Padd(i)] + PeerCommands(i, Sent(s.peers[i].pub, true)) else []
  {
    var data, table := ServerCommands(Sent(s.data, true)), TableCommands(s.peers, 0, true);
    AboutConcat([Yare(id)], data + table, i);
    AboutServerConcat([Yare(id)], data + table);
    AboutConcat(data, table, i);
    AboutServerConcat(data, table);
    ServerPart(Sent(s.data, true), i);
    TablePart(s.peers, true, i);
    assert [Yare(id)][1..] == [];
  }

  /** An update is every dirty server entry once and, for each peer present, every dirty public
      entry once; nothing else. */
  lemma UpdateContents(s: Server, i: nat)
    requires i < |s.peers|
    ensures AboutServer(Update(s)) == ServerCommands(Sent(s.data, false))
    ensures About(Update(s), i) ==
              if s.peers[i].Present? then PeerCommands(i, Sent(s.peers[i].pub, false)) else []
  {
    AboutConcat(ServerCommands(Sent(s.data, false)), TableCommands(s.peers, 0, false), i);
    AboutServerConcat(ServerCommands(Sent(s.data, false)), TableCommands(s.peers, 0, false));
    ServerPart(Sent(s.data, false), i);
    TablePart(s.peers, false, i);
  }

  // ----- what the scripts and the updates do to the server -----

  function Scripts(script: seq<ScriptOp>): (r: seq<Action>)
    ensures |r| == |script|
  {
    seq(|script|, i requires 0 <= i < |script| => Script(script[i]))
  }

  lemma {:induction false} ScriptsExecute(sys: System, script: seq<ScriptOp>)
    requires Sized(sys)
    ensures Run(sys, Scripts(script)).server == ExecuteAll(sys.server, script)
    ensures Run(sys, Scripts(script)).links == sys.links
    decreases |script|
  {
    if script != [] {
      assert Scripts(script)[1..] == Scripts(script[1..]);
      ScriptsExecute(Step(sys, Script(script[0])), script[1..]);
    }
  }

  /** The script of a connect is run command by command, in order, with the new peer already in
      its slot. */
  lemma ConnectRunsScript(sys: System, script: seq<ScriptOp>)
    requires Sized(sys) && HasRoom(sys.server)
    ensures Step(sys, ConnectPeer(script)).server == Run(Step(sys, ConnectPeer([])), Scripts(script)).server
  {
    ScriptsExecute(Step(sys, ConnectPeer([])), script);
  }

  /** The script of a disconnect is run in order before the slot is freed. */
  lemma DisconnectRunsScript(sys: System, id: nat, script: seq<ScriptOp>)
    requires Sized(sys) && IsPresent(sys.server, id)
    ensures Step(sys, DisconnectPeer(id, script)).server
              == Step(Run(sys, Scripts(script)), DisconnectPeer(id, [])).server
  {
    ScriptsExecute(sys, script);
  }

  /** Apart from its script, a connect puts a peer without any data into the first empty slot,
      and a disconnect empties the slot; all other data stays. */
  lemma SlotsComeAndGo(sys: System, id: nat)
    requires Sized(sys)
    ensures HasRoom(sys.server) ==>
              var s, r, added := sys.server, Step(sys, ConnectPeer([])).server, FirstEmpty(sys.server.peers);
              && r.data == s.data && |r.peers| == 10
              && r.peers[added].Present? && ToMap(r.peers[added].pub) == map[] == ToMap(r.peers[added].priv)
              && forall i :: 0 <= i < 10 && i != added ==> r.peers[i] == s.peers[i]
    ensures IsPresent(sys.server, id) ==>
              var s, r := sys.server, Step(sys, DisconnectPeer(id, [])).server;
              && r.data == s.data && |r.peers| == 10 && r.peers[id].Empty?
              && forall i :: 0 <= i < 10 && i != id ==> r.peers[i] == s.peers[i]
  {
  }

  /** An update changes no data, public or private, and no slot comes or goes. */
  lemma UpdateKeepsData(s: Server, i: nat, private: bool)
    requires i < |s.peers|
    ensures ToMap(Flush(s).data) == ToMap(s.data) && |Flush(s).peers| == |s.peers|
    ensures Flush(s).peers[i].Present? == s.peers[i].Present?
    ensures s.peers[i].Present? ==>
              && ToMap(Data(Flush(s).peers[i], private)) == ToMap(Data(s.peers[i], private))
              && Flush(s).peers[i].priv == s.peers[i].priv
  {
    FlushedToMap(s.data);
    if s.peers[i].Present? {
      FlushedToMap(s.peers[i].pub);
    }
  }

  /** No reachable client has ever followed a null or freed dictionary: every PSET found one
      created by an earlier PADD. */
  lemma ClientsStaySound(actions: seq<Action>, id: nat)
    requires IsPresent(Run(START, actions).server, id)
    ensures !Run(START, actions).links[id].client.broken
  {
    EveryRun(actions);
    var l := Run(START, actions).links[id];
    SoundBefore(l.client, l.queue);
  }

  /** The stream sent to any client starts with its only YARE, the messages about each id
      form a prefix of (PADD PSET* PDEL)*, and the ids left open are the peers present. */
  lemma StreamsAreWellFormed(actions: seq<Action>, id: nat)
    requires IsPresent(Run(START, actions).server, id)
    ensures var sys := Run(START, actions);
            && sys.links[id].sent != [] && WellFormed(sys.links[id].sent)
            && forall i: nat :: Alive(sys.links[id].sent, i, |sys.links[id].sent|) <==> IsPresent(sys.server, i)
  {
    EveryRun(actions);
    TrackedIsWellFormed(Run(START, actions).links[id].sent);
  }

  /** Once an update was sent, what a client knows when its queue is drained is exactly the
      server's data and the public data of every peer present, and nothing is left to send. */
  lemma UpdateConverges(sys: System, id: nat)
    requires Invariant(sys) && IsPresent(sys.server, id)
    ensures var r := Step(sys, FlushData);
            && UpToDate(r.server, Drained(r.links[id])) && Drained(r.links[id]).myId == id
            && Clean(r.server.data)
            && forall i :: 0 <= i < PEERS_SIZE && r.server.peers[i].Present? ==> Clean(r.server.peers[i].pub)
  {
    UpdateSendable(sys.server);
    SentIsHandled(sys.links[id], Update(sys.server));
    UpdateHandled(sys.server, id, Drained(sys.links[id]));
  }

  function Deliveries(id: nat, n: nat): seq<Action> {
    if n == 0 then [] else [Deliver(id)] + Deliveries(id, n - 1)
  }

  /** Delivering everything drains the queue, and touches nothing else. */
  lemma {:induction false} DeliverAll(sys: System, id: nat)
    requires Sized(sys) && IsPresent(sys.server, id)
    ensures var r := Run(sys, Deliveries(id, |sys.links[id].queue|));
            && r.links[id].queue == []
            && r.links[id].client == Drained(sys.links[id])
            && r.server == sys.server
    decreases |sys.links[id].queue|
  {
    var n := |sys.links[id].queue|;
    if n > 0 {
      assert Deliveries(id, n)[1..] == Deliveries(id, n - 1);
      DeliverAll(Step(sys, Deliver(id)), id);
    }
  }

  lemma {:induction false} RunConcat(sys: System, a: seq<Action>, b: seq<Action>)
    requires Sized(sys)
    ensures Run(sys, a + b) == Run(Run(sys, a), b)
    decreases |a|
  {
    if a == [] {
      assert a + b == b;
    } else {
      assert (a + b)[1..] == a[1..] + b;
      RunConcat(Step(sys, a[0]), a[1..], b);
    }
  }

  /** Convergence: after any run, an update and the delivery of what is under way to a client
      make its dictionaries equal to the server's, reused slots included. */
  lemma DeliveredUpdateConverges(actions: seq<Action>, id: nat)
    requires IsPresent(Run(START, actions).server, id)
    ensures var flushed := Step(Run(START, actions), FlushData);
            var r := Run(START, actions + ([FlushData] + Deliveries(id, |flushed.links[id].queue|)));
            r.links[id].queue == [] && UpToDate(r.server, r.links[id].client) && r.links[id].client.myId == id
  {
    EveryRun(actions);
    var sys := Run(START, actions);
    var flushed := Step(sys, FlushData);
    var rest := Deliveries(id, |flushed.links[id].queue|);
    RunConcat(START, actions, [FlushData] + rest);
    assert Run(sys, [FlushData] + rest) == Run(flushed, ([FlushData] + rest)[1..]);
    assert ([FlushData] + rest)[1..] == rest;
    UpdateConverges(sys, id);
    DeliverAll(flushed, id);
  }

  /** The protocol promises that PDEL deletes a peer, but its packet has no newline and no
      client handles it: whatever a client knows of a peer that leaves, it goes on knowing. */
  lemma DepartedPeerIsKept(sys: System, id: nat, other: nat, script: seq<ScriptOp>)
    requires Invariant(sys) && IsPresent(sys.server, id) && IsPresent(sys.server, other) && id != other
    ensures var r := Step(sys, DisconnectPeer(id, script));
            && r.links[other].sent == sys.links[other].sent + [Pdel(id)]
            && Drained(r.links[other]) == Drained(sys.links[other])
            && id < |Drained(r.links[other]).peers| && Drained(r.links[other]).peers[id].Added?
  {
    PdelIsLost(sys.links[other], id);
    assert Knows(Drained(sys.links[other]), sys.server.peers[id], id);
  }
}
