/**
 * Private peer data stays on the server: what goes out on the links, and so everything a
 * client ever learns, is the same with and without it.
 */
module Privacy {
  import opened Options
  import opened Dictionary
  import opened Protocol
  import opened ServerModel
  import opened Replication

  predicate IsPrivate(op: ScriptOp) {
    op.PeerSet? && op.private
  }

  function PublicOps(script: seq<ScriptOp>): seq<ScriptOp> {
    if script == [] then []
    else (if IsPrivate(script[0]) then [] else [script[0]]) + PublicOps(script[1..])
  }

  /** The run without its `peerset priv` calls. */
  function PublicActions(actions: seq<Action>): seq<Action> {
    if actions == [] then []
    else
      var rest := PublicActions(actions[1..]);
      match actions[0]
      case Script(op) => if IsPrivate(op) then rest else [Script(op)] + rest
      case ConnectPeer(script) => [ConnectPeer(PublicOps(script))] + rest
      case DisconnectPeer(id, script) => [DisconnectPeer(id, PublicOps(script))] + rest
      case FlushData => [FlushData] + rest
      case Deliver(id) => [Deliver(id)] + rest
  }

  predicate SamePublicSlot(a: Slot, b: Slot) {
    a.Present? == b.Present? && (a.Present? ==> a.pub == b.pub)
  }

  ghost predicate SamePublic(a: Server, b: Server) {
    && a.data == b.data && |a.peers| == |b.peers|
    && forall i :: 0 <= i < |a.peers| ==> SamePublicSlot(a.peers[i], b.peers[i])
  }

  lemma {:induction false} SamePublicScript(a: Server, b: Server, script: seq<ScriptOp>)
    requires SamePublic(a, b)
    ensures SamePublic(ExecuteAll(a, script), ExecuteAll(b, PublicOps(script)))
    decreases |script|
  {
    if script != [] {
      var op := script[0];
      if op.PeerSet? && 0 <= op.id < |a.peers| {
        assert SamePublicSlot(a.peers[op.id], b.peers[op.id]);
      }
      if IsPrivate(op) {
        assert [] + PublicOps(script[1..]) == PublicOps(script[1..]);
        SamePublicScript(Execute(a, op), b, script[1..]);
      } else {
        assert ([op] + PublicOps(script[1..]))[1..] == PublicOps(script[1..]);
        SamePublicScript(Execute(a, op), Execute(b, op), script[1..]);
      }
    }
  }

  lemma {:induction false} SamePublicTable(a: seq<Slot>, b: seq<Slot>, from: nat, all: bool)
    requires |a| == |b| && from <= |a|
    requires forall i :: 0 <= i < |a| ==> SamePublicSlot(a[i], b[i])
    ensures Same(TableCommands(a, from, all), TableCommands(b, from, all))
    decreases |a| - from
  {
    if from < |a| {
      assert SamePublicSlot(a[from], b[from]);
      SamePublicTable(a, b, from + 1, all);
    }
  }

  lemma {:induction false} SameFirstEmpty(a: seq<Slot>, b: seq<Slot>)
    requires |a| == |b|
    requires forall i :: 0 <= i < |a| ==> SamePublicSlot(a[i], b[i])
    ensures FirstEmpty(a) == FirstEmpty(b)
  {
  }

  ghost predicate LookAlike(a: System, b: System) {
    Sized(a) && Sized(b) && SamePublic(a.server, b.server) && a.links == b.links
  }

  lemma SameConnect(a: System, b: System, script: seq<ScriptOp>)
    requires LookAlike(a, b)
    ensures LookAlike(Step(a, ConnectPeer(script)), Step(b, ConnectPeer(PublicOps(script))))
  {
    SameFirstEmpty(a.server.peers, b.server.peers);
    if HasRoom(a.server) {
      var id := FirstEmpty(a.server.peers);
      var a1 := a.server.(peers := a.server.peers[id := Present([], [])]);
      var b1 := b.server.(peers := b.server.peers[id := Present([], [])]);
      SamePublicScript(a1, b1, script);
      var ra, rb := Connect(a.server, script), Connect(b.server, PublicOps(script));
      SamePublicTable(ra.peers, rb.peers, 0, true);
      SameBroadcast(ra, rb, a.links[id := Send(NEW_LINK, Snapshot(ra, id))], id, [Padd(id)]);
    }
  }

  lemma SameBroadcast(a: Server, b: Server, links: seq<Link>, except: int, cmds: seq<Command>)
    requires SamePublic(a, b) && |links| == |a.peers|
    ensures Broadcast(a, links, except, cmds) == Broadcast(b, links, except, cmds)
  {
  }

  lemma SameDisconnect(a: System, b: System, id: nat, script: seq<ScriptOp>)
    requires LookAlike(a, b)
    ensures LookAlike(Step(a, DisconnectPeer(id, script)), Step(b, DisconnectPeer(id, PublicOps(script))))
  {
    if id < PEERS_SIZE {
      assert SamePublicSlot(a.server.peers[id], b.server.peers[id]);
      SamePublicScript(a.server, b.server, script);
      var ra, rb := Disconnect(a.server, id, script), Disconnect(b.server, id, PublicOps(script));
      forall i | 0 <= i < |ra.peers|
        ensures SamePublicSlot(ra.peers[i], rb.peers[i])
      {
        assert SamePublicSlot(ExecuteAll(a.server, script).peers[i], ExecuteAll(b.server, PublicOps(script)).peers[i]);
      }
      SameBroadcast(ra, rb, a.links, id, [Pdel(id)]);
    }
  }

  lemma SameOther(a: System, b: System, action: Action)
    requires LookAlike(a, b)
    requires action.FlushData? || action.Deliver? || (action.Script? && !IsPrivate(action.op))
    ensures LookAlike(Step(a, action), Step(b, action))
  {
    match action
    case FlushData =>
      SamePublicTable(a.server.peers, b.server.peers, 0, false);
      SameBroadcast(a.server, b.server, a.links, -1, Update(a.server));
      forall i | 0 <= i < |a.server.peers|
        ensures SamePublicSlot(Flush(a.server).peers[i], Flush(b.server).peers[i])
      {
        assert SamePublicSlot(a.server.peers[i], b.server.peers[i]);
      }
    case Deliver(id) =>
      if id < PEERS_SIZE { assert SamePublicSlot(a.server.peers[id], b.server.peers[id]); }
    case Script(op) =>
      assert PublicOps([op]) == [op] + PublicOps([op][1..]);
      if op.PeerSet? && 0 <= op.id < PEERS_SIZE {
        assert SamePublicSlot(a.server.peers[op.id], b.server.peers[op.id]);
      }
  }

  /** Private data is never sent: without its `peerset priv` calls a run puts the same
      packets on every link and leaves every client in the same state. */
  lemma {:induction false} PrivateDataIsNeverSent(a: System, b: System, actions: seq<Action>)
    requires LookAlike(a, b)
    ensures LookAlike(Run(a, actions), Run(b, PublicActions(actions)))
    decreases |actions|
  {
    if actions != [] {
      var action, rest := actions[0], PublicActions(actions[1..]);
      match action {
        case Script(op) =>
          if IsPrivate(op) {
            if 0 <= op.id < PEERS_SIZE {
              assert SamePublicSlot(a.server.peers[op.id], b.server.peers[op.id]);
            }
            PrivateDataIsNeverSent(Step(a, action), b, actions[1..]);
          } else {
            SameOther(a, b, action);
            assert ([action] + rest)[1..] == rest;
            PrivateDataIsNeverSent(Step(a, action), Step(b, action), actions[1..]);
          }
        case ConnectPeer(script) =>
          SameConnect(a, b, script);
          assert ([ConnectPeer(PublicOps(script))] + rest)[1..] == rest;
          PrivateDataIsNeverSent(Step(a, action), Step(b, ConnectPeer(PublicOps(script))), actions[1..]);
        case DisconnectPeer(id, script) =>
          SameDisconnect(a, b, id, script);
          assert ([DisconnectPeer(id, PublicOps(script))] + rest)[1..] == rest;
          PrivateDataIsNeverSent(Step(a, action), Step(b, DisconnectPeer(id, PublicOps(script))), actions[1..]);
        case FlushData =>
          SameOther(a, b, action);
          assert ([action] + rest)[1..] == rest;
          PrivateDataIsNeverSent(Step(a, action), Step(b, action), actions[1..]);
        case Deliver(id) =>
          SameOther(a, b, action);
          assert ([action] + rest)[1..] == rest;
          PrivateDataIsNeverSent(Step(a, action), Step(b, action), actions[1..]);
      }
    }
  }
}
