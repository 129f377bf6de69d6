/**
 * The server's handlers of src/network/svcenet/server/main.c run in place: the dictionaries
 * with their flags, the peer table and the packet buffers.
 */
module Server {
  import opened Options
  import opened Dstr
  import opened Lexer
  import opened Dictionary
  import opened Protocol
  import opened M = ServerModel

  lemma {:induction false} SetAt(d: Dict, key: string, value: string, i: nat)
    requires i <= |d| && forall j :: 0 <= j < i ==> d[j].key != key
    ensures i < |d| && d[i].key == key ==> Set(d, key, value) == d[i := Node(key, value, true)]
    ensures i == |d| ==> Set(d, key, value) == d + [Node(key, value, true)]
  {
    if i > 0 {
      SetAt(d[1..], key, value, i - 1);
    }
  }

  /** `dd_set` on the list of nodes. */
  method DdSet(dd: Dict, key: string, value: string) returns (r: Dict)
    ensures r == Set(dd, key, value)
  {
    var i := 0;
    while i < |dd|
      invariant i <= |dd| && forall j :: 0 <= j < i ==> dd[j].key != key
    {
      SetAt(dd, key, value, i);
      if Cmp(dd[i].key, key) == 0 {
        return dd[i := dd[i].(value := value, dirty := true)];
      }
      i := i + 1;
    }
    SetAt(dd, key, value, i);
    return dd + [Node(key, value, true)];
  }

  // ----- printing into a packet buffer -----

  lemma MoveParens(a: string, b: string, c: string, d: string)
    ensures Same(a + (b + (c + d)), a + b + c + d)
  {
    assert a + (b + (c + d)) == a + b + c + d;
  }

  function PairText(key: string, value: string): string {
    Quoted(key) + (" " + Quoted(value))
  }

  /** The lines of some entries, each behind the same words. */
  function EntryLines(head: string, entries: seq<Entry>): string {
    if entries == [] then ""
    else head + PairText(entries[0].key, entries[0].value) + "\n" + EntryLines(head, entries[1..])
  }

  lemma PairAssoc(before: string, k: string, v: string)
    ensures Same(before + "\"" + k + "\" \"" + v + "\"\n",
                 before + (("\"" + k + "\"") + (" " + ("\"" + v + "\"")) + "\n"))
  {
    assert before + "\"" + k + "\" \"" + v + "\"\n"
        == before + (("\"" + k + "\"") + (" " + ("\"" + v + "\"")) + "\n");
  }

  /** `"key" "value"` and the end of the line. */
  method AppendPair(buffer: DString, key: string, value: string)
    requires buffer.Valid()
    modifies buffer, buffer.data
    ensures buffer.Valid() && (buffer.data == old(buffer.data) || fresh(buffer.data))
    ensures Same(buffer.Text(), old(buffer.Text()) + (PairText(key, value) + "\n"))
  {
    PairAssoc(buffer.Text(), Escape(key), Escape(value));
    buffer.Cat("\"");
    var escaped := EscapeMem(key);
    buffer.Cat(escaped.data[..escaped.len]);
    buffer.Cat("\" \"");
    escaped := EscapeMem(value);
    buffer.Cat(escaped.data[..escaped.len]);
    buffer.Cat("\"\n");
  }

  /** What is still to be printed of a dictionary from node i on. */
  function Todo(head: string, d: Dict, i: nat, all: bool): string
    requires i <= |d|
  {
    EntryLines(head, Sent(d[i..], all))
  }

  lemma TodoStep(before: string, head: string, d: Dict, i: nat, all: bool)
    requires i < |d|
    ensures Same(before + Todo(head, d, i, all),
                 (if all || d[i].dirty then before + head + (PairText(d[i].key, d[i].value) + "\n") else before)
                   + Todo(head, d, i + 1, all))
  {
    var n, rest := d[i], Sent(d[i + 1..], all);
    assert d[i..][1..] == d[i + 1..];
    if all || n.dirty {
      var entries := [Entry(n.key, n.value)] + rest;
      assert Sent(d[i..], all) == entries && entries[1..] == rest;
      var pair, later := PairText(n.key, n.value) + "\n", EntryLines(head, rest);
      assert head + PairText(n.key, n.value) + "\n" == head + pair;
      assert before + (head + pair + later) == before + head + pair + later;
    } else {
      assert [] + rest == rest;
    }
  }

  lemma TodoEnd(before: string, head: string, d: Dict, all: bool)
    ensures Same(before + Todo(head, d, |d|, all), before)
  {
    assert d[|d|..] == [];
    assert before + "" == before;
  }

  /** The flags of the first i nodes are down. */
  predicate Cleared(kept: Dict, d: Dict, i: nat) {
    |kept| == |d| && forall k :: 0 <= k < |d| ==> kept[k] == if k < i then d[k].(dirty := false) else d[k]
  }

  lemma ClearOne(kept: Dict, d: Dict, i: nat, all: bool)
    requires i < |d| && Cleared(kept, d, if all then 0 else i)
    ensures Cleared(if !all && d[i].dirty then kept[i := kept[i].(dirty := false)] else kept, d,
                    if all then 0 else i + 1)
  {
  }

  lemma ClearedIs(kept: Dict, d: Dict, all: bool)
    requires Cleared(kept, d, if all then 0 else |d|)
    ensures Same(kept, if all then d else Flushed(d))
  {
    assert kept == if all then d else Flushed(d);
  }

  /** Print what one dictionary sends; an update clears the flags of what it prints. */
  method AppendEntries(buffer: DString, d: Dict, all: bool, head: string) returns (kept: Dict)
    requires buffer.Valid()
    modifies buffer, buffer.data
    ensures buffer.Valid() && (buffer.data == old(buffer.data) || fresh(buffer.data))
    ensures Same(buffer.Text(), old(buffer.Text()) + EntryLines(head, Sent(d, all)))
    ensures Same(kept, if all then d else Flushed(d))
  {
    ghost var end := buffer.Text() + Todo(head, d, 0, all);
    assert d[0..] == d;
    kept := d;
    var i := 0;
    while i < |d|
      invariant i <= |d| && Cleared(kept, d, if all then 0 else i)
      invariant buffer.Valid() && (buffer.data == old(buffer.data) || fresh(buffer.data))
      invariant Same(buffer.Text() + Todo(head, d, i, all), end)
    {
      TodoStep(buffer.Text(), head, d, i, all);
      ClearOne(kept, d, i, all);
      if all || d[i].dirty {
        if !all {
          kept := kept[i := kept[i].(dirty := false)];
        }
        buffer.Cat(head);
        AppendPair(buffer, d[i].key, d[i].value);
      }
      i := i + 1;
    }
    TodoEnd(buffer.Text(), head, d, all);
    ClearedIs(kept, d, all);
  }

  lemma {:induction false} ServerLines(entries: seq<Entry>)
    ensures Same(PrintAll(ServerCommands(entries)), EntryLines("SSET ", entries))
  {
    if entries != [] {
      var cs := ServerCommands(entries);
      assert cs[1..] == ServerCommands(entries[1..]);
      ServerLines(entries[1..]);
      assert Print(cs[0]) == "SSET " + PairText(entries[0].key, entries[0].value) + "\n";
    }
  }

  lemma PeerLine(id: nat, key: string, value: string)
    ensures Same(Print(Pset(id, key, value)), "PSET " + Decimal(id) + " " + PairText(key, value) + "\n")
  {
    MoveParens("PSET ", Decimal(id), " ", PairText(key, value));
  }

  lemma {:induction false} PeerLines(id: nat, entries: seq<Entry>)
    ensures Same(PrintAll(PeerCommands(id, entries)), EntryLines("PSET " + Decimal(id) + " ", entries))
  {
    if entries != [] {
      var cs := PeerCommands(id, entries);
      assert cs[1..] == PeerCommands(id, entries[1..]);
      PeerLines(id, entries[1..]);
      PeerLine(id, entries[0].key, entries[0].value);
    }
  }

  /** Print one slot of the peer table. */
  method AppendSlot(buffer: DString, id: nat, slot: Slot, all: bool) returns (kept: Slot)
    requires buffer.Valid()
    modifies buffer, buffer.data
    ensures buffer.Valid() && (buffer.data == old(buffer.data) || fresh(buffer.data))
    ensures Same(buffer.Text(), old(buffer.Text()) + PrintAll(SlotCommands(id, slot, all)))
    ensures kept == if all then slot else FlushSlot(slot)
  {
    ghost var before := buffer.Text();
    kept := slot;
    match slot {
      case Empty =>
        assert before + "" == before;
      case Present(pub, priv) =>
        SlotText(before, id, pub, all);
        if all {
          buffer.Cat("PADD ");
          buffer.Cat(Decimal(id));
          buffer.Cat("\n");
        }
        var d := AppendEntries(buffer, pub, all, "PSET " + Decimal(id) + " ");
        kept := Present(d, priv);
    }
  }

  lemma SlotText(before: string, id: nat, pub: Dict, all: bool)
    ensures Same(before + PrintAll((if all then [Padd(id)] else []) + PeerCommands(id, Sent(pub, all))),
                 (if all then before + "PADD " + Decimal(id) + "\n" else before)
                   + EntryLines("PSET " + Decimal(id) + " ", Sent(pub, all)))
  {
    var peer := PeerCommands(id, Sent(pub, all));
    PeerLines(id, Sent(pub, all));
    PrintAllConcat(if all then [Padd(id)] else [], peer);
    if all {
      var padd := "PADD " + Decimal(id) + "\n";
      assert PrintAll([Padd(id)]) == padd + PrintAll([Padd(id)][1..]) == padd;
      assert before + ("PADD " + Decimal(id) + "\n" + PrintAll(peer))
          == before + "PADD " + Decimal(id) + "\n" + PrintAll(peer);
    } else {
      assert "" + PrintAll(peer) == PrintAll(peer);
    }
  }

  lemma TableText(before: string, peers: seq<Slot>, i: nat, all: bool)
    requires i < |peers|
    ensures Same(before + PrintAll(TableCommands(peers, i, all)),
                 before + PrintAll(SlotCommands(i, peers[i], all)) + PrintAll(TableCommands(peers, i + 1, all)))
  {
    var here, later := SlotCommands(i, peers[i], all), TableCommands(peers, i + 1, all);
    PrintAllConcat(here, later);
    assert before + (PrintAll(here) + PrintAll(later)) == before + PrintAll(here) + PrintAll(later);
  }

  lemma TableEnd(before: string, peers: seq<Slot>, all: bool)
    ensures Same(before + PrintAll(TableCommands(peers, |peers|, all)), before)
  {
    assert before + "" == before;
  }

  lemma FlushedTable(kept: seq<Slot>, s: M.Server, all: bool)
    requires |kept| == |s.peers|
    requires forall k :: 0 <= k < |kept| ==> kept[k] == if all then s.peers[k] else FlushSlot(s.peers[k])
    ensures Same(kept, if all then s.peers else Flush(s).peers)
  {
    assert kept == if all then s.peers else Flush(s).peers;
  }

  class Server {
    var serverData: Dict
    const peers: array<Slot>

    ghost predicate Valid()
      reads this
    {
      peers.Length == PEERS_SIZE
    }

    ghost function View(): M.Server
      reads this, peers
      requires Valid()
    {
      M.Server(serverData, peers[..])
    }

    constructor ()
      ensures Valid() && fresh(peers)
      ensures View() == M.Server([], seq(PEERS_SIZE, i => Empty))
    {
      serverData := [];
      peers := new Slot[PEERS_SIZE](i => Empty);
    }

    /** `serverset`. */
    method CmdServerSet(key: string, value: string)
      requires Valid()
      modifies this
      ensures Valid() && View() == Execute(old(View()), ServerSet(key, value))
    {
      serverData := DdSet(serverData, CString(key), CString(value));
    }

    /** `peerset`; it fails for a peer that is not there. */
    method CmdPeerSet(private: bool, id: int, key: string, value: string) returns (ok: bool)
      requires Valid()
      modifies peers
      ensures Valid() && View() == Execute(old(View()), PeerSet(private, id, key, value))
      ensures ok <==> 0 <= id < PEERS_SIZE && old(peers[..])[id].Present?
    {
      if 0 <= id < peers.Length && peers[id].Present? {
        var p := peers[id];
        if private {
          var d := DdSet(p.priv, CString(key), CString(value));
          peers[id] := p.(priv := d);
        } else {
          var d := DdSet(p.pub, CString(key), CString(value));
          peers[id] := p.(pub := d);
        }
        return true;
      }
      return false;
    }

    /** A script, as the dictionary commands it runs. */
    method RunScript(script: seq<ScriptOp>)
      requires Valid()
      modifies this, peers
      ensures Valid() && View() == ExecuteAll(old(View()), script)
    {
      ghost var end := ExecuteAll(View(), script);
      var rest := script;
      while rest != []
        invariant Valid() && ExecuteAll(View(), rest) == end
        decreases |rest|
      {
        match rest[0] {
          case ServerSet(key, value) => CmdServerSet(key, value);
          case PeerSet(private, id, key, value) => var _ := CmdPeerSet(private, id, key, value);
        }
        rest := rest[1..];
      }
    }

    /** `get_new_peer` in a table with room. */
    method GetNewPeer() returns (peerId: nat)
      requires Valid() && HasRoom(View())
      modifies peers
      ensures Valid() && peerId == FirstEmpty(old(peers[..]))
      ensures View() == old(View()).(peers := old(peers[..])[peerId := Present([], [])])
    {
      ghost var was := peers[..];
      var i := 0;
      while peers[i].Present?
        invariant i <= FirstEmpty(was) && peers[..] == was
        decreases peers.Length - i
      {
        i := i + 1;
      }
      peers[i] := Present([], []);
      peerId := i;
      assert peers[..] == was[i := Present([], [])];
    }

    /** Print all slots in order. */
    method AppendTable(buffer: DString, all: bool)
      requires Valid() && buffer.Valid()
      modifies buffer, buffer.data, peers
      ensures Valid() && buffer.Valid() && (buffer.data == old(buffer.data) || fresh(buffer.data))
      ensures Same(buffer.Text(), old(buffer.Text()) + PrintAll(TableCommands(old(peers[..]), 0, all)))
      ensures Same(peers[..], if all then old(peers[..]) else Flush(old(View())).peers)
    {
      ghost var table := peers[..];
      ghost var end := buffer.Text() + PrintAll(TableCommands(table, 0, all));
      var i := 0;
      while i < peers.Length
        invariant i <= peers.Length == |table|
        invariant forall k :: 0 <= k < |table| ==> peers[k] == if k < i && !all then FlushSlot(table[k]) else table[k]
        invariant buffer.Valid() && (buffer.data == old(buffer.data) || fresh(buffer.data))
        invariant Same(buffer.Text() + PrintAll(TableCommands(table, i, all)), end)
      {
        TableText(buffer.Text(), table, i, all);
        var kept := AppendSlot(buffer, i, peers[i], all);
        peers[i] := kept;
        i := i + 1;
      }
      TableEnd(buffer.Text(), table, all);
      FlushedTable(peers[..], old(View()), all);
    }

    /** The first packet of `handle_peer_connect` (581-631). */
    method AppendSnapshot(packet: DString, peerId: nat)
      requires Valid() && packet.Valid() && packet.Text() == ""
      modifies packet, packet.data, peers
      ensures Valid() && packet.Valid() && (packet.data == old(packet.data) || fresh(packet.data))
      ensures View() == old(View())
      ensures packet.Text() == PrintAll(Snapshot(old(View()), peerId))
    {
      SnapshotText(View(), peerId);
      packet.Cat("YARE ");
      packet.Cat(Decimal(peerId));
      packet.Cat("\n");
      var _ := AppendEntries(packet, serverData, true, "SSET ");
      AppendTable(packet, true);
    }

    /** Send a text to every peer that is present, but for one. */
    method SendOthers(text: string, except: int) returns (sent: seq<Packet>)
      requires Valid()
      ensures sent == SentTo(peers[..], except, text, 0)
    {
      sent := [];
      assert sent + SentTo(peers[..], except, text, 0) == SentTo(peers[..], except, text, 0);
      var i := 0;
      while i < peers.Length
        invariant i <= peers.Length
        invariant Same(sent + SentTo(peers[..], except, text, i), SentTo(peers[..], except, text, 0))
      {
        SendStep(sent, peers[..], except, text, i);
        if peers[i].Present? && i != except {
          sent := sent + [Packet(i, text)];
        }
        i := i + 1;
      }
      assert sent + [] == sent;
    }

    /** The packet buffer is used again for the hello (639-643). */
    method PrintHello(packet: DString, peerId: nat)
      requires packet.Valid()
      modifies packet, packet.data
      ensures packet.Valid() && packet.Text() == PrintAll([Padd(peerId)])
    {
      OnePrinted(Padd(peerId));
      packet.Cpy("PADD ");
      packet.Cat(Decimal(peerId));
      packet.Cat("\n");
    }

    /** `handle_peer_connect` for a peer the script accepts: the snapshot goes to the new
        peer, the hello to every other peer that is present. */
    method HandlePeerConnect(script: seq<ScriptOp>) returns (peerId: nat, sent: seq<Packet>)
      requires Valid() && HasRoom(View())
      modifies this, peers
      ensures Valid() && peerId == FirstEmpty(old(peers[..]))
      ensures View() == Connect(old(View()), script)
      ensures sent == ConnectSends(View(), peerId)
    {
      peerId := GetNewPeer();
      RunScript(script);
      var packet := new DString();
      AppendSnapshot(packet, peerId);
      sent := [Packet(peerId, packet.data[..packet.len])];
      PrintHello(packet, peerId);
      var hello := SendOthers(packet.data[..packet.len], peerId);
      sent := sent + hello;
    }

    /** `handle_peer_disconnect`: the farewell goes to every other peer that is present. */
    method HandlePeerDisconnect(peerId: nat, script: seq<ScriptOp>) returns (sent: seq<Packet>)
      requires Valid() && peerId < PEERS_SIZE
      modifies this, peers
      ensures Valid() && View() == Disconnect(old(View()), peerId, script)
      ensures sent == DisconnectSends(View(), peerId)
    {
      RunScript(script);
      ghost var was := peers[..];
      OnePrinted(Pdel(peerId));
      sent := SendOthers("PDEL " + Decimal(peerId), peerId);
      peers[peerId] := Empty;
      SamePresent(was, peers[..], peerId, "PDEL " + Decimal(peerId), 0);
      assert peers[..] == was[peerId := Empty];
    }

    /** `send_modified_data`: one packet for every peer that is present. */
    method SendModifiedData() returns (sent: seq<Packet>)
      requires Valid()
      modifies this, peers
      ensures Valid() && View() == Flush(old(View()))
      ensures sent == FlushSends(old(View()))
    {
      ghost var was := peers[..];
      var buffer := new DString();
      UpdateText(View());
      var d := AppendEntries(buffer, serverData, false, "SSET ");
      AppendTable(buffer, false);
      serverData := d;
      sent := SendOthers(buffer.data[..buffer.len], -1);
      SamePresent(was, peers[..], -1, buffer.Text(), 0);
    }
  }

  lemma SendStep(sent: seq<Packet>, peers: seq<Slot>, except: int, text: string, i: nat)
    requires i < |peers|
    ensures Same(sent + SentTo(peers, except, text, i),
                 (if peers[i].Present? && i != except then sent + [Packet(i, text)] else sent)
                   + SentTo(peers, except, text, i + 1))
  {
    var later := SentTo(peers, except, text, i + 1);
    if peers[i].Present? && i != except {
      assert sent + ([Packet(i, text)] + later) == sent + [Packet(i, text)] + later;
    } else {
      assert [] + later == later;
    }
  }

  /** Who gets a text depends only on who is present. */
  lemma {:induction false} SamePresent(a: seq<Slot>, b: seq<Slot>, except: int, text: string, from: nat)
    requires from <= |a| == |b|
    requires forall i :: 0 <= i < |a| && i != except ==> a[i].Present? == b[i].Present?
    ensures Same(SentTo(a, except, text, from), SentTo(b, except, text, from))
    decreases |a| - from
  {
    if from < |a| {
      SamePresent(a, b, except, text, from + 1);
      assert (a[from].Present? && from != except) == (b[from].Present? && from != except);
    }
  }

  lemma SnapshotText(s: M.Server, id: nat)
    ensures Same(PrintAll(Snapshot(s, id)),
                 "" + "YARE " + Decimal(id) + "\n" + EntryLines("SSET ", Sent(s.data, true))
                   + PrintAll(TableCommands(s.peers, 0, true)))
  {
    var data, table := ServerCommands(Sent(s.data, true)), TableCommands(s.peers, 0, true);
    PrintAllConcat([Yare(id)], data + table);
    PrintAllConcat(data, table);
    ServerLines(Sent(s.data, true));
    OnePrinted(Yare(id));
    FourStrings("YARE ", Decimal(id), PrintAll(data), PrintAll(table));
  }

  lemma FourStrings(a: string, b: string, c: string, d: string)
    ensures Same(a + b + "\n" + (c + d), "" + a + b + "\n" + c + d)
  {
    assert "" + a == a;
    assert a + b + "\n" + (c + d) == a + b + "\n" + c + d;
  }

  lemma OnePrinted(c: Command)
    ensures Same(PrintAll([c]), Print(c))
  {
    assert PrintAll([c]) == Print(c) + PrintAll([c][1..]) == Print(c);
  }

  lemma UpdateText(s: M.Server)
    ensures Same(PrintAll(Update(s)),
                 "" + EntryLines("SSET ", Sent(s.data, false)) + PrintAll(TableCommands(s.peers, 0, false)))
  {
    var data, table := ServerCommands(Sent(s.data, false)), TableCommands(s.peers, 0, false);
    PrintAllConcat(data, table);
    ServerLines(Sent(s.data, false));
    assert "" + PrintAll(data) == PrintAll(data);
  }
}
