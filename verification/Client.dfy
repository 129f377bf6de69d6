/**
 * The client's handlers of src/network/svcenet/client/main.c:532-717 run in place.
 */
module Client {
  import opened Options
  import opened DsDict
  import opened Dstr
  import opened Lexer
  import opened Protocol
  import M = ClientModel

  /** `mempos`. */
  method FindByte(data: string, ch: char, start: nat) returns (pos: int)
    requires start <= |data|
    ensures pos == MemPos(data, ch, start)
  {
    var i := start;
    while i < |data|
      invariant start <= i <= |data|
      invariant MemPos(data, ch, start) == MemPos(data, ch, i)
    {
      if data[i] == ch {
        return i;
      }
      i := i + 1;
    }
    return -1;
  }

  /** An entry of the peer table: never added, with its dictionary, or freed by a PDEL. */
  datatype PeerSlot = Unused | Added(data: DsDict) | Deleted

  lemma HandleOne(c: M.Client, d: Decoded)
    ensures M.HandleAll(c, if d.Accept? then [d.command] else []) == if d.Accept? then M.Handle(c, d.command) else c
  {
  }

  lemma HandleCut(c: M.Client, here: seq<Command>, later: seq<Command>, all: seq<Command>)
    requires Same(all, here + later)
    ensures Same(M.HandleAll(M.HandleAll(c, here), later), M.HandleAll(c, all))
  {
    M.HandleAllConcat(c, here, later);
  }

  class Client {
    var myId: nat
    var serverInfo: DsDict
    var peers: array<PeerSlot>
    var broken: bool
    ghost var view: M.Client
    ghost var repr: set<object>

    /** Slot i of the table holds this entry of the model. */
    ghost predicate Shows(i: nat, entry: M.ClientPeer)
      requires i < peers.Length
      reads this, peers, repr
    {
      match peers[i]
      case Unused => entry.Unused?
      case Deleted => entry.Deleted?
      case Added(data) => data in repr && data.Valid() && entry == M.Added(data.View())
    }

    /** No dictionary is in two places. */
    ghost predicate Separate()
      reads this, peers
    {
      && (forall i :: 0 <= i < peers.Length && peers[i].Added? ==> peers[i].data != serverInfo)
      && (forall i, j :: 0 <= i < j < peers.Length && peers[i].Added? && peers[j].Added? ==>
            peers[i].data != peers[j].data)
    }

    /** The heap holds what `view` says. */
    ghost predicate Valid()
      reads this, repr
    {
      && this in repr && peers in repr && serverInfo in repr
      && Separate()
      && view.myId == myId && view.broken == broken
      && serverInfo.Valid() && view.serverInfo == serverInfo.View()
      && |view.peers| == peers.Length
      && forall i :: 0 <= i < peers.Length ==> Shows(i, view.peers[i])
    }

    /** The client just after it connected (lines 269-272, 826). */
    constructor ()
      ensures Valid() && fresh(repr) && view == M.CONNECTED == M.Client(0xFFFF_FFFF, map[], [], false)
    {
      myId := M.NO_ID;
      serverInfo := new DsDict();
      peers := new PeerSlot[0];
      broken := false;
      view := M.CONNECTED;
      repr := {this, peers, serverInfo};
    }

    /** `free_server_info` and the dictionary of the next connection (223-249, 826): nothing is
        left of the old one. */
    method StartOver()
      requires Valid() && !broken
      modifies this
      ensures Valid() && fresh(repr - old(repr)) && view == M.CONNECTED
    {
      myId := M.NO_ID;
      serverInfo := new DsDict();
      peers := new PeerSlot[0];
      view := M.CONNECTED;
      repr := repr + {serverInfo, peers};
    }

    method ScmdSset(key: string, value: string)
      requires Valid() && !broken
      modifies this`view, serverInfo
      ensures Valid() && repr == old(repr)
      ensures view == M.Handle(old(view), Sset(key, value))
    {
      serverInfo.Set(key, value);
      view := view.(serverInfo := serverInfo.View());
      assert forall i :: 0 <= i < peers.Length ==> old(Shows(i, view.peers[i]));
    }

    method ScmdYare(id: nat)
      requires Valid() && !broken
      modifies this`view, this`myId
      ensures Valid() && repr == old(repr)
      ensures view == M.Handle(old(view), Yare(id))
    {
      myId := id;
      view := view.(myId := id);
      assert forall i :: 0 <= i < peers.Length ==> old(Shows(i, view.peers[i]));
    }

    /** The table enlarged to hold slot `id`, with the old entries in front. */
    method EnlargePeers(id: nat)
      requires Valid()
      modifies this`view, this`peers, this`repr
      ensures Valid() && fresh(repr - old(repr))
      ensures id < peers.Length && view == old(view).(peers := M.Enlarge(old(view).peers, id))
    {
      if peers.Length > id {
        return;
      }
      var was, table := peers, new PeerSlot[id + 1];
      var i := 0;
      while i < was.Length
        invariant i <= was.Length && forall j :: 0 <= j < i ==> table[j] == was[j]
        modifies table
      {
        table[i] := was[i];
        i := i + 1;
      }
      while i < table.Length
        invariant was.Length <= i <= table.Length
        invariant forall j :: 0 <= j < i ==> table[j] == if j < was.Length then was[j] else Unused
        modifies table
      {
        table[i] := Unused;
        i := i + 1;
      }
      peers := table;
      repr := repr + {table};
      view := view.(peers := M.Enlarge(view.peers, id));
      forall j | 0 <= j < peers.Length
        ensures Shows(j, view.peers[j])
      {
        if j < was.Length {
          assert old(Shows(j, view.peers[j]));
        }
      }
    }

    /** The table grows to hold the new id; whatever the slot held is forgotten. */
    method ScmdPadd(id: nat)
      requires Valid() && !broken
      modifies repr
      ensures Valid() && fresh(repr - old(repr))
      ensures view == M.Handle(old(view), Padd(id))
    {
      if id >= INT_MAX {
        broken := true;
        view := view.(broken := true);
        return;
      }
      EnlargePeers(id);
      var data := new DsDict();
      PutSlot(id, Added(data), M.Added(map[]));
    }

    /** Another entry for slot `id`. */
    method PutSlot(id: nat, slot: PeerSlot, ghost entry: M.ClientPeer)
      requires Valid() && id < peers.Length
      requires slot.Added? ==> slot.data.Valid() && slot.data !in repr && entry == M.Added(slot.data.View())
      requires !slot.Added? ==> slot.Deleted? && entry.Deleted?
      modifies this`view, this`repr, peers
      ensures Valid() && view == old(view).(peers := old(view).peers[id := entry])
      ensures repr == old(repr) + if slot.Added? then {slot.data} else {}
    {
      peers[id] := slot;
      repr := repr + if slot.Added? then {slot.data} else {};
      assert forall i :: 0 <= i < peers.Length && i != id && peers[i].Added? ==> old(Shows(i, view.peers[i]));
      view := view.(peers := view.peers[id := entry]);
      forall i | 0 <= i < peers.Length
        ensures Shows(i, view.peers[i])
      {
        assert i != id ==> old(Shows(i, view.peers[i]));
      }
    }

    method ScmdPdel(id: nat)
      requires Valid() && !broken
      modifies repr
      ensures Valid() && fresh(repr - old(repr))
      ensures view == M.Handle(old(view), Pdel(id))
    {
      if id >= peers.Length {
        return;
      }
      assert Shows(id, view.peers[id]);
      if peers[id].Added? {
        PutSlot(id, Deleted, M.Deleted);
      } else {
        broken := true;
        view := view.(broken := true);
      }
    }

    /** An id past the table is ignored; the dictionary of a peer that was added gets its entry,
        and no other dictionary changes; any other slot has none. */
    method ScmdPset(id: nat, key: string, value: string)
      requires Valid() && !broken
      modifies repr
      ensures Valid() && repr == old(repr)
      ensures view == M.Handle(old(view), Pset(id, key, value))
      ensures peers == old(peers) && peers[..] == old(peers[..])
      ensures broken <==> id < peers.Length && !peers[id].Added?
      ensures id < peers.Length && peers[id].Added? ==>
                peers[id].data.View() == old(peers[id].data.View())[key := value]
      ensures forall i :: 0 <= i < peers.Length && i != id && peers[i].Added? ==>
                peers[i].data.View() == old(peers[i].data.View())
      ensures serverInfo.View() == old(serverInfo.View()) && myId == old(myId)
    {
      if id >= peers.Length {
        return;
      }
      assert Shows(id, view.peers[id]);
      if peers[id].Added? {
        var data := peers[id].data;
        data.Set(key, value);
        view := view.(peers := view.peers[id := M.Added(data.View())]);
        forall i | 0 <= i < peers.Length
          ensures Shows(i, view.peers[i])
        {
          assert i != id ==> old(Shows(i, view.peers[i]));
        }
      } else {
        broken := true;
        view := view.(broken := true);
      }
    }

    /** `handle_server_decoded_msg`: lex the line and call the handler of its first word. */
    method HandleServerDecodedMsg(line: string)
      requires Valid()
      modifies repr
      ensures Valid() && fresh(repr - old(repr))
      ensures view == M.HandleAll(old(view), LineCommands(line))
    {
      if broken {
        M.BrokenStays(view, LineCommands(line));
        return;
      }
      var lexed := Parse(line);
      ghost var d := Decode(line);
      if lexed.Tokens? {
        var argv := lexed.list;
        HandleOne(view, d);
        if argv != [] {
          if argv[0] == "SSET" {
            if |argv| == 3 { ScmdSset(CString(argv[1]), argv[2]); }
          } else if argv[0] == "YARE" {
            if |argv| == 2 { ScmdYare(DecodeId(argv[1])); }
          } else if argv[0] == "PADD" {
            if |argv| == 2 { ScmdPadd(DecodeId(argv[1])); }
          } else if argv[0] == "PDEL" {
            if |argv| == 2 { ScmdPdel(DecodeId(argv[1])); }
          } else if argv[0] == "PSET" {
            if |argv| == 4 { ScmdPset(DecodeId(argv[1]), CString(argv[2]), argv[3]); }
          }
        }
      }
    }

    /** One turn of the loop: the line from `prev` to the newline at `pos`. */
    method HandlePiece(packet: string, prev: nat, pos: nat)
      requires Valid() && prev <= pos < |packet| && pos == MemPos(packet, '\n', prev)
      modifies repr
      ensures Valid() && fresh(repr - old(repr))
      ensures Same(M.HandleAll(view, ReceiveFrom(packet, pos + 1)), M.HandleAll(old(view), ReceiveFrom(packet, prev)))
    {
      ReceiveCut(packet, prev, pos);
      if pos - prev > 0 {
        HandleCut(view, LineCommands(packet[prev..pos]), ReceiveFrom(packet, pos + 1), ReceiveFrom(packet, prev));
        HandleServerDecodedMsg(packet[prev..pos]);
      }
    }

    /** `handle_server_msg`: cut the packet at its newlines. */
    method HandleServerMsg(packet: string)
      requires Valid()
      modifies repr
      ensures Valid() && fresh(repr - old(repr))
      ensures view == M.HandlePacket(old(view), packet)
    {
      ghost var end := M.HandlePacket(view, packet);
      var prev := 0;
      var pos := FindByte(packet, '\n', prev);
      while pos >= 0
        invariant prev <= |packet| && pos == MemPos(packet, '\n', prev)
        invariant Valid() && fresh(repr - old(repr))
        invariant Same(M.HandleAll(view, ReceiveFrom(packet, prev)), end)
        decreases |packet| - prev
      {
        HandlePiece(packet, prev, pos);
        prev := pos + 1;
        pos := FindByte(packet, '\n', prev);
      }
      assert ReceiveFrom(packet, prev) == [];
    }
  }
}
