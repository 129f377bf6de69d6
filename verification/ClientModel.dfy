/**
 * What the client of src/network/svcenet/client/main.c does with the commands of the
 * server (lines 549-655), on values.  The class `Client` runs it in place.
 */
module ClientModel {
  import opened Options
  import opened Protocol

  /** A slot of the client's peer table.  PDEL frees the dictionary but leaves the pointer. */
  datatype ClientPeer = Unused | Added(data: map<string, string>) | Deleted

  /** `my_id` before YARE: -1 as an unsigned int. */
  const NO_ID := 0xFFFF_FFFF

  /** `broken` is raised by a command whose handler follows a null or freed pointer or
      overflows the table size; no statement is made about the client after that. */
  datatype Client = Client(
    myId: nat,
    serverInfo: map<string, string>,
    peers: seq<ClientPeer>,
    broken: bool)

  /** A client that has just connected. */
  const CONNECTED := Client(NO_ID, map[], [], false)

  /** The peer table enlarged to hold slot `id`. */
  function Enlarge(peers: seq<ClientPeer>, id: nat): (r: seq<ClientPeer>)
    ensures id < |r|
    ensures forall i :: 0 <= i < |r| ==> r[i] == if i < |peers| then peers[i] else Unused
  {
    if |peers| <= id then peers + seq(id + 1 - |peers|, i => Unused) else peers
  }

  function Handle(c: Client, cmd: Command): Client {
    if c.broken then c
    else
      match cmd
      case Sset(key, value) => c.(serverInfo := c.serverInfo[key := value])
      case Yare(id) => c.(myId := id)
      case Padd(id) =>
        if id >= INT_MAX then c.(broken := true)
        else c.(peers := Enlarge(c.peers, id)[id := Added(map[])])
      case Pdel(id) =>
        if id >= |c.peers| then c
        else if c.peers[id].Added? then c.(peers := c.peers[id := Deleted])
        else c.(broken := true)
      case Pset(id, key, value) =>
        if id >= |c.peers| then c
        else if c.peers[id].Added? then c.(peers := c.peers[id := Added(c.peers[id].data[key := value])])
        else c.(broken := true)
      case Mesg(text) => c
  }

  function HandleAll(c: Client, cmds: seq<Command>): Client
    decreases |cmds|
  {
    if cmds == [] then c else HandleAll(Handle(c, cmds[0]), cmds[1..])
  }

  /** One packet of channel 0. */
  function HandlePacket(c: Client, packet: string): Client {
    HandleAll(c, Receive(packet))
  }

  /** The packets still under way, in order. */
  function HandlePackets(c: Client, packets: seq<string>): Client
    decreases |packets|
  {
    if packets == [] then c else HandlePackets(HandlePacket(c, packets[0]), packets[1..])
  }

  lemma {:induction false} HandleAllConcat(c: Client, a: seq<Command>, b: seq<Command>)
    ensures HandleAll(c, a + b) == HandleAll(HandleAll(c, a), b)
    decreases |a|
  {
    if a == [] {
      assert a + b == b;
    } else {
      assert (a + b)[1..] == a[1..] + b;
      HandleAllConcat(Handle(c, a[0]), a[1..], b);
    }
  }

  lemma {:induction false} HandlePacketsAppend(c: Client, packets: seq<string>, packet: string)
    ensures HandlePackets(c, packets + [packet]) == HandlePacket(HandlePackets(c, packets), packet)
    decreases |packets|
  {
    if packets == [] {
      assert packets + [packet] == [packet];
      assert HandlePackets(HandlePacket(c, packet), []) == HandlePacket(c, packet);
    } else {
      assert (packets + [packet])[1..] == packets[1..] + [packet];
      HandlePacketsAppend(HandlePacket(c, packets[0]), packets[1..], packet);
    }
  }

  lemma {:induction false} BrokenStays(c: Client, cmds: seq<Command>)
    requires c.broken
    ensures HandleAll(c, cmds) == c
    decreases |cmds|
  {
    if cmds != [] {
      BrokenStays(c, cmds[1..]);
    }
  }

  /** A client that ends up sound was sound all along. */
  lemma {:induction false} SoundBefore(c: Client, packets: seq<string>)
    requires !HandlePackets(c, packets).broken
    ensures !c.broken
    decreases |packets|
  {
    if packets != [] {
      SoundBefore(HandlePacket(c, packets[0]), packets[1..]);
      if c.broken {
        BrokenStays(c, Receive(packets[0]));
      }
    }
  }

  /** The dictionary the client keeps for an id. */
  function DataOf(c: Client, id: nat): Option<map<string, string>> {
    if id < |c.peers| && c.peers[id].Added? then Some(c.peers[id].data) else None
  }

  /** What one command does, told by ids: PADD starts an empty dictionary for its id, PDEL ends
      it, PSET sets a key of it, and no other id is touched. */
  lemma HandleByIds(c: Client, cmd: Command, id: nat)
    requires !c.broken && !Handle(c, cmd).broken
    ensures var r, was := Handle(c, cmd), DataOf(c, id);
            && DataOf(r, id) == (
                 if cmd == Padd(id) then Some(map[])
                 else if cmd == Pdel(id) then None
                 else if cmd.Pset? && cmd.id == id && was.Some? then Some(was.value[cmd.key := cmd.value])
                 else was)
            && r.serverInfo == (if cmd.Sset? then c.serverInfo[cmd.key := cmd.value] else c.serverInfo)
            && r.myId == (if cmd.Yare? then cmd.id else c.myId)
  {
  }

  /** When a sound client fails: at a PADD whose id leaves no room for the table size in an
      `int`, and at a PDEL or PSET within the table for an id without a dictionary. */
  lemma BreaksExactly(c: Client, cmd: Command)
    requires !c.broken
    ensures Handle(c, cmd).broken <==>
              (cmd.Padd? && cmd.id >= 0x7FFF_FFFF)
              || ((cmd.Pdel? || cmd.Pset?) && cmd.id < |c.peers| && DataOf(c, cmd.id) == None)
    ensures !Handle(c, cmd).broken ==>
              |Handle(c, cmd).peers| == if cmd.Padd? && cmd.id >= |c.peers| then cmd.id + 1 else |c.peers|
  {
  }
}
