/**
 * The audio packet of channel 1: a source id and a length in 32 bits, a time in 16 bits, all
 * in network byte order, then the encoded sound
 * (src/network/svcenet/client/main.c:115-147, 719-743; server/main.c:680-705).
 */
module AudioPacket {
  import opened Options
  import opened SerialTime
  import ClientModel

  newtype byte = b: int | 0 <= b < 256

  /** `ENET_HOST_TO_NET_16`: an unsigned time loses all but its low 16 bits. */
  function Put16(n: nat): (r: seq<byte>)
    ensures |r| == 2
  {
    var m := n % PERIOD;
    [(m / 0x100) as byte, (m % 0x100) as byte]
  }

  function Get16(data: seq<byte>, at: nat): (n: nat)
    requires at + 2 <= |data|
    ensures n < PERIOD
  {
    data[at] as int * 0x100 + data[at + 1] as int
  }

  /** `ENET_HOST_TO_NET_32` on a value converted to 32 bits. */
  function Put32(n: nat): (r: seq<byte>)
    ensures |r| == 4
  {
    var m := n % UINT_RANGE;
    Put16(m / PERIOD) + Put16(m % PERIOD)
  }

  function Get32(data: seq<byte>, at: nat): (n: nat)
    requires at + 4 <= |data|
    ensures n < UINT_RANGE
  {
    Get16(data, at) * PERIOD + Get16(data, at + 2)
  }

  /** `send_callback`: no packet while the id is unknown or the client is muted. */
  function Build(id: nat, muted: bool, payload: seq<byte>, time: nat): Option<seq<byte>> {
    if id == ClientModel.NO_ID || muted then None
    else Some(Put32(id) + Put32(|payload| + 2) + Put16(time) + payload)
  }

  /** `decode_audio_packet`: the server passes the packet on unchanged, or refuses it. */
  function Relay(peerId: nat, data: seq<byte>): Option<seq<byte>> {
    if |data| <= 8 then None
    else if Get32(data, 0) != peerId then None
    else if Get32(data, 4) != |data| - 8 then None
    else Some(data)
  }

  datatype Sound = Sound(source: nat, payload: seq<byte>, time: Stamp)

  /** `np.data_len`: the length field less the two bytes of the time, in 32-bit arithmetic. */
  function HeardLength(data: seq<byte>): nat
    requires |data| >= 8
  {
    (Get32(data, 4) + UINT_RANGE - 2) % UINT_RANGE
  }

  /** The client reads the time at byte 8 and the sound from byte 10 on; both are there. */
  predicate StaysInside(data: seq<byte>) {
    |data| >= 10 && 10 + HeardLength(data) <= |data|
  }

  /** `handle_server_audio`.  None stands for a packet the client ignores: it is deafened, or
      the source is no slot of its table. */
  function Hear(peersSize: nat, deafened: bool, data: seq<byte>): Option<Sound>
    requires StaysInside(data)
  {
    var source := Get32(data, 0);
    if deafened || source >= peersSize then None
    else Some(Sound(source, data[10..10 + HeardLength(data)], Get16(data, 8)))
  }

  lemma Get16OfPut16(n: nat)
    ensures Get16(Put16(n), 0) == n % PERIOD
    ensures n < PERIOD ==> Get16(Put16(n), 0) == n
  {
  }

  lemma Get32OfParts(high: seq<byte>, low: seq<byte>)
    requires |high| == |low| == 2
    ensures Get32(high + low, 0) == Get16(high, 0) * PERIOD + Get16(low, 0)
  {
  }

  lemma Put32OfParts(high: nat, low: nat)
    requires high < PERIOD && low < PERIOD
    ensures Put32(high * PERIOD + low) == Put16(high) + Put16(low)
  {
    var n := high * PERIOD + low;
    assert n % UINT_RANGE == n && n / PERIOD == high && n % PERIOD == low;
  }

  lemma Get32OfPut32(n: nat)
    requires n < UINT_RANGE
    ensures Get32(Put32(n), 0) == n
  {
    var high, low := n / PERIOD, n % PERIOD;
    Put32OfParts(high, low);
    assert Get32(Put16(high) + Put16(low), 0) == n by {
      Get32OfParts(Put16(high), Put16(low));
      Get16OfPut16(high);
      Get16OfPut16(low);
      assert Get16(Put16(high), 0) == high && Get16(Put16(low), 0) == low;
    }
  }

  /** The bytes are in network order, the most significant first. */
  lemma NetworkOrder(n: nat)
    requires n < 0x1_0000_0000
    ensures var b := Put32(n);
            |b| == 4 && n == b[0] as int * 0x100_0000 + b[1] as int * 0x1_0000 + b[2] as int * 0x100 + b[3] as int
    ensures n < 0x1_0000 ==> |Put16(n)| == 2 && n == Put16(n)[0] as int * 0x100 + Put16(n)[1] as int
  {
    var high, low := n / PERIOD, n % PERIOD;
    Put32OfParts(high, low);
    HighThenLow(high);
    HighThenLow(low);
    assert n == high * PERIOD + low;
  }

  lemma HighThenLow(n: nat)
    requires n < PERIOD
    ensures n == Put16(n)[0] as int * 0x100 + Put16(n)[1] as int
  {
  }

  /** Nothing is sent by a muted client or by one that was not told its id; everybody else
      sends. */
  lemma SendsUnlessMuted(id: nat, muted: bool, payload: seq<byte>, time: nat)
    ensures Build(id, muted, payload, time) == None <==> muted || id == 0xFFFF_FFFF
  {
  }

  /** A client hears a packet unless it is deafened or the source is outside its table. */
  lemma HearsUnlessDeafened(peersSize: nat, deafened: bool, data: seq<byte>)
    requires StaysInside(data)
    ensures Hear(peersSize, deafened, data) == None <==> deafened || Get32(data, 0) >= peersSize
  {
  }

  lemma SamePut32(m: nat, n: nat)
    requires m < UINT_RANGE && n < UINT_RANGE
    ensures Put32(m) == Put32(n) <==> m == n
  {
    Get32OfPut32(m);
    Get32OfPut32(n);
  }

  /** The server passes on exactly what starts with the sender's id and with the length of a
      rest of at least one byte. */
  lemma RelayedExactly(id: nat, data: seq<byte>)
    requires id < 0x1_0000_0000
    ensures Relay(id, data) == Some(data) || Relay(id, data) == None
    ensures Relay(id, data) == Some(data) <==>
              |data| >= 9 && |data| - 8 < 0x1_0000_0000 && data[..8] == Put32(id) + Put32(|data| - 8)
  {
    if |data| >= 9 {
      Put32OfGet32(data, 0);
      Put32OfGet32(data, 4);
      assert data[..8] == data[0..4] + data[4..8];
      assert data[0..4] == data[..8][..4] && data[4..8] == data[..8][4..];
      SamePut32(Get32(data, 0), id);
      if |data| - 8 < 0x1_0000_0000 {
        SamePut32(Get32(data, 4), |data| - 8);
      }
    }
  }

  lemma Put16OfGet16(data: seq<byte>, at: nat)
    requires at + 2 <= |data|
    ensures Put16(Get16(data, at)) == data[at..at + 2]
  {
  }

  lemma Put32OfGet32(data: seq<byte>, at: nat)
    requires at + 4 <= |data|
    ensures Put32(Get32(data, at)) == data[at..at + 4]
  {
    Put32OfParts(Get16(data, at), Get16(data, at + 2));
    Put16OfGet16(data, at);
    Put16OfGet16(data, at + 2);
    assert data[at..at + 2] + data[at + 2..at + 4] == data[at..at + 4];
  }

  lemma Header(id: nat, payload: seq<byte>, time: nat)
    requires id < 0xFFFF_FFFF && |payload| + 2 < 0x1_0000_0000
    ensures var data := Build(id, false, payload, time).value;
            && |data| == |payload| + 10
            && Get32(data, 0) == id
            && Get32(data, 4) == |payload| + 2
            && Get16(data, 8) == time % 0x1_0000
            && data[10..] == payload
  {
    var data := Build(id, false, payload, time).value;
    assert data[0..4] == Put32(id) && data[4..8] == Put32(|payload| + 2) && data[8..10] == Put16(time);
    Get32OfPut32(id);
    Get32OfPut32(|payload| + 2);
    Get16OfPut16(time);
    assert forall i :: 0 <= i < 4 ==> data[i] == Put32(id)[i];
    assert forall i :: 0 <= i < 4 ==> data[4 + i] == data[4..8][i];
    assert forall i :: 0 <= i < 2 ==> data[8 + i] == data[8..10][i];
  }

  /** Round trip, for every payload length: a packet built by a client passes the server as
      coming from that client and from no other, and a client that knows the source hears
      the same payload with the 16-bit time. */
  lemma RoundTrip(id: nat, payload: seq<byte>, time: nat, peerId: nat, peersSize: nat)
    requires id < 0xFFFF_FFFF && |payload| + 2 < 0x1_0000_0000
    ensures var data := Build(id, false, payload, time).value;
            && (Relay(peerId, data) == Some(data) <==> peerId == id)
            && (Relay(peerId, data) == None <==> peerId != id)
            && StaysInside(data)
            && Hear(peersSize, false, data) ==
                 if id < peersSize then Some(Sound(id, payload, time % 0x1_0000)) else None
  {
    Header(id, payload, time);
    var data := Build(id, false, payload, time).value;
    assert data[10..10 + |payload|] == data[10..];
  }

  /** Of the packets the server passes on, the client's header arithmetic stays inside exactly
      those that are as long as a header. */
  lemma RelayedStaysInside(id: nat, data: seq<byte>)
    requires Relay(id, data) == Some(data)
    ensures StaysInside(data) <==> |data| >= 10
  {
  }

  /** The server does pass on packets that are shorter, namely of nine bytes. */
  lemma NineBytesAreRelayed(id: nat, last: byte)
    requires id < 0xFFFF_FFFF
    ensures var data := Put32(id) + Put32(1) + [last];
            Relay(id, data) == Some(data) && !StaysInside(data)
  {
    var data := Put32(id) + Put32(1) + [last];
    Get32OfPut32(id);
    Get32OfPut32(1);
    assert forall i :: 0 <= i < 4 ==> data[i] == Put32(id)[i];
    assert forall i :: 0 <= i < 4 ==> data[4 + i] == Put32(1)[i];
  }

  /** What the server passes on for a client, from the length of a header on, is exactly what
      that client can build. */
  lemma RelayedIsBuilt(id: nat, data: seq<byte>)
    requires id < 0xFFFF_FFFF
    ensures Relay(id, data) == Some(data) && |data| >= 10 <==>
            exists payload: seq<byte>, time: nat ::
              |payload| + 2 < UINT_RANGE && Build(id, false, payload, time) == Some(data)
  {
    if Relay(id, data) == Some(data) && |data| >= 10 {
      var time := Get16(data, 8);
      Put32OfGet32(data, 0);
      Put32OfGet32(data, 4);
      Put16OfGet16(data, 8);
      assert data == data[0..4] + data[4..8] + data[8..10] + data[10..];
      assert Build(id, false, data[10..], time) == Some(data);
    }
    forall payload: seq<byte>, time: nat | |payload| + 2 < UINT_RANGE && Build(id, false, payload, time) == Some(data)
      ensures Relay(id, data) == Some(data) && |data| >= 10
    {
      RoundTrip(id, payload, time, id, 0);
    }
  }
}
