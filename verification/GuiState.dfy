/**
 * The state the graphical client keeps of the command-line client:
 * src/network/svcenet/wx/svcstate.cpp:14-181.  Every change of the state is also reported
 * as an event, and the window rebuilds the state from the events.
 */
module GuiState {
  import opened Options

  datatype Connection = Disconnected | Connecting | Connected

  datatype Event =
    | MutedEvent(flag: bool)
    | DeafenEvent(flag: bool)
    | ConnectionEvent(connection: Connection)
    | ServerSetEvent(key: string, value: string)
    | ServerEvent(host: string, address: string, port: nat)
    | UnknownEvent

  datatype State = State(muted: bool, deafen: bool, connection: Connection, serverInfo: map<string, string>)

  const INITIAL := State(false, false, Disconnected, map[])

  /** What an event tells about the state: a disconnect also empties the server map. */
  function Replay(s: State, e: Event): State {
    match e
    case MutedEvent(flag) => s.(muted := flag)
    case DeafenEvent(flag) => s.(deafen := flag)
    case ConnectionEvent(c) =>
      if c.Disconnected? then s.(connection := c, serverInfo := map[]) else s.(connection := c)
    case ServerSetEvent(key, value) => s.(serverInfo := s.serverInfo[key := value])
    case ServerEvent(host, address, port) => s
    case UnknownEvent => s
  }

  function ReplayAll(es: seq<Event>): State {
    if es == [] then INITIAL else Replay(ReplayAll(es[..|es| - 1]), es[|es| - 1])
  }

  /** The event reports a change: a flag or a connection other than the current one. */
  predicate IsChange(s: State, e: Event) {
    && (e.MutedEvent? ==> e.flag != s.muted)
    && (e.DeafenEvent? ==> e.flag != s.deafen)
    && (e.ConnectionEvent? ==> e.connection != s.connection)
  }

  ghost predicate NoRepeats(es: seq<Event>) {
    forall i :: 0 <= i < |es| ==> IsChange(ReplayAll(es[..i]), es[i])
  }

  /** No event of the same kind lies between i and j. */
  predicate Successive(es: seq<Event>, i: int, j: int) {
    0 <= i < j < |es|
    && ((es[i].MutedEvent? && es[j].MutedEvent? && forall k :: i < k < j ==> !es[k].MutedEvent?)
        || (es[i].DeafenEvent? && es[j].DeafenEvent? && forall k :: i < k < j ==> !es[k].DeafenEvent?)
        || (es[i].ConnectionEvent? && es[j].ConnectionEvent? && forall k :: i < k < j ==> !es[k].ConnectionEvent?))
  }

  /** Up to the next event of its kind, an event says what the state is. */
  lemma {:induction false} LastEventHolds(es: seq<Event>, i: nat, n: nat)
    requires i < n <= |es|
    ensures es[i].MutedEvent? && (forall k :: i < k < n ==> !es[k].MutedEvent?) ==>
              ReplayAll(es[..n]).muted == es[i].flag
    ensures es[i].DeafenEvent? && (forall k :: i < k < n ==> !es[k].DeafenEvent?) ==>
              ReplayAll(es[..n]).deafen == es[i].flag
    ensures es[i].ConnectionEvent? && (forall k :: i < k < n ==> !es[k].ConnectionEvent?) ==>
              ReplayAll(es[..n]).connection == es[i].connection
    decreases n
  {
    assert es[..n][..n - 1] == es[..n - 1];
    if i < n - 1 {
      LastEventHolds(es, i, n - 1);
    }
  }

  /** Successive events of one kind differ: mute and deafen events alternate, and no two
      successive connection events are equal. */
  lemma SuccessiveEventsDiffer(es: seq<Event>, i: nat, j: nat)
    requires NoRepeats(es) && Successive(es, i, j)
    ensures es[i] != es[j]
    ensures es[i].MutedEvent? || es[i].DeafenEvent? ==> es[j].flag == !es[i].flag
  {
    LastEventHolds(es, i, j);
    assert IsChange(ReplayAll(es[..j]), es[j]);
  }

  lemma ReplayLast(es: seq<Event>, e: Event)
    ensures ReplayAll(es + [e]) == Replay(ReplayAll(es), e)
    ensures NoRepeats(es) && IsChange(ReplayAll(es), e) ==> NoRepeats(es + [e])
  {
    var all := es + [e];
    assert all[..|es|] == es;
    forall i | 0 <= i < |es|
      ensures all[..i] == es[..i] && all[i] == es[i]
    {
    }
  }

  /** The events tell the state, and each reports a change. */
  ghost predicate Tell(es: seq<Event>, s: State) {
    ReplayAll(es) == s && NoRepeats(es)
  }

  /** The connection state a word of the command-line client names. */
  function Named(word: string): Option<Connection> {
    if word == "connecting" then Some(Connecting)
    else if word == "connected" then Some(Connected)
    else if word == "disconnected" then Some(Disconnected)
    else None
  }

  function ConnectionEvents(s: State, cmd: seq<string>): seq<Event> {
    if |cmd| == 2 && Named(cmd[1]).Some? && Named(cmd[1]).value != s.connection
    then [ConnectionEvent(Named(cmd[1]).value)] else []
  }

  function MutedEvents(s: State, cmd: seq<string>): seq<Event> {
    if |cmd| == 2 && cmd[1] == (if s.muted then "0" else "1") then [MutedEvent(!s.muted)] else []
  }

  function DeafenEvents(s: State, cmd: seq<string>): seq<Event> {
    if |cmd| == 2 && cmd[1] == (if s.deafen then "0" else "1") then [DeafenEvent(!s.deafen)] else []
  }

  function ServerEvents(cmd: seq<string>, port: nat): seq<Event> {
    if |cmd| == 4 then [ServerEvent(cmd[1], cmd[2], port)] else []
  }

  function ServerSetEvents(cmd: seq<string>): seq<Event> {
    if |cmd| == 3 then [ServerSetEvent(cmd[1], cmd[2])] else []
  }

  /** What a line is reported as: only changes of the flags and of the connection are. */
  function EventsOf(s: State, cmd: seq<string>, port: nat): seq<Event> {
    if cmd == [] then []
    else if cmd[0] == ":STATE" then ConnectionEvents(s, cmd)
    else if cmd[0] == ":MUTED" then MutedEvents(s, cmd)
    else if cmd[0] == ":DEAFEN" then DeafenEvents(s, cmd)
    else if cmd[0] == ":SERVER" then ServerEvents(cmd, port)
    else if cmd[0] == "SSET" then ServerSetEvents(cmd)
    else []
  }

  /** What each kind of line is reported as, by its words: a change of connection, mute or
      deafen, a server address, or a server value.  Every other line is reported as nothing. */
  lemma LineEvents(s: State, cmd: seq<string>, port: nat)
    ensures cmd == [":STATE", "connecting"] ==>
              EventsOf(s, cmd, port) == if s.connection.Connecting? then [] else [ConnectionEvent(Connecting)]
    ensures cmd == [":STATE", "connected"] ==>
              EventsOf(s, cmd, port) == if s.connection.Connected? then [] else [ConnectionEvent(Connected)]
    ensures cmd == [":STATE", "disconnected"] ==>
              EventsOf(s, cmd, port) == if s.connection.Disconnected? then [] else [ConnectionEvent(Disconnected)]
    ensures cmd == [":MUTED", "1"] ==> EventsOf(s, cmd, port) == if s.muted then [] else [MutedEvent(true)]
    ensures cmd == [":MUTED", "0"] ==> EventsOf(s, cmd, port) == if s.muted then [MutedEvent(false)] else []
    ensures cmd == [":DEAFEN", "1"] ==> EventsOf(s, cmd, port) == if s.deafen then [] else [DeafenEvent(true)]
    ensures cmd == [":DEAFEN", "0"] ==> EventsOf(s, cmd, port) == if s.deafen then [DeafenEvent(false)] else []
    ensures |cmd| == 4 && cmd[0] == ":SERVER" ==> EventsOf(s, cmd, port) == [ServerEvent(cmd[1], cmd[2], port)]
    ensures |cmd| == 3 && cmd[0] == "SSET" ==> EventsOf(s, cmd, port) == [ServerSetEvent(cmd[1], cmd[2])]
    ensures EventsOf(s, cmd, port) != [] ==>
              || (|cmd| == 2 && cmd[0] == ":STATE" && cmd[1] in {"connecting", "connected", "disconnected"})
              || (|cmd| == 2 && (cmd[0] == ":MUTED" || cmd[0] == ":DEAFEN") && cmd[1] in {"0", "1"})
              || (|cmd| == 4 && cmd[0] == ":SERVER") || (|cmd| == 3 && cmd[0] == "SSET")
  {
  }

  class SVCState {
    var locallyMuted: bool
    var locallyDeafen: bool
    var connectionState: Connection
    var serverInfo: map<string, string>
    var eventList: seq<Event>
    var logged: nat
    ghost var consumed: seq<Event>

    ghost function Emitted(): seq<Event>
      reads this
    {
      consumed + eventList
    }

    ghost function View(): State
      reads this
    {
      State(locallyMuted, locallyDeafen, connectionState, serverInfo)
    }

    /** Replaying all events, those taken and those waiting, gives the current state. */
    ghost predicate Valid()
      reads this
    {
      Tell(Emitted(), View())
    }

    constructor ()
      ensures Valid() && Emitted() == [] && logged == 0
      ensures !locallyMuted && !locallyDeafen && connectionState == Disconnected && serverInfo == map[]
    {
      locallyMuted := false;
      locallyDeafen := false;
      connectionState := Disconnected;
      serverInfo := map[];
      eventList := [];
      logged := 0;
      consumed := [];
    }

    /** Append an event to the list, where `s` is the state it changes. */
    method Append(e: Event, ghost s: State)
      requires Tell(Emitted(), s) && IsChange(s, e)
      modifies this`eventList
      ensures Same(Emitted(), old(Emitted()) + [e])
      ensures Tell(Emitted(), Replay(s, e))
    {
      ReplayLast(Emitted(), e);
      assert consumed + (eventList + [e]) == consumed + eventList + [e];
      eventList := eventList + [e];
    }

    lemma NothingEmitted()
      ensures Same(Emitted() + [], Emitted())
    {
      assert Emitted() + [] == Emitted();
    }

    method HandleStateMuted(cmd: seq<string>)
      requires Valid()
      modifies this
      ensures Valid() && consumed == old(consumed)
      ensures |cmd| == 2 && cmd[1] == "0" ==> !locallyMuted
      ensures |cmd| == 2 && cmd[1] == "1" ==> locallyMuted
      ensures !(|cmd| == 2 && cmd[1] in ["0", "1"]) ==> locallyMuted == old(locallyMuted)
      ensures Same(Emitted(), old(Emitted()) + MutedEvents(old(View()), cmd))
      ensures logged == old(logged) + if |cmd| == 2 then 0 else 1
      ensures locallyDeafen == old(locallyDeafen) && connectionState == old(connectionState)
      ensures serverInfo == old(serverInfo)
    {
      NothingEmitted();
      if |cmd| != 2 {
        logged := logged + 1;
        return;
      }
      if cmd[1] == "0" && locallyMuted {
        locallyMuted := false;
        Append(MutedEvent(false), old(View()));
      } else if cmd[1] == "1" && !locallyMuted {
        locallyMuted := true;
        Append(MutedEvent(true), old(View()));
      }
    }

    method HandleStateDeafen(cmd: seq<string>)
      requires Valid()
      modifies this
      ensures Valid() && consumed == old(consumed)
      ensures |cmd| == 2 && cmd[1] == "0" ==> !locallyDeafen
      ensures |cmd| == 2 && cmd[1] == "1" ==> locallyDeafen
      ensures !(|cmd| == 2 && cmd[1] in ["0", "1"]) ==> locallyDeafen == old(locallyDeafen)
      ensures Same(Emitted(), old(Emitted()) + DeafenEvents(old(View()), cmd))
      ensures logged == old(logged) + if |cmd| == 2 then 0 else 1
      ensures locallyMuted == old(locallyMuted) && connectionState == old(connectionState)
      ensures serverInfo == old(serverInfo)
    {
      NothingEmitted();
      if |cmd| != 2 {
        logged := logged + 1;
        return;
      }
      if cmd[1] == "0" && locallyDeafen {
        locallyDeafen := false;
        Append(DeafenEvent(false), old(View()));
      } else if cmd[1] == "1" && !locallyDeafen {
        locallyDeafen := true;
        Append(DeafenEvent(true), old(View()));
      }
    }

    /** What the three branches of `handleStateConnection` have in common. */
    method ChangeConnection(c: Connection)
      requires Valid() && c != connectionState
      modifies this
      ensures Valid() && consumed == old(consumed)
      ensures connectionState == c && serverInfo == if c.Disconnected? then map[] else old(serverInfo)
      ensures Same(Emitted(), old(Emitted()) + [ConnectionEvent(c)])
      ensures logged == old(logged) && locallyMuted == old(locallyMuted) && locallyDeafen == old(locallyDeafen)
    {
      connectionState := c;
      Append(ConnectionEvent(c), old(View()));
      if c == Disconnected {
        serverInfo := map[];
      }
      assert Same(View(), Replay(old(View()), ConnectionEvent(c)));
    }

    /** A state that is unknown, or no change, is only logged. */
    method HandleStateConnection(cmd: seq<string>)
      requires Valid()
      modifies this
      ensures Valid() && consumed == old(consumed)
      ensures connectionState ==
                if |cmd| == 2 && Named(cmd[1]).Some? then Named(cmd[1]).value else old(connectionState)
      ensures serverInfo ==
                if connectionState.Disconnected? && !old(connectionState).Disconnected? then map[] else old(serverInfo)
      ensures |cmd| == 2 && cmd[1] == "connecting" ==> connectionState == Connecting
      ensures |cmd| == 2 && cmd[1] == "connected" ==> connectionState == Connected
      ensures |cmd| == 2 && cmd[1] == "disconnected" ==> connectionState == Disconnected
      ensures Same(Emitted(), old(Emitted()) + ConnectionEvents(old(View()), cmd))
      ensures logged == old(logged) + if connectionState == old(connectionState) then 1 else 0
      ensures locallyMuted == old(locallyMuted) && locallyDeafen == old(locallyDeafen)
    {
      NothingEmitted();
      if |cmd| != 2 {
        logged := logged + 1;
        return;
      }
      var named := Named(cmd[1]);
      if named == Some(Connecting) && connectionState != Connecting {
        ChangeConnection(Connecting);
      } else if named == Some(Connected) && connectionState != Connected {
        ChangeConnection(Connected);
      } else if named == Some(Disconnected) && connectionState != Disconnected {
        ChangeConnection(Disconnected);
      } else {
        logged := logged + 1;
      }
    }

    method HandleStateServer(cmd: seq<string>, port: nat)
      requires Valid()
      modifies this
      ensures Valid() && consumed == old(consumed)
      ensures Same(Emitted(), old(Emitted()) + ServerEvents(cmd, port))
      ensures logged == old(logged) + if |cmd| == 4 then 0 else 1
    {
      NothingEmitted();
      if |cmd| != 4 {
        logged := logged + 1;
        return;
      }
      Append(ServerEvent(cmd[1], cmd[2], port), old(View()));
    }

    method HandleCommandSSET(cmd: seq<string>)
      requires Valid()
      modifies this
      ensures Valid() && consumed == old(consumed)
      ensures serverInfo == if |cmd| == 3 then old(serverInfo)[cmd[1] := cmd[2]] else old(serverInfo)
      ensures Same(Emitted(), old(Emitted()) + ServerSetEvents(cmd))
      ensures logged == old(logged) + if |cmd| == 3 then 0 else 1
      ensures locallyMuted == old(locallyMuted) && locallyDeafen == old(locallyDeafen)
      ensures connectionState == old(connectionState)
    {
      NothingEmitted();
      if |cmd| != 3 {
        logged := logged + 1;
        return;
      }
      serverInfo := serverInfo[cmd[1] := cmd[2]];
      Append(ServerSetEvent(cmd[1], cmd[2]), old(View()));
    }

    /** `parseCommand` on the words of a line; `port` is what the fourth word of a `:SERVER`
        line reads as. */
    method HandleWords(cmd: seq<string>, port: nat)
      requires Valid()
      modifies this
      ensures Valid() && consumed == old(consumed)
      ensures Same(Emitted(), old(Emitted()) + EventsOf(old(View()), cmd, port))
    {
      NothingEmitted();
      if cmd == [] {
        return;
      }
      if cmd[0] == ":STATE" {
        HandleStateConnection(cmd);
      } else if cmd[0] == ":MUTED" {
        HandleStateMuted(cmd);
      } else if cmd[0] == ":DEAFEN" {
        HandleStateDeafen(cmd);
      } else if cmd[0] == ":SERVER" {
        HandleStateServer(cmd, port);
      } else if cmd[0] == "SSET" {
        HandleCommandSSET(cmd);
      }
    }

    /** `getNextEvent` takes the oldest event; it makes one up when there is none. */
    method GetNextEvent() returns (event: Event)
      requires Valid()
      modifies this
      ensures Valid() && Emitted() == old(Emitted())
      ensures if old(eventList) == [] then event == UnknownEvent && eventList == []
              else consumed == old(consumed) + [event] && eventList == old(eventList)[1..]
    {
      if eventList == [] {
        return UnknownEvent;
      }
      event := eventList[0];
      assert consumed + eventList == consumed + [event] + eventList[1..];
      eventList := eventList[1..];
      consumed := consumed + [event];
    }
  }
}
