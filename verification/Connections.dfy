/** The agents' connections: one socket is registered for a device. Each socket is
    served by a handler of its own that registers it and, when the socket has ended,
    unregisters the device. */
module Connections {
  import opened Wrappers

  type Socket = int

  class ConnectionManager {
    var active: map<string, Socket>

    constructor ()
      ensures active == map[]
    {
      active := map[];
    }

    /** The new socket takes the place of the registered one, which is closed. */
    method ConnectAgent(device: string, socket: Socket) returns (closed: Option<Socket>)
      modifies this
      ensures active == Next(old(active), Connected(device, socket))
      ensures closed == if device in old(active) then Some(old(active)[device]) else None
    {
      closed := None;
      if device in active {
        closed := Some(active[device]);
      }
      active := active[device := socket];
    }

    /** The device is dropped whichever socket is registered for it. */
    method DisconnectAgent(device: string)
      modifies this
      ensures active == old(active) - {device}
    {
      if device in active {
        active := active - {device};
      }
    }

    predicate IsAgentOnline(device: string)
      reads this
    {
      device in active
    }

    /** accepted: whether writing to the registered socket raises nothing. */
    method SendCommand(device: string, accepted: Socket -> bool) returns (sent: bool)
      ensures sent <==> Sends(active, device, accepted)
      ensures Sends(active, device, accepted) <==> device in active && accepted(active[device])
    {
      if device !in active {
        return false;
      }
      return accepted(active[device]);
    }

    /** The end of a socket's handler. The device is marked offline unless it is still
        connected, and that is never so: the pop just before has removed it. */
    method EndHandler(device: string, socket: Socket) returns (markedOffline: bool)
      modifies this
      ensures active == Next(old(active), Ended(device, socket))
      ensures markedOffline
    {
      DisconnectAgent(device);
      markedOffline := !IsAgentOnline(device);
    }
  }

  /** Whether a command for the device goes out: it has a socket, and writing to it raises nothing. */
  predicate Sends(active: map<string, Socket>, device: string, accepted: Socket -> bool) {
    device in active && accepted(active[device])
  }

  datatype Event = Connected(device: string, socket: Socket) | Ended(device: string, socket: Socket)

  function Next(active: map<string, Socket>, e: Event): map<string, Socket> {
    match e
    case Connected(d, s) => active[d := s]
    case Ended(d, _) => active - {d}
  }

  function After(events: seq<Event>): map<string, Socket> {
    if events == [] then map[] else Next(After(events[..|events| - 1]), events[|events| - 1])
  }

  /** Event k is the last one about its device. */
  predicate LastOfDevice(events: seq<Event>, k: int) {
    && 0 <= k < |events|
    && forall m :: k < m < |events| ==> events[m].device != events[k].device
  }

  /** A device is registered exactly when the last thing that happened to it is a
      connection, and then with the socket of that connection. */
  lemma {:induction false} RegisteredIffLastConnected(events: seq<Event>, d: string, s: Socket)
    ensures d in After(events) && After(events)[d] == s <==>
            exists k :: LastOfDevice(events, k) && events[k] == Connected(d, s)
  {
    if events != [] {
      var n := |events| - 1;
      var before := events[..n];
      RegisteredIffLastConnected(before, d, s);
      if events[n].device == d {
        assert LastOfDevice(events, n);
        assert forall k :: LastOfDevice(events, k) && events[k].device == d ==> k == n;
      } else {
        assert forall k :: 0 <= k < n ==> before[k] == events[k];
        assert forall k :: LastOfDevice(events, k) && events[k].device == d <==> LastOfDevice(before, k) && before[k].device == d;
      }
    }
  }

  /** Event k connects the newest socket of its device, and its handler has not ended. */
  predicate NewestOpen(events: seq<Event>, k: int) {
    && 0 <= k < |events|
    && events[k].Connected?
    && forall m :: k < m < |events| && events[m].device == events[k].device ==>
         events[m].Ended? && events[m].socket != events[k].socket
  }

  /** The newest open socket of a device can be reached exactly when no handler of an
      older socket has ended since it connected. */
  lemma OpenIsReachableIff(events: seq<Event>, k: int)
    requires NewestOpen(events, k)
    ensures var d := events[k].device;
            (d in After(events) && After(events)[d] == events[k].socket) <==>
            forall m :: k < m < |events| && events[m].device == d ==> !events[m].Ended?
  {
    var d, s := events[k].device, events[k].socket;
    RegisteredIffLastConnected(events, d, s);
    assert events[k] == Connected(d, s);
    if forall m :: k < m < |events| && events[m].device == d ==> !events[m].Ended? {
      assert LastOfDevice(events, k);
    } else {
      var m :| k < m < |events| && events[m].device == d && events[m].Ended?;
    }
  }

  /** Reconnecting before the old handler has ended leaves the device unreachable,
      although its new socket is open. */
  lemma ReconnectIsLost(d: string, first: Socket, second: Socket)
    requires first != second
    ensures var events := [Connected(d, first), Connected(d, second), Ended(d, first)];
            NewestOpen(events, 1) && d !in After(events)
  {
    var events := [Connected(d, first), Connected(d, second), Ended(d, first)];
    assert events[2] == Ended(d, first) && events[..2] == [Connected(d, first), Connected(d, second)];
  }
}
