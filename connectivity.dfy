/** The set of trackers currently connected to the wireless master, kept up to
    date by the master's connectivity callback (xdamtwreceive.py,
    WirelessMasterCallback). Each method is one atomic step under the
    callback's lock. */
module Connectivity {
  import opened Common
  import opened Xda

  /** The `XsConnectivityState` values the callback distinguishes; `OtherState`
      stands for every value that reaches the final `else` branch (reported
      as "Error"). */
  datatype ConnectivityState =
    Disconnected | Rejected | PluggedIn | Wireless | File | Unknown | OtherState

  /** The connected set after one connectivity event: only `Wireless` adds
      the device; every other state discards it, which is a no-op when it is
      absent. */
  function AfterEvent(connected: set<Device>, dev: Device, state: ConnectivityState): (r: set<Device>)
    ensures dev in r <==> state == Wireless
    ensures forall d :: d != dev ==> (d in r <==> d in connected)
  {
    match state
    case Disconnected => connected - {dev}
    case Rejected => connected - {dev}
    case PluggedIn => connected - {dev}
    case Wireless => connected + {dev}
    case File => connected - {dev}
    case Unknown => connected - {dev}
    case OtherState => connected - {dev}
  }

  /** Delivering the same event twice has the effect of delivering it once. */
  lemma AfterEventIdempotent(connected: set<Device>, dev: Device, state: ConnectivityState)
    ensures AfterEvent(AfterEvent(connected, dev, state), dev, state) == AfterEvent(connected, dev, state)
  {
  }

  /** A non-connect event for a device that is not in the set changes nothing;
      a connect event for a device already in the set changes nothing. */
  lemma AfterEventNoopCases(connected: set<Device>, dev: Device, state: ConnectivityState)
    ensures state != Wireless && dev !in connected ==> AfterEvent(connected, dev, state) == connected
    ensures state == Wireless && dev in connected ==> AfterEvent(connected, dev, state) == connected
  {
  }

  datatype ConnectivityEvent = ConnectivityEvent(dev: Device, state: ConnectivityState)

  /** The connected set after a whole history of events, oldest first. */
  function ApplyEvents(connected: set<Device>, events: seq<ConnectivityEvent>): set<Device>
  {
    if events == [] then connected
    else
      var e := events[|events| - 1];
      AfterEvent(ApplyEvents(connected, events[..|events| - 1]), e.dev, e.state)
  }

  /** The state carried by the most recent event about `d`, if any. */
  function LastStateFor(events: seq<ConnectivityEvent>, d: Device): Option<ConnectivityState>
  {
    if events == [] then None
    else if events[|events| - 1].dev == d then Some(events[|events| - 1].state)
    else LastStateFor(events[..|events| - 1], d)
  }

  /** After any history of events, a device is connected exactly when the last
      event about it was `Wireless`; a device no event mentions keeps its
      initial membership. */
  lemma {:induction false} MembershipFollowsLastEvent(connected: set<Device>, events: seq<ConnectivityEvent>, d: Device)
    ensures d in ApplyEvents(connected, events) <==>
      match LastStateFor(events, d)
      case None => d in connected
      case Some(s) => s == Wireless
  {
    if events != [] {
      MembershipFollowsLastEvent(connected, events[..|events| - 1], d);
    }
  }

  class WirelessMasterCallback {
    var connected: set<Device>

    constructor ()
      ensures connected == {}
    {
      connected := {};
    }

    /** A snapshot of the connected set; the set itself is not changed. */
    method GetWirelessMTWs() returns (snapshot: set<Device>)
      ensures snapshot == connected
    {
      snapshot := connected;
    }

    method OnConnectivityChanged(dev: Device, state: ConnectivityState)
      modifies this
      ensures dev in connected <==> state == Wireless
      ensures forall d :: d != dev ==> (d in connected <==> d in old(connected))
      ensures connected == AfterEvent(old(connected), dev, state)
    {
      match state
      case Disconnected => connected := connected - {dev};
      case Rejected => connected := connected - {dev};
      case PluggedIn => connected := connected - {dev};
      case Wireless => connected := connected + {dev};
      case File => connected := connected - {dev};
      case Unknown => connected := connected - {dev};
      case OtherState => connected := connected - {dev};
    }
  }
}
