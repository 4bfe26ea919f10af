/** Creation of the per-tracker sessions once the master is in measurement
    mode, and the barrier that waits for every tracker's first packet
    (xdamtwreceive.py, main body). */
module MtwSetup {
  import opened Common
  import opened Xda
  import opened PacketBuffer

  /** The ids of the enumeration that are trackers, in enumeration order. */
  function MtwIds(all: seq<DeviceId>): (ids: seq<DeviceId>)
    ensures forall k :: 0 <= k < |ids| ==> ids[k].IsMtw()
    ensures forall id :: id in ids <==> id in all && id.IsMtw()
  {
    if all == [] then []
    else
      var rest := MtwIds(all[1..]);
      assert all == [all[0]] + all[1..];
      if all[0].IsMtw() then [all[0]] + rest else rest
  }

  /** The filter keeps the enumeration order. */
  lemma {:induction false} MtwIdsKeepOrder(all: seq<DeviceId>)
    ensures Embeds(MtwIds(all), all)
  {
    if all != [] {
      MtwIdsKeepOrder(all[1..]);
    }
  }

  /** The filter keeps every tracker id as often as it occurs in the
      enumeration and drops every other id. */
  lemma {:induction false} MtwIdsCounts(all: seq<DeviceId>)
    ensures forall id :: multiset(MtwIds(all))[id] == if id.IsMtw() then multiset(all)[id] else 0
  {
    if all != [] {
      MtwIdsCounts(all[1..]);
      assert all == [all[0]] + all[1..];
    }
  }

  /** Every id can be turned into a device handle. */
  predicate AllResolvable(ids: seq<DeviceId>, known: map<DeviceId, Device>)
  {
    forall k :: 0 <= k < |ids| ==> ids[k] in known
  }

  /** Every tracker id of an enumeration has a device handle. */
  predicate TrackersResolvable(all: seq<DeviceId>, known: map<DeviceId, Device>)
  {
    forall k :: 0 <= k < |all| && all[k].IsMtw() ==> all[k] in known
  }

  /** Resolving the filtered ids succeeds exactly when every tracker id of
      the enumeration is known. */
  lemma {:induction false} ResolvableAfterFilter(all: seq<DeviceId>, known: map<DeviceId, Device>)
    ensures AllResolvable(MtwIds(all), known) <==> TrackersResolvable(all, known)
  {
    var ids := MtwIds(all);
    if AllResolvable(ids, known) {
      forall k | 0 <= k < |all| && all[k].IsMtw()
        ensures all[k] in known
      {
        assert all[k] in ids;
      }
    }
    if TrackersResolvable(all, known) {
      forall k | 0 <= k < |ids|
        ensures ids[k] in known
      {
        assert ids[k] in all;
      }
    }
  }

  /** Looks each tracker id up among the devices the control object knows,
      in order; the first id without a device aborts with no result. */
  method ResolveMtwDevices(ids: seq<DeviceId>, known: map<DeviceId, Device>) returns (devices: Option<seq<Device>>)
    ensures devices.Some? <==> AllResolvable(ids, known)
    ensures devices.Some? ==>
      |devices.value| == |ids| &&
      forall k :: 0 <= k < |ids| ==> ids[k] in known && devices.value[k] == known[ids[k]]
  {
    var found: seq<Device> := [];
    for i := 0 to |ids|
      invariant |found| == i
      invariant forall k :: 0 <= k < i ==> ids[k] in known && found[k] == known[ids[k]]
    {
      if ids[i] in known {
        found := found + [known[ids[i]]];
      } else {
        return None;
      }
    }
    devices := Some(found);
  }

  /** One fresh, empty callback per device; the callback at position i gets
      index i. */
  method CreateCallbacks(devices: seq<Device>) returns (callbacks: seq<MtwCallback>)
    ensures |callbacks| == |devices|
    ensures forall i :: 0 <= i < |callbacks| ==>
      fresh(callbacks[i]) && callbacks[i].Valid() && callbacks[i].packets == [] &&
      callbacks[i].index == i && callbacks[i].device == devices[i]
    ensures forall i, j :: 0 <= i < j < |callbacks| ==> callbacks[i] != callbacks[j]
  {
    callbacks := [];
    for i := 0 to |devices|
      invariant |callbacks| == i
      invariant forall k :: 0 <= k < i ==>
        fresh(callbacks[k]) && callbacks[k].Valid() && callbacks[k].packets == [] &&
        callbacks[k].index == k && callbacks[k].device == devices[k]
      invariant forall k, l :: 0 <= k < l < i ==> callbacks[k] != callbacks[l]
    {
      var cb := new MtwCallback(i, devices[i]);
      callbacks := callbacks + [cb];
    }
  }

  /** Filters the enumeration to trackers, resolves each, and creates one
      callback per device, the callback at position i getting index i. An
      unresolved id aborts before any callback is created. */
  method InstantiateMtws(all: seq<DeviceId>, known: map<DeviceId, Device>) returns (callbacks: Option<seq<MtwCallback>>)
    ensures callbacks.None? <==> !AllResolvable(MtwIds(all), known)
    ensures callbacks.None? <==> !TrackersResolvable(all, known)
    ensures callbacks.Some? ==>
      var ids := MtwIds(all);
      var cbs := callbacks.value;
      |cbs| == |ids| &&
      (forall i :: 0 <= i < |cbs| ==>
        fresh(cbs[i]) && cbs[i].Valid() && cbs[i].packets == [] &&
        cbs[i].index == i && cbs[i].device == known[ids[i]]) &&
      (forall i, j :: 0 <= i < j < |cbs| ==> cbs[i] != cbs[j])
  {
    var ids := MtwIds(all);
    ResolvableAfterFilter(all, known);
    var devices := ResolveMtwDevices(ids, known);
    if devices.None? {
      return None;
    }
    var cbs := CreateCallbacks(devices.value);
    callbacks := Some(cbs);
  }

  /** The ready-to-record test: every tracker has at least one packet
      buffered (vacuously true when there are no trackers, as `all([])` is). */
  function AllDataAvailable(callbacks: seq<MtwCallback>): (ready: bool)
    reads callbacks
    ensures ready <==> forall i :: 0 <= i < |callbacks| ==> callbacks[i].packets != []
  {
    if callbacks == [] then true
    else callbacks[0].packets != [] && AllDataAvailable(callbacks[1..])
  }
}
