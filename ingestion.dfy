/** One pass of the main loop after recording has started: every tracker
    with buffered data gives up its oldest packet, whose orientation is
    stored in that tracker's slot of `euler` (xdamtwreceive.py, main body). */
module Ingestion {
  import opened Xda
  import opened PacketBuffer

  /** The loop body for tracker `i`: if its buffer holds a packet, take the
      oldest one and store its orientation in `euler[i]`. */
  method TakeOldest(cb: MtwCallback, euler: array<Euler>, i: nat) returns (took: bool)
    requires i < euler.Length && cb.Valid()
    modifies cb, euler
    ensures cb.Valid()
    ensures took <==> old(cb.packets) != []
    ensures took ==> cb.packets == old(cb.packets)[1..] && euler[i] == old(cb.packets)[0].orientation
    ensures !took ==> cb.packets == old(cb.packets) && euler[i] == old(euler[i])
    ensures forall k :: 0 <= k < euler.Length && k != i ==> euler[k] == old(euler[k])
  {
    took := cb.DataAvailable();
    if took {
      var packet := cb.GetOldestPacket();
      euler[i] := packet.orientation;
      cb.DeleteOldestPacket();
    }
  }

  method IngestOnce(callbacks: seq<MtwCallback>, euler: array<Euler>) returns (newDataAvailable: bool)
    requires euler.Length == |callbacks|
    requires forall i, j :: 0 <= i < j < |callbacks| ==> callbacks[i] != callbacks[j]
    requires forall i :: 0 <= i < |callbacks| ==> callbacks[i].Valid()
    modifies euler, callbacks
    ensures forall i :: 0 <= i < |callbacks| ==> callbacks[i].Valid()
    ensures forall i :: 0 <= i < |callbacks| && old(callbacks[i].packets) != [] ==>
      callbacks[i].packets == old(callbacks[i].packets)[1..] &&
      euler[i] == old(callbacks[i].packets)[0].orientation
    ensures forall i :: 0 <= i < |callbacks| && old(callbacks[i].packets) == [] ==>
      callbacks[i].packets == [] && euler[i] == old(euler[i])
    ensures newDataAvailable <==> exists i :: 0 <= i < |callbacks| && old(callbacks[i].packets) != []
  {
    newDataAvailable := false;
    for i := 0 to |callbacks|
      invariant forall k :: 0 <= k < |callbacks| ==> callbacks[k].Valid()
      invariant forall k :: 0 <= k < i && old(callbacks[k].packets) != [] ==>
        callbacks[k].packets == old(callbacks[k].packets)[1..] &&
        euler[k] == old(callbacks[k].packets)[0].orientation
      invariant forall k :: 0 <= k < i && old(callbacks[k].packets) == [] ==>
        callbacks[k].packets == [] && euler[k] == old(euler[k])
      invariant forall k :: i <= k < |callbacks| ==>
        callbacks[k].packets == old(callbacks[k].packets) && euler[k] == old(euler[k])
      invariant newDataAvailable <==> exists k :: 0 <= k < i && old(callbacks[k].packets) != []
    {
      var took := TakeOldest(callbacks[i], euler, i);
      if took {
        newDataAvailable := true;
      }
    }
  }
}
