/** The per-tracker packet buffer (xdamtwreceive.py, MtwCallback): a
    `deque(maxlen=300)` filled by the tracker's data callback and drained by
    the main loop. Each method is one atomic step under the callback's lock. */
module PacketBuffer {
  import opened Common
  import opened Xda

  /** The `maxlen` of the deque. */
  const Capacity: nat := 300

  /** The newest `Capacity` elements of `s`, in order (all of `s` when it is
      no longer than that). */
  function Newest<T>(s: seq<T>): (r: seq<T>)
    ensures |r| == if |s| <= Capacity then |s| else Capacity
    ensures r == s[|s| - |r|..]
  {
    if |s| <= Capacity then s else s[|s| - Capacity..]
  }

  /** Truncating early does not change what a later truncation keeps. */
  lemma NewestOfNewest<T>(s: seq<T>, t: seq<T>)
    ensures Newest(Newest(s) + t) == Newest(s + t)
  {
    if |s| > Capacity {
      var k := |s| - Capacity;
      assert Newest(s) + t == (s + t)[k..];
    }
  }

  class MtwCallback {
    var packets: seq<Packet>
    const index: nat
    const device: Device

    ghost predicate Valid()
      reads this
    {
      |packets| <= Capacity
    }

    constructor (mtwIndex: nat, dev: Device)
      ensures Valid()
      ensures packets == [] && index == mtwIndex && device == dev
    {
      packets := [];
      index := mtwIndex;
      device := dev;
    }

    method DataAvailable() returns (available: bool)
      ensures available <==> packets != []
    {
      available := |packets| > 0;
    }

    /** Peeks the oldest packet; `deque[0]` raises on an empty deque, hence
        the precondition. */
    method GetOldestPacket() returns (p: Packet)
      requires packets != []
      ensures p == packets[0]
    {
      p := packets[0];
    }

    /** Removes the oldest packet; `popleft()` raises on an empty deque,
        hence the precondition. */
    method DeleteOldestPacket()
      requires Valid() && packets != []
      modifies this
      ensures Valid()
      ensures packets == old(packets)[1..]
    {
      packets := packets[1..];
    }

    method GetMtwIndex() returns (i: nat)
      ensures i == index
    {
      i := index;
    }

    /** Appends a live packet. A full deque first drops its front, so the
        newest `Capacity` packets are kept; the explicit length check that
        follows in the source can therefore never fire (had it fired, the
        nested `deleteOldestPacket` would have re-acquired the same
        non-reentrant lock). */
    method OnLiveDataAvailable(p: Packet)
      requires Valid()
      modifies this
      ensures Valid()
      ensures packets == Newest(old(packets) + [p])
    {
      if |packets| == Capacity {
        packets := packets[1..];
      }
      packets := packets + [p];
      if |packets| > Capacity {
        assert false;
      }
    }
  }

  /** The buffer after a series of appends, oldest first. */
  function AppendAll(buf: seq<Packet>, ps: seq<Packet>): seq<Packet>
    decreases |ps|
  {
    if ps == [] then buf else AppendAll(Newest(buf + [ps[0]]), ps[1..])
  }

  /** Appending packet by packet keeps exactly the newest `Capacity` of all
      packets seen, in arrival order. */
  lemma {:induction false} AppendAllKeepsNewest(buf: seq<Packet>, ps: seq<Packet>)
    requires |buf| <= Capacity
    ensures AppendAll(buf, ps) == Newest(buf + ps)
    decreases |ps|
  {
    if ps != [] {
      var nb := Newest(buf + [ps[0]]);
      calc {
        AppendAll(buf, ps);
        AppendAll(nb, ps[1..]);
        { AppendAllKeepsNewest(nb, ps[1..]); }
        Newest(nb + ps[1..]);
        { NewestOfNewest(buf + [ps[0]], ps[1..]); }
        Newest(buf + [ps[0]] + ps[1..]);
        { assert buf + [ps[0]] + ps[1..] == buf + ps; }
        Newest(buf + ps);
      }
    }
  }

  /** From an empty buffer, after n appends the buffer holds at most
      `Capacity` packets: the last min(n, Capacity) of them. */
  lemma BufferAfterAppends(ps: seq<Packet>)
    ensures |AppendAll([], ps)| <= Capacity
    ensures |AppendAll([], ps)| == if |ps| <= Capacity then |ps| else Capacity
    ensures AppendAll([], ps) == ps[|ps| - |AppendAll([], ps)|..]
  {
    AppendAllKeepsNewest([], ps);
    assert [] + ps == ps;
  }

  // ---------------------------------------------------------------------
  // Producer and consumer interleaved

  /** How far the main loop has got with taking a packet from this buffer.
      `dataAvailable`, `getOldestPacket` and `deleteOldestPacket` each take
      the lock on their own, so packets can arrive between the three calls. */
  datatype ConsumerPhase = Idle | Checked | Peeked

  /** What happens to one buffer: a packet is delivered (one whole
      `onLiveDataAvailable` under the lock), or the main loop makes its next
      call on it. */
  datatype BufferEvent = Arrive(p: Packet) | ConsumerCall

  /** The buffer, the packets the main loop has read so far (by
      `getOldestPacket`), and where the main loop is. */
  datatype BufferState = BufferState(buffer: seq<Packet>, consumed: seq<Packet>, phase: ConsumerPhase)

  const Initial: BufferState := BufferState([], [], Idle)

  /** One event. The consumer checks (`dataAvailable`; on an empty buffer it
      moves on and tries again later), then reads the front packet, then
      pops the front. The empty-buffer cases of the read and the pop would
      raise in the source; `ConsumerNeverFindsEmpty` shows they cannot
      occur, so they are written as no-ops. */
  function Step(st: BufferState, e: BufferEvent): BufferState
  {
    match e
    case Arrive(p) => st.(buffer := Newest(st.buffer + [p]))
    case ConsumerCall =>
      match st.phase
      case Idle => if st.buffer == [] then st else st.(phase := Checked)
      case Checked =>
        if st.buffer == [] then st.(phase := Idle)
        else st.(consumed := st.consumed + [st.buffer[0]], phase := Peeked)
      case Peeked =>
        if st.buffer == [] then st.(phase := Idle)
        else st.(buffer := st.buffer[1..], phase := Idle)
  }

  /** A history of events, oldest first. */
  function Replay(st: BufferState, events: seq<BufferEvent>): BufferState
    decreases |events|
  {
    if events == [] then st else Replay(Step(st, events[0]), events[1..])
  }

  /** The packet an event delivers, if any. */
  function Delivered(e: BufferEvent): seq<Packet>
  {
    if e.Arrive? then [e.p] else []
  }

  function Arrivals(events: seq<BufferEvent>): seq<Packet>
  {
    if events == [] then [] else Delivered(events[0]) + Arrivals(events[1..])
  }

  /** The buffered packets the main loop can still read: once it has read
      the front packet, whatever is at the front is the one its pop removes. */
  function Pending(st: BufferState): seq<Packet>
  {
    if st.phase == Peeked && st.buffer != [] then st.buffer[1..] else st.buffer
  }

  /** The invariant of one buffer: it holds at most `Capacity` packets, a
      successful check is not undone before the pop, and the packets read
      followed by those still readable are an ordered sub-sequence of the
      packets delivered (`prior`). */
  predicate Consistent(st: BufferState, prior: seq<Packet>)
  {
    && |st.buffer| <= Capacity
    && (st.phase != Idle ==> st.buffer != [])
    && Embeds(st.consumed + Pending(st), prior)
  }

  /** A delivery appended to the readable packets keeps the embedding. */
  lemma ArriveKeepsAll(c: seq<Packet>, q: seq<Packet>, p: Packet, prior: seq<Packet>)
    requires Embeds(c + q, prior)
    ensures Embeds(c + (q + [p]), prior + [p])
  {
    assert c + (q + [p]) == (c + q) + [p];
    EmbedsSnoc(c + q, prior, p);
  }

  /** A delivery that evicts the oldest readable packet keeps the embedding. */
  lemma ArriveDropsFront(c: seq<Packet>, q: seq<Packet>, p: Packet, prior: seq<Packet>)
    requires q != [] && Embeds(c + q, prior)
    ensures Embeds(c + (q[1..] + [p]), prior + [p])
  {
    var whole := c + q;
    assert c + q[1..] == whole[..|c|] + whole[|c| + 1..];
    EmbedsDelete(whole, prior, |c|);
    EmbedsSnoc(c + q[1..], prior, p);
    assert c + (q[1..] + [p]) == (c + q[1..]) + [p];
  }

  /** What a delivery does to the buffer: append, after evicting the front
      when full. */
  lemma NewestAfterArrive(b: seq<Packet>, p: Packet)
    requires |b| <= Capacity
    ensures Newest(b + [p]) == if |b| < Capacity then b + [p] else b[1..] + [p]
  {
    if |b| == Capacity {
      assert (b + [p])[1..] == b[1..] + [p];
    }
  }

  /** A delivery before the read: the readable packets are the buffer. */
  lemma ArriveBeforeRead(st: BufferState, p: Packet, prior: seq<Packet>)
    requires Consistent(st, prior) && st.phase != Peeked
    ensures Consistent(Step(st, Arrive(p)), prior + [p])
  {
    var b := st.buffer;
    NewestAfterArrive(b, p);
    if |b| < Capacity {
      ArriveKeepsAll(st.consumed, b, p, prior);
    } else {
      ArriveDropsFront(st.consumed, b, p, prior);
    }
  }

  /** A delivery between the read and the pop: the readable packets are the
      buffer without its front. */
  lemma ArriveAfterRead(st: BufferState, p: Packet, prior: seq<Packet>)
    requires Consistent(st, prior) && st.phase == Peeked
    ensures Consistent(Step(st, Arrive(p)), prior + [p])
  {
    var b := st.buffer;
    var q := b[1..];
    NewestAfterArrive(b, p);
    if |b| < Capacity {
      assert (b + [p])[1..] == q + [p];
      ArriveKeepsAll(st.consumed, q, p, prior);
    } else {
      assert (b[1..] + [p])[1..] == q[1..] + [p];
      ArriveDropsFront(st.consumed, q, p, prior);
    }
  }

  lemma ConsumerCallKeepsConsistent(st: BufferState, prior: seq<Packet>)
    requires Consistent(st, prior)
    ensures Consistent(Step(st, ConsumerCall), prior)
  {
    if st.phase == Checked {
      assert st.consumed + [st.buffer[0]] + st.buffer[1..] == st.consumed + st.buffer;
    }
  }

  /** Every event keeps the invariant, with the delivered packet added. */
  lemma StepKeepsConsistent(st: BufferState, e: BufferEvent, prior: seq<Packet>)
    requires Consistent(st, prior)
    ensures Consistent(Step(st, e), prior + Delivered(e))
  {
    match e
    case Arrive(p) =>
      if st.phase == Peeked {
        ArriveAfterRead(st, p, prior);
      } else {
        ArriveBeforeRead(st, p, prior);
      }
    case ConsumerCall =>
      assert prior + Delivered(e) == prior;
      ConsumerCallKeepsConsistent(st, prior);
  }

  lemma {:induction false} ReplayKeepsConsistent(st: BufferState, events: seq<BufferEvent>, prior: seq<Packet>)
    requires Consistent(st, prior)
    ensures Consistent(Replay(st, events), prior + Arrivals(events))
    decreases |events|
  {
    if events == [] {
      assert prior + Arrivals(events) == prior;
    } else {
      var e, rest := events[0], events[1..];
      assert prior + Arrivals(events) == (prior + Delivered(e)) + Arrivals(rest) by {
        assert Arrivals(events) == Delivered(e) + Arrivals(rest);
      }
      StepKeepsConsistent(st, e, prior);
      ReplayKeepsConsistent(Step(st, e), rest, prior + Delivered(e));
    }
  }

  /** FIFO: under any interleaving of deliveries and the main loop's calls,
      starting from an empty buffer, the packets read followed by those
      still readable are a sub-sequence of the packets delivered, in
      delivery order. So no packet is read twice or invented, and a packet
      delivered before another is never read after it. */
  lemma FifoOrder(events: seq<BufferEvent>)
    ensures var r := Replay(Initial, events);
      Embeds(r.consumed + Pending(r), Arrivals(events))
  {
    assert Consistent(Initial, []);
    ReplayKeepsConsistent(Initial, events, []);
    assert [] + Arrivals(events) == Arrivals(events);
  }

  /** Once `dataAvailable` has said yes, the buffer stays non-empty until
      the pop, whatever arrives meanwhile: `getOldestPacket` and
      `deleteOldestPacket` never meet an empty deque, and the bound holds. */
  lemma ConsumerNeverFindsEmpty(events: seq<BufferEvent>)
    ensures var r := Replay(Initial, events);
      (r.phase != Idle ==> r.buffer != []) && |r.buffer| <= Capacity
  {
    assert Consistent(Initial, []);
    ReplayKeepsConsistent(Initial, events, []);
  }

  /** The race between the read and the pop: if a delivery fills a full
      buffer after the main loop has read the front packet, the eviction
      removes the packet just read and the pop then removes the next one,
      which is never read. */
  lemma PeekEvictPopRace(b: seq<Packet>, c: seq<Packet>, q: Packet)
    requires |b| == Capacity
    ensures Replay(BufferState(b, c, Peeked), [Arrive(q), ConsumerCall]) == BufferState(b[2..] + [q], c, Idle)
  {
    var mid := Step(BufferState(b, c, Peeked), Arrive(q));
    assert mid.buffer == b[1..] + [q];
    assert (b[1..] + [q])[1..] == b[2..] + [q];
    assert Replay(BufferState(b, c, Peeked), [Arrive(q), ConsumerCall]) == Replay(mid, [ConsumerCall]);
  }
}
