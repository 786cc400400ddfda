/** The receiving half of `TcpConnection`: an incremental parser fed by arbitrary chunks. */
module Connection {
  import opened Wire

  /** Result of `while (tryParsePacket())` on a buffer; `closed` is the error that stopped it, if any. */
  datatype Drained = Drained(packets: seq<Packet>, rest: seq<Byte>, closed: Closing)

  datatype Closing = Open | Closed(why: CloseReason)

  function Drain(buf: seq<Byte>): Drained
    decreases |buf|
  {
    match Parse(buf)
    case NeedMore => Drained([], buf, Open)
    case Rejected(why) => Drained([], buf, Closed(why))
    case Parsed(p, rest) =>
      ParseSound(buf, p, rest);
      var d := Drain(rest);
      d.(packets := [p] + d.packets)
  }

  function Frames(ps: seq<Packet>): seq<Byte> {
    if ps == [] then [] else Frame(ps[0]) + Frames(ps[1..])
  }

  lemma {:induction false} FramesAppend(a: seq<Packet>, b: seq<Packet>)
    ensures Frames(a + b) == Frames(a) + Frames(b)
  {
    hide Parse, Frame;
    if a == [] {
      assert a + b == b;
    } else {
      assert (a + b)[1..] == a[1..] + b;
      FramesAppend(a[1..], b);
    }
  }

  ghost predicate AllSendable(ps: seq<Packet>) {
    forall i :: 0 <= i < |ps| ==> Sendable(ps[i])
  }

  /** Reference definition, free of any parser: `ps` is the longest run of valid frames `stream` starts with. */
  ghost predicate MaximalFramePrefix(stream: seq<Byte>, ps: seq<Packet>) {
    && AllSendable(ps)
    && Frames(ps) <= stream
    && forall p :: Sendable(p) ==> !(Frames(ps + [p]) <= stream)
  }

  lemma {:induction false} DrainSound(buf: seq<Byte>)
    ensures var d := Drain(buf);
            && buf == Frames(d.packets) + d.rest
            && AllSendable(d.packets)
            && d.closed == (match Parse(d.rest) case Rejected(why) => Closed(why) case _ => Open)
            && !Parse(d.rest).Parsed?
    decreases |buf|
  {
    hide Parse, Frame;
    match Parse(buf)
    case NeedMore =>
    case Rejected(why) =>
    case Parsed(p, rest) =>
      ParseSound(buf, p, rest);
      DrainSound(rest);
      var d := Drain(rest);
      assert ([p] + d.packets)[1..] == d.packets;
      assert Frame(p) + (Frames(d.packets) + d.rest) == Frame(p) + Frames(d.packets) + d.rest;
  }

  lemma PrefixAfter(a: seq<Byte>, b: seq<Byte>, rest: seq<Byte>)
    ensures a + b <= a + rest <==> b <= rest
  {
    if a + b <= a + rest {
      assert b == (a + rest)[|a|..|a| + |b|] == rest[..|b|];
    }
  }

  lemma FramesSnoc(ps: seq<Packet>, p: Packet)
    ensures Frames(ps + [p]) == Frames(ps) + Frame(p)
  {
    hide Parse, Frame;
    FramesAppend(ps, [p]);
    assert [p][1..] == [];
    assert Frames([p]) == Frame(p) + [] == Frame(p);
  }

  lemma NoFrameAtHead(buf: seq<Byte>, p: Packet)
    requires Sendable(p) && !Parse(buf).Parsed?
    ensures !(Frame(p) <= buf)
  {
    hide Parse, Frame;
    var n := |Frame(p)|;
    if n <= |buf| && buf[..n] == Frame(p) {
      assert buf == buf[..n] + buf[n..];
      ParseComplete(p, buf[n..]);
    }
  }

  /** The parse loop delivers the maximal run of valid frames, on arbitrary bytes, and nothing else is one. */
  lemma DrainMaximal(buf: seq<Byte>, ps: seq<Packet>)
    ensures MaximalFramePrefix(buf, ps) <==> ps == Drain(buf).packets
  {
    hide Parse, Frame;
    DrainSound(buf);
    var d := Drain(buf);
    forall p | Sendable(p)
      ensures !(Frames(d.packets + [p]) <= buf)
    {
      FramesSnoc(d.packets, p);
      PrefixAfter(Frames(d.packets), Frame(p), d.rest);
      NoFrameAtHead(d.rest, p);
    }
    if MaximalFramePrefix(buf, ps) {
      MaximalUnique(buf, ps);
    }
  }

  lemma {:induction false} MaximalUnique(stream: seq<Byte>, ps: seq<Packet>)
    requires MaximalFramePrefix(stream, ps)
    ensures ps == Drain(stream).packets
    decreases |ps|
  {
    hide Parse, Frame;
    if ps == [] {
      if Parse(stream).Parsed? {
        var p := Parse(stream).packet;
        ParseSound(stream, p, Parse(stream).rest);
        FramesSnoc([], p);
      }
    } else {
      var p, tail := ps[0], ps[1..];
      var rest := stream[|Frame(p)|..];
      assert stream == Frame(p) + rest by {
        assert stream[..|Frame(p)|] == Frames(ps)[..|Frame(p)|];
      }
      ParseComplete(p, rest);
      PrefixAfter(Frame(p), Frames(tail), rest);
      forall q | Sendable(q)
        ensures !(Frames(tail + [q]) <= rest)
      {
        assert (ps + [q])[1..] == tail + [q];
        PrefixAfter(Frame(p), Frames(tail + [q]), rest);
      }
      MaximalUnique(rest, tail);
    }
  }

  // ------------------------------------------------------- chunking independence

  datatype Receiver = Receiver(buf: seq<Byte>, closed: Closing, delivered: seq<Packet>)

  const FRESH := Receiver([], Open, [])

  /** One completed read of `chunk`: append, run the parse loop. A closed socket reads nothing more. */
  function Feed(r: Receiver, chunk: seq<Byte>): Receiver {
    if r.closed.Closed? then r
    else
      var d := Drain(r.buf + chunk);
      Receiver(d.rest, d.closed, r.delivered + d.packets)
  }

  function FeedAll(r: Receiver, chunks: seq<seq<Byte>>): Receiver
    decreases |chunks|
  {
    if chunks == [] then r else FeedAll(Feed(r, chunks[0]), chunks[1..])
  }

  function Concat(chunks: seq<seq<Byte>>): seq<Byte> {
    if chunks == [] then [] else chunks[0] + Concat(chunks[1..])
  }

  /** Draining in two instalments: an error is final, otherwise the leftover carries over. */
  lemma {:induction false} DrainAppend(a: seq<Byte>, b: seq<Byte>)
    ensures var d := Drain(a);
            Drain(a + b) ==
              if d.closed.Closed? then d.(rest := d.rest + b)
              else
                var e := Drain(d.rest + b);
                e.(packets := d.packets + e.packets)
    decreases |a|
  {
    hide Parse, Frame;
    ParseStable(a, b);
    match Parse(a)
    case NeedMore =>
      assert [] + Drain(a + b).packets == Drain(a + b).packets;
    case Rejected(why) =>
    case Parsed(p, rest) =>
      ParseSound(a, p, rest);
      DrainAppend(rest, b);
      var d := Drain(rest);
      var e := Drain(d.rest + b);
      assert [p] + (d.packets + e.packets) == ([p] + d.packets) + e.packets;
  }

  /** What a receiver has seen of `stream`: its packets, its leftover and whether it closed. */
  ghost predicate Agrees(r: Receiver, stream: seq<Byte>) {
    var d := Drain(stream);
    && r.delivered == d.packets
    && r.closed == d.closed
    && (r.closed.Open? ==> r.buf == d.rest)
  }

  lemma FeedAgrees(r: Receiver, stream: seq<Byte>, chunk: seq<Byte>)
    requires Agrees(r, stream)
    ensures Agrees(Feed(r, chunk), stream + chunk)
  {
    hide Parse, Drain;
    DrainAppend(stream, chunk);
  }

  lemma {:induction false} FeedAllAgrees(r: Receiver, stream: seq<Byte>, chunks: seq<seq<Byte>>)
    requires Agrees(r, stream)
    ensures Agrees(FeedAll(r, chunks), stream + Concat(chunks))
    decreases |chunks|
  {
    hide Parse, Frame;
    if chunks == [] {
      assert stream + [] == stream;
    } else {
      FeedAgrees(r, stream, chunks[0]);
      FeedAllAgrees(Feed(r, chunks[0]), stream + chunks[0], chunks[1..]);
      assert stream + chunks[0] + Concat(chunks[1..]) == stream + Concat(chunks);
    }
  }

  lemma DrainEmpty()
    ensures Drain([]) == Drained([], [], Open)
  {
  }

  /** However a byte stream is split into reads, the same packets are delivered and the same verdict reached. */
  lemma ChunkingIndependence(chunks: seq<seq<Byte>>)
    ensures var r := FeedAll(FRESH, chunks);
            && MaximalFramePrefix(Concat(chunks), r.delivered)
            && r.closed == Drain(Concat(chunks)).closed
  {
    hide Parse, Frame;
    DrainEmpty();
    FeedAllAgrees(FRESH, [], chunks);
    assert [] + Concat(chunks) == Concat(chunks);
    DrainMaximal(Concat(chunks), Drain(Concat(chunks)).packets);
  }

  lemma SameStreamSamePackets(chunks: seq<seq<Byte>>, chunks': seq<seq<Byte>>)
    requires Concat(chunks) == Concat(chunks')
    ensures FeedAll(FRESH, chunks).delivered == FeedAll(FRESH, chunks').delivered
    ensures FeedAll(FRESH, chunks).closed == FeedAll(FRESH, chunks').closed
  {
    hide Parse, Frame;
    ChunkingIndependence(chunks);
    ChunkingIndependence(chunks');
    MaximalUnique(Concat(chunks), FeedAll(FRESH, chunks).delivered);
    MaximalUnique(Concat(chunks), FeedAll(FRESH, chunks').delivered);
  }

  /** The receive buffer of a live connection never holds a whole frame of the largest size. */
  lemma LiveBufferBounded(r: Receiver, chunk: seq<Byte>)
    ensures Feed(r, chunk).closed.Open? ==> |Feed(r, chunk).buf| < FRAME_OVERHEAD + MAX_PAYLOAD_SIZE
  {
    hide Parse, Frame;
    if r.closed.Open? {
      DrainSound(r.buf + chunk);
      NeedMoreIsShort(Feed(r, chunk).buf);
    }
  }

  lemma NeedMoreIsShort(buf: seq<Byte>)
    ensures Parse(buf).NeedMore? ==> |buf| < FRAME_OVERHEAD + MAX_PAYLOAD_SIZE
  {
  }

  // ------------------------------------------------------------------- sending

  /** The frames not yet written, and the async_write operations started and not completed. */
  datatype Sender = Sender(queue: seq<seq<Byte>>, outstanding: nat)

  /** The handler sendPacket posts: append, and start a write unless one is under way. */
  function Posted(s: Sender, p: Packet): Sender {
    Sender(s.queue + [Frame(p)], if s.queue == [] then s.outstanding + 1 else s.outstanding)
  }

  /** A write of the first frame ends without error: drop the frame, and start the next write if there is one. */
  function Written(s: Sender): Sender
    requires s.queue != [] && s.outstanding > 0
  {
    Sender(s.queue[1..], if |s.queue| > 1 then s.outstanding else s.outstanding - 1)
  }

  // ---------------------------------------------------------------- the object

  /**
   * `TcpConnection`. `delivered` records the calls of the packet handler and `outstanding` counts the
   * async_write operations that were started and have not completed.
   */
  class TcpConnection {
    var writeQueue: seq<seq<Byte>>
    var outstanding: nat
    ghost var writeFailed: bool
    var receiveBuffer: seq<Byte>
    var socketOpen: bool
    var disconnectCalls: nat
    var delivered: seq<Packet>
    ghost var why: Closing

    ghost predicate Valid()
      reads this
    {
      && socketOpen == why.Open?
      && outstanding == (if writeQueue == [] || writeFailed then 0 else 1)
      && (writeFailed ==> writeQueue != [] && !socketOpen)
    }

    ghost function State(): Receiver
      reads this
    {
      Receiver(receiveBuffer, why, delivered)
    }

    function Sending(): Sender
      reads this
    {
      Sender(writeQueue, outstanding)
    }

    constructor ()
      ensures Valid() && State() == FRESH && disconnectCalls == 0 && writeQueue == [] && !writeFailed
    {
      writeQueue, outstanding, writeFailed := [], 0, false;
      receiveBuffer, socketOpen, disconnectCalls, delivered, why := [], true, 0, [], Open;
    }

    method CloseWithError(reason: CloseReason)
      requires Valid()
      modifies this`socketOpen, this`disconnectCalls, this`why
      ensures Valid() && !socketOpen && disconnectCalls == old(disconnectCalls) + 1
      ensures why == if old(socketOpen) then Closed(reason) else old(why)
    {
      if socketOpen {
        socketOpen, why := false, Closed(reason);
      }
      disconnectCalls := disconnectCalls + 1;
    }

    /** The handler that sendPacket posts. */
    method OnPosted(p: Packet)
      requires Valid()
      modifies this`writeQueue, this`outstanding
      ensures Valid() && Sending() == Posted(old(Sending()), p)
    {
      var writing := writeQueue != [];
      var frame := BuildFrame(p);
      writeQueue := writeQueue + [frame[..]];
      if !writing {
        outstanding := outstanding + 1;
      }
    }

    /**
     * The completion handler of async_write. A failed write keeps its frame at the head of the queue,
     * so that no later call starts another write.
     */
    method OnWritten(failed: bool)
      requires Valid() && outstanding > 0
      modifies this
      ensures Valid() && writeFailed == failed
      ensures Sending() == if failed then old(Sending()).(outstanding := 0) else Written(old(Sending()))
      ensures failed ==> !socketOpen && disconnectCalls == old(disconnectCalls) + 1
      ensures !failed ==> State() == old(State()) && disconnectCalls == old(disconnectCalls)
    {
      outstanding := outstanding - 1;
      if failed {
        writeFailed := true;
        if socketOpen {
          socketOpen, why := false, Closed(SocketError);
        }
        disconnectCalls := disconnectCalls + 1;
        return;
      }
      writeQueue := writeQueue[1..];
      if writeQueue != [] {
        outstanding := outstanding + 1;
      }
    }

    method TryParsePacket() returns (again: bool)
      requires Valid() && socketOpen
      modifies this`receiveBuffer, this`socketOpen, this`disconnectCalls, this`delivered, this`why
      ensures Valid()
      ensures again <==> Parse(old(receiveBuffer)).Parsed?
      ensures match Parse(old(receiveBuffer))
              case NeedMore => State() == old(State()) && disconnectCalls == old(disconnectCalls)
              case Rejected(r) => State() == old(State()).(closed := Closed(r)) && disconnectCalls == old(disconnectCalls) + 1
              case Parsed(p, rest) =>
                State() == Receiver(rest, Open, old(delivered) + [p]) && disconnectCalls == old(disconnectCalls)
    {
      if |receiveBuffer| < HEADER_SIZE {
        return false;
      }
      var magic := ReadU32(receiveBuffer, 0);
      var version := ReadU16(receiveBuffer, 4);
      var key := ReadU16(receiveBuffer, 6);
      var size := ReadU32(receiveBuffer, 8);
      if magic != MAGIC {
        CloseWithError(BadMagic);
        return false;
      }
      if version != PROTOCOL_VERSION {
        CloseWithError(BadVersion);
        return false;
      }
      if size > MAX_PAYLOAD_SIZE {
        CloseWithError(Oversized);
        return false;
      }
      if |receiveBuffer| < FRAME_OVERHEAD + size {
        return false;
      }
      var payload := receiveBuffer[HEADER_SIZE..HEADER_SIZE + size];
      var sum := ComputeChecksum(payload);
      if ReadU32(receiveBuffer, HEADER_SIZE + size) != sum {
        CloseWithError(BadChecksum);
        return false;
      }
      receiveBuffer := receiveBuffer[FRAME_OVERHEAD + size..];
      delivered := delivered + [Packet(key, payload)];
      return true;
    }

    /** The completion handler of async_read_some without an error. */
    method OnRead(chunk: seq<Byte>)
      requires Valid() && socketOpen
      modifies this`receiveBuffer, this`socketOpen, this`disconnectCalls, this`delivered, this`why
      ensures Valid() && State() == Feed(old(State()), chunk)
      ensures socketOpen ==> |receiveBuffer| < FRAME_OVERHEAD + MAX_PAYLOAD_SIZE
      ensures disconnectCalls == old(disconnectCalls) + if socketOpen then 0 else 1
    {
      hide Parse, Drain;
      receiveBuffer := receiveBuffer + chunk;
      ghost var all := State();
      var again := true;
      while again
        invariant Valid() && (again ==> socketOpen)
        invariant disconnectCalls == old(disconnectCalls) + if socketOpen then 0 else 1
        invariant if again then Finish(State()) == Finish(all) else State() == Finish(all)
        decreases |receiveBuffer|, again
      {
        FinishStep(State());
        again := TryParsePacket();
      }
      LiveBufferBounded(old(State()), chunk);
    }
  }

  /** The parse loop run to its end from state `r`. */
  ghost function Finish(r: Receiver): Receiver {
    var d := Drain(r.buf);
    Receiver(d.rest, d.closed, r.delivered + d.packets)
  }

  lemma FinishStep(r: Receiver)
    requires r.closed.Open?
    ensures match Parse(r.buf)
            case NeedMore => Finish(r) == r
            case Rejected(why) => Finish(r) == r.(closed := Closed(why))
            case Parsed(p, rest) => |rest| < |r.buf| && Finish(r) == Finish(Receiver(rest, Open, r.delivered + [p]))
  {
    hide Parse, Frame;
    match Parse(r.buf)
    case Parsed(p, rest) =>
      ParseSound(r.buf, p, rest);
      assert r.delivered + ([p] + Drain(rest).packets) == r.delivered + [p] + Drain(rest).packets;
    case _ =>
      assert r.delivered + [] == r.delivered;
  }
}
