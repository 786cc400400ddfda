/** Two endpoints: the write queue of the sender, the bytes in transit and the parser of the receiver. */
module Delivery {
  import opened Wire
  import opened Connection

  /** `sent` and `consumed` are histories: packets passed to sendPacket, bytes read by the peer. */
  datatype Link = Link(
    posted: seq<Packet>,        // handlers posted by sendPacket, not yet run
    queue: seq<seq<Byte>>,      // writeQueue_
    written: nat,               // bytes of queue[0] already handed to the network
    outstanding: nat,           // async_write operations started and not completed
    wire: seq<Byte>,
    peer: Receiver,
    sent: seq<Packet>,
    consumed: seq<Byte>)

  const START := Link([], [], 0, 0, [], FRESH, [], [])

  datatype Action =
    | Send(p: Packet)           // a thread calls sendPacket
    | RunPosted                 // the executor runs the oldest posted handler
    | Transmit(n: nat)          // the pending write pushes n more bytes
    | WriteDone                 // the pending write completes
    | Read(n: nat)              // the peer's async_read_some completes with n bytes

  const READ_BUFFER_SIZE := 4096

  /** Actions that are not possible in a state leave it unchanged, so every action sequence is a run. */
  function Step(s: Link, a: Action): Link {
    match a
    case Send(p) => s.(posted := s.posted + [p], sent := s.sent + [p])
    case RunPosted =>
      if s.posted == [] then s
      else
        var sender := Posted(Sender(s.queue, s.outstanding), s.posted[0]);
        s.(posted := s.posted[1..], queue := sender.queue, outstanding := sender.outstanding,
           written := if s.queue == [] then 0 else s.written)
    case Transmit(n) =>
      if s.outstanding == 0 || s.queue == [] || s.written + n > |s.queue[0]| then s
      else s.(wire := s.wire + s.queue[0][s.written..s.written + n], written := s.written + n)
    case WriteDone =>
      if s.outstanding == 0 || s.queue == [] || s.written != |s.queue[0]| then s
      else
        var sender := Written(Sender(s.queue, s.outstanding));
        s.(queue := sender.queue, outstanding := sender.outstanding, written := 0)
    case Read(n) =>
      if s.peer.closed.Closed? || n > |s.wire| || n > READ_BUFFER_SIZE then s
      else s.(wire := s.wire[n..], peer := Feed(s.peer, s.wire[..n]), consumed := s.consumed + s.wire[..n])
  }

  function Run(s: Link, acts: seq<Action>): Link
    decreases |acts|
  {
    if acts == [] then s else Run(Step(s, acts[0]), acts[1..])
  }

  predicate Drained(s: Link) {
    s.posted == [] && s.queue == [] && s.wire == []
  }

  function Unwritten(queue: seq<seq<Byte>>, written: nat): seq<Byte> {
    if queue != [] && written <= |queue[0]| then queue[0][written..] + Concat(queue[1..]) else []
  }

  /** Everything between the two applications: read, in transit, queued, posted. */
  function InFlight(s: Link): seq<Byte> {
    s.consumed + s.wire + Unwritten(s.queue, s.written) + Frames(s.posted)
  }

  predicate OneWrite(s: Link) {
    && s.outstanding == (if s.queue == [] then 0 else 1)
    && (if s.queue == [] then s.written == 0 else s.written <= |s.queue[0]|)
  }

  ghost predicate Inv(s: Link) {
    && AllSendable(s.sent)
    && OneWrite(s)
    && Agrees(s.peer, s.consumed)
    && InFlight(s) == Frames(s.sent)
  }

  lemma {:induction false} ConcatSnoc(chunks: seq<seq<Byte>>, c: seq<Byte>)
    ensures Concat(chunks + [c]) == Concat(chunks) + c
  {
    if chunks == [] {
      assert [c][1..] == [];
      assert chunks + [c] == [c];
      assert c + [] == c;
    } else {
      assert (chunks + [c])[1..] == chunks[1..] + [c];
      ConcatSnoc(chunks[1..], c);
    }
  }

  lemma UnwrittenSnoc(queue: seq<seq<Byte>>, written: nat, f: seq<Byte>)
    requires if queue == [] then written == 0 else written <= |queue[0]|
    ensures Unwritten(queue + [f], written) == Unwritten(queue, written) + f
  {
    hide Parse, Frame, Drain;
    if queue == [] {
      assert (queue + [f])[1..] == [] && f[0..] + [] == [] + f;
    } else {
      assert (queue + [f])[1..] == queue[1..] + [f];
      ConcatSnoc(queue[1..], f);
    }
  }

  lemma UnwrittenSplit(queue: seq<seq<Byte>>, written: nat, n: nat)
    requires queue != [] && written + n <= |queue[0]|
    ensures Unwritten(queue, written) == queue[0][written..written + n] + Unwritten(queue, written + n)
  {
    hide Parse, Frame, Drain, Concat;
    var a, b, rest := queue[0][written..written + n], queue[0][written + n..], Concat(queue[1..]);
    assert queue[0][written..] == a + b;
    assert (a + b) + rest == a + (b + rest);
  }

  lemma UnwrittenPop(queue: seq<seq<Byte>>)
    requires queue != []
    ensures Unwritten(queue[1..], 0) == Unwritten(queue, |queue[0]|)
  {
    hide Parse, Frame, Drain;
    assert queue[0][|queue[0]|..] == [];
    if |queue| > 1 {
      assert queue[1][0..] == queue[1];
    }
  }

  /** Moving a piece from the front of one stage to the back of the stage before it keeps the whole. */
  lemma Regroup(a: seq<Byte>, b: seq<Byte>, piece: seq<Byte>, c: seq<Byte>, d: seq<Byte>)
    ensures a + (b + piece) + c + d == a + b + (piece + c) + d
    ensures (a + piece) + b + c + d == a + (piece + b) + c + d
    ensures a + b + (c + piece) + d == a + b + c + (piece + d)
    ensures a + b + c + (d + piece) == (a + b + c + d) + piece
  {
  }

  /** Bytes are conserved by every action. */
  lemma StepConserves(s: Link, a: Action)
    requires OneWrite(s)
    ensures InFlight(Step(s, a)) == InFlight(s) + if a.Send? then Frame(a.p) else []
  {
    hide Frame, Feed, Unwritten;
    var s' := Step(s, a);
    var todo := Unwritten(s.queue, s.written);
    if a.Send? {
      FramesSnoc(s.posted, a.p);
      Regroup(s.consumed, s.wire, Frame(a.p), todo, Frames(s.posted));
    } else if s' != s {
      match a
      case RunPosted =>
        var f := Frame(s.posted[0]);
        UnwrittenSnoc(s.queue, s.written, f);
        Regroup(s.consumed, s.wire, f, todo, Frames(s.posted[1..]));
      case Transmit(n) =>
        var piece := s.queue[0][s.written..s.written + n];
        var todo' := Unwritten(s.queue, s.written + n);
        UnwrittenSplit(s.queue, s.written, n);
        Regroup(s.consumed, s.wire, piece, todo', Frames(s.posted));
      case WriteDone =>
        UnwrittenPop(s.queue);
      case Read(n) =>
        var piece := s.wire[..n];
        assert s.wire == piece + s.wire[n..];
        Regroup(s.consumed, s.wire[n..], piece, todo, Frames(s.posted));
    }
  }

  lemma StepKeepsInv(s: Link, a: Action)
    requires Inv(s)
    requires a.Send? ==> Sendable(a.p)
    ensures Inv(Step(s, a))
  {
    hide Frame, Drain, InFlight, Unwritten, Feed, Agrees;
    StepConserves(s, a);
    if a.Send? {
      FramesSnoc(s.sent, a.p);
    }
    if a.Read? && Step(s, a) != s {
      FeedAgrees(s.peer, s.consumed, s.wire[..a.n]);
    }
  }

  lemma {:induction false} RunKeepsInv(s: Link, acts: seq<Action>)
    requires Inv(s)
    requires forall i :: 0 <= i < |acts| && acts[i].Send? ==> Sendable(acts[i].p)
    ensures Inv(Run(s, acts))
    decreases |acts|
  {
    hide Parse, Frame, Drain;
    if acts != [] {
      StepKeepsInv(s, acts[0]);
      RunKeepsInv(Step(s, acts[0]), acts[1..]);
    }
  }

  /** A strict prefix of a frame is never accepted and never rejected. */
  lemma PartialFrame(p: Packet, c: seq<Byte>)
    requires Sendable(p) && c < Frame(p)
    ensures Parse(c) == NeedMore
  {
    hide Parse, Frame;
    var more := Frame(p)[|c|..];
    assert c + more == Frame(p) == Frame(p) + [];
    ParseComplete(p, []);
    ParseStable(c, more);
  }

  /** On a prefix of a valid stream the parser stays open and delivers a prefix of the packets. */
  lemma {:induction false} PrefixOfValidStream(ps: seq<Packet>, c: seq<Byte>)
    requires AllSendable(ps) && c <= Frames(ps)
    ensures Drain(c).closed.Open? && Drain(c).packets <= ps
    ensures c == Frames(ps) ==> Drain(c).packets == ps
    decreases |ps|
  {
    hide Parse, Frame;
    if ps == [] {
      DrainEmpty();
    } else {
      var f := Frame(ps[0]);
      if |c| < |f| {
        assert c == Frames(ps)[..|c|] == f[..|c|];
        PartialFrame(ps[0], c);
      } else {
        var rest := c[|f|..];
        assert c[..|f|] == Frames(ps)[..|f|] == f;
        assert c == f + rest;
        PrefixAfter(f, rest, Frames(ps[1..]));
        ParseComplete(ps[0], rest);
        PrefixOfValidStream(ps[1..], rest);
        assert ps == [ps[0]] + ps[1..];
      }
    }
  }

  /** In-order, loss-free delivery in every interleaving, and one outstanding write exactly while there is work. */
  lemma EndToEnd(acts: seq<Action>)
    requires forall i :: 0 <= i < |acts| && acts[i].Send? ==> Sendable(acts[i].p)
    ensures var s := Run(START, acts);
            && s.peer.delivered <= s.sent
            && s.peer.closed.Open?
            && (Drained(s) ==> s.peer.delivered == s.sent)
            && s.outstanding == (if s.queue == [] then 0 else 1)
  {
    hide Parse, Frame, Drain;
    StartIsFine();
    RunKeepsInv(START, acts);
    PeerIsBehind(Run(START, acts));
  }

  lemma StartIsFine()
    ensures Inv(START)
  {
    DrainEmpty();
  }

  lemma PeerIsBehind(s: Link)
    requires Inv(s)
    ensures s.peer.delivered <= s.sent && s.peer.closed.Open?
    ensures Drained(s) ==> s.peer.delivered == s.sent
  {
    hide Parse, Frame, Drain;
    var todo := s.wire + Unwritten(s.queue, s.written) + Frames(s.posted);
    assert s.consumed + todo == Frames(s.sent);
    PrefixOfValidStream(s.sent, s.consumed);
  }

  /** `sent` is exactly the sequence of sendPacket calls of the run. */
  function SendsOf(acts: seq<Action>): seq<Packet>
    decreases |acts|
  {
    if acts == [] then []
    else (if acts[0].Send? then [acts[0].p] else []) + SendsOf(acts[1..])
  }

  lemma {:induction false} SentIsHistory(s: Link, acts: seq<Action>)
    ensures Run(s, acts).sent == s.sent + SendsOf(acts)
    decreases |acts|
  {
    hide Frame, Feed;
    if acts != [] {
      SentIsHistory(Step(s, acts[0]), acts[1..]);
    }
  }

  /** From every reachable state the pending work can be finished without further sends. */
  function Pending(s: Link): nat {
    2 * |s.posted| + |s.queue| + |s.wire| + 2 * |Unwritten(s.queue, s.written)| + 3 * |Frames(s.posted)|
  }

  lemma AlwaysProgress(s: Link) returns (a: Action)
    requires Inv(s) && !Drained(s)
    ensures !a.Send? && Pending(Step(s, a)) < Pending(s)
  {
    hide Frame, Feed, Agrees, InFlight;
    PeerIsBehind(s);
    if s.wire != [] {
      a := Read(1);
    } else if s.queue == [] {
      UnwrittenSnoc(s.queue, s.written, Frame(s.posted[0]));
      a := RunPosted;
    } else if s.written < |s.queue[0]| {
      a := Transmit(1);
    } else {
      UnwrittenPop(s.queue);
      a := WriteDone;
    }
  }

  /** Any reachable state can be driven, without further sends, to one where the peer has everything. */
  lemma CanFinish(s: Link) returns (acts: seq<Action>)
    requires Inv(s)
    ensures forall i :: 0 <= i < |acts| ==> !acts[i].Send?
    ensures Drained(Run(s, acts)) && Run(s, acts).peer.delivered == s.sent
    decreases Pending(s)
  {
    hide Frame, Feed, Pending, Inv;
    if Drained(s) {
      PeerIsBehind(s);
      acts := [];
    } else {
      var a := AlwaysProgress(s);
      StepKeepsInv(s, a);
      var tail := CanFinish(Step(s, a));
      acts := [a] + tail;
    }
  }
}
