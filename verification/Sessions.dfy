/** `TcpServer` and `TcpSink`: the session table and the connection list, across accept, disconnect and heartbeat. */
module Sessions {
  import opened Common

  /** A connection: socket state, last packet time, and the session its disconnect handler removes. */
  datatype Conn = Conn(open: bool, lastReceived: int, session: nat)

  datatype Session = Session(conn: nat, heartbeats: nat)

  datatype State = State(sessions: map<nat, Session>, sink: seq<nat>, conns: map<nat, Conn>, nextId: nat)

  const INITIAL := State(map[], [], map[], 1)

  /** Handlers run by the io_context, in any order. */
  datatype Event =
    | Accept(conn: nat, now: int)            // a new connection object
    | Received(conn: nat, now: int)          // a packet arrived
    | Closed(conn: nat)                      // a posted stop() closed the socket
    | Failed(conn: nat)                      // closeWithError, with its disconnect callback
    | Heartbeat(now: int, maxIdle: int)

  /** std::remove_if / erase on the connection list. */
  function Without(s: seq<nat>, gone: set<nat>): seq<nat> {
    if s == [] then [] else (if s[0] in gone then [] else [s[0]]) + Without(s[1..], gone)
  }

  predicate IsOpen(s: State, c: nat) {
    c in s.conns && s.conns[c].open
  }

  predicate Healthy(s: State, c: nat, now: int, maxIdle: int) {
    IsOpen(s, c) && now - s.conns[c].lastReceived <= maxIdle
  }

  function RemoveSession(s: State, id: nat): State {
    if id in s.sessions then s.(sink := Without(s.sink, {s.sessions[id].conn}), sessions := s.sessions - {id}) else s
  }

  /** The sessions a heartbeat drops. */
  function Dropped(s: State, now: int, maxIdle: int): set<nat> {
    set id | id in s.sessions && !Healthy(s, s.sessions[id].conn, now, maxIdle)
  }

  function ConnsOf(s: State, ids: set<nat>): set<nat> {
    set id | id in ids && id in s.sessions :: s.sessions[id].conn
  }

  function ClosedConns(s: State): set<nat> {
    set c | c in s.sink && !IsOpen(s, c)
  }

  function Survivors(s: State, now: int, maxIdle: int): map<nat, Session> {
    map id | id in s.sessions && Healthy(s, s.sessions[id].conn, now, maxIdle)
      :: s.sessions[id].(heartbeats := s.sessions[id].heartbeats + 1)
  }

  function Beat(s: State, now: int, maxIdle: int): State {
    s.(sessions := Survivors(s, now, maxIdle),
       sink := Without(Without(s.sink, ConnsOf(s, Dropped(s, now, maxIdle))), ClosedConns(s)))
  }

  function Step(s: State, e: Event): State {
    match e
    case Accept(c, now) =>
      if c in s.conns then s
      else State(s.sessions[s.nextId := Session(c, 0)], s.sink + [c], s.conns[c := Conn(true, now, s.nextId)], s.nextId + 1)
    case Received(c, now) => if IsOpen(s, c) then s.(conns := s.conns[c := s.conns[c].(lastReceived := now)]) else s
    case Closed(c) => if c in s.conns then s.(conns := s.conns[c := s.conns[c].(open := false)]) else s
    case Failed(c) =>
      if c in s.conns then RemoveSession(s.(conns := s.conns[c := s.conns[c].(open := false)]), s.conns[c].session) else s
    case Heartbeat(now, maxIdle) => Beat(s, now, maxIdle)
  }

  function Run(s: State, es: seq<Event>): State
    decreases |es|
  {
    if es == [] then s else Run(Step(s, es[0]), es[1..])
  }

  // -------------------------------------------------------------------- agreement

  /** Connection `c` belongs to a live session. */
  predicate Live(s: State, c: nat) {
    c in s.conns && s.conns[c].session in s.sessions && s.sessions[s.conns[c].session].conn == c
  }

  ghost predicate Distinct(s: seq<nat>) {
    forall i, j :: 0 <= i < j < |s| ==> s[i] != s[j]
  }

  /** The sink holds exactly the connections of the live sessions, once each. */
  ghost predicate Agree(s: State) {
    && (forall id :: id in s.sessions ==> id < s.nextId && s.sessions[id].conn in s.conns
                                          && s.conns[s.sessions[id].conn].session == id)
    && (forall c :: c in s.conns ==> s.conns[c].session < s.nextId)
    && Distinct(s.sink)
    && (forall c :: c in s.sink <==> Live(s, c))
  }

  lemma {:induction false} WithoutFilters(s: seq<nat>, gone: set<nat>)
    ensures forall c :: c in Without(s, gone) <==> c in s && c !in gone
    ensures Distinct(s) ==> Distinct(Without(s, gone))
  {
    if s != [] {
      WithoutFilters(s[1..], gone);
      if Distinct(s) {
        assert forall i :: 0 <= i < |s[1..]| ==> s[1..][i] == s[i + 1];
        assert Distinct(s[1..]);
        assert s[0] !in s[1..];
      }
    }
  }

  /** `a` is `b` with some elements left out. */
  ghost predicate Subsequence(a: seq<nat>, b: seq<nat>) {
    if a == [] then true
    else if b == [] then false
    else (a[0] == b[0] && Subsequence(a[1..], b[1..])) || Subsequence(a, b[1..])
  }

  /** Erasing keeps the order of what stays, and every copy of it. */
  lemma {:induction false} WithoutKeeps(s: seq<nat>, gone: set<nat>)
    ensures Subsequence(Without(s, gone), s)
    ensures forall c :: multiset(Without(s, gone))[c] == if c in gone then 0 else multiset(s)[c]
  {
    if s != [] {
      var rest := Without(s[1..], gone);
      WithoutKeeps(s[1..], gone);
      assert s == [s[0]] + s[1..];
      if s[0] in gone {
        assert Without(s, gone) == rest;
        assert rest == [] || Subsequence(rest, s[1..]);
      } else {
        assert Without(s, gone) == [s[0]] + rest && ([s[0]] + rest)[1..] == rest;
      }
    }
  }

  lemma {:induction false} WithoutAppend(a: seq<nat>, b: seq<nat>, gone: set<nat>)
    ensures Without(a + b, gone) == Without(a, gone) + Without(b, gone)
  {
    if a == [] {
      assert a + b == b;
    } else {
      var head := if a[0] in gone then [] else [a[0]];
      WithoutAppend(a[1..], b, gone);
      assert (a + b)[0] == a[0] && (a + b)[1..] == a[1..] + b;
      assert Without(a + b, gone) == head + (Without(a[1..], gone) + Without(b, gone));
    }
  }

  lemma {:induction false} WithoutTwice(s: seq<nat>, a: set<nat>, b: set<nat>)
    ensures Without(Without(s, a), b) == Without(s, a + b)
  {
    if s != [] {
      WithoutTwice(s[1..], a, b);
      var rest := Without(s[1..], a);
      assert ([s[0]] + rest)[1..] == rest && [] + rest == rest;
    }
  }

  lemma AcceptAgrees(s: State, c: nat, now: int)
    requires Agree(s) && c !in s.conns
    ensures Agree(Step(s, Accept(c, now)))
  {
    var s' := Step(s, Accept(c, now));
    assert c !in s.sink;
    forall d
      ensures d in s'.sink <==> Live(s', d)
    {
      assert d in s.sink <==> Live(s, d);
    }
  }

  lemma RemoveAgrees(s: State, id: nat)
    requires Agree(s)
    ensures Agree(RemoveSession(s, id))
  {
    if id in s.sessions {
      var c := s.sessions[id].conn;
      WithoutFilters(s.sink, {c});
      var s' := RemoveSession(s, id);
      forall d
        ensures d in s'.sink <==> Live(s', d)
      {
        assert d in s.sink <==> Live(s, d);
      }
    }
  }

  lemma BeatAgrees(s: State, now: int, maxIdle: int)
    requires Agree(s)
    ensures Agree(Beat(s, now, maxIdle))
    ensures forall c :: c in Beat(s, now, maxIdle).sink ==> Healthy(s, c, now, maxIdle)
  {
    var s' := Beat(s, now, maxIdle);
    var gone, shut := ConnsOf(s, Dropped(s, now, maxIdle)), ClosedConns(s);
    WithoutFilters(s.sink, gone);
    WithoutFilters(Without(s.sink, gone), shut);
    forall c
      ensures c in s'.sink <==> Live(s', c)
      ensures c in s'.sink ==> Healthy(s, c, now, maxIdle)
    {
      assert c in s.sink <==> Live(s, c);
      if Live(s, c) {
        var id := s.conns[c].session;
        assert c in gone <==> !Healthy(s, c, now, maxIdle);
      }
    }
  }

  lemma StepAgrees(s: State, e: Event)
    requires Agree(s)
    ensures Agree(Step(s, e))
  {
    match e
    case Accept(c, now) => if c !in s.conns { AcceptAgrees(s, c, now); }
    case Failed(c) =>
      if c in s.conns {
        UpdateAgrees(s, c, s.conns[c].(open := false));
        RemoveAgrees(s.(conns := s.conns[c := s.conns[c].(open := false)]), s.conns[c].session);
      }
    case Closed(c) => if c in s.conns { UpdateAgrees(s, c, s.conns[c].(open := false)); }
    case Received(c, now) => if IsOpen(s, c) { UpdateAgrees(s, c, s.conns[c].(lastReceived := now)); }
    case Heartbeat(now, maxIdle) => BeatAgrees(s, now, maxIdle);
  }

  lemma UpdateAgrees(s: State, c: nat, conn: Conn)
    requires Agree(s) && c in s.conns && conn.session == s.conns[c].session
    ensures Agree(s.(conns := s.conns[c := conn]))
  {
    var s' := s.(conns := s.conns[c := conn]);
    forall d
      ensures d in s'.sink <==> Live(s', d)
    {
      assert d in s.sink <==> Live(s, d);
    }
  }

  /** The tables agree at every handler boundary. */
  lemma {:induction false} AlwaysAgree(s: State, es: seq<Event>)
    requires Agree(s)
    ensures Agree(Run(s, es))
    decreases |es|
  {
    if es != [] {
      StepAgrees(s, es[0]);
      AlwaysAgree(Step(s, es[0]), es[1..]);
    }
  }

  /** In every run the tables agree, and right after a heartbeat both hold only open, recently heard connections. */
  lemma AfterHeartbeat(es: seq<Event>, now: int, maxIdle: int)
    ensures var s, s' := Run(INITIAL, es), Step(Run(INITIAL, es), Heartbeat(now, maxIdle));
            && Agree(s)
            && (forall c :: c in s'.sink ==> Healthy(s', c, now, maxIdle))
            && (forall id :: id in s'.sessions ==> Healthy(s', s'.sessions[id].conn, now, maxIdle))
            && (forall id :: id in s'.sessions <==> id in s.sessions && Healthy(s, s.sessions[id].conn, now, maxIdle))
  {
    AlwaysAgree(INITIAL, es);
    BeatAgrees(Run(INITIAL, es), now, maxIdle);
  }

  lemma {:induction false} RunSnoc(s: State, es: seq<Event>, e: Event)
    ensures Run(s, es + [e]) == Step(Run(s, es), e)
    decreases |es|
  {
    if es == [] {
      assert es + [e] == [e] && [e][1..] == [];
    } else {
      assert (es + [e])[1..] == es[1..] + [e];
      RunSnoc(Step(s, es[0]), es[1..], e);
    }
  }

  /** When connection `c` was accepted or last received a packet; None before it was accepted. */
  function LastHeard(es: seq<Event>, c: nat): Option<int> {
    if es == [] then None
    else
      var before, e := es[..|es| - 1], es[|es| - 1];
      match LastHeard(before, c)
      case None => if e.Accept? && e.conn == c then Some(e.now) else None
      case Some(t) => Some(if e.Received? && e.conn == c then e.now else t)
  }

  /** Connection `c` was accepted and its socket was neither closed nor failed since. */
  predicate StaysOpen(es: seq<Event>, c: nat) {
    es != [] &&
    var before, e := es[..|es| - 1], es[|es| - 1];
    if LastHeard(before, c).None? then e.Accept? && e.conn == c
    else StaysOpen(before, c) && !((e.Closed? || e.Failed?) && e.conn == c)
  }

  lemma {:induction false} ConnHistory(es: seq<Event>, c: nat)
    ensures var s := Run(INITIAL, es);
            && (c in s.conns <==> LastHeard(es, c).Some?)
            && (IsOpen(s, c) <==> StaysOpen(es, c))
            && (IsOpen(s, c) ==> s.conns[c].lastReceived == LastHeard(es, c).value)
    decreases |es|
  {
    hide Run;
    if es == [] {
      NoEvents();
    } else {
      var before, e := es[..|es| - 1], es[|es| - 1];
      assert es == before + [e];
      RunSnoc(INITIAL, before, e);
      ConnHistory(before, c);
    }
  }

  lemma NoEvents()
    ensures Run(INITIAL, []) == INITIAL
  {
  }

  /**
   * What a heartbeat keeps, from the events alone: the sessions whose socket is still open and that were accepted
   * or heard of no longer than `maxIdle` ago.
   */
  lemma HeartbeatKeeps(es: seq<Event>, now: int, maxIdle: int, id: nat)
    ensures var s, s' := Run(INITIAL, es), Step(Run(INITIAL, es), Heartbeat(now, maxIdle));
            id in s'.sessions <==>
              && id in s.sessions
              && StaysOpen(es, s.sessions[id].conn)
              && LastHeard(es, s.sessions[id].conn).Some?
              && now - LastHeard(es, s.sessions[id].conn).value <= maxIdle
    ensures var s, s' := Run(INITIAL, es), Step(Run(INITIAL, es), Heartbeat(now, maxIdle));
            id in s'.sessions ==> s'.sessions[id] == s.sessions[id].(heartbeats := s.sessions[id].heartbeats + 1)
  {
    AfterHeartbeat(es, now, maxIdle);
    var s := Run(INITIAL, es);
    if id in s.sessions {
      ConnHistory(es, s.sessions[id].conn);
    }
  }

  /** A new connection gets a session of its own under a fresh id and joins the sink; nobody else is affected. */
  lemma AcceptServes(s: State, c: nat, now: int)
    requires Agree(s) && c !in s.conns
    ensures var s' := Step(s, Accept(c, now));
            && Live(s', c) && c in s'.sink && IsOpen(s', c)
            && s'.conns[c].session !in s.sessions
            && (forall id :: id in s.sessions ==> id in s'.sessions && s'.sessions[id] == s.sessions[id])
            && |s'.sessions| == |s.sessions| + 1
  {
    AcceptAgrees(s, c, now);
  }

  /** A session id that has been given up never comes back. */
  lemma {:induction false} IdsNeverReused(s: State, es: seq<Event>, id: nat)
    requires id < s.nextId && id !in s.sessions
    ensures id !in Run(s, es).sessions
    decreases |es|
  {
    if es != [] {
      IdsNeverReused(Step(s, es[0]), es[1..], id);
    }
  }

  /** Connection `c` has been disconnected: its socket is closed and its session `id` given up. */
  ghost predicate Disconnected(s: State, c: nat, id: nat) {
    && c in s.conns && s.conns[c].session == id && !s.conns[c].open
    && id < s.nextId && id !in s.sessions
  }

  lemma {:induction false} StaysDisconnected(s: State, es: seq<Event>, c: nat, id: nat)
    requires Disconnected(s, c, id)
    ensures Disconnected(Run(s, es), c, id)
    decreases |es|
  {
    if es != [] {
      assert Disconnected(Step(s, es[0]), c, id);
      StaysDisconnected(Step(s, es[0]), es[1..], c, id);
    }
  }

  /** After a disconnect callback every later one for the same connection changes nothing, whatever came between. */
  lemma RepeatedDisconnect(before: seq<Event>, c: nat, es: seq<Event>)
    requires c in Run(INITIAL, before).conns
    ensures var s := Run(Step(Run(INITIAL, before), Failed(c)), es); Step(s, Failed(c)) == s
  {
    var s0 := Run(INITIAL, before);
    AlwaysAgree(INITIAL, before);
    var id := s0.conns[c].session;
    assert Disconnected(Step(s0, Failed(c)), c, id);
    StaysDisconnected(Step(s0, Failed(c)), es, c, id);
    var s := Run(Step(s0, Failed(c)), es);
    assert s.conns[c := s.conns[c].(open := false)] == s.conns;
  }

  // ------------------------------------------------------------------ the objects

  class TcpSink {
    var connections: seq<nat>

    constructor ()
      ensures connections == []
    {
      connections := [];
    }

    method AddConnection(c: nat)
      modifies this
      ensures connections == old(connections) + [c]
    {
      connections := connections + [c];
    }

    /** The remove/erase idiom: what stays keeps its order and all its copies, and `gone` no longer occurs. */
    method Erase(gone: set<nat>)
      modifies this
      ensures connections == Without(old(connections), gone)
      ensures Subsequence(connections, old(connections))
      ensures forall c :: multiset(connections)[c] == if c in gone then 0 else multiset(old(connections))[c]
    {
      ghost var all := connections;
      var kept := [];
      for i := 0 to |connections|
        invariant connections == all && kept == Without(all[..i], gone)
      {
        assert all[..i + 1] == all[..i] + [all[i]];
        WithoutAppend(all[..i], [all[i]], gone);
        assert [all[i]][1..] == [];
        if connections[i] !in gone {
          kept := kept + [connections[i]];
        }
      }
      assert all[..|all|] == all;
      WithoutKeeps(all, gone);
      connections := kept;
    }

    method RemoveConnection(c: nat)
      modifies this
      ensures connections == Without(old(connections), {c})
      ensures Subsequence(connections, old(connections)) && c !in connections
      ensures forall d :: d != c ==> multiset(connections)[d] == multiset(old(connections))[d]
    {
      Erase({c});
      assert multiset(connections)[c] == 0;
    }

    /** `closed` are the connections whose socket is not open. */
    method PruneDisconnected(closed: set<nat>)
      modifies this
      ensures connections == Without(old(connections), closed)
      ensures Subsequence(connections, old(connections)) && forall c :: c in connections ==> c !in closed
      ensures forall c :: c !in closed ==> multiset(connections)[c] == multiset(old(connections))[c]
    {
      Erase(closed);
      assert forall c :: c in connections ==> multiset(connections)[c] > 0;
    }
  }

  class TcpServer {
    const sink: TcpSink
    const hasBus: bool
    var connectionHandlers: seq<nat>
    var sessions: map<nat, Session>
    var nextSessionId: nat
    var conns: map<nat, Conn>

    function Current(): State
      reads this, sink
    {
      State(sessions, sink.connections, conns, nextSessionId)
    }

    constructor (hasBus: bool)
      ensures Current() == INITIAL && fresh(sink) && this.hasBus == hasBus && connectionHandlers == []
    {
      this.hasBus, connectionHandlers := hasBus, [];
      sink := new TcpSink();
      sessions, nextSessionId, conns := map[], 1, map[];
    }

    method AddConnectionHandler(handler: nat)
      modifies this`connectionHandlers
      ensures connectionHandlers == old(connectionHandlers) + [handler]
    {
      connectionHandlers := connectionHandlers + [handler];
    }

    /**
     * A connection was accepted. `called` are the handlers the new connection is passed to;
     * `count` is the session count it publishes, if there is a bus.
     */
    method OnAccept(c: nat, now: int) returns (called: seq<nat>, count: Option<nat>)
      requires Agree(Current()) && c !in conns
      modifies this`sessions, this`nextSessionId, this`conns, sink
      ensures Current() == Step(old(Current()), Accept(c, now)) && Agree(Current())
      ensures called == connectionHandlers
      ensures count == if hasBus then Some(old(|sessions|) + 1) else None
    {
      AcceptAgrees(Current(), c, now);
      var id := nextSessionId;
      nextSessionId := nextSessionId + 1;
      conns := conns[c := Conn(true, now, id)];
      assert id !in sessions;
      sessions := sessions[id := Session(c, 0)];
      sink.AddConnection(c);
      called := [];
      for i := 0 to |connectionHandlers|
        invariant called == connectionHandlers[..i]
      {
        called := called + [connectionHandlers[i]];
      }
      count := if hasBus then Some(|sessions|) else None;
    }

    method DropSession(id: nat)
      modifies this`sessions, sink
      ensures Current() == RemoveSession(old(Current()), id)
    {
      if id !in sessions {
        return;
      }
      sink.RemoveConnection(sessions[id].conn);
      sessions := sessions - {id};
    }

    method OnFailed(c: nat)
      requires c in conns
      modifies this`sessions, this`conns, sink
      ensures Current() == Step(old(Current()), Failed(c))
    {
      conns := conns[c := conns[c].(open := false)];
      DropSession(conns[c].session);
    }

    /** The loop of heartbeatAndCleanup; `pinged` are the sessions a ping is queued for, `stopped` the connections to be closed. */
    method VisitSessions(now: int, maxIdle: int) returns (pinged: set<nat>, stopped: set<nat>, removed: bool)
      modifies this`sessions, sink
      ensures sessions == Survivors(old(Current()), now, maxIdle) && pinged == sessions.Keys
      ensures sink.connections == Without(old(sink.connections), ConnsOf(old(Current()), Dropped(old(Current()), now, maxIdle)))
      ensures stopped == ConnsOf(old(Current()), Dropped(old(Current()), now, maxIdle))
      ensures removed == (sessions.Keys != old(sessions.Keys))
    {
      hide Healthy, Without, ConnsOf, Survivors, Dropped;
      ghost var before := Current();
      ghost var gone: set<nat> := {};
      pinged, stopped, removed := {}, {}, false;
      var todo := sessions.Keys;
      WithoutNone(before);
      while todo != {}
        invariant nextSessionId == before.nextId && conns == before.conns
        invariant todo <= sessions.Keys && sessions.Keys == before.sessions.Keys - gone
        invariant pinged == sessions.Keys - todo
        invariant forall id :: id in todo ==> sessions[id] == before.sessions[id]
        invariant forall id :: id in pinged ==>
          && Healthy(before, before.sessions[id].conn, now, maxIdle)
          && sessions[id] == before.sessions[id].(heartbeats := before.sessions[id].heartbeats + 1)
        invariant forall id :: id in gone ==> id in before.sessions && !Healthy(before, before.sessions[id].conn, now, maxIdle)
        invariant sink.connections == Without(before.sink, ConnsOf(before, gone))
        invariant stopped == ConnsOf(before, gone)
        invariant removed == (gone != {})
        decreases todo
      {
        var id :| id in todo;
        todo := todo - {id};
        var c := sessions[id].conn;
        HealthLocal(before, Current(), c, now, maxIdle);
        if !Healthy(Current(), c, now, maxIdle) {
          stopped := stopped + {c};
          sink.RemoveConnection(c);
          WithoutOneMore(before, gone, id);
          sessions := sessions - {id};
          gone := gone + {id};
          removed := true;
        } else {
          sessions := sessions[id := sessions[id].(heartbeats := sessions[id].heartbeats + 1)];
          pinged := pinged + {id};
        }
      }
      AllVisited(before, sessions, gone, now, maxIdle);
    }

    /** heartbeatAndCleanup; `count` is the session count it publishes, if any. */
    method HeartbeatAndCleanup(now: int, maxIdle: int)
      returns (pinged: set<nat>, stopped: set<nat>, count: Option<nat>)
      requires Agree(Current())
      modifies this`sessions, sink
      ensures Current() == Step(old(Current()), Heartbeat(now, maxIdle)) && Agree(Current())
      ensures pinged == sessions.Keys
      ensures stopped == ConnsOf(old(Current()), Dropped(old(Current()), now, maxIdle))
      ensures count == if hasBus && old(sessions.Keys) != sessions.Keys then Some(|sessions|) else None
    {
      hide Agree, Healthy, Without, ClosedConns, ConnsOf, Survivors, Dropped;
      BeatAgrees(Current(), now, maxIdle);
      ghost var before := Current();
      var removed;
      pinged, stopped, removed := VisitSessions(now, maxIdle);
      count := if removed && hasBus then Some(|sessions|) else None;
      var closed := set c | c in sink.connections && !IsOpen(Current(), c);
      sink.PruneDisconnected(closed);
      PruneSame(before, ConnsOf(before, Dropped(before, now, maxIdle)), closed);
    }
  }

  lemma AllVisited(s: State, sessions: map<nat, Session>, gone: set<nat>, now: int, maxIdle: int)
    requires sessions.Keys == s.sessions.Keys - gone
    requires forall id :: id in sessions ==>
      && Healthy(s, s.sessions[id].conn, now, maxIdle)
      && sessions[id] == s.sessions[id].(heartbeats := s.sessions[id].heartbeats + 1)
    requires forall id :: id in gone ==> id in s.sessions && !Healthy(s, s.sessions[id].conn, now, maxIdle)
    ensures sessions == Survivors(s, now, maxIdle) && gone == Dropped(s, now, maxIdle)
  {
    hide Healthy;
  }

  lemma WithoutOneMore(s: State, ids: set<nat>, id: nat)
    requires id in s.sessions
    ensures ConnsOf(s, ids + {id}) == ConnsOf(s, ids) + {s.sessions[id].conn}
    ensures Without(Without(s.sink, ConnsOf(s, ids)), {s.sessions[id].conn}) == Without(s.sink, ConnsOf(s, ids + {id}))
  {
    WithoutTwice(s.sink, ConnsOf(s, ids), {s.sessions[id].conn});
    assert ConnsOf(s, ids + {id}) == ConnsOf(s, ids) + {s.sessions[id].conn};
  }

  lemma WithoutNone(s: State)
    ensures ConnsOf(s, {}) == {}
    ensures Without(s.sink, ConnsOf(s, {})) == s.sink
  {
    WithoutNothing(s.sink);
    assert ConnsOf(s, {}) == {};
  }

  lemma {:induction false} WithoutNothing(s: seq<nat>)
    ensures Without(s, {}) == s
  {
    if s != [] {
      WithoutNothing(s[1..]);
    }
  }

  lemma HealthLocal(s: State, s': State, c: nat, now: int, maxIdle: int)
    requires s.conns == s'.conns
    ensures Healthy(s, c, now, maxIdle) == Healthy(s', c, now, maxIdle)
  {
  }

  /** Pruning by what is closed among the remaining connections is pruning by all closed ones. */
  lemma PruneSame(s: State, gone: set<nat>, closed: set<nat>)
    requires closed == set c | c in Without(s.sink, gone) && !IsOpen(s, c)
    ensures Without(Without(s.sink, gone), closed) == Without(Without(s.sink, gone), ClosedConns(s))
  {
    WithoutFilters(s.sink, gone);
    WithoutOnlyMembers(Without(s.sink, gone), closed, ClosedConns(s));
  }

  lemma {:induction false} WithoutOnlyMembers(s: seq<nat>, a: set<nat>, b: set<nat>)
    requires forall c :: c in s ==> (c in a <==> c in b)
    ensures Without(s, a) == Without(s, b)
  {
    if s != [] {
      WithoutOnlyMembers(s[1..], a, b);
    }
  }
}
