/**
 * `ThreadPool` and `EventBus` as a step system. Each lock region is one step: taking the snapshot of the
 * handlers, enqueueing the task, fetching a task, and stop(). Running one handler is a step of its own.
 */
module ThreadPool {

  /** A worker runs the `job`-th accepted task and has called `done` of its handlers. */
  datatype Worker = Waiting | Busy(job: nat, done: nat) | Gone

  /** Tasks are named by their position in `accepted`, the sequence of handler lists that enqueue took. */
  datatype State = State(
    subscribers: map<nat, seq<nat>>,   // event type -> handlers, in subscription order
    snapshots: seq<seq<nat>>,          // publish() calls between their two lock regions
    queue: seq<nat>,
    running: bool,
    workers: seq<Worker>,
    // histories
    accepted: seq<seq<nat>>,
    started: seq<nat>,                 // tasks fetched by a worker, in order
    finished: set<nat>,
    dropped: seq<nat>,                 // tasks in the queue when stop() cleared it
    calls: seq<seq<nat>>)              // handlers called so far, for every accepted task

  datatype Event =
    | Subscribe(kind: nat, handler: nat)
    | Snapshot(kind: nat)              // publish, under the bus lock
    | Enqueue(i: nat)                  // publish, under the pool lock
    | Stop
    | Fetch(w: nat)                    // a waiting worker takes the oldest task, or leaves
    | Call(w: nat)                     // a busy worker runs its next handler, or finishes the task

  function Initial(n: nat): State {
    State(map[], [], [], true, seq(n, i => Waiting), [], [], {}, [], [])
  }

  function Handlers(s: State, kind: nat): seq<nat> {
    if kind in s.subscribers then s.subscribers[kind] else []
  }

  function Step(s: State, e: Event): State {
    match e
    case Subscribe(kind, h) => s.(subscribers := s.subscribers[kind := Handlers(s, kind) + [h]])
    case Snapshot(kind) => if kind in s.subscribers then s.(snapshots := s.snapshots + [s.subscribers[kind]]) else s
    case Enqueue(i) =>
      if i >= |s.snapshots| then s
      else
        var s' := s.(snapshots := s.snapshots[..i] + s.snapshots[i + 1..]);
        if !s.running then s'
        else s'.(queue := s.queue + [|s.accepted|], accepted := s.accepted + [s.snapshots[i]], calls := s.calls + [[]])
    case Stop => s.(running := false, dropped := s.dropped + s.queue, queue := [])
    case Fetch(w) =>
      if w >= |s.workers| || !s.workers[w].Waiting? then s
      else if s.queue == [] then
        if s.running then s else s.(workers := s.workers[w := Gone])
      else
        s.(workers := s.workers[w := Busy(s.queue[0], 0)], queue := s.queue[1..], started := s.started + [s.queue[0]])
    case Call(w) =>
      if w >= |s.workers| || !s.workers[w].Busy? then s
      else
        var job, k := s.workers[w].job, s.workers[w].done;
        if job < |s.accepted| && job < |s.calls| && k < |s.accepted[job]| then
          s.(workers := s.workers[w := Busy(job, k + 1)],
             calls := s.calls[job := s.calls[job] + [s.accepted[job][k]]])
        else s.(workers := s.workers[w := Waiting], finished := s.finished + {job})
  }

  function Run(s: State, es: seq<Event>): State
    decreases |es|
  {
    if es == [] then s else Run(Step(s, es[0]), es[1..])
  }

  // ----------------------------------------------------------------- conservation

  ghost predicate Holds(s: State, w: nat, job: nat) {
    w < |s.workers| && s.workers[w].Busy? && s.workers[w].job == job
  }

  /** The numbers lo, lo + 1, ... in order. */
  ghost predicate Consecutive(s: seq<nat>, lo: nat) {
    forall i :: 0 <= i < |s| ==> s[i] == lo + i
  }

  /** The accepted tasks are, in order, the started ones, the dropped ones and the queued ones. */
  ghost predicate Conserved(s: State) {
    && |s.accepted| == |s.calls| == |s.started| + |s.dropped| + |s.queue|
    && Consecutive(s.started, 0)
    && Consecutive(s.dropped, |s.started|)
    && Consecutive(s.queue, |s.started| + |s.dropped|)
    && (s.running ==> s.dropped == [])
    && (!s.running ==> s.queue == [])
  }

  /** A worker's task was started, is not finished, is nobody else's, and its calls so far are recorded. */
  ghost predicate WorkerOk(s: State, w: nat)
    requires w < |s.workers|
  {
    s.workers[w].Busy? ==>
      var job, k := s.workers[w].job, s.workers[w].done;
      && job < |s.started| && job < |s.accepted| && job < |s.calls| && job !in s.finished
      && k <= |s.accepted[job]| && s.calls[job] == s.accepted[job][..k]
      && forall v :: Holds(s, v, job) ==> v == w
  }

  /** A task is finished with all handlers called in order, in a worker's hands, or not yet touched. */
  ghost predicate TaskOk(s: State, i: nat)
    requires i < |s.accepted| == |s.calls|
  {
    if i in s.finished then i < |s.started| && s.calls[i] == s.accepted[i] && forall w :: !Holds(s, w, i)
    else if i < |s.started| then exists w :: Holds(s, w, i)
    else s.calls[i] == [] && forall w :: !Holds(s, w, i)
  }

  ghost predicate Inv(s: State) {
    && Conserved(s)
    && (forall w :: 0 <= w < |s.workers| ==> WorkerOk(s, w))
    && (forall i :: 0 <= i < |s.accepted| ==> TaskOk(s, i))
    && (forall i :: i in s.finished ==> i < |s.started|)
  }

  lemma StepConserved(s: State, e: Event)
    requires Conserved(s)
    ensures Conserved(Step(s, e))
  {
  }

  lemma FetchKeeps(s: State, w: nat)
    requires Inv(s) && w < |s.workers| && s.workers[w].Waiting? && s.queue != []
    ensures Inv(Step(s, Fetch(w)))
  {
    var s' := Step(s, Fetch(w));
    var job := s.queue[0];
    StepConserved(s, Fetch(w));
    assert job == |s.started| && TaskOk(s, job);
    assert forall v, i :: v != w ==> (Holds(s', v, i) <==> Holds(s, v, i));
    assert Holds(s', w, job) && s.accepted[job][..0] == [];
    forall v | 0 <= v < |s'.workers|
      ensures WorkerOk(s', v)
    {
      assert WorkerOk(s, v);
    }
    forall i | 0 <= i < |s'.accepted|
      ensures TaskOk(s', i)
    {
      assert TaskOk(s, i);
      if i !in s.finished && i < |s.started| {
        var v :| Holds(s, v, i);
        assert Holds(s', v, i);
      }
    }
  }

  lemma CallKeeps(s: State, w: nat)
    requires Inv(s) && w < |s.workers| && s.workers[w].Busy?
    ensures Inv(Step(s, Call(w)))
  {
    var s' := Step(s, Call(w));
    var job, k := s.workers[w].job, s.workers[w].done;
    StepConserved(s, Call(w));
    assert WorkerOk(s, w) && Holds(s, w, job);
    assert forall v, i :: v != w ==> (Holds(s', v, i) <==> Holds(s, v, i));
    if k < |s.accepted[job]| {
      assert s.accepted[job][..k] + [s.accepted[job][k]] == s.accepted[job][..k + 1];
      assert Holds(s', w, job);
    } else {
      assert s.accepted[job][..k] == s.accepted[job];
    }
    forall v | 0 <= v < |s'.workers|
      ensures WorkerOk(s', v)
    {
      assert WorkerOk(s, v);
      assert v != w && s.workers[v].Busy? ==> Holds(s, v, s.workers[v].job);
    }
    forall i | 0 <= i < |s'.accepted|
      ensures TaskOk(s', i)
    {
      assert TaskOk(s, i);
      if i != job && i !in s.finished && i < |s.started| {
        var v :| Holds(s, v, i);
        assert Holds(s', v, i);
      }
    }
  }

  lemma QuietKeeps(s: State, e: Event)
    requires Inv(s) && !e.Call? && (e.Fetch? ==> s.queue == [])
    ensures Inv(Step(s, e))
  {
    var s' := Step(s, e);
    StepConserved(s, e);
    assert forall v, i :: Holds(s', v, i) <==> Holds(s, v, i);
    forall v | 0 <= v < |s'.workers|
      ensures WorkerOk(s', v)
    {
      assert WorkerOk(s, v);
    }
    forall i | 0 <= i < |s'.accepted|
      ensures TaskOk(s', i)
    {
      if i < |s.accepted| {
        assert TaskOk(s, i);
      } else {
        assert forall w :: Holds(s, w, i) ==> WorkerOk(s, w);
      }
    }
  }

  lemma StepKeepsInv(s: State, e: Event)
    requires Inv(s)
    ensures Inv(Step(s, e))
  {
    hide Step, Inv;
    if e.Call? && e.w < |s.workers| && s.workers[e.w].Busy? {
      CallKeeps(s, e.w);
    } else if e.Fetch? && e.w < |s.workers| && s.workers[e.w].Waiting? && s.queue != [] {
      FetchKeeps(s, e.w);
    } else if e.Call? || (e.Fetch? && s.queue != []) {
      NoChange(s, e);
    } else {
      QuietKeeps(s, e);
    }
  }

  lemma NoChange(s: State, e: Event)
    requires e.Call? ==> !(e.w < |s.workers| && s.workers[e.w].Busy?)
    requires e.Fetch? ==> !(e.w < |s.workers| && s.workers[e.w].Waiting?)
    requires e.Call? || e.Fetch?
    ensures Step(s, e) == s
  {
  }

  lemma {:induction false} Reachable(s: State, es: seq<Event>)
    requires Inv(s)
    ensures Inv(Run(s, es))
    decreases |es|
  {
    hide Step, Inv;
    if es != [] {
      StepKeepsInv(s, es[0]);
      Reachable(Step(s, es[0]), es[1..]);
    }
  }

  lemma InitialInv(n: nat)
    ensures Inv(Initial(n))
  {
  }

  lemma ConsecutiveMembers(s: seq<nat>, lo: nat, i: nat)
    requires Consecutive(s, lo)
    ensures i in s <==> lo <= i < lo + |s|
  {
    if lo <= i < lo + |s| {
      assert s[i - lo] == i;
    }
  }

  /**
   * In every run each accepted task is in exactly one of queued, running, finished or dropped; tasks start
   * in the order they were accepted; a finished task has called each handler of its snapshot once, in
   * subscription order, a running one the first few, any other none.
   */
  lemma Conservation(n: nat, es: seq<Event>, i: nat)
    requires i < |Run(Initial(n), es).accepted|
    ensures var s := Run(Initial(n), es);
            && Consecutive(s.started, 0) && |s.calls| == |s.accepted|
            && (i in s.started <==> i in s.finished || exists w :: Holds(s, w, i))
            && !(i in s.finished && exists w :: Holds(s, w, i))
            && (i in s.queue <==> i !in s.started && s.running)
            && (i in s.dropped <==> i !in s.started && !s.running)
            && s.calls[i] <= s.accepted[i]
            && (i in s.finished ==> s.calls[i] == s.accepted[i])
            && (i !in s.started ==> s.calls[i] == [])
  {
    InitialInv(n);
    Reachable(Initial(n), es);
    hide Run, Consecutive;
    var s := Run(Initial(n), es);
    ConsecutiveMembers(s.started, 0, i);
    ConsecutiveMembers(s.dropped, |s.started|, i);
    ConsecutiveMembers(s.queue, |s.started| + |s.dropped|, i);
    assert TaskOk(s, i);
    if w :| Holds(s, w, i) {
      assert WorkerOk(s, w);
    }
  }

  /** The pool is running and has nothing left to do. */
  predicate AtRest(s: State) {
    s.running && s.queue == [] && forall w :: 0 <= w < |s.workers| ==> !s.workers[w].Busy?
  }

  lemma RestFinishes(s: State)
    requires Inv(s) && AtRest(s)
    ensures s.calls == s.accepted && forall i :: 0 <= i < |s.accepted| ==> i in s.finished
  {
    forall i | 0 <= i < |s.accepted|
      ensures i in s.finished && s.calls[i] == s.accepted[i]
    {
      assert TaskOk(s, i);
      assert forall w: nat :: !Holds(s, w, i);
    }
  }

  /** A pool at rest has run every task it ever accepted, each to its end. */
  lemma RestMeansFinished(n: nat, es: seq<Event>)
    requires AtRest(Run(Initial(n), es))
    ensures var s := Run(Initial(n), es);
            s.calls == s.accepted && forall i :: 0 <= i < |s.accepted| ==> i in s.finished
  {
    InitialInv(n);
    Reachable(Initial(n), es);
    RestFinishes(Run(Initial(n), es));
  }

  // ------------------------------------------------------------------------- stop

  /** After stop() the queue stays empty and nothing is accepted or started any more. */
  lemma {:induction false} AfterStop(s: State, es: seq<Event>)
    requires !s.running && s.queue == []
    ensures var s' := Run(s, es);
            !s'.running && s'.queue == [] && s'.accepted == s.accepted && s'.started == s.started
    decreases |es|
  {
    if es != [] {
      AfterStop(Step(s, es[0]), es[1..]);
    }
  }

  function Work(accepted: seq<seq<nat>>, w: Worker): nat {
    match w
    case Waiting => 1
    case Busy(job, done) => if job < |accepted| && done <= |accepted[job]| then |accepted[job]| - done + 2 else 2
    case Gone => 0
  }

  function TotalWork(accepted: seq<seq<nat>>, ws: seq<Worker>): nat {
    if ws == [] then 0 else TotalWork(accepted, ws[..|ws| - 1]) + Work(accepted, ws[|ws| - 1])
  }

  lemma {:induction false} TotalWorkUpdate(accepted: seq<seq<nat>>, ws: seq<Worker>, i: nat, w: Worker)
    requires i < |ws|
    ensures TotalWork(accepted, ws[i := w]) == TotalWork(accepted, ws) - Work(accepted, ws[i]) + Work(accepted, w)
  {
    var n := |ws| - 1;
    if i == n {
      assert ws[i := w][..n] == ws[..n];
    } else {
      TotalWorkUpdate(accepted, ws[..n], i, w);
      assert ws[i := w][..n] == ws[..n][i := w];
    }
  }

  /** A worker's own next step. */
  function Turn(s: State, w: nat): Event
    requires w < |s.workers|
  {
    if s.workers[w].Busy? then Call(w) else Fetch(w)
  }

  /** After stop() every step of a worker that has not left brings the pool closer to the end of all workers. */
  lemma WorkerStepDescends(s: State, w: nat)
    requires Inv(s) && !s.running && w < |s.workers| && !s.workers[w].Gone?
    ensures TotalWork(s.accepted, Step(s, Turn(s, w)).workers) < TotalWork(s.accepted, s.workers)
    ensures Step(s, Turn(s, w)).accepted == s.accepted && !Step(s, Turn(s, w)).running
  {
    assert WorkerOk(s, w);
    var s' := Step(s, Turn(s, w));
    TotalWorkUpdate(s.accepted, s.workers, w, s'.workers[w]);
    assert s'.workers == s.workers[w := s'.workers[w]];
  }

  /** `e` moves a worker on: a fetch that does not keep waiting, or a call. */
  predicate Moves(s: State, e: Event) {
    || (e.Fetch? && e.w < |s.workers| && s.workers[e.w].Waiting? && (s.queue != [] || !s.running))
    || (e.Call? && e.w < |s.workers| && s.workers[e.w].Busy?)
  }

  function Turns(s: State, es: seq<Event>): nat
    decreases |es|
  {
    if es == [] then 0 else (if Moves(s, es[0]) then 1 else 0) + Turns(Step(s, es[0]), es[1..])
  }

  lemma StoppedStep(s: State, e: Event)
    requires Inv(s) && !s.running
    ensures var s' := Step(s, e);
            && Inv(s') && !s'.running
            && (if Moves(s, e) then 1 else 0) + TotalWork(s'.accepted, s'.workers) <= TotalWork(s.accepted, s.workers)
  {
    StepKeepsInv(s, e);
    if Moves(s, e) {
      WorkerStepDescends(s, e.w);
      assert e == Turn(s, e.w);
    }
  }

  lemma {:induction false} NoWorkAllGone(accepted: seq<seq<nat>>, ws: seq<Worker>, w: nat)
    requires TotalWork(accepted, ws) == 0 && w < |ws|
    ensures ws[w].Gone?
  {
    if w < |ws| - 1 {
      NoWorkAllGone(accepted, ws[..|ws| - 1], w);
    }
  }

  /**
   * After stop(), on every schedule: the turns the workers take are bounded by the work they had left, a worker
   * that has not exited can always take one, and once they are used up all workers have exited.
   */
  lemma {:induction false} AllWorkersExit(s: State, es: seq<Event>)
    requires Inv(s) && !s.running
    ensures var s' := Run(s, es);
            && Turns(s, es) + TotalWork(s'.accepted, s'.workers) <= TotalWork(s.accepted, s.workers)
            && (forall w :: 0 <= w < |s'.workers| && !s'.workers[w].Gone? ==> Moves(s', Turn(s', w)))
            && (Turns(s, es) == TotalWork(s.accepted, s.workers) ==>
                  forall w :: 0 <= w < |s'.workers| ==> s'.workers[w].Gone?)
    decreases |es|
  {
    hide Step, Inv, Moves, TotalWork;
    if es != [] {
      StoppedStep(s, es[0]);
      AllWorkersExit(Step(s, es[0]), es[1..]);
    } else {
      assert !s.running;
      CanMove(s);
    }
    var s' := Run(s, es);
    if Turns(s, es) == TotalWork(s.accepted, s.workers) {
      forall w | 0 <= w < |s'.workers|
        ensures s'.workers[w].Gone?
      {
        NoWorkAllGone(s'.accepted, s'.workers, w);
      }
    }
  }

  lemma CanMove(s: State)
    requires !s.running
    ensures forall w :: 0 <= w < |s.workers| && !s.workers[w].Gone? ==> Moves(s, Turn(s, w))
  {
  }

  /** Such a schedule exists: from any state after stop() the workers can be led to their exit. */
  lemma {:induction false} ExitReachable(s: State) returns (es: seq<Event>)
    requires Inv(s) && !s.running
    ensures |es| <= TotalWork(s.accepted, s.workers)
    ensures forall w :: 0 <= w < |Run(s, es).workers| ==> Run(s, es).workers[w].Gone?
    decreases TotalWork(s.accepted, s.workers)
  {
    if w :| 0 <= w < |s.workers| && !s.workers[w].Gone? {
      WorkerStepDescends(s, w);
      StepKeepsInv(s, Turn(s, w));
      var s' := Step(s, Turn(s, w));
      var rest := ExitReachable(s');
      es := [Turn(s, w)] + rest;
    } else {
      es := [];
    }
  }

  // --------------------------------------------------------------------- progress

  /** No worker leaves a running pool. */
  ghost predicate Staffed(s: State) {
    s.running ==> forall w :: 0 <= w < |s.workers| ==> !s.workers[w].Gone?
  }

  lemma {:induction false} StaysStaffed(s: State, es: seq<Event>)
    requires Staffed(s)
    ensures Staffed(Run(s, es)) && |Run(s, es).workers| == |s.workers|
    decreases |es|
  {
    if es != [] {
      assert Staffed(Step(s, es[0]));
      StaysStaffed(Step(s, es[0]), es[1..]);
    }
  }

  /** A running pool with a worker is at rest, or some worker can take a turn; with a waiting worker a queued task is taken. */
  lemma RunningPoolMoves(s: State)
    requires Staffed(s) && s.running && |s.workers| > 0
    ensures AtRest(s) || exists w :: 0 <= w < |s.workers| && Moves(s, Turn(s, w))
    ensures forall w :: 0 <= w < |s.workers| && s.workers[w].Waiting? && s.queue != [] ==>
              Step(s, Fetch(w)).workers[w] == Busy(s.queue[0], 0) && Step(s, Fetch(w)).started == s.started + [s.queue[0]]
  {
    if !AtRest(s) {
      if w :| 0 <= w < |s.workers| && s.workers[w].Busy? {
        assert Moves(s, Turn(s, w));
      } else {
        assert !s.workers[0].Gone?;
        assert Moves(s, Turn(s, 0));
      }
    }
  }

  /** Turns needed for the queued tasks: one to fetch each, one for every handler, one to finish. */
  function QueuedWork(accepted: seq<seq<nat>>, queue: seq<nat>): nat {
    if queue == [] then 0
    else (if queue[0] < |accepted| then |accepted[queue[0]]| else 0) + 2 + QueuedWork(accepted, queue[1..])
  }

  /** Turns needed to finish what the workers hold. */
  function HeldWork(accepted: seq<seq<nat>>, ws: seq<Worker>): nat {
    if ws == [] then 0
    else
      var w := ws[|ws| - 1];
      HeldWork(accepted, ws[..|ws| - 1]) +
      if w.Busy? && w.job < |accepted| && w.done <= |accepted[w.job]| then |accepted[w.job]| - w.done + 1 else 0
  }

  /** The turns a running pool still needs to come to rest. */
  function Remaining(s: State): nat {
    QueuedWork(s.accepted, s.queue) + HeldWork(s.accepted, s.workers)
  }

  lemma {:induction false} HeldWorkUpdate(accepted: seq<seq<nat>>, ws: seq<Worker>, i: nat, w: Worker)
    requires i < |ws|
    ensures HeldWork(accepted, ws[i := w]) ==
            HeldWork(accepted, ws) - HeldWork(accepted, [ws[i]]) + HeldWork(accepted, [w])
  {
    HeldByOne(accepted, ws[i]);
    HeldByOne(accepted, w);
    var n := |ws| - 1;
    if i == n {
      assert ws[i := w][..n] == ws[..n];
    } else {
      HeldWorkUpdate(accepted, ws[..n], i, w);
      assert ws[i := w][..n] == ws[..n][i := w];
    }
  }

  lemma HeldByOne(accepted: seq<seq<nat>>, w: Worker)
    ensures HeldWork(accepted, [w]) ==
            if w.Busy? && w.job < |accepted| && w.done <= |accepted[w.job]| then |accepted[w.job]| - w.done + 1 else 0
  {
    assert [w][..0] == [];
  }

  /** Handlers and workers at work: nobody publishes into the pool or stops it. */
  predicate Internal(e: Event) {
    e.Fetch? || e.Call? || e.Subscribe? || e.Snapshot?
  }

  /** In a running pool every turn of a worker uses up exactly one of the remaining ones. */
  lemma RunningTurn(s: State, e: Event)
    requires Inv(s) && s.running && Internal(e)
    ensures var s' := Step(s, e);
            && Inv(s') && s'.running && s'.accepted == s.accepted && |s'.workers| == |s.workers|
            && Remaining(s') + (if Moves(s, e) then 1 else 0) == Remaining(s)
  {
    StepKeepsInv(s, e);
    hide Inv;
    if Moves(s, e) {
      if e.Fetch? {
        FetchUsesTurn(s, e.w);
      } else {
        CallUsesTurn(s, e.w);
      }
    } else if e.Fetch? || e.Call? {
      assert Step(s, e) == s;
    }
  }

  lemma FetchUsesTurn(s: State, w: nat)
    requires Inv(s) && w < |s.workers| && s.workers[w].Waiting? && s.queue != []
    ensures Remaining(Step(s, Fetch(w))) + 1 == Remaining(s)
  {
    var job := s.queue[0];
    assert job == |s.started| + |s.dropped| && job < |s.accepted|;
    HeldWorkUpdate(s.accepted, s.workers, w, Busy(job, 0));
    HeldByOne(s.accepted, Waiting);
    HeldByOne(s.accepted, Busy(job, 0));
  }

  lemma CallUsesTurn(s: State, w: nat)
    requires Inv(s) && w < |s.workers| && s.workers[w].Busy?
    ensures Remaining(Step(s, Call(w))) + 1 == Remaining(s)
  {
    assert WorkerOk(s, w);
    var job, k := s.workers[w].job, s.workers[w].done;
    var next := if k < |s.accepted[job]| then Busy(job, k + 1) else Waiting;
    HeldWorkUpdate(s.accepted, s.workers, w, next);
    HeldByOne(s.accepted, s.workers[w]);
    HeldByOne(s.accepted, next);
  }

  lemma NothingRemains(s: State)
    requires Inv(s) && s.running && Remaining(s) == 0
    ensures AtRest(s)
  {
    forall w | 0 <= w < |s.workers|
      ensures !s.workers[w].Busy?
    {
      assert WorkerOk(s, w);
      if s.workers[w].Busy? {
        HeldWorkUpdate(s.accepted, s.workers, w, Waiting);
        HeldByOne(s.accepted, Waiting);
        HeldByOne(s.accepted, s.workers[w]);
      }
    }
  }

  /**
   * On every schedule of a running pool without new publishes: worker turns count down to rest exactly, and as
   * long as it is not at rest some worker can take one. So no accepted task waits for ever.
   */
  lemma {:induction false} PoolComesToRest(s: State, es: seq<Event>)
    requires Inv(s) && Staffed(s) && s.running && |s.workers| > 0
    requires forall i :: 0 <= i < |es| ==> Internal(es[i])
    ensures var s' := Run(s, es);
            && s'.running && s'.accepted == s.accepted
            && Turns(s, es) + Remaining(s') == Remaining(s)
            && (AtRest(s') || exists w :: 0 <= w < |s'.workers| && Moves(s', Turn(s', w)))
            && (Turns(s, es) == Remaining(s) ==>
                  AtRest(s') && s'.calls == s.accepted && forall i :: 0 <= i < |s.accepted| ==> i in s'.finished)
    decreases |es|
  {
    hide Step, Inv, Moves, Remaining, Staffed, AtRest;
    if es == [] {
      RunningPoolMoves(s);
      if Remaining(s) == 0 {
        NothingRemains(s);
        RestFinishes(s);
      }
    } else {
      RunningTurn(s, es[0]);
      OneStepStaffed(s, es[0]);
      PoolComesToRest(Step(s, es[0]), es[1..]);
    }
  }

  lemma OneStepStaffed(s: State, e: Event)
    requires Staffed(s)
    ensures Staffed(Step(s, e))
  {
  }

  /** Fetches and calls alone lead a running pool with a worker to rest, with every accepted task finished. */
  lemma RestReachable(n: nat, before: seq<Event>) returns (es: seq<Event>)
    requires n > 0 && Run(Initial(n), before).running
    ensures forall i :: 0 <= i < |es| ==> es[i].Fetch? || es[i].Call?
    ensures var s, s' := Run(Initial(n), before), Run(Run(Initial(n), before), es);
            && AtRest(s') && s'.accepted == s.accepted && s'.calls == s.accepted
            && forall i :: 0 <= i < |s.accepted| ==> i in s'.finished
  {
    InitialInv(n);
    assert Staffed(Initial(n));
    Reachable(Initial(n), before);
    StaysStaffed(Initial(n), before);
    var s := Run(Initial(n), before);
    es := LeadToRest(s);
    PoolComesToRest(s, es);
  }

  lemma {:induction false} LeadToRest(s: State) returns (es: seq<Event>)
    requires Inv(s) && Staffed(s) && s.running && |s.workers| > 0
    ensures forall i :: 0 <= i < |es| ==> es[i].Fetch? || es[i].Call?
    ensures Turns(s, es) == Remaining(s)
    decreases Remaining(s)
  {
    hide Inv, Staffed, Moves, Remaining, Step;
    if Remaining(s) == 0 {
      return [];
    }
    if AtRest(s) {
      RestHasNothingLeft(s);
    }
    RunningPoolMoves(s);
    var w :| 0 <= w < |s.workers| && Moves(s, Turn(s, w));
    var e := Turn(s, w);
    RunningTurn(s, e);
    OneStepStaffed(s, e);
    var rest := LeadToRest(Step(s, e));
    es := [e] + rest;
    assert es[1..] == rest;
  }

  lemma {:induction false} NoneHeld(accepted: seq<seq<nat>>, ws: seq<Worker>)
    requires forall w :: 0 <= w < |ws| ==> !ws[w].Busy?
    ensures HeldWork(accepted, ws) == 0
  {
    if ws != [] {
      NoneHeld(accepted, ws[..|ws| - 1]);
    }
  }

  lemma RestHasNothingLeft(s: State)
    requires AtRest(s)
    ensures Remaining(s) == 0
  {
    NoneHeld(s.accepted, s.workers);
  }

  // -------------------------------------------------------------------------- bus

  /** Handlers subscribed to `kind` during a run, in order. */
  function Subscribed(es: seq<Event>, kind: nat): seq<nat>
    decreases |es|
  {
    if es == [] then []
    else (if es[0].Subscribe? && es[0].kind == kind then [es[0].handler] else []) + Subscribed(es[1..], kind)
  }

  lemma {:induction false} SubscribersAreHistory(s: State, es: seq<Event>, kind: nat)
    ensures Handlers(Run(s, es), kind) == Handlers(s, kind) + Subscribed(es, kind)
    decreases |es|
  {
    if es != [] {
      var s', e := Step(s, es[0]), es[0];
      assert Handlers(s', kind) == Handlers(s, kind) + if e.Subscribe? && e.kind == kind then [e.handler] else [];
      SubscribersAreHistory(s', es[1..], kind);
    }
  }

  ghost predicate NoEmptyEntry(s: State) {
    forall kind :: kind in s.subscribers ==> s.subscribers[kind] != []
  }

  lemma {:induction false} EntriesFilled(s: State, es: seq<Event>)
    requires NoEmptyEntry(s)
    ensures NoEmptyEntry(Run(s, es))
    decreases |es|
  {
    if es != [] {
      assert NoEmptyEntry(Step(s, es[0]));
      EntriesFilled(Step(s, es[0]), es[1..]);
    }
  }

  /**
   * A publish takes exactly the handlers subscribed so far, in subscription order. It does nothing if and
   * only if there is none.
   */
  lemma PublishSnapshot(n: nat, es: seq<Event>, kind: nat)
    ensures var s, s' := Run(Initial(n), es), Step(Run(Initial(n), es), Snapshot(kind));
            var hs := Subscribed(es, kind);
            && s' == (if hs != [] then s.(snapshots := s.snapshots + [hs]) else s)
            && (s' == s <==> hs == [])
  {
    SubscribersAreHistory(Initial(n), es, kind);
    EntriesFilled(Initial(n), es);
    assert Handlers(Initial(n), kind) == [];
    assert Handlers(Run(Initial(n), es), kind) == Subscribed(es, kind);
  }

  // ---------------------------------------------------------------------- origins

  lemma {:induction false} RunSnoc(s: State, es: seq<Event>, e: Event)
    ensures Run(s, es + [e]) == Step(Run(s, es), e)
    decreases |es|
  {
    if es == [] {
      assert es + [e] == [e] && [e][1..] == [];
    } else {
      assert (es + [e])[1..] == es[1..] + [e];
      RunSnoc(Step(s, es[0]), es[1..], e);
    }
  }

  ghost predicate Distinct(s: seq<nat>) {
    forall i, j :: 0 <= i < j < |s| ==> s[i] != s[j]
  }

  /** Each list in `tasks` is what the publish at the matching position of `at` saw. */
  ghost predicate Published(es: seq<Event>, at: seq<nat>, tasks: seq<seq<nat>>) {
    && |at| == |tasks|
    && (forall i :: 0 <= i < |at| ==> at[i] < |es| && es[at[i]].Snapshot?)
    && (forall i :: 0 <= i < |at| ==> tasks[i] == Subscribed(es[..at[i]], es[at[i]].kind))
  }

  /** The event at position `k` is a publish that somebody had subscribed to. */
  ghost predicate Heard(es: seq<Event>, k: nat) {
    k < |es| && es[k].Snapshot? && Subscribed(es[..k], es[k].kind) != []
  }

  /**
   * Every publish with a subscriber is in exactly one of three places, once: pending between its two lock
   * regions, accepted by the pool, or refused after stop(). What is pending or accepted holds exactly the
   * handlers subscribed at the moment of its publish, and nothing else is there.
   */
  lemma {:induction false} Origins(n: nat, es: seq<Event>)
      returns (pending: seq<nat>, accepted: seq<nat>, refused: seq<nat>)
    ensures Published(es, pending, Run(Initial(n), es).snapshots)
    ensures Published(es, accepted, Run(Initial(n), es).accepted)
    ensures Distinct(pending + accepted + refused)
    ensures forall k: nat :: Heard(es, k) <==> k in pending + accepted + refused
    ensures Run(Initial(n), es).running ==> refused == []
    decreases |es|
  {
    hide Distinct, Published, Heard;
    if es == [] {
      NoneYet(es);
      pending, accepted, refused := [], [], [];
      assert pending + accepted + refused == [];
      return;
    }
    var before, e := es[..|es| - 1], es[|es| - 1];
    var s := Run(Initial(n), before);
    assert es == before + [e];
    RunSnoc(Initial(n), before, e);
    pending, accepted, refused := Origins(n, before);
    PublishedEarlier(before, e, pending, s.snapshots);
    PublishedEarlier(before, e, accepted, s.accepted);
    HeardSnoc(before, e);
    if e.Snapshot? {
      PublishSnapshot(n, before, e.kind);
      if Subscribed(before, e.kind) != [] {
        assert es[..|before|] == before;
        PublishedSnoc(es, pending, s.snapshots, |before|);
        Arrive(pending, accepted, refused, |before|);
        pending := pending + [|before|];
      }
    } else if e.Enqueue? && e.i < |pending| {
      PublishedRemove(es, pending, s.snapshots, e.i);
      Move(pending, e.i, accepted, refused);
      var moved := pending[e.i];
      pending := pending[..e.i] + pending[e.i + 1..];
      if s.running {
        PublishedSnoc(es, accepted, s.accepted, moved);
        accepted := accepted + [moved];
      } else {
        refused := refused + [moved];
      }
    }
  }

  lemma Arrive(a: seq<nat>, b: seq<nat>, c: seq<nat>, x: nat)
    requires Distinct(a + b + c) && x !in a + b + c
    ensures Distinct(a + [x] + b + c) && forall k :: k in a + [x] + b + c <==> k in a + b + c || k == x
  {
    assert a + b + c == a + (b + c) && a + [x] + b + c == a + [x] + (b + c);
    Insert(a, b + c, x);
  }

  lemma Move(a: seq<nat>, i: nat, b: seq<nat>, c: seq<nat>)
    requires i < |a| && Distinct(a + b + c)
    ensures var rest := a[..i] + a[i + 1..];
            && Distinct(rest + (b + [a[i]]) + c) && Distinct(rest + b + (c + [a[i]]))
            && (forall k :: k in rest + (b + [a[i]]) + c <==> k in a + b + c)
            && (forall k :: k in rest + b + (c + [a[i]]) <==> k in a + b + c)
  {
    hide Distinct;
    var x, rest := a[i], a[..i] + a[i + 1..];
    assert a + b + c == a + (b + c) && rest + (b + c) == (rest + b) + c == (rest + b + c) + [];
    Remove(a, i, b + c);
    Insert(rest + b, c, x);
    Insert(rest + b + c, [], x);
    assert rest + (b + [x]) + c == (rest + b) + [x] + c;
    assert rest + b + (c + [x]) == (rest + b + c) + [x] + [];
  }

  lemma HeardSnoc(es: seq<Event>, e: Event)
    ensures forall k: nat :: Heard(es, k) ==> k < |es|
    ensures forall k: nat :: Heard(es + [e], k) <==>
              Heard(es, k) || (k == |es| && e.Snapshot? && Subscribed(es, e.kind) != [])
  {
    assert (es + [e])[..|es|] == es;
    forall k: nat | k < |es|
      ensures (es + [e])[..k] == es[..k]
    {
    }
  }

  /**
   * In a running pool at rest with no publish under way, every publish that had a subscriber has run the
   * handlers subscribed at its moment, each exactly once and in order, and nothing else was run.
   */
  lemma EachPublishRunsOnce(n: nat, es: seq<Event>) returns (at: seq<nat>)
    requires AtRest(Run(Initial(n), es)) && Run(Initial(n), es).snapshots == []
    ensures Distinct(at) && forall k: nat :: Heard(es, k) <==> k in at
    ensures Published(es, at, Run(Initial(n), es).calls)
  {
    hide Distinct, Heard;
    var pending, accepted, refused := Origins(n, es);
    RestMeansFinished(n, es);
    at := accepted;
    assert pending + accepted + refused == at;
  }

  lemma PublishedEarlier(es: seq<Event>, e: Event, at: seq<nat>, tasks: seq<seq<nat>>)
    requires Published(es, at, tasks)
    ensures Published(es + [e], at, tasks)
    ensures |at| == |tasks| && forall i :: 0 <= i < |at| ==> at[i] < |es|
  {
    forall i | 0 <= i < |at|
      ensures (es + [e])[..at[i]] == es[..at[i]]
    {
    }
  }

  lemma NoneYet(es: seq<Event>)
    requires es == []
    ensures Published(es, [], []) && Distinct([]) && forall k: nat :: !Heard(es, k)
  {
  }

  lemma PublishedSnoc(es: seq<Event>, at: seq<nat>, tasks: seq<seq<nat>>, k: nat)
    requires Published(es, at, tasks) && k < |es| && es[k].Snapshot?
    ensures Published(es, at + [k], tasks + [Subscribed(es[..k], es[k].kind)])
  {
  }

  lemma PublishedRemove(es: seq<Event>, at: seq<nat>, tasks: seq<seq<nat>>, i: nat)
    requires Published(es, at, tasks) && i < |at|
    ensures |at| == |tasks| && Published(es, at[..i] + at[i + 1..], tasks[..i] + tasks[i + 1..])
    ensures at[i] < |es| && es[at[i]].Snapshot? && tasks[i] == Subscribed(es[..at[i]], es[at[i]].kind)
  {
  }

  lemma Insert(a: seq<nat>, b: seq<nat>, x: nat)
    requires Distinct(a + b) && x !in a + b
    ensures Distinct(a + [x] + b)
    ensures forall k :: k in a + [x] + b <==> k in a + b || k == x
  {
    var s, t := a + b, a + [x] + b;
    assert forall k :: 0 <= k < |t| && k != |a| ==> t[k] == s[if k < |a| then k else k - 1];
  }

  lemma Remove(a: seq<nat>, i: nat, b: seq<nat>)
    requires i < |a| && Distinct(a + b)
    ensures var t := a[..i] + a[i + 1..] + b;
            Distinct(t) && a[i] !in t && forall k :: k in a + b <==> k in t || k == a[i]
  {
    var s, t := a + b, a[..i] + a[i + 1..] + b;
    assert s[i] == a[i];
    assert forall k :: 0 <= k < |t| ==> t[k] == s[if k < i then k else k + 1];
    assert forall k :: 0 <= k < |s| && k != i ==> s[k] == t[if k < i then k else k - 1];
  }

  // -------------------------------------------------------------------- the class

  /** The fields of the pool and of the bus on top of it; each method is one region under a lock. */
  class PoolAndBus {
    var subscribers: map<nat, seq<nat>>
    var snapshots: seq<seq<nat>>
    var queue: seq<nat>
    var running: bool
    var workers: seq<Worker>
    var accepted: seq<seq<nat>>
    var calls: seq<seq<nat>>
    ghost var started: seq<nat>
    ghost var finished: set<nat>
    ghost var dropped: seq<nat>

    ghost function View(): State
      reads this
    {
      State(subscribers, snapshots, queue, running, workers, accepted, started, finished, dropped, calls)
    }

    constructor (n: nat)
      ensures View() == Initial(n)
    {
      subscribers, snapshots, queue, running, workers := map[], [], [], true, seq(n, i => Waiting);
      accepted, calls, started, finished, dropped := [], [], [], {}, [];
    }

    method AddHandler(kind: nat, handler: nat)
      modifies this`subscribers
      ensures View() == Step(old(View()), Subscribe(kind, handler))
    {
      if kind in subscribers {
        subscribers := subscribers[kind := subscribers[kind] + [handler]];
      } else {
        assert [] + [handler] == [handler];
        subscribers := subscribers[kind := [handler]];
      }
    }

    /** `publish` under the bus lock; without a subscriber it returns at once. */
    method TakeSnapshot(kind: nat) returns (found: bool)
      modifies this`snapshots
      ensures View() == Step(old(View()), Snapshot(kind))
      ensures found <==> kind in subscribers
    {
      found := kind in subscribers;
      if found {
        snapshots := snapshots + [subscribers[kind]];
      }
    }

    /** `enqueue`, called with the `i`-th pending snapshot. */
    method EnqueueTask(i: nat)
      requires i < |snapshots|
      modifies this`snapshots, this`queue, this`accepted, this`calls
      ensures View() == Step(old(View()), Enqueue(i))
    {
      var task := snapshots[i];
      snapshots := snapshots[..i] + snapshots[i + 1..];
      if !running {
        return;
      }
      queue := queue + [|accepted|];
      accepted := accepted + [task];
      calls := calls + [[]];
    }

    /** `stop` under the pool lock. */
    method StopPool()
      modifies this`running, this`queue, this`dropped
      ensures View() == Step(old(View()), Stop)
    {
      running := false;
      dropped := dropped + queue;
      queue := [];
    }

    /** `worker_loop` under the lock: wait, leave, or take the oldest task. */
    method FetchTask(w: nat)
      requires w < |workers| && workers[w].Waiting?
      modifies this`workers, this`queue, this`started
      ensures View() == Step(old(View()), Fetch(w))
    {
      if queue == [] && running {
        return;
      }
      if queue == [] {
        workers := workers[w := Gone];
        return;
      }
      started := started + [queue[0]];
      workers := workers[w := Busy(queue[0], 0)];
      queue := queue[1..];
    }

    /** One turn of the handler loop inside a task. */
    method RunHandler(w: nat)
      requires Inv(View())
      requires w < |workers| && workers[w].Busy?
      modifies this`workers, this`calls, this`finished
      ensures View() == Step(old(View()), Call(w)) && Inv(View())
    {
      var job, k := workers[w].job, workers[w].done;
      StepKeepsInv(View(), Call(w));
      assert WorkerOk(View(), w);
      if k < |accepted[job]| {
        calls := calls[job := calls[job] + [accepted[job][k]]];
        workers := workers[w := Busy(job, k + 1)];
      } else {
        workers := workers[w := Waiting];
        finished := finished + {job};
      }
    }
  }
}
