/**
 * `Scheduler` as a step system. Every region between lock and unlock is one step, and so is every
 * read the loop makes without the lock (`running` at lines 79 and 84, `cancelled` at line 85, the clock at 89).
 * Client calls interleave freely with the loop.
 */
module Scheduler {
  datatype Task = Task(id: nat, time: int, interval: int)

  datatype Loop =
    | Idle                                  // no thread, or joined
    | Head                                  // lock held, about to test `running`
    | Popped(task: Task)                    // unlocked, about to test `running` before the call
    | Calling(task: Task)
    | Returned(task: Task, keep: bool)      // about to test `running && keep && interval > 0`
    | Rescheduling(task: Task)              // about to read `cancelled` without the lock
    | Cleared(task: Task)                   // about to read the clock
    | Pushing(task: Task)                   // new time set, about to take the lock and push
    | Exited

  datatype State = State(
    created: seq<Task>,                     // id drawn, not yet pushed
    queue: seq<Task>,                       // the storage of the priority queue, in any order
    cancelled: set<nat>,
    running: bool,
    nextId: nat,
    loop: Loop,
    now: int)

  const INITIAL := State([], [], {}, false, 1, Idle, 0)

  datatype Event =
    | Tick(time: int)                       // the clock moves on
    | Start | StopSignal | StopReturn       // start(); stop() under its lock; stop() after join
    | Create(time: int, interval: int)      // schedule(): next_id++
    | Push(i: nat)                          // schedule(): queue.push under the lock
    | Cancel(id: nat)
    | Exit                                  // `running` is false: drain and leave
    | Pop(i: nat)                           // a due task of least time leaves the queue
    | Invoke | Skip                         // line 79: call the task, or not
    | Return(keep: bool)
    | Decide | ReadCancelled | ReadClock | Repush

  predicate Due(s: State, i: nat) {
    && i < |s.queue|
    && s.queue[i].time <= s.now
    && forall j :: 0 <= j < |s.queue| ==> s.queue[i].time <= s.queue[j].time
  }

  function Remove(q: seq<Task>, i: nat): seq<Task>
    requires i < |q|
  {
    q[..i] + q[i + 1..]
  }

  /** Events that are not possible in a state leave it unchanged, so every event sequence is a run. */
  ghost function Step(s: State, e: Event): State {
    match e
    case Tick(t) => if s.now <= t then s.(now := t) else s
    case Start => if s.loop.Idle? then s.(running := true, loop := Head) else s
    case StopSignal => s.(running := false, queue := [])
    case StopReturn => if s.loop.Exited? then s.(loop := Idle) else s
    case Create(t, interval) => s.(nextId := s.nextId + 1, created := s.created + [Task(s.nextId, t, interval)])
    case Push(i) => if i < |s.created| then s.(created := Remove(s.created, i), queue := s.queue + [s.created[i]]) else s
    case Cancel(id) => s.(cancelled := s.cancelled + {id})
    case Exit => if s.loop.Head? && !s.running then s.(queue := [], loop := Exited) else s
    case Pop(i) =>
      if s.loop.Head? && s.running && Due(s, i) then
        var t := s.queue[i];
        s.(queue := Remove(s.queue, i), loop := if t.id in s.cancelled then Head else Popped(t))
      else s
    case Invoke => if s.loop.Popped? && s.running then s.(loop := Calling(s.loop.task)) else s
    case Skip => if s.loop.Popped? && !s.running then s.(loop := Returned(s.loop.task, true)) else s
    case Return(keep) => if s.loop.Calling? then s.(loop := Returned(s.loop.task, keep)) else s
    case Decide =>
      if !s.loop.Returned? then s
      else if s.running && s.loop.keep && s.loop.task.interval > 0 then s.(loop := Rescheduling(s.loop.task))
      else s.(loop := Head)
    case ReadCancelled =>
      if !s.loop.Rescheduling? then s
      else s.(loop := if s.loop.task.id in s.cancelled then Head else Cleared(s.loop.task))
    case ReadClock =>
      if s.loop.Cleared? then s.(loop := Pushing(s.loop.task.(time := s.now + s.loop.task.interval))) else s
    case Repush =>
      if s.loop.Pushing? then s.(queue := s.queue + [s.loop.task], loop := Head) else s
  }

  ghost function Run(s: State, es: seq<Event>): State
    decreases |es|
  {
    if es == [] then s else Run(Step(s, es[0]), es[1..])
  }

  /** Event `e` in state `s` starts an invocation of task `id`. */
  predicate Starts(s: State, e: Event, id: nat) {
    e.Invoke? && s.running && s.loop.Popped? && s.loop.task.id == id
  }

  /** How often task `id` is started during `es`. */
  ghost function StartCount(s: State, es: seq<Event>, id: nat): nat
    decreases |es|
  {
    if es == [] then 0
    else (if Starts(s, es[0], id) then 1 else 0) + StartCount(Step(s, es[0]), es[1..], id)
  }

  /** Every start of task `id` during `es` happens at clock `t` or later. */
  ghost predicate StartsNotBefore(s: State, es: seq<Event>, id: nat, t: int)
    decreases |es|
  {
    es == [] ||
    ((Starts(s, es[0], id) ==> t <= s.now) && StartsNotBefore(Step(s, es[0]), es[1..], id, t))
  }

  // ------------------------------------------------------------- global invariant

  predicate Busy(l: Loop) {
    !l.Idle? && !l.Head? && !l.Exited?
  }

  function Count(q: seq<Task>, id: nat): nat {
    if q == [] then 0 else Count(q[..|q| - 1], id) + if q[|q| - 1].id == id then 1 else 0
  }

  /** The live copies of task `id`: created, queued or in flight. */
  function Copies(s: State, id: nat): nat {
    Count(s.created, id) + Count(s.queue, id) + if Busy(s.loop) && s.loop.task.id == id then 1 else 0
  }

  ghost predicate Inv(s: State) {
    && (forall id: nat :: Copies(s, id) <= if id < s.nextId then 1 else 0)
    && (s.loop.Popped? || s.loop.Calling? ==> s.loop.task.time <= s.now)
  }

  lemma CountSnoc(q: seq<Task>, t: Task, id: nat)
    ensures Count(q + [t], id) == Count(q, id) + if t.id == id then 1 else 0
  {
    assert (q + [t])[..|q|] == q;
  }

  lemma {:induction false} CountRemove(q: seq<Task>, i: nat, id: nat)
    requires i < |q|
    ensures Count(q, id) == Count(Remove(q, i), id) + if q[i].id == id then 1 else 0
  {
    var last := |q| - 1;
    if i == last {
      assert Remove(q, i) == q[..last];
    } else {
      CountRemove(q[..last], i, id);
      assert Remove(q, i) == Remove(q[..last], i) + [q[last]];
      CountSnoc(Remove(q[..last], i), q[last], id);
    }
  }

  lemma {:induction false} CountZero(q: seq<Task>, id: nat)
    ensures Count(q, id) == 0 <==> forall i :: 0 <= i < |q| ==> q[i].id != id
  {
    if q != [] {
      CountZero(q[..|q| - 1], id);
    }
  }

  /** No step adds a copy of a task, except drawing a fresh id. */
  lemma StepCopies(s: State, e: Event, id: nat)
    ensures Copies(Step(s, e), id) <= Copies(s, id) + if e.Create? && s.nextId == id then 1 else 0
  {
    var s' := Step(s, e);
    if s' != s {
      match e
      case Create(t, d) => CountSnoc(s.created, Task(s.nextId, t, d), id);
      case Push(i) =>
        CountSnoc(s.queue, s.created[i], id);
        CountRemove(s.created, i, id);
      case Pop(i) => CountRemove(s.queue, i, id);
      case Repush => CountSnoc(s.queue, s.loop.task, id);
      case _ =>
    }
  }

  lemma StepKeepsInv(s: State, e: Event)
    requires Inv(s)
    ensures Inv(Step(s, e))
  {
    forall id: nat
      ensures Copies(Step(s, e), id) <= if id < Step(s, e).nextId then 1 else 0
    {
      StepCopies(s, e, id);
      assert Copies(s, id) <= if id < s.nextId then 1 else 0;
    }
  }

  /** Over every run each id has at most one live copy and nothing in flight was popped before it was due. */
  lemma {:induction false} Reachable(s: State, es: seq<Event>)
    requires Inv(s)
    ensures Inv(Run(s, es))
    decreases |es|
  {
    if es != [] {
      StepKeepsInv(s, es[0]);
      Reachable(Step(s, es[0]), es[1..]);
    }
  }

  lemma SafetyOverAllRuns(es: seq<Event>)
    ensures Inv(Run(INITIAL, es))
  {
    Reachable(INITIAL, es);
  }

  lemma NoStartBeforeDue(es: seq<Event>, id: nat)
    ensures var s := Run(INITIAL, es); Starts(s, Invoke, id) ==> s.loop.task.time <= s.now
  {
    Reachable(INITIAL, es);
  }

  // ------------------------------------------------------------ nothing is lost

  /** `t`, with this due time and interval, is created, queued or in flight. */
  ghost predicate Live(s: State, t: Task) {
    t in s.created || t in s.queue || (Busy(s.loop) && s.loop.task == t)
  }

  ghost predicate Queued(s: State, id: nat) {
    exists i :: 0 <= i < |s.queue| && s.queue[i].id == id
  }

  /** The only ways for task `id` to end: stop, a cancel seen by the loop, or a finished invocation not to be repeated. */
  ghost predicate Ends(s: State, e: Event, id: nat) {
    match e
    case StopSignal => Queued(s, id)
    case Exit => s.loop.Head? && !s.running && Queued(s, id)
    case Pop(i) => s.loop.Head? && s.running && Due(s, i) && s.queue[i].id == id && id in s.cancelled
    case Decide =>
      && s.loop.Returned? && s.loop.task.id == id
      && (!s.running || !s.loop.keep || s.loop.task.interval <= 0)
    case ReadCancelled => s.loop.Rescheduling? && s.loop.task.id == id && id in s.cancelled
    case _ => false
  }

  /** No live task is lost or altered by any step but these; the clock reading after a call gives it its next due time. */
  lemma TaskKept(s: State, e: Event, t: Task)
    requires Live(s, t) && !Ends(s, e, t.id)
    ensures var moved := e.ReadClock? && s.loop.Cleared? && s.loop.task == t;
            Live(Step(s, e), if moved then t.(time := s.now + t.interval) else t)
  {
    match e
    case Push(i) => if i < |s.created| { Removed(s.created, i, t); }
    case Pop(i) => if i < |s.queue| { Removed(s.queue, i, t); }
    case _ =>
  }

  lemma Removed(q: seq<Task>, i: nat, t: Task)
    requires i < |q|
    ensures t in q ==> t in Remove(q, i) || t == q[i]
  {
    if j :| 0 <= j < |q| && q[j] == t {
      assert j < i ==> Remove(q, i)[j] == t;
      assert j > i ==> Remove(q, i)[j - 1] == t;
    }
  }

  lemma QueuedCount(s: State, id: nat)
    ensures Queued(s, id) <==> Count(s.queue, id) > 0
  {
    CountZero(s.queue, id);
  }

  /** Copies of a task are conserved exactly: one more when it is created, none left when it ends, else the same. */
  lemma CopiesExact(s: State, e: Event, id: nat)
    requires Inv(s)
    ensures Copies(Step(s, e), id) ==
            if Ends(s, e, id) then 0 else Copies(s, id) + if e.Create? && s.nextId == id then 1 else 0
  {
    hide Copies, Step, Ends, Inv;
    assert Copies(s, id) <= 1 by {
      AtMostOne(s, id);
    }
    if e.Create? || e.Push? || e.Repush? {
      CopiesMoved(s, e, id);
    } else if e.Pop? {
      CopiesPopped(s, e.i, id);
    } else {
      CopiesDropped(s, e, id);
    }
  }

  lemma AtMostOne(s: State, id: nat)
    requires Inv(s)
    ensures Copies(s, id) <= 1
  {
    assert Copies(s, id) <= if id < s.nextId then 1 else 0;
  }

  lemma CopiesMoved(s: State, e: Event, id: nat)
    requires e.Create? || e.Push? || e.Repush?
    ensures !Ends(s, e, id)
    ensures Copies(Step(s, e), id) == Copies(s, id) + if e.Create? && s.nextId == id then 1 else 0
  {
    hide Count, Remove;
    match e
    case Create(t, d) => CountSnoc(s.created, Task(s.nextId, t, d), id);
    case Push(i) =>
      if i < |s.created| {
        CountSnoc(s.queue, s.created[i], id);
        CountRemove(s.created, i, id);
      }
    case Repush => if s.loop.Pushing? { CountSnoc(s.queue, s.loop.task, id); }
  }

  lemma CopiesPopped(s: State, i: nat, id: nat)
    requires Copies(s, id) <= 1
    ensures Copies(Step(s, Pop(i)), id) == if Ends(s, Pop(i), id) then 0 else Copies(s, id)
  {
    hide Count, Remove, Due;
    if s.loop.Head? && s.running && Due(s, i) {
      DueInQueue(s, i);
      CountRemove(s.queue, i, id);
    }
  }

  lemma CopiesDropped(s: State, e: Event, id: nat)
    requires Copies(s, id) <= 1
    requires !e.Create? && !e.Push? && !e.Repush? && !e.Pop?
    ensures Copies(Step(s, e), id) == if Ends(s, e, id) then 0 else Copies(s, id)
  {
    hide Count, Queued;
    QueuedCount(s, id);
    NoneCounted(id);
  }

  lemma DueInQueue(s: State, i: nat)
    requires Due(s, i)
    ensures i < |s.queue|
  {
  }

  lemma NoneCounted(id: nat)
    ensures Count([], id) == 0
  {
  }

  /** Other threads at work while the loop handles task `id`: no stop, and no cancel of that task. */
  ghost predicate Elsewhere(es: seq<Event>, id: nat) {
    forall i :: 0 <= i < |es| ==>
      es[i].Tick? || es[i].Create? || es[i].Push? || (es[i].Cancel? && es[i].id != id)
  }

  lemma {:induction false} LoopUntouched(s: State, es: seq<Event>, id: nat)
    requires Elsewhere(es, id)
    ensures var s' := Run(s, es);
            && s'.loop == s.loop && s'.running == s.running && s.now <= s'.now
            && (id in s'.cancelled <==> id in s.cancelled)
    decreases |es|
  {
    if es != [] {
      LoopUntouched(Step(s, es[0]), es[1..], id);
    }
  }

  /**
   * A repeating task comes back: after an invocation that returned true, while running and not cancelled, the
   * loop's own four steps put exactly one entry of it into the queue, due one interval after the clock reading,
   * whatever other threads do in between.
   */
  lemma RepeatingTaskReturns(before: seq<Event>, a: seq<Event>, b: seq<Event>, c: seq<Event>, d: seq<Event>)
    requires var s := Run(INITIAL, before);
             && s.loop.Calling? && s.running && s.loop.task.interval > 0 && s.loop.task.id !in s.cancelled
             && Elsewhere(a, s.loop.task.id) && Elsewhere(b, s.loop.task.id)
             && Elsewhere(c, s.loop.task.id) && Elsewhere(d, s.loop.task.id)
    ensures var s := Run(INITIAL, before);
            var t := s.loop.task;
            var s1 := Run(Step(s, Return(true)), a);
            var s2 := Run(Step(s1, Decide), b);
            var s3 := Run(Step(s2, ReadCancelled), c);
            var s4 := Run(Step(s3, ReadClock), d);
            var s5 := Step(s4, Repush);
            && s5.loop.Head? && s5.running && Count(s5.queue, t.id) == 1
            && t.(time := s3.now + t.interval) in s5.queue
            && s.now <= s3.now
  {
    hide Inv, Run, Elsewhere, Count, Step;
    var s := Run(INITIAL, before);
    var t := s.loop.task;
    InitialInv();
    Reachable(INITIAL, before);
    DecidesToRepeat(s, a, b);
    var s2 := Run(Step(Run(Step(s, Return(true)), a), Decide), b);
    LoopSteps(s2);
    Stage(s2, ReadCancelled, c, t.id);
    var s3 := Run(Step(s2, ReadCancelled), c);
    LoopSteps(s3);
    Stage(s3, ReadClock, d, t.id);
    var s4 := Run(Step(s3, ReadClock), d);
    LoopSteps(s4);
    PushedOnce(s4);
  }

  lemma DecidesToRepeat(s: State, a: seq<Event>, b: seq<Event>)
    requires Inv(s) && s.loop.Calling? && s.running && s.loop.task.interval > 0 && s.loop.task.id !in s.cancelled
    requires Elsewhere(a, s.loop.task.id) && Elsewhere(b, s.loop.task.id)
    ensures var s2 := Run(Step(Run(Step(s, Return(true)), a), Decide), b);
            && Inv(s2) && s2.loop == Rescheduling(s.loop.task) && s2.running
            && s.loop.task.id !in s2.cancelled && s.now <= s2.now
  {
    hide Inv, Run, Elsewhere, Step;
    var t := s.loop.task;
    LoopSteps(s);
    Stage(s, Return(true), a, t.id);
    var s1 := Run(Step(s, Return(true)), a);
    LoopSteps(s1);
    Stage(s1, Decide, b, t.id);
  }

  /** The loop's steps after a call, when the task is to be repeated. */
  lemma LoopSteps(s: State)
    ensures s.loop.Calling? ==> Step(s, Return(true)) == s.(loop := Returned(s.loop.task, true))
    ensures s.loop.Returned? && s.running && s.loop.keep && s.loop.task.interval > 0 ==>
              Step(s, Decide) == s.(loop := Rescheduling(s.loop.task))
    ensures s.loop.Rescheduling? && s.loop.task.id !in s.cancelled ==>
              Step(s, ReadCancelled) == s.(loop := Cleared(s.loop.task))
    ensures s.loop.Cleared? ==>
              Step(s, ReadClock) == s.(loop := Pushing(s.loop.task.(time := s.now + s.loop.task.interval)))
    ensures s.loop.Pushing? ==> Step(s, Repush) == s.(queue := s.queue + [s.loop.task], loop := Head)
  {
  }

  lemma InitialInv()
    ensures Inv(INITIAL)
  {
  }

  /** One step of the loop, then other threads. */
  lemma Stage(s: State, e: Event, es: seq<Event>, id: nat)
    requires Inv(s) && Elsewhere(es, id)
    ensures var s', s'' := Step(s, e), Run(Step(s, e), es);
            && Inv(s'') && s''.loop == s'.loop && s''.running == s'.running && s'.now <= s''.now
            && (id in s''.cancelled <==> id in s'.cancelled)
  {
    hide Inv, Step, Elsewhere;
    StepKeepsInv(s, e);
    LoopUntouched(Step(s, e), es, id);
    Reachable(Step(s, e), es);
  }

  lemma PushedOnce(s: State)
    requires Inv(s) && s.loop.Pushing?
    ensures var s' := Step(s, Repush);
            s'.loop.Head? && Count(s'.queue, s.loop.task.id) == 1 && s.loop.task in s'.queue
  {
    OnlyCopy(s);
    CountZero(s.queue, s.loop.task.id);
    CountSnoc(s.queue, s.loop.task, s.loop.task.id);
  }

  /** At the head of a running loop a due task of least time is started, unless it was cancelled; then it is dropped. */
  lemma DueIsStarted(s: State, i: nat)
    requires s.loop.Head? && s.running && Due(s, i)
    ensures var t, s' := s.queue[i], Step(s, Pop(i));
            && (t.id !in s.cancelled ==> Starts(s', Invoke, t.id) && Step(s', Invoke).loop == Calling(t))
            && (t.id in s.cancelled ==> s'.loop.Head?)
            && s'.queue == s.queue[..i] + s.queue[i + 1..]
  {
  }

  // ------------------------------------------------------------------ cancel

  ghost predicate Cancelled(s: State, id: nat) {
    id in s.cancelled && !(s.loop.Popped? && s.loop.task.id == id)
  }

  /**
   * After cancel(id) at most one invocation can still start, and that one only if the loop had already
   * taken the task off the queue and past the locked check. In particular a cancel that lands between
   * the unlocked check and the re-push wins.
   */
  lemma {:induction false} AfterCancel(s: State, es: seq<Event>, id: nat)
    requires id in s.cancelled
    ensures StartCount(s, es, id) <= if s.loop.Popped? && s.loop.task.id == id then 1 else 0
    decreases |es|
  {
    if es != [] {
      var s' := Step(s, es[0]);
      assert Cancelled(s, id) ==> Cancelled(s', id);
      AfterCancel(s', es[1..], id);
    }
  }

  // ---------------------------------------------------------------- repetition

  /** Task `id` last finished at `t`; all its further starts must wait for `t + d`. */
  ghost predicate Rested(s: State, id: nat, t: int, d: int) {
    && id < s.nextId
    && t <= s.now
    && (t + d <= s.now || Waiting(s, id, t + d, d))
  }

  ghost predicate Postponed(q: seq<Task>, id: nat, due: int, d: int) {
    forall i :: 0 <= i < |q| && q[i].id == id ==> due <= q[i].time && q[i].interval == d
  }

  ghost predicate Waiting(s: State, id: nat, due: int, d: int) {
    && Postponed(s.created, id, due, d)
    && Postponed(s.queue, id, due, d)
    && (Busy(s.loop) && s.loop.task.id == id ==>
          && s.loop.task.interval == d
          && (s.loop.Popped? || s.loop.Pushing? || s.loop.Calling? ==> due <= s.loop.task.time))
  }

  lemma StepKeepsRested(s: State, e: Event, id: nat, t: int, d: int)
    requires Inv(s) && Rested(s, id, t, d)
    ensures Rested(Step(s, e), id, t, d)
    ensures Starts(s, e, id) ==> t + d <= s.now
  {
  }

  lemma {:induction false} RestedRuns(s: State, es: seq<Event>, id: nat, t: int, d: int)
    requires Inv(s) && Rested(s, id, t, d)
    ensures StartsNotBefore(s, es, id, t + d)
    decreases |es|
  {
    if es != [] {
      StepKeepsRested(s, es[0], id, t, d);
      StepKeepsInv(s, es[0]);
      RestedRuns(Step(s, es[0]), es[1..], id, t, d);
    }
  }

  /** Any later start of a task comes at least its interval after the finish of this invocation. */
  lemma IntervalAfterFinish(before: seq<Event>, keep: bool, es: seq<Event>)
    requires Run(INITIAL, before).loop.Calling?
    ensures var s := Run(INITIAL, before);
            StartsNotBefore(Step(s, Return(keep)), es, s.loop.task.id, s.now + s.loop.task.interval)
  {
    Reachable(INITIAL, before);
    var s := Run(INITIAL, before);
    var t := s.loop.task;
    OnlyCopy(s);
    StepKeepsInv(s, Return(keep));
    RestedRuns(Step(s, Return(keep)), es, t.id, s.now, t.interval);
  }

  /** The task in flight has no other copy. */
  lemma OnlyCopy(s: State)
    requires Inv(s) && Busy(s.loop)
    ensures s.loop.task.id < s.nextId
    ensures forall i :: 0 <= i < |s.created| ==> s.created[i].id != s.loop.task.id
    ensures forall i :: 0 <= i < |s.queue| ==> s.queue[i].id != s.loop.task.id
  {
    var id := s.loop.task.id;
    assert Copies(s, id) <= if id < s.nextId then 1 else 0;
    CountZero(s.created, id);
    CountZero(s.queue, id);
  }

  /** The only live copy of `id`, if any, is one the loop is about to discard. */
  ghost predicate Retired(s: State, id: nat) {
    && id < s.nextId
    && (forall i :: 0 <= i < |s.created| ==> s.created[i].id != id)
    && (forall i :: 0 <= i < |s.queue| ==> s.queue[i].id != id)
    && (Busy(s.loop) && s.loop.task.id == id ==> s.loop.Returned? && !(s.loop.keep && s.loop.task.interval > 0))
  }

  lemma {:induction false} RetiredRuns(s: State, es: seq<Event>, id: nat)
    requires Retired(s, id)
    ensures StartCount(s, es, id) == 0
    decreases |es|
  {
    if es != [] {
      StepKeepsRetired(s, es[0], id);
      RetiredRuns(Step(s, es[0]), es[1..], id);
    }
  }

  lemma StepKeepsRetired(s: State, e: Event, id: nat)
    requires Retired(s, id)
    ensures Retired(Step(s, e), id)
  {
  }

  /** A task that returned false, and a task without a positive interval, never runs again. */
  lemma NeverAgain(before: seq<Event>, keep: bool, es: seq<Event>)
    requires Run(INITIAL, before).loop.Calling?
    requires !keep || Run(INITIAL, before).loop.task.interval <= 0
    ensures var s := Run(INITIAL, before);
            StartCount(Step(s, Return(keep)), es, s.loop.task.id) == 0
  {
    Reachable(INITIAL, before);
    var s := Run(INITIAL, before);
    OnlyCopy(s);
    RetiredRuns(Step(s, Return(keep)), es, s.loop.task.id);
  }

  // -------------------------------------------------------------------- stop

  ghost predicate NoStart(es: seq<Event>) {
    forall i :: 0 <= i < |es| ==> !es[i].Start?
  }

  /** Once stop() has cleared `running`, no task is started until somebody calls start() again. */
  lemma {:induction false} NothingStartsAfterStop(s: State, es: seq<Event>, id: nat)
    requires !s.running && NoStart(es)
    ensures StartCount(s, es, id) == 0 && !Run(s, es).running
    decreases |es|
  {
    if es != [] {
      NothingStartsAfterStop(Step(s, es[0]), es[1..], id);
    }
  }

  /** When stop() returns the loop has exited: no invocation is running and none will be, until start(). */
  lemma {:induction false} NothingRunsAfterStop(s: State, es: seq<Event>)
    requires s.loop.Exited? || s.loop.Idle?
    requires NoStart(es)
    ensures Run(s, es).loop.Exited? || Run(s, es).loop.Idle?
    decreases |es|
  {
    if es != [] {
      NothingRunsAfterStop(Step(s, es[0]), es[1..]);
    }
  }

  /** The loop leaves the queue drained; only client pushes can fill it again. */
  lemma {:induction false} QueueStaysDrained(s: State, es: seq<Event>)
    requires s.loop.Head? && !s.running
    requires NoStart(es) && forall i :: 0 <= i < |es| ==> !es[i].Push?
    ensures Run(Step(s, Exit), es).queue == []
  {
    DrainedRuns(Step(s, Exit), es);
  }

  lemma {:induction false} DrainedRuns(s: State, es: seq<Event>)
    requires (s.loop.Exited? || s.loop.Idle?) && s.queue == []
    requires NoStart(es) && forall i :: 0 <= i < |es| ==> !es[i].Push?
    ensures Run(s, es).queue == []
    decreases |es|
  {
    if es != [] {
      DrainedRuns(Step(s, es[0]), es[1..]);
    }
  }

  // -------------------------------------------------------------------- the class

  /** The scheduler's fields, and its code between two points where other threads can interleave. */
  class TaskScheduler {
    var created: seq<Task>
    var queue: seq<Task>
    var cancelled: set<nat>
    var running: bool
    var nextId: nat
    var loop: Loop
    var now: int

    ghost function View(): State
      reads this
    {
      State(created, queue, cancelled, running, nextId, loop, now)
    }

    constructor ()
      ensures View() == INITIAL
    {
      created, queue, cancelled, running, nextId, loop, now := [], [], {}, false, 1, Idle, 0;
    }

    method StartThread()
      requires loop.Idle?
      modifies this`running, this`loop
      ensures View() == Step(old(View()), Start)
    {
      running := true;
      loop := Head;
    }

    /** The part of `stop` under the lock. */
    method Stop()
      modifies this`running, this`queue
      ensures View() == Step(old(View()), StopSignal)
    {
      running := false;
      queue := [];
    }

    method CancelTask(id: nat)
      modifies this`cancelled
      ensures View() == Step(old(View()), Cancel(id))
    {
      cancelled := cancelled + {id};
    }

    /** `schedule` before it takes the lock: an id nobody else gets. */
    method Schedule(time: int, interval: int) returns (id: nat)
      modifies this`nextId, this`created
      ensures View() == Step(old(View()), Create(time, interval))
      ensures id == old(nextId)
    {
      id := nextId;
      nextId := nextId + 1;
      created := created + [Task(id, time, interval)];
    }

    /** `every`: due at once, then again and again. Times are in nanoseconds. */
    method Every(milliseconds: int) returns (id: nat)
      modifies this`nextId, this`created
      ensures View() == Step(old(View()), Create(now, milliseconds * 1_000_000))
      ensures id == old(nextId)
    {
      id := Schedule(now, milliseconds * 1_000_000);
    }

    /** `once` at a point in time. */
    method OnceAt(time: int) returns (id: nat)
      modifies this`nextId, this`created
      ensures View() == Step(old(View()), Create(time, 0))
      ensures id == old(nextId)
    {
      id := Schedule(time, 0);
    }

    /** `once` after a delay. */
    method OnceAfter(milliseconds: nat) returns (id: nat)
      modifies this`nextId, this`created
      ensures View() == Step(old(View()), Create(now + milliseconds * 1_000_000, 0))
      ensures id == old(nextId)
    {
      id := Schedule(now + milliseconds * 1_000_000, 0);
    }

    method PushCreated(i: nat)
      requires i < |created|
      modifies this`created, this`queue
      ensures View() == Step(old(View()), Push(i))
    {
      queue := queue + [created[i]];
      created := created[..i] + created[i + 1..];
    }

    /** The task the priority queue would hand out. */
    method Top() returns (top: nat)
      requires queue != []
      ensures top < |queue| && forall j :: 0 <= j < |queue| ==> queue[top].time <= queue[j].time
    {
      top := 0;
      for k := 1 to |queue|
        invariant top < |queue| && forall j :: 0 <= j < k ==> queue[top].time <= queue[j].time
      {
        if queue[k].time < queue[top].time {
          top := k;
        }
      }
    }

    /** From the head of the loop to the next unlock or wait: leave, wait, discard or pop a due task. */
    method LoopHead() returns (top: nat)
      requires loop.Head?
      modifies this`queue, this`loop
      ensures !running ==> View() == Step(old(View()), Exit)
      ensures running ==> View() == Step(old(View()), Pop(top))
      ensures running && (exists i :: Due(old(View()), i)) ==> Due(old(View()), top)
    {
      top := 0;
      if !running {
        while queue != []
          invariant loop == old(loop)
          decreases |queue|
          modifies this`queue
        {
          queue := queue[1..];
        }
        loop := Exited;
      } else if queue != [] {
        top := Top();
        var next := queue[top];
        if next.time <= now {
          queue := queue[..top] + queue[top + 1..];
          if next.id !in cancelled {
            loop := Popped(next);
          }
        }
      }
    }

    /** The test of `running` before the call. */
    method BeforeCall()
      requires loop.Popped?
      modifies this`loop
      ensures View() == Step(old(View()), if running then Invoke else Skip)
    {
      loop := if running then Calling(loop.task) else Returned(loop.task, true);
    }

    /** The reads and the push that follow a call, one at a time and in the order of the condition. */
    method AfterCall()
      requires loop.Returned? || loop.Rescheduling? || loop.Cleared? || loop.Pushing?
      modifies this`loop, this`queue
      ensures View() == Step(old(View()),
                             match old(loop)
                             case Returned(_, _) => Decide
                             case Rescheduling(_) => ReadCancelled
                             case Cleared(_) => ReadClock
                             case _ => Repush)
    {
      var task := loop.task;
      if loop.Returned? {
        loop := if running && loop.keep && task.interval > 0 then Rescheduling(task) else Head;
      } else if loop.Rescheduling? {
        loop := if task.id in cancelled then Head else Cleared(task);
      } else if loop.Cleared? {
        loop := Pushing(Task(task.id, now + task.interval, task.interval));
      } else {
        queue := queue + [task];
        loop := Head;
      }
    }
  }
}
