/** Event-rate pipeline: edge and coincidence gates, deadtime filter, sliding-window rate estimate. */
module RateBuffer {
  import opened Common

  /** Steady-clock readings in nanoseconds; the sentinel lies outside their range. */
  const INVALID_TIME := -0x8000_0000_0000_0000
  type Timestamp = t: int | 0 <= t < 0x8000_0000_0000_0000

  const COINCIDENCE_WINDOW_US := 50

  datatype Edge = Rising | Falling

  datatype GpioEvent = GpioEvent(signal: nat, timestamp: Timestamp, edge: Edge)

  // ------------------------------------------------------ reference definitions

  /** The elements of `s` no older than `window` at `now`, in order. */
  function Recent(s: seq<Timestamp>, now: int, window: int): seq<Timestamp>
    decreases |s|
  {
    if s == [] then []
    else (if now - s[0] <= window then [s[0]] else []) + Recent(s[1..], now, window)
  }

  /** The event rate in Hz computed from a complete history. */
  function RateHz(history: seq<Timestamp>, now: int, window: int): real {
    var v := Recent(history, now, window);
    if |v| < 2 || v[|v| - 1] <= v[0] then 0.0
    else |v| as real / ((v[|v| - 1] - v[0]) as real / 1000000000.0)
  }

  ghost predicate Sorted(s: seq<Timestamp>) {
    forall i, j :: 0 <= i < j < |s| ==> s[i] <= s[j]
  }

  ghost predicate Spaced(s: seq<Timestamp>, deadtime: nat) {
    forall i, j :: 0 <= i < j < |s| ==> s[j] - s[i] >= deadtime
  }

  lemma {:induction false} RecentMembers(s: seq<Timestamp>, now: int, window: int, t: Timestamp)
    ensures t in Recent(s, now, window) <==> t in s && now - t <= window
    decreases |s|
  {
    if s != [] {
      RecentMembers(s[1..], now, window, t);
      assert s == [s[0]] + s[1..];
    }
  }

  /** Events that are all within the window: their rate times the seconds they span is their number. */
  lemma RateIsCountOverSpan(s: seq<Timestamp>, now: int, window: int)
    requires |s| >= 2 && s[0] < s[|s| - 1]
    requires forall i :: 0 <= i < |s| ==> now - s[i] <= window
    ensures RateHz(s, now, window) * (s[|s| - 1] - s[0]) as real == |s| as real * 1000000000.0
  {
    RecentIsSuffix(s, 0, now, window);
    assert s[0..] == s;
    hide Recent;
    RateOver(|s| as real, (s[|s| - 1] - s[0]) as real);
  }

  lemma RateOver(count: real, ns: real)
    requires ns > 0.0
    ensures count / (ns / 1000000000.0) * ns == count * 1000000000.0
  {
    var sec := ns / 1000000000.0;
    assert count / sec * sec == count;
    assert ns == sec * 1000000000.0;
  }

  lemma {:induction false} RecentAppend(a: seq<Timestamp>, b: seq<Timestamp>, now: int, window: int)
    ensures Recent(a + b, now, window) == Recent(a, now, window) + Recent(b, now, window)
    decreases |a|
  {
    if a == [] {
      assert a + b == b;
    } else {
      assert (a + b)[1..] == a[1..] + b;
      RecentAppend(a[1..], b, now, window);
      var head: seq<Timestamp> := if now - a[0] <= window then [a[0]] else [];
      var x, y := Recent(a[1..], now, window), Recent(b, now, window);
      assert Recent(a + b, now, window) == head + (x + y) == (head + x) + y;
    }
  }

  /** Forgetting what is too old now loses nothing for later. */
  lemma {:induction false} RecentTwice(s: seq<Timestamp>, now: int, later: int, window: int)
    requires now <= later
    ensures Recent(Recent(s, now, window), later, window) == Recent(s, later, window)
    decreases |s|
  {
    if s != [] {
      RecentTwice(s[1..], now, later, window);
      var head: seq<Timestamp> := if now - s[0] <= window then [s[0]] else [];
      RecentAppend(head, Recent(s[1..], now, window), later, window);
      assert [s[0]][1..] == [];
    }
  }

  /** On a sorted sequence the recent elements are what remains after dropping the old head. */
  lemma {:induction false} RecentIsSuffix(s: seq<Timestamp>, k: nat, now: int, window: int)
    requires k <= |s|
    requires forall i :: 0 <= i < k ==> now - s[i] > window
    requires forall i :: k <= i < |s| ==> now - s[i] <= window
    ensures Recent(s, now, window) == s[k..]
    decreases |s|
  {
    if s != [] {
      RecentIsSuffix(s[1..], if k == 0 then 0 else k - 1, now, window);
      assert k > 0 ==> s[1..][k - 1..] == s[k..];
    }
  }

  lemma {:induction false} RecentOfSorted(s: seq<Timestamp>, now: int, window: int)
    requires Sorted(s)
    ensures Sorted(Recent(s, now, window))
    ensures forall t :: t in Recent(s, now, window) ==> t in s && now - t <= window
    decreases |s|
  {
    if s != [] {
      RecentOfSorted(s[1..], now, window);
    }
  }

  // ------------------------------------------------------------------- runs

  /** Timestamps that pass the deadtime filter, for events in any order. */
  function Accepted(ts: seq<Timestamp>, deadtime: nat): seq<Timestamp>
    decreases |ts|
  {
    if ts == [] then []
    else
      var a, t := Accepted(ts[..|ts| - 1], deadtime), ts[|ts| - 1];
      if a == [] || t - a[|a| - 1] >= deadtime then a + [t] else a
  }

  /** The deque of the estimator after the same events. */
  function Window(ts: seq<Timestamp>, deadtime: nat, window: int): seq<Timestamp>
    decreases |ts|
  {
    if ts == [] then []
    else
      var n := |ts| - 1;
      var w := Window(ts[..n], deadtime, window);
      if Accepted(ts, deadtime) == Accepted(ts[..n], deadtime) then w else Recent(w + [ts[n]], ts[n], window)
  }

  /**
   * For any events and any deadtime: accepted times are at least the deadtime apart, and the deque is
   * exactly the accepted events within the window of the latest one.
   */
  lemma {:induction false} WindowRefinesHistory(ts: seq<Timestamp>, deadtime: nat, window: int)
    ensures var a := Accepted(ts, deadtime);
            && Spaced(a, deadtime)
            && Window(ts, deadtime, window) == if a == [] then [] else Recent(a, a[|a| - 1], window)
    decreases |ts|
  {
    hide Recent, Spaced, Sorted;
    if ts == [] {
      SpacedEmpty(deadtime);
    } else {
      var n := |ts| - 1;
      WindowRefinesHistory(ts[..n], deadtime, window);
      var a := Accepted(ts[..n], deadtime);
      if Accepted(ts, deadtime) != a {
        WindowStep(a, ts[n], window, deadtime);
      }
    }
  }

  lemma SpacedEmpty(deadtime: nat)
    ensures Spaced([], deadtime)
  {
  }

  /** From the latest accepted event on, the windowed rate equals the rate over the whole accepted history. */
  lemma WindowedRateExact(ts: seq<Timestamp>, deadtime: nat, window: int, now: int)
    requires var a := Accepted(ts, deadtime); a != [] ==> a[|a| - 1] <= now
    ensures RateHz(Window(ts, deadtime, window), now, window) == RateHz(Accepted(ts, deadtime), now, window)
  {
    hide Accepted, Window, Recent;
    var a := Accepted(ts, deadtime);
    WindowRefinesHistory(ts, deadtime, window);
    if a != [] {
      RecentTwice(a, a[|a| - 1], now, window);
    }
  }

  // ------------------------------------------------------------- the components

  class DeadtimeFilter {
    var lastAccepted: int
    const deadtime: nat

    constructor (deadtime: nat)
      ensures lastAccepted == INVALID_TIME && this.deadtime == deadtime
    {
      lastAccepted, this.deadtime := INVALID_TIME, deadtime;
    }

    method Accept(ts: Timestamp) returns (ok: bool)
      modifies this
      ensures ok <==> old(lastAccepted) == INVALID_TIME || ts - old(lastAccepted) >= deadtime
      ensures lastAccepted == if ok then ts else old(lastAccepted)
    {
      if lastAccepted == INVALID_TIME {
        lastAccepted := ts;
        return true;
      }
      if ts - lastAccepted < deadtime {
        return false;
      }
      lastAccepted := ts;
      return true;
    }
  }

  class SlidingRateEstimator {
    var events: seq<Timestamp>
    const window: int

    constructor (window: int)
      ensures events == [] && this.window == window
    {
      events, this.window := [], window;
    }

    /** Popping old events off the front keeps exactly the recent ones. */
    method Add(ts: Timestamp)
      requires Sorted(events + [ts])
      modifies this
      ensures events == Recent(old(events) + [ts], ts, window)
    {
      events := events + [ts];
      ghost var all, k := events, 0;
      while events != [] && ts - events[0] > window
        invariant k <= |all| && events == all[k..]
        invariant forall i :: 0 <= i < k ==> ts - all[i] > window
        decreases |events|
      {
        events := events[1..];
        k := k + 1;
      }
      RecentIsSuffix(all, k, ts, window);
    }

    method CurrentRateHz(now: int) returns (rate: real)
      requires Sorted(events)
      ensures rate == RateHz(events, now, window)
    {
      if |events| < 2 {
        RecentShorter(events, now, window);
        return 0.0;
      }
      var it := 0;
      while it < |events| && now - events[it] > window
        invariant 0 <= it <= |events|
        invariant forall i :: 0 <= i < it ==> now - events[i] > window
      {
        it := it + 1;
      }
      hide RateHz;
      RateOfSuffix(events, it, now, window);
      var validCount := |events| - it;
      if validCount < 2 {
        return 0.0;
      }
      var dt := events[|events| - 1] - events[it];
      var sec := dt as real / 1000000000.0;
      if sec <= 0.0 {
        return 0.0;
      }
      return validCount as real / sec;
    }
  }

  lemma RateOfSuffix(s: seq<Timestamp>, k: nat, now: int, window: int)
    requires Sorted(s) && k <= |s|
    requires forall i :: 0 <= i < k ==> now - s[i] > window
    requires k < |s| ==> now - s[k] <= window
    ensures RateHz(s, now, window) ==
            if |s| - k < 2 || s[|s| - 1] <= s[k] then 0.0
            else (|s| - k) as real / ((s[|s| - 1] - s[k]) as real / 1000000000.0)
  {
    hide Recent;
    RecentIsSuffix(s, k, now, window);
  }

  lemma {:induction false} RecentShorter(s: seq<Timestamp>, now: int, window: int)
    ensures |Recent(s, now, window)| <= |s|
    decreases |s|
  {
    if s != [] {
      RecentShorter(s[1..], now, window);
    }
  }

  /** std::chrono::duration_cast to microseconds: truncates toward zero. */
  function ToMicros(ns: int): int {
    if ns >= 0 then ns / 1000 else -(-ns / 1000)
  }

  predicate Coincident(ts: Timestamp, lastCoincidence: int) {
    lastCoincidence != INVALID_TIME &&
    -COINCIDENCE_WINDOW_US <= ToMicros(ts - lastCoincidence) <= COINCIDENCE_WINDOW_US
  }

  /** The truncation widens the window: two events coincide iff they are less than 51 microseconds apart. */
  lemma CoincidenceExact(ts: Timestamp, last: Timestamp)
    ensures Coincident(ts, last) <==> -51000 < ts - last < 51000
  {
  }

  /** There was a marker event, and it is less than 51 microseconds away. */
  predicate Nearby(ts: Timestamp, marker: int) {
    marker != INVALID_TIME && -51_000 < ts - marker < 51_000
  }

  lemma CoincidentIsNearby(ts: Timestamp, marker: int)
    ensures Coincident(ts, marker) == Nearby(ts, marker)
  {
  }

  // ------------------------------------------------------------------ the buffer

  /** `EventRateBuffer`; `accepted` is the complete history of accepted timestamps. */
  class EventRateBuffer {
    const edgeFilter: Option<Edge>
    const coincSignal: Option<nat>
    const isVeto: bool
    const estimator: SlidingRateEstimator
    const deadtimeFilter: DeadtimeFilter
    var lastCoincidence: int
    var lastAcceptedEvent: int
    var lastInterval: int
    var rejectedDeadtime: nat
    var rejectedCoincidence: nat
    ghost var accepted: seq<Timestamp>

    ghost predicate Valid()
      reads this, estimator, deadtimeFilter
    {
      var n := |accepted|;
      && Spaced(accepted, deadtimeFilter.deadtime)
      && lastAcceptedEvent == deadtimeFilter.lastAccepted == (if n == 0 then INVALID_TIME else accepted[n - 1])
      && lastInterval == (if n < 2 then 0 else accepted[n - 1] - accepted[n - 2])
      && estimator.events == (if n == 0 then [] else Recent(accepted, accepted[n - 1], estimator.window))
    }

    constructor (edge: Option<Edge>, coincSignal: Option<nat>, isVeto: bool, window: int, deadtime: nat)
      ensures Valid() && accepted == []
      ensures fresh(estimator) && fresh(deadtimeFilter)
    {
      edgeFilter, this.coincSignal, this.isVeto := edge, coincSignal, isVeto;
      estimator := new SlidingRateEstimator(window);
      deadtimeFilter := new DeadtimeFilter(deadtime);
      lastCoincidence, lastAcceptedEvent, lastInterval := INVALID_TIME, INVALID_TIME, 0;
      rejectedDeadtime, rejectedCoincidence, accepted := 0, 0, [];
    }

    predicate PassesEdge(e: GpioEvent) {
      edgeFilter.None? || e.edge == edgeFilter.value
    }

    predicate IsMarker(e: GpioEvent) {
      coincSignal.Some? && e.signal == coincSignal.value
    }

    predicate PassesCoincidence(e: GpioEvent)
      reads this
    {
      coincSignal.None? || Coincident(e.timestamp, lastCoincidence) != isVeto
    }

    ghost predicate Accepts(e: GpioEvent)
      reads this, deadtimeFilter
    {
      && PassesEdge(e) && !IsMarker(e) && PassesCoincidence(e)
      && (accepted == [] || e.timestamp - accepted[|accepted| - 1] >= deadtimeFilter.deadtime)
    }

    method Handle(e: GpioEvent) returns (ok: bool, interval: Option<int>)
      requires Valid()
      modifies this, estimator, deadtimeFilter
      ensures Valid()
      ensures ok == old(Accepts(e))
      ensures ok <==>
              && (edgeFilter.None? || e.edge == edgeFilter.value)
              && (coincSignal.None?
                  || (e.signal != coincSignal.value && isVeto != Nearby(e.timestamp, old(lastCoincidence))))
              && (old(accepted) == [] || e.timestamp - old(accepted[|accepted| - 1]) >= deadtimeFilter.deadtime)
      ensures accepted == if ok then old(accepted) + [e.timestamp] else old(accepted)
      ensures interval == (if ok && |accepted| >= 2 && accepted[|accepted| - 2] != e.timestamp
                           then Some(e.timestamp - accepted[|accepted| - 2]) else None)
      ensures lastCoincidence == if PassesEdge(e) && IsMarker(e) then e.timestamp else old(lastCoincidence)
      ensures rejectedCoincidence == old(rejectedCoincidence)
                + if PassesEdge(e) && !IsMarker(e) && !old(PassesCoincidence(e)) then 1 else 0
      ensures rejectedDeadtime == old(rejectedDeadtime)
                + if PassesEdge(e) && !IsMarker(e) && old(PassesCoincidence(e)) && !ok then 1 else 0
    {
      hide Recent, Spaced, Sorted, Coincident, Nearby;
      CoincidentIsNearby(e.timestamp, lastCoincidence);
      if edgeFilter.Some? && e.edge != edgeFilter.value {
        return false, None;
      }
      if coincSignal.Some? {
        if e.signal == coincSignal.value {
          lastCoincidence := e.timestamp;
          return false, None;
        }
        var coincident := Coincident(e.timestamp, lastCoincidence);
        if isVeto && coincident {
          rejectedCoincidence := rejectedCoincidence + 1;
          return false, None;
        }
        if !isVeto && !coincident {
          rejectedCoincidence := rejectedCoincidence + 1;
          return false, None;
        }
      }
      var pass := deadtimeFilter.Accept(e.timestamp);
      if !pass {
        rejectedDeadtime := rejectedDeadtime + 1;
        return false, None;
      }
      if lastAcceptedEvent != INVALID_TIME {
        lastInterval := e.timestamp - lastAcceptedEvent;
      }
      lastAcceptedEvent := e.timestamp;
      WindowStep(accepted, e.timestamp, estimator.window, deadtimeFilter.deadtime);
      estimator.Add(e.timestamp);
      accepted := accepted + [e.timestamp];
      if lastInterval != 0 {
        return true, Some(lastInterval);
      }
      return true, None;
    }

    /** The windowed estimate equals the rate computed from everything ever accepted. */
    method Rate(now: int) returns (rate: real)
      requires Valid()
      requires accepted != [] ==> accepted[|accepted| - 1] <= now
      ensures rate == RateHz(accepted, now, estimator.window)
    {
      hide Recent;
      if accepted != [] {
        var last := accepted[|accepted| - 1];
        RecentOfSorted(accepted, last, estimator.window);
        RecentTwice(accepted, last, now, estimator.window);
      }
      rate := estimator.CurrentRateHz(now);
    }
  }

  lemma WindowStep(accepted: seq<Timestamp>, ts: Timestamp, window: int, deadtime: nat)
    requires Spaced(accepted, deadtime)
    requires accepted != [] ==> ts - accepted[|accepted| - 1] >= deadtime
    ensures Spaced(accepted + [ts], deadtime)
    ensures var events := if accepted == [] then [] else Recent(accepted, accepted[|accepted| - 1], window);
            && Sorted(events + [ts])
            && Recent(events + [ts], ts, window) == Recent(accepted + [ts], ts, window)
  {
    hide Recent;
    if accepted == [] {
      assert [] + [ts] == accepted + [ts];
    } else {
      var last := accepted[|accepted| - 1];
      var events := Recent(accepted, last, window);
      RecentOfSorted(accepted, last, window);
      assert forall t :: t in events ==> t in accepted && t <= ts;
      assert forall i :: 0 <= i < |events| ==> events[i] in events;
      RecentAppend(events, [ts], ts, window);
      RecentAppend(accepted, [ts], ts, window);
      RecentTwice(accepted, last, ts, window);
    }
  }
}
