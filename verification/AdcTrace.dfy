/** Sampling modes and trace capture of `ADS1115Driver`. Each region under `stateMutex_` is one event. */
module AdcTrace {
  import opened Common

  datatype Mode = Disabled | Peak | Trace

  const BUFFER_SIZE := 50
  const PRETRIGGER := 10
  const POST_TRIGGER := BUFFER_SIZE - PRETRIGGER

  /** Mode, sample buffer, samples since the trigger (or -1), signal that triggers. */
  datatype Driver = Driver(mode: Mode, buffer: seq<real>, index: int, signal: nat)

  datatype Event =
    | SetMode(code: nat)              // AdcModeEvent; codes other than 0, 1, 2 are ignored
    | SetSignal(signal: nat)          // EventTriggerCmd
    | Gpio(signal: nat)               // a GPIO event
    | Sample(amplitude: bool, voltage: real)

  function ModeOf(code: nat): Mode
    requires code < 3
  {
    if code == 0 then Disabled else if code == 1 then Peak else Trace
  }

  function LastN(s: seq<real>, n: nat): seq<real> {
    if |s| <= n then s else s[|s| - n..]
  }

  function Step(d: Driver, e: Event): Driver {
    match e
    case SetMode(code) => if code < 3 then d.(mode := ModeOf(code), index := -1, buffer := []) else d
    case SetSignal(signal) => d.(signal := signal)
    case Gpio(signal) => if signal == d.signal then d.(index := 0) else d
    case Sample(amplitude, v) =>
      if !amplitude || d.mode == Disabled then d
      else if d.mode == Peak then d.(index := 0)
      else
        var buffer := LastN(d.buffer + [v], BUFFER_SIZE);
        d.(buffer := buffer,
           index := if d.index < 0 then d.index else if d.index + 1 >= POST_TRIGGER then -1 else d.index + 1)
  }

  /** What a sample publishes: its value, and a trace unless empty. */
  datatype Output = Output(value: bool, trace: seq<real>)

  const SILENT := Output(false, [])

  function Publishes(d: Driver, e: Event): Output {
    if !e.Sample? then SILENT
    else if !e.amplitude then Output(true, [])
    else if d.mode == Disabled then SILENT
    else if d.mode == Peak then Output(true, [])
    else Output(d.index == 0, if 0 <= d.index && d.index + 1 >= POST_TRIGGER then Step(d, e).buffer else [])
  }

  const INITIAL := Driver(Peak, [], -1, 0)

  function Run(signal: nat, es: seq<Event>): Driver {
    if es == [] then INITIAL.(signal := signal)
    else Step(Run(signal, es[..|es| - 1]), es[|es| - 1])
  }

  // ------------------------------------------------------------------- histories

  predicate SetsMode(e: Event) {
    e.SetMode? && e.code < 3
  }

  /** The event is a trigger in the state reached by the run so far. */
  predicate Triggers(signal: nat, es: seq<Event>, e: Event) {
    e.Gpio? && e.signal == Run(signal, es).signal
  }

  /** All amplitude samples since the mode was last set. */
  function SinceMode(es: seq<Event>): seq<real> {
    if es == [] then []
    else
      var e := es[|es| - 1];
      if SetsMode(e) then []
      else SinceMode(es[..|es| - 1]) + if e.Sample? && e.amplitude then [e.voltage] else []
  }

  /** The amplitude samples since the latest trigger, if there was one since the mode was last set. */
  function SinceTrigger(signal: nat, es: seq<Event>): Option<seq<real>> {
    if es == [] then None
    else
      var e, before := es[|es| - 1], es[..|es| - 1];
      if SetsMode(e) then None
      else if Triggers(signal, before, e) then Some([])
      else
        match SinceTrigger(signal, before)
        case None => None
        case Some(q) => Some(q + if e.Sample? && e.amplitude then [e.voltage] else [])
  }

  function TriggerCount(signal: nat, es: seq<Event>): nat {
    if es == [] then 0
    else TriggerCount(signal, es[..|es| - 1]) + if Triggers(signal, es[..|es| - 1], es[|es| - 1]) then 1 else 0
  }

  function Traces(signal: nat, es: seq<Event>): seq<seq<real>> {
    if es == [] then []
    else
      var t := Publishes(Run(signal, es[..|es| - 1]), es[|es| - 1]).trace;
      Traces(signal, es[..|es| - 1]) + if t == [] then [] else [t]
  }

  ghost predicate IsSuffix(q: seq<real>, s: seq<real>) {
    |q| <= |s| && s[|s| - |q|..] == q
  }

  // -------------------------------------------------------------------- invariants

  /** In trace mode the driver state is a function of the history. */
  ghost predicate Tracked(signal: nat, es: seq<Event>) {
    var d := Run(signal, es);
    && -1 <= d.index
    && (d.mode == Trace ==>
          && d.buffer == LastN(SinceMode(es), BUFFER_SIZE)
          && d.index == (match SinceTrigger(signal, es)
                         case None => -1
                         case Some(q) => if |q| < POST_TRIGGER then |q| else -1))
    && (SinceTrigger(signal, es).Some? ==> IsSuffix(SinceTrigger(signal, es).value, SinceMode(es)))
  }

  lemma LastNSnoc(s: seq<real>, v: real, n: nat)
    requires n > 0
    ensures LastN(LastN(s, n) + [v], n) == LastN(s + [v], n)
  {
  }

  lemma {:induction false} RunIsTracked(signal: nat, es: seq<Event>)
    ensures Tracked(signal, es)
  {
    if es != [] {
      var n := |es| - 1;
      RunIsTracked(signal, es[..n]);
      var e := es[n];
      if e.Sample? && e.amplitude {
        LastNSnoc(SinceMode(es[..n]), e.voltage, BUFFER_SIZE);
        if SinceTrigger(signal, es[..n]).Some? {
          SuffixSnoc(SinceTrigger(signal, es[..n]).value, SinceMode(es[..n]), e.voltage);
        }
      }
    }
  }

  lemma SuffixSnoc(q: seq<real>, s: seq<real>, v: real)
    requires IsSuffix(q, s)
    ensures IsSuffix(q + [v], s + [v])
  {
  }

  /**
   * A sample publishes a trace exactly when it is the 40th since the latest trigger. The trace is the last
   * 50 samples since the mode was set; it ends with those 40, so at most 10 precede the trigger.
   */
  lemma TraceContents(signal: nat, es: seq<Event>, e: Event)
    requires e.Sample? && e.amplitude
    ensures var t := Publishes(Run(signal, es), e).trace;
            var q := SinceTrigger(signal, es + [e]);
            if Run(signal, es).mode == Trace && q.Some? && |q.value| == POST_TRIGGER then
              && t == LastN(SinceMode(es + [e]), BUFFER_SIZE)
              && |t| - PRETRIGGER <= POST_TRIGGER <= |t|
              && t[|t| - POST_TRIGGER..] == q.value
            else
              t == []
  {
    hide Run, SinceTrigger, SinceMode, LastN, IsSuffix;
    var es' := es + [e];
    assert es'[..|es|] == es;
    RunIsTracked(signal, es);
    RunIsTracked(signal, es');
    SampleExtends(signal, es, e);
    var d := Run(signal, es);
    if d.mode == Trace && SinceTrigger(signal, es').Some? && |SinceTrigger(signal, es').value| == POST_TRIGGER {
      SuffixOfLast(SinceTrigger(signal, es').value, SinceMode(es'), BUFFER_SIZE);
    }
  }

  lemma SampleExtends(signal: nat, es: seq<Event>, e: Event)
    requires e.Sample? && e.amplitude
    ensures Run(signal, es + [e]) == Step(Run(signal, es), e)
    ensures SinceTrigger(signal, es + [e]) ==
            match SinceTrigger(signal, es) case None => None case Some(q) => Some(q + [e.voltage])
  {
    assert (es + [e])[..|es|] == es;
  }

  lemma SuffixOfLast(q: seq<real>, s: seq<real>, n: nat)
    requires IsSuffix(q, s) && |q| <= n
    ensures var t := LastN(s, n); |q| <= |t| <= n && t[|t| - |q|..] == q
  {
  }

  /** The mode last set by a valid code: 0 switches off, 1 is peak and 2 trace mode; at first it is peak mode. */
  function ModeSet(es: seq<Event>): nat {
    if es == [] then 1 else if SetsMode(es[|es| - 1]) then es[|es| - 1].code else ModeSet(es[..|es| - 1])
  }

  /** The signal last selected as trigger. */
  function SignalSet(signal: nat, es: seq<Event>): nat {
    if es == [] then signal
    else if es[|es| - 1].SetSignal? then es[|es| - 1].signal
    else SignalSet(signal, es[..|es| - 1])
  }

  lemma {:induction false} ModeAndSignal(signal: nat, es: seq<Event>)
    ensures var d := Run(signal, es);
            && d.signal == SignalSet(signal, es)
            && (d.mode == Disabled <==> ModeSet(es) == 0)
            && (d.mode == Peak <==> ModeSet(es) == 1)
            && (d.mode == Trace <==> ModeSet(es) == 2)
  {
    if es != [] {
      ModeAndSignal(signal, es[..|es| - 1]);
    }
  }

  /**
   * Which samples are published: those of other channels always, in peak mode every amplitude sample, in trace
   * mode the first after each trigger, and nothing when switched off. Nothing but a sample publishes.
   */
  lemma SamplesPublished(signal: nat, es: seq<Event>, e: Event)
    ensures Publishes(Run(signal, es), e).value <==>
            e.Sample? && (!e.amplitude || ModeSet(es) == 1 || (ModeSet(es) == 2 && SinceTrigger(signal, es) == Some([])))
    ensures !e.Sample? || !e.amplitude || ModeSet(es) != 2 ==> Publishes(Run(signal, es), e).trace == []
  {
    hide Run, SinceTrigger, SinceMode, LastN, IsSuffix;
    ModeAndSignal(signal, es);
    RunIsTracked(signal, es);
  }

  /** Traces never outnumber triggers: every trace uses up a trigger. */
  lemma {:induction false} TracesWithinTriggers(signal: nat, es: seq<Event>)
    ensures var d := Run(signal, es);
            |Traces(signal, es)| + (if d.mode == Trace && d.index >= 0 then 1 else 0) <= TriggerCount(signal, es)
  {
    if es != [] {
      TracesWithinTriggers(signal, es[..|es| - 1]);
      RunIsTracked(signal, es[..|es| - 1]);
    }
  }

  // -------------------------------------------------------------------- the object

  class ADS1115Driver {
    var adcSamplingMode: Mode
    var adcSamplesBuffer: seq<real>
    var currentAdcSampleIndex: int
    var eventTrigger: nat

    ghost function State(): Driver
      reads this
    {
      Driver(adcSamplingMode, adcSamplesBuffer, currentAdcSampleIndex, eventTrigger)
    }

    constructor (signal: nat)
      ensures State() == Run(signal, [])
    {
      adcSamplingMode, adcSamplesBuffer, currentAdcSampleIndex, eventTrigger := Peak, [], -1, signal;
    }

    method SetAdcSamplingMode(code: nat)
      modifies this
      ensures State() == Step(old(State()), SetMode(code))
    {
      if code != 0 && code != 1 && code != 2 {
        return;
      }
      adcSamplingMode := ModeOf(code);
      currentAdcSampleIndex := -1;
      adcSamplesBuffer := [];
    }

    method OnEventTrigger(signal: nat)
      modifies this
      ensures State() == Step(old(State()), SetSignal(signal))
    {
      eventTrigger := signal;
    }

    method OnGpio(signal: nat) returns (shouldSample: bool)
      modifies this
      ensures State() == Step(old(State()), Gpio(signal))
      ensures shouldSample <==> signal == eventTrigger
    {
      shouldSample := signal == eventTrigger;
      if shouldSample {
        currentAdcSampleIndex := 0;
      }
    }

    method OnSampleReady(amplitude: bool, voltage: real) returns (out: Output)
      modifies this
      ensures State() == Step(old(State()), Sample(amplitude, voltage))
      ensures out == Publishes(old(State()), Sample(amplitude, voltage))
    {
      if !amplitude {
        return Output(true, []);
      }
      var trace, publishSample := [], false;
      if adcSamplingMode == Trace {
        adcSamplesBuffer := adcSamplesBuffer + [voltage];
        ghost var all := adcSamplesBuffer;
        while |adcSamplesBuffer| > BUFFER_SIZE
          modifies this`adcSamplesBuffer
          invariant LastN(adcSamplesBuffer, BUFFER_SIZE) == LastN(all, BUFFER_SIZE)
        {
          adcSamplesBuffer := adcSamplesBuffer[1..];
        }
        publishSample := currentAdcSampleIndex == 0;
        if currentAdcSampleIndex >= 0 {
          currentAdcSampleIndex := currentAdcSampleIndex + 1;
          if currentAdcSampleIndex >= POST_TRIGGER {
            trace := adcSamplesBuffer;
            currentAdcSampleIndex := -1;
          }
        }
      } else if adcSamplingMode == Peak {
        publishSample := true;
        currentAdcSampleIndex := 0;
      }
      return Output(publishSample, trace);
    }
  }
}
