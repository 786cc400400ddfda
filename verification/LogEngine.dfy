/** `LogEngine`: what is stored between updates and what every update publishes. */
module LogEngine {
  import opened Common

  datatype Kind = Never | Once | Every | Latest | Average | OnChange

  datatype Param = Param(name: string, value: string, kind: Kind, updated: bool)

  /** A published line, without its time stamp. */
  datatype Message = Text(name: string, value: string) | Mean(name: string, mean: real, unitText: string)

  datatype State = State(data: map<string, seq<Param>>, once: bool)

  /** std::stod, applied to a token; None where it throws. */
  type Stod = string -> Option<real>

  function FirstToken(s: string): string {
    if s == "" || s[0] == ' ' then "" else [s[0]] + FirstToken(s[1..])
  }

  function LastToken(s: string): string {
    if s == "" || s[|s| - 1] == ' ' then "" else LastToken(s[..|s| - 1]) + [s[|s| - 1]]
  }

  // ----------------------------------------------------------------- receiving

  function Receive(s: State, p: Param): State {
    if p.kind == Never then s
    else if p.kind == Every then
      if p.name in s.data && s.data[p.name] != [] then
        var list := s.data[p.name];
        var kind := list[0].kind;
        s.(data := s.data[p.name := (if kind == Average then list else []) + [Param(p.name, p.value, kind, false)]])
      else s
    else
      var list := if p.name in s.data then s.data[p.name] else [];
      s.(data := s.data[p.name := list + [p.(updated := true)]])
  }

  function Immediate(p: Param): Option<Message> {
    if p.kind == Every then Some(Text(p.name, p.value)) else None
  }

  // ------------------------------------------------------------------ updating

  /** Sum of the leading numbers, unless one does not parse. */
  function Total(list: seq<Param>, stod: Stod): Option<real> {
    if list == [] then Some(0.0)
    else
      match (Total(list[..|list| - 1], stod), stod(FirstToken(list[|list| - 1].value)))
      case (Some(t), Some(x)) => Some(t + x)
      case _ => None
  }

  function FirstChange(list: seq<Param>, i: nat): nat
    requires 0 < i <= |list|
    decreases |list| - i
  {
    if i == |list| || list[i].value != list[0].value then i else FirstChange(list, i + 1)
  }

  function Trim(list: seq<Param>): (r: seq<Param>)
    ensures |r| <= 2 && (list != [] ==> r != [])
  {
    if |list| > 2 then list[|list| - 2..] else list
  }

  function Settle(list: seq<Param>): (r: seq<Param>)
    requires list != []
    ensures |r| == |list|
  {
    list[0 := list[0].(updated := false)]
  }

  /** One entry of the map: the line it produces and what is kept of it. */
  function UpdateEntry(name: string, list: seq<Param>, once: bool, stod: Stod): (Option<Message>, Option<seq<Param>>) {
    if list == [] then (None, Some(list))
    else
      var last := list[|list| - 1];
      match last.kind
      case Latest => (Some(Text(name, last.value)), None)
      case Average =>
        (match Total(list, stod)
         case None => None
         case Some(sum) => Some(Mean(name, sum / |list| as real, LastToken(last.value))), None)
      case Once =>
        (if once || list[0].updated then Some(Text(name, last.value)) else None, Some(Settle(Trim(list))))
      case OnChange =>
        if once || list[0].updated then (Some(Text(name, last.value)), Some(Settle(list[..1])))
        else
          var i := FirstChange(list, 1);
          if i < |list| then (Some(Text(name, list[i].value)), Some(Settle([list[i]])))
          else (None, Some(Settle(list[..1])))
      case _ => (None, Some(list))
  }

  function Update(s: State, stod: Stod): State {
    State(map n | n in s.data && UpdateEntry(n, s.data[n], s.once, stod).1.Some?
            :: UpdateEntry(n, s.data[n], s.once, stod).1.value, false)
  }

  /** The lines of one update, by name; every name produces at most one. */
  function Lines(s: State, stod: Stod): map<string, Message> {
    map n | n in s.data && UpdateEntry(n, s.data[n], s.once, stod).0.Some?
      :: UpdateEntry(n, s.data[n], s.once, stod).0.value
  }

  // ----------------------------------------------------------------------- runs

  datatype Event = Arrive(p: Param) | OnceTrigger | DoUpdate

  function Step(s: State, e: Event, stod: Stod): State {
    match e
    case Arrive(p) => Receive(s, p)
    case OnceTrigger => s.(once := true)
    case DoUpdate => Update(s, stod)
  }

  function Run(es: seq<Event>, stod: Stod): State {
    if es == [] then State(map[], true) else Step(Run(es[..|es| - 1], stod), es[|es| - 1], stod)
  }

  predicate Storable(k: Kind) {
    k != Never && k != Every
  }

  /** No stored list is empty, and only buffered kinds are stored. */
  ghost predicate WellFormed(s: State) {
    forall n :: n in s.data ==> s.data[n] != [] && forall i :: 0 <= i < |s.data[n]| ==> Storable(s.data[n][i].kind)
  }

  lemma ReceiveKeeps(s: State, p: Param)
    requires WellFormed(s)
    ensures WellFormed(Receive(s, p))
  {
  }

  lemma UpdateKeeps(s: State, stod: Stod)
    requires WellFormed(s)
    ensures WellFormed(Update(s, stod))
    ensures forall n :: n in Update(s, stod).data ==> |Update(s, stod).data[n]| <= 2
  {
    forall n | n in Update(s, stod).data
      ensures var l := Update(s, stod).data[n]; 0 < |l| <= 2 && forall i :: 0 <= i < |l| ==> Storable(l[i].kind)
    {
      EntryKeeps(n, s.data[n], s.once, stod);
    }
  }

  lemma EntryKeeps(name: string, list: seq<Param>, once: bool, stod: Stod)
    requires list != [] && forall i :: 0 <= i < |list| ==> Storable(list[i].kind)
    ensures match UpdateEntry(name, list, once, stod).1
            case None => true
            case Some(l) => 0 < |l| <= 2 && !l[0].updated && forall i :: 0 <= i < |l| ==> Storable(l[i].kind)
  {
  }

  lemma {:induction false} RunWellFormed(es: seq<Event>, stod: Stod)
    ensures WellFormed(Run(es, stod))
    ensures es != [] && es[|es| - 1].DoUpdate? ==> forall n :: n in Run(es, stod).data ==> |Run(es, stod).data[n]| <= 2
  {
    hide WellFormed, Update, Receive;
    if es == [] {
      EmptyWellFormed();
    } else {
      var s, e := Run(es[..|es| - 1], stod), es[|es| - 1];
      RunWellFormed(es[..|es| - 1], stod);
      match e
      case Arrive(p) => ReceiveKeeps(s, p);
      case OnceTrigger => OnceKeeps(s);
      case DoUpdate => UpdateKeeps(s, stod);
    }
  }

  lemma AllNonEmpty(s: State)
    requires WellFormed(s)
    ensures forall n :: n in s.data ==> s.data[n] != []
  {
  }

  lemma EmptyWellFormed()
    ensures WellFormed(State(map[], true))
  {
  }

  lemma OnceKeeps(s: State)
    requires WellFormed(s)
    ensures WellFormed(s.(once := true))
  {
  }

  // -------------------------------------------------------------------- LOG_EVERY

  /**
   * Only a LOG_EVERY value is published on arrival, as it is, and neither it nor a LOG_NEVER value makes a
   * name known.
   */
  lemma PublishedOnArrival(s: State, p: Param)
    ensures Immediate(p).Some? <==> p.kind == Every
    ensures Immediate(p).Some? ==> Immediate(p).value == Text(p.name, p.value)
    ensures p.kind == Never || (p.kind == Every && p.name !in s.data) ==> Receive(s, p) == s
    ensures forall n :: n != p.name && n in s.data ==> n in Receive(s, p).data && Receive(s, p).data[n] == s.data[n]
  {
  }

  /**
   * A LOG_EVERY value under a known name replaces what was stored, without being published again: an unarmed
   * update says nothing for LOG_ONCE and LOG_ON_CHANGE, which takes it as its new reference. LOG_LATEST publishes
   * it, and a mean includes it.
   */
  lemma EveryReplaces(s: State, p: Param, stod: Stod)
    requires WellFormed(s) && p.kind == Every && p.name in s.data
    ensures var list, kind := s.data[p.name], s.data[p.name][0].kind;
            var list' := Receive(s, p).data[p.name];
            var (line, kept) := UpdateEntry(p.name, list', false, stod);
            && (kind == Once ==> line == None && kept == Some([Param(p.name, p.value, Once, false)]))
            && (kind == OnChange ==> line == None && kept == Some([Param(p.name, p.value, OnChange, false)]))
            && (kind == Latest ==> line == Some(Text(p.name, p.value)))
            && (kind == Average ==> |list'| == |list| + 1 && (line.Some? ==>
                  line.value.mean * |list'| as real == Total(list, stod).value + Number(p, stod).value))
  {
    var list := s.data[p.name];
    var kind := list[0].kind;
    var q := Param(p.name, p.value, kind, false);
    var list' := Receive(s, p).data[p.name];
    if kind == Average {
      TotalAppend(list, [q], stod);
      TotalOne(q, stod);
      assert list' == list + [q] && list'[|list|] == q;
    } else {
      assert list' == [q] && list'[0 := q] == [q] && list'[..1] == [q];
    }
  }

  // --------------------------------------------------------------------- LOG_ONCE

  /** Everything that arrives under `name` has kind `k`. */
  ghost predicate Only(es: seq<Event>, name: string, k: Kind) {
    forall i :: 0 <= i < |es| && es[i].Arrive? && es[i].p.name == name ==> es[i].p.kind == k
  }

  predicate Arrives(e: Event, name: string) {
    e.Arrive? && e.p.name == name
  }

  /** The latest value that arrived under `name`. */
  function LastValue(es: seq<Event>, name: string): Option<string> {
    if es == [] then None
    else if Arrives(es[|es| - 1], name) then Some(es[|es| - 1].p.value)
    else LastValue(es[..|es| - 1], name)
  }

  /** `name` has arrived and no update happened since its first arrival. */
  predicate Fresh(es: seq<Event>, name: string) {
    es != [] &&
    var before := es[..|es| - 1];
    if Arrives(es[|es| - 1], name) && LastValue(before, name).None? then true
    else !es[|es| - 1].DoUpdate? && Fresh(before, name)
  }

  /** No update yet, or a once-trigger since the last one. */
  predicate Armed(es: seq<Event>) {
    es == [] || es[|es| - 1].OnceTrigger? || (!es[|es| - 1].DoUpdate? && Armed(es[..|es| - 1]))
  }

  ghost predicate OnceTracked(es: seq<Event>, name: string, stod: Stod) {
    var s := Run(es, stod);
    && s.once == Armed(es)
    && (name in s.data <==> LastValue(es, name).Some?)
    && (name in s.data ==>
          var l := s.data[name];
          && l != [] && (forall i :: 0 <= i < |l| ==> l[i].kind == Once)
          && l[0].updated == Fresh(es, name)
          && Some(l[|l| - 1].value) == LastValue(es, name))
  }

  lemma {:induction false} OnceHistory(es: seq<Event>, name: string, stod: Stod)
    requires Only(es, name, Once)
    ensures OnceTracked(es, name, stod)
  {
    if es != [] {
      OnceHistory(es[..|es| - 1], name, stod);
      OnceStep(es[..|es| - 1], es[|es| - 1], name, stod);
      assert es == es[..|es| - 1] + [es[|es| - 1]];
    }
  }

  lemma OnceEntry(name: string, list: seq<Param>, once: bool, stod: Stod)
    requires list != [] && forall i :: 0 <= i < |list| ==> list[i].kind == Once
    ensures UpdateEntry(name, list, once, stod).1 == Some(Settle(Trim(list)))
    ensures UpdateEntry(name, list, once, stod).0 ==
            if once || list[0].updated then Some(Text(name, list[|list| - 1].value)) else None
  {
  }

  lemma OnceStep(es: seq<Event>, e: Event, name: string, stod: Stod)
    requires OnceTracked(es, name, stod)
    requires Arrives(e, name) ==> e.p.kind == Once
    ensures OnceTracked(es + [e], name, stod)
  {
    hide OnceTracked;
    match e
    case Arrive(p) => OnceArrive(es, p, name, stod);
    case OnceTrigger => OnceTriggered(es, name, stod);
    case DoUpdate => OnceUpdated(es, name, stod);
  }

  lemma OnceArrive(es: seq<Event>, p: Param, name: string, stod: Stod)
    requires OnceTracked(es, name, stod)
    requires p.name == name ==> p.kind == Once
    ensures OnceTracked(es + [Arrive(p)], name, stod)
  {
    hide UpdateEntry, Run;
    var s, next := Run(es, stod), es + [Arrive(p)];
    RunSnoc(es, Arrive(p), stod);
    assert next[..|es|] == es;
    if p.name == name {
      var prior := if name in s.data then s.data[name] else [];
      assert Receive(s, p).data[name] == prior + [p.(updated := true)];
    } else {
      hide Receive;
      OtherName(s, p, name);
    }
  }

  lemma OnceTriggered(es: seq<Event>, name: string, stod: Stod)
    requires OnceTracked(es, name, stod)
    ensures OnceTracked(es + [OnceTrigger], name, stod)
  {
    hide UpdateEntry, Run;
    RunSnoc(es, OnceTrigger, stod);
    assert (es + [OnceTrigger])[..|es|] == es;
  }

  lemma OnceUpdated(es: seq<Event>, name: string, stod: Stod)
    requires OnceTracked(es, name, stod)
    ensures OnceTracked(es + [DoUpdate], name, stod)
  {
    hide UpdateEntry, Run;
    var s := Run(es, stod);
    RunSnoc(es, DoUpdate, stod);
    assert (es + [DoUpdate])[..|es|] == es;
    if name in s.data {
      OnceEntry(name, s.data[name], s.once, stod);
    }
  }

  lemma RunSnoc(es: seq<Event>, e: Event, stod: Stod)
    ensures Run(es + [e], stod) == Step(Run(es, stod), e, stod)
  {
    assert (es + [e])[..|es|] == es;
  }

  lemma OtherName(s: State, p: Param, name: string)
    requires p.name != name
    ensures var s' := Receive(s, p);
            && s'.once == s.once
            && (name in s'.data <==> name in s.data)
            && (name in s.data ==> s'.data[name] == s.data[name])
  {
  }

  /**
   * A name only ever sent as LOG_ONCE is published by an update exactly when it is the first update after
   * its first arrival or a once-trigger (or no update at all) came before; then with its latest value.
   */
  lemma OncePublished(es: seq<Event>, name: string, stod: Stod)
    requires Only(es, name, Once)
    ensures var out := Lines(Run(es, stod), stod);
            && (name in out <==> LastValue(es, name).Some? && (Fresh(es, name) || Armed(es)))
            && (name in out ==> out[name] == Text(name, LastValue(es, name).value))
  {
    OnceHistory(es, name, stod);
  }

  // ------------------------------------------------------------------ LOG_AVERAGE

  /** The parameters that arrived under `name` since the last update. */
  function Pending(es: seq<Event>, name: string): seq<Param> {
    if es == [] || es[|es| - 1].DoUpdate? then []
    else
      Pending(es[..|es| - 1], name) +
      if Arrives(es[|es| - 1], name) then [es[|es| - 1].p.(updated := true)] else []
  }

  ghost predicate PendingTracked(es: seq<Event>, name: string, k: Kind, stod: Stod) {
    var s := Run(es, stod);
    && (name in s.data <==> Pending(es, name) != [])
    && (name in s.data ==> s.data[name] == Pending(es, name))
    && (forall i :: 0 <= i < |Pending(es, name)| ==> Pending(es, name)[i].kind == k)
  }

  lemma {:induction false} PendingHistory(es: seq<Event>, name: string, k: Kind, stod: Stod)
    requires k == Average || k == Latest
    requires Only(es, name, k)
    ensures PendingTracked(es, name, k, stod)
  {
    if es != [] {
      PendingHistory(es[..|es| - 1], name, k, stod);
      PendingStep(es[..|es| - 1], es[|es| - 1], name, k, stod);
      assert es == es[..|es| - 1] + [es[|es| - 1]];
    }
  }

  lemma PendingStep(es: seq<Event>, e: Event, name: string, k: Kind, stod: Stod)
    requires k == Average || k == Latest
    requires PendingTracked(es, name, k, stod)
    requires Arrives(e, name) ==> e.p.kind == k
    ensures PendingTracked(es + [e], name, k, stod)
  {
    assert (es + [e])[..|es|] == es;
  }

  /** The first token is the text before the first blank. */
  lemma {:induction false} FirstTokenIs(s: string)
    ensures var t := FirstToken(s);
            t <= s && (forall i :: 0 <= i < |t| ==> t[i] != ' ') && (|t| < |s| ==> s[|t|] == ' ')
  {
    if s != "" && s[0] != ' ' {
      FirstTokenIs(s[1..]);
    }
  }

  /** The last token is the text after the last blank. */
  lemma {:induction false} LastTokenIs(s: string)
    ensures var t := LastToken(s);
            && |t| <= |s| && s[|s| - |t|..] == t && (forall i :: 0 <= i < |t| ==> t[i] != ' ')
            && (|t| < |s| ==> s[|s| - |t| - 1] == ' ')
  {
    if s != "" && s[|s| - 1] != ' ' {
      LastTokenIs(s[..|s| - 1]);
    }
  }

  /** The number a stored value starts with. */
  function Number(p: Param, stod: Stod): Option<real> {
    stod(FirstToken(p.value))
  }

  /** The total of one value is its number. */
  lemma TotalOne(p: Param, stod: Stod)
    ensures Total([p], stod) == Number(p, stod)
  {
    assert [p][..0] == [];
  }

  /** Totals add up; if either part fails, so does the whole. */
  lemma {:induction false} TotalAppend(a: seq<Param>, b: seq<Param>, stod: Stod)
    ensures Total(a + b, stod) ==
            match (Total(a, stod), Total(b, stod)) case (Some(x), Some(y)) => Some(x + y) case _ => None
  {
    hide FirstToken;
    if b == [] {
      assert a + b == a;
    } else {
      var n := |b| - 1;
      assert (a + b)[..|a| + n] == a + b[..n];
      TotalAppend(a, b[..n], stod);
    }
  }

  /** The total exists if and only if every value starts with a number. */
  lemma {:induction false} TotalExists(list: seq<Param>, stod: Stod)
    ensures Total(list, stod).Some? <==> forall i :: 0 <= i < |list| ==> Number(list[i], stod).Some?
  {
    hide FirstToken;
    if list != [] {
      TotalExists(list[..|list| - 1], stod);
      assert forall i :: 0 <= i < |list| - 1 ==> list[..|list| - 1][i] == list[i];
    }
  }

  ghost predicate NumbersWithin(list: seq<Param>, lo: real, hi: real, stod: Stod) {
    forall i :: 0 <= i < |list| ==> Number(list[i], stod).Some? && lo <= Number(list[i], stod).value <= hi
  }

  lemma {:induction false} TotalWithin(list: seq<Param>, lo: real, hi: real, stod: Stod)
    requires NumbersWithin(list, lo, hi, stod)
    ensures Total(list, stod).Some?
    ensures lo * |list| as real <= Total(list, stod).value <= hi * |list| as real
  {
    hide FirstToken;
    if list != [] {
      var n := |list| - 1;
      assert forall i :: 0 <= i < n ==> list[..n][i] == list[i];
      TotalWithin(list[..n], lo, hi, stod);
      assert lo * (n + 1) as real == lo * n as real + lo && hi * (n + 1) as real == hi * n as real + hi;
    }
  }

  lemma QuotientWithin(t: real, n: real, lo: real, hi: real)
    requires n > 0.0 && lo * n <= t <= hi * n
    ensures lo <= t / n <= hi
  {
    var q := t / n;
    assert q * n == t;
    ScaledOrder(lo, q, n);
    ScaledOrder(q, hi, n);
  }

  lemma ScaledOrder(x: real, y: real, n: real)
    requires n > 0.0
    ensures x * n <= y * n ==> x <= y
  {
    if y < x {
      assert (x - y) * n > 0.0;
    }
  }

  /**
   * What the published mean means: it appears if and only if values arrived since the last update and all of them
   * start with a number; it lies between any bounds on those numbers, so equal numbers give that number; and
   * the unit is what follows the last blank of the newest value.
   */
  lemma AverageMeaning(es: seq<Event>, name: string, lo: real, hi: real, stod: Stod)
    requires Only(es, name, Average)
    ensures var out, l := Lines(Run(es, stod), stod), Pending(es, name);
            && (name in out <==> l != [] && forall i :: 0 <= i < |l| ==> Number(l[i], stod).Some?)
            && (name in out ==> out[name].Mean? && out[name].name == name && out[name].unitText == LastToken(l[|l| - 1].value))
            && (name in out && NumbersWithin(l, lo, hi, stod) ==> lo <= out[name].mean <= hi)
            && (name in out && |l| == 2 ==>
                  out[name].mean == (Number(l[0], stod).value + Number(l[1], stod).value) / 2.0)
  {
    hide Lines, Run, Number, LastToken, Pending, NumbersWithin, Total, Update, Only;
    AveragePublished(es, name, stod);
    var l := Pending(es, name);
    TotalExists(l, stod);
    if l != [] && NumbersWithin(l, lo, hi, stod) {
      MeanWithin(l, lo, hi, stod);
    }
    if |l| == 2 && Total(l, stod).Some? {
      TotalOfTwo(l, stod);
    }
  }

  lemma MeanWithin(l: seq<Param>, lo: real, hi: real, stod: Stod)
    requires l != [] && NumbersWithin(l, lo, hi, stod)
    ensures Total(l, stod).Some? && lo <= Total(l, stod).value / |l| as real <= hi
  {
    hide NumbersWithin, Total;
    TotalWithin(l, lo, hi, stod);
    QuotientWithin(Total(l, stod).value, |l| as real, lo, hi);
  }

  lemma TotalOfTwo(l: seq<Param>, stod: Stod)
    requires |l| == 2 && Number(l[0], stod).Some? && Number(l[1], stod).Some?
    ensures Total(l, stod) == Some(Number(l[0], stod).value + Number(l[1], stod).value)
  {
    hide Number, Total;
    assert l == [l[0]] + [l[1]];
    TotalOne(l[0], stod);
    TotalOne(l[1], stod);
    TotalAppend([l[0]], [l[1]], stod);
  }

  /** LOG_AVERAGE publishes the mean of exactly the values since the previous update, if all of them parse. */
  lemma AveragePublished(es: seq<Event>, name: string, stod: Stod)
    requires Only(es, name, Average)
    ensures var s, l := Run(es, stod), Pending(es, name);
            && (name in Lines(s, stod) <==> l != [] && Total(l, stod).Some?)
            && (name in Lines(s, stod) ==>
                  Lines(s, stod)[name] == Mean(name, Total(l, stod).value / |l| as real, LastToken(l[|l| - 1].value)))
            && name !in Update(s, stod).data
  {
    PendingHistory(es, name, Average, stod);
  }

  /** LOG_LATEST publishes the last value since the previous update. */
  lemma LatestPublished(es: seq<Event>, name: string, stod: Stod)
    requires Only(es, name, Latest)
    ensures var s, l := Run(es, stod), Pending(es, name);
            && (name in Lines(s, stod) <==> l != [])
            && (name in Lines(s, stod) ==> Lines(s, stod)[name] == Text(name, l[|l| - 1].value))
            && name !in Update(s, stod).data
  {
    PendingHistory(es, name, Latest, stod);
  }

  // ---------------------------------------------------------------- LOG_ON_CHANGE

  /**
   * The kept reference is the published value, except that a forced publication (once-trigger or first
   * update) publishes the newest value and keeps the oldest; the two then agree iff the values do.
   */
  lemma OnChangeReference(name: string, list: seq<Param>, once: bool, stod: Stod)
    requires list != [] && list[|list| - 1].kind == OnChange
    ensures var (line, kept) := UpdateEntry(name, list, once, stod);
            && kept.Some? && |kept.value| == 1
            && (line.None? <==> !once && !list[0].updated && forall i :: 0 <= i < |list| ==> list[i].value == list[0].value)
            && (line.Some? ==> line.value.Text?)
            && (line.Some? ==> var forced := once || list[0].updated;
                               (line.value.value == kept.value[0].value) == (forced ==> list[|list| - 1].value == list[0].value))
  {
    FirstChangeFinds(list, 1);
  }

  lemma {:induction false} FirstChangeFinds(list: seq<Param>, i: nat)
    requires 0 < i <= |list|
    ensures var k := FirstChange(list, i);
            && i <= k <= |list|
            && (k < |list| ==> list[k].value != list[0].value)
            && forall j :: i <= j < k ==> list[j].value == list[0].value
    decreases |list| - i
  {
    if i < |list| {
      FirstChangeFinds(list, i + 1);
    }
  }

  /** The first value in `list` other than `r`; `r` itself if there is none. */
  function FirstOther(list: seq<Param>, r: string): string {
    if list == [] then r else if list[0].value != r then list[0].value else FirstOther(list[1..], r)
  }

  /** The next update is forced: a once-trigger is pending, or nothing was published under the name yet. */
  predicate Forced(es: seq<Event>, name: string) {
    Armed(es) || Reference(es, name).None?
  }

  /**
   * The reference value, from the history alone. The first update makes the oldest value the reference, a
   * forced one keeps the reference, and any other replaces it by the first value that differs.
   */
  function Reference(es: seq<Event>, name: string): Option<string> {
    if es == [] then None
    else
      var before := es[..|es| - 1];
      if !es[|es| - 1].DoUpdate? then Reference(before, name)
      else
        match Reference(before, name)
        case None => if Pending(before, name) == [] then None else Some(Pending(before, name)[0].value)
        case Some(r) => Some(if Armed(before) then r else FirstOther(Pending(before, name), r))
  }

  /** What is stored: the reference, if there is one, and what arrived since the last update. */
  function Stored(es: seq<Event>, name: string): seq<Param> {
    match Reference(es, name)
    case None => Pending(es, name)
    case Some(r) => [Param(name, r, OnChange, false)] + Pending(es, name)
  }

  ghost predicate OnChangeTracked(es: seq<Event>, name: string, stod: Stod) {
    var s := Run(es, stod);
    && s.once == Armed(es)
    && (name in s.data <==> Stored(es, name) != [])
    && (name in s.data ==> s.data[name] == Stored(es, name))
    && forall i :: 0 <= i < |Pending(es, name)| ==>
         Pending(es, name)[i] == Param(name, Pending(es, name)[i].value, OnChange, true)
  }

  lemma {:induction false} FirstOtherFinds(list: seq<Param>, i: nat)
    requires 0 < i <= |list|
    ensures var k, v := FirstChange(list, i), FirstOther(list[i..], list[0].value);
            && i <= k <= |list|
            && v == (if k < |list| then list[k] else list[0]).value
            && (k < |list| <==> v != list[0].value)
    decreases |list| - i
  {
    if i < |list| {
      FirstOtherFinds(list, i + 1);
      assert list[i..][1..] == list[i + 1..];
    }
  }

  /** One update of a LOG_ON_CHANGE entry with reference `r`. */
  lemma OnChangeEntry(name: string, r: string, pending: seq<Param>, once: bool, stod: Stod)
    requires forall i :: 0 <= i < |pending| ==> pending[i] == Param(name, pending[i].value, OnChange, true)
    ensures var list, v := [Param(name, r, OnChange, false)] + pending, FirstOther(pending, r);
            UpdateEntry(name, list, once, stod) ==
            (if once then Some(Text(name, list[|list| - 1].value)) else if v != r then Some(Text(name, v)) else None,
             Some([Param(name, if once then r else v, OnChange, false)]))
  {
    hide FirstChange, FirstOther, Total;
    var list := [Param(name, r, OnChange, false)] + pending;
    var k := FirstChange(list, 1);
    FirstOtherFinds(list, 1);
    assert list[1..] == pending && list[..1] == [list[0]];
    assert |list| > 1 ==> list[|list| - 1] == pending[|pending| - 1];
    assert k < |list| ==> list[k] == pending[k - 1];
    SettleOne(list[0]);
    if k < |list| {
      SettleOne(list[k]);
    }
  }

  lemma SettleOne(p: Param)
    ensures Settle([p]) == [p.(updated := false)]
  {
  }

  /** The first update of a LOG_ON_CHANGE entry. */
  lemma OnChangeFirst(name: string, pending: seq<Param>, once: bool, stod: Stod)
    requires pending != [] && forall i :: 0 <= i < |pending| ==> pending[i] == Param(name, pending[i].value, OnChange, true)
    ensures UpdateEntry(name, pending, once, stod) ==
            (Some(Text(name, pending[|pending| - 1].value)), Some([Param(name, pending[0].value, OnChange, false)]))
  {
    hide Total;
    assert pending[|pending| - 1].kind == OnChange && pending[0].updated;
    assert pending[..1] == [pending[0]];
    SettleOne(pending[0]);
  }

  lemma {:induction false} OnChangeHistory(es: seq<Event>, name: string, stod: Stod)
    requires Only(es, name, OnChange)
    ensures OnChangeTracked(es, name, stod)
  {
    hide OnChangeTracked;
    if es == [] {
      OnChangeStart(name, stod);
    } else {
      OnChangeHistory(es[..|es| - 1], name, stod);
      OnChangeStep(es[..|es| - 1], es[|es| - 1], name, stod);
      assert es == es[..|es| - 1] + [es[|es| - 1]];
    }
  }

  lemma OnChangeStart(name: string, stod: Stod)
    ensures OnChangeTracked([], name, stod)
  {
  }

  lemma OnChangeStep(es: seq<Event>, e: Event, name: string, stod: Stod)
    requires OnChangeTracked(es, name, stod)
    requires Arrives(e, name) ==> e.p.kind == OnChange
    ensures OnChangeTracked(es + [e], name, stod)
  {
    hide OnChangeTracked;
    match e
    case Arrive(p) => OnChangeArrive(es, p, name, stod);
    case OnceTrigger => OnChangeTrigger(es, name, stod);
    case DoUpdate => OnChangeUpdate(es, name, stod);
  }

  lemma OnChangeArrive(es: seq<Event>, p: Param, name: string, stod: Stod)
    requires OnChangeTracked(es, name, stod)
    requires p.name == name ==> p.kind == OnChange
    ensures OnChangeTracked(es + [Arrive(p)], name, stod)
  {
    hide UpdateEntry, Run, Armed;
    var s, next := Run(es, stod), es + [Arrive(p)];
    RunSnoc(es, Arrive(p), stod);
    ArmedAfterArrival(es, p);
    assert next[..|es|] == es;
    assert Reference(next, name) == Reference(es, name);
    if p.name == name {
      assert p.(updated := true) == Param(name, p.value, OnChange, true);
      assert Pending(next, name) == Pending(es, name) + [p.(updated := true)];
      assert Stored(next, name) == Stored(es, name) + [p.(updated := true)];
    } else {
      hide Receive;
      assert Pending(next, name) == Pending(es, name);
      OtherName(s, p, name);
    }
  }

  lemma ArmedAfterArrival(es: seq<Event>, p: Param)
    ensures Armed(es + [Arrive(p)]) == Armed(es)
  {
    assert (es + [Arrive(p)])[..|es|] == es;
  }

  lemma OnChangeTrigger(es: seq<Event>, name: string, stod: Stod)
    requires OnChangeTracked(es, name, stod)
    ensures OnChangeTracked(es + [OnceTrigger], name, stod)
  {
    hide UpdateEntry, Run;
    var next := es + [OnceTrigger];
    RunSnoc(es, OnceTrigger, stod);
    assert next[..|es|] == es;
    assert Reference(next, name) == Reference(es, name) && Pending(next, name) == Pending(es, name) + [];
  }

  lemma OnChangeUpdate(es: seq<Event>, name: string, stod: Stod)
    requires OnChangeTracked(es, name, stod)
    ensures OnChangeTracked(es + [DoUpdate], name, stod)
  {
    hide UpdateEntry, Run, Armed;
    var next, pending := es + [DoUpdate], Pending(es, name);
    RunSnoc(es, DoUpdate, stod);
    assert next[..|es|] == es;
    assert Pending(next, name) == [] && !Armed(next) by {
      ArmedAfterUpdate(es);
    }
    if Reference(es, name).Some? {
      OnChangeEntry(name, Reference(es, name).value, pending, Armed(es), stod);
    } else if pending != [] {
      OnChangeFirst(name, pending, Armed(es), stod);
    }
  }

  lemma ArmedAfterUpdate(es: seq<Event>)
    ensures !Armed(es + [DoUpdate])
  {
  }

  /**
   * A name only ever sent as LOG_ON_CHANGE. A forced update publishes the newest value stored, any other
   * publishes the first value since the last update that differs from the reference, if there is one.
   */
  lemma OnChangePublished(es: seq<Event>, name: string, stod: Stod)
    requires Only(es, name, OnChange)
    ensures var out, l := Lines(Run(es, stod), stod), Stored(es, name);
            && (name in out <==> l != [] && (Forced(es, name) || exists i :: 0 <= i < |l| && l[i].value != l[0].value))
            && (name in out ==>
                  out[name] == Text(name, if Forced(es, name) then l[|l| - 1].value
                                          else FirstOther(Pending(es, name), Reference(es, name).value)))
  {
    hide UpdateEntry, Run, Lines, Armed, FirstOther;
    OnChangeHistory(es, name, stod);
    var s, pending := Run(es, stod), Pending(es, name);
    LineOf(s, name, stod);
    if Reference(es, name).Some? {
      var r := Reference(es, name).value;
      OnChangeEntry(name, r, pending, s.once, stod);
      OtherIffDiffers(Param(name, r, OnChange, false), pending);
    } else if pending != [] {
      OnChangeFirst(name, pending, s.once, stod);
    }
  }

  lemma LineOf(s: State, name: string, stod: Stod)
    ensures name in Lines(s, stod) <==> name in s.data && UpdateEntry(name, s.data[name], s.once, stod).0.Some?
    ensures name in Lines(s, stod) ==>
              Lines(s, stod)[name] == UpdateEntry(name, s.data[name], s.once, stod).0.value
  {
    hide UpdateEntry;
  }

  lemma {:induction false} OtherIffDiffers(head: Param, list: seq<Param>)
    ensures var l := [head] + list;
            FirstOther(list, head.value) != head.value <==> exists i :: 0 <= i < |l| && l[i].value != l[0].value
  {
    var l := [head] + list;
    if list != [] {
      var shorter := [head] + list[1..];
      OtherIffDiffers(head, list[1..]);
      if i :| 0 <= i < |l| && l[i].value != head.value {
        assert i == 1 || l[i] == shorter[i - 1];
      }
      if i :| 0 <= i < |shorter| && shorter[i].value != head.value {
        assert l[i + 1] == shorter[i];
      }
      assert l[1] == list[0];
    }
  }

  // --------------------------------------------------------------------- the object

  class LogEngine {
    var logData: map<string, seq<Param>>
    var onceLogFlag: bool

    ghost function Current(): State
      reads this
    {
      State(logData, onceLogFlag)
    }

    constructor ()
      ensures Current() == State(map[], true)
    {
      logData, onceLogFlag := map[], true;
    }

    method OnOnceLogTrigger()
      modifies this
      ensures Current() == old(Current()).(once := true)
    {
      onceLogFlag := true;
    }

    method OnLogParameterReceived(p: Param) returns (out: Option<Message>)
      requires WellFormed(Current())
      modifies this
      ensures Current() == Receive(old(Current()), p) && out == Immediate(p)
      ensures WellFormed(Current())
    {
      ReceiveKeeps(Current(), p);
      if p.kind == Never {
        return None;
      }
      if p.kind == Every {
        if p.name in logData {
          var kind := logData[p.name][0].kind;
          if kind != Average {
            logData := logData[p.name := []];
          }
          logData := logData[p.name := logData[p.name] + [Param(p.name, p.value, kind, false)]];
        }
        return Some(Text(p.name, p.value));
      }
      if p.name !in logData {
        logData := logData[p.name := []];
      }
      logData := logData[p.name := logData[p.name] + [p.(updated := true)]];
      return None;
    }

    /** The summing loop of the LOG_AVERAGE branch. */
    method SumOf(list: seq<Param>, stod: Stod) returns (sum: Option<real>)
      ensures sum == Total(list, stod)
    {
      var total := 0.0;
      for i := 0 to |list|
        invariant Total(list[..i], stod) == Some(total)
      {
        assert list[..i + 1][..i] == list[..i];
        var x := stod(FirstToken(list[i].value));
        if x.None? {
          TotalFails(list, i + 1, stod);
          return None;
        }
        total := total + x.value;
      }
      assert list[..|list|] == list;
      return Some(total);
    }

    /** The LOG_ONCE branch. */
    method ProcessOnce(name: string, entry: seq<Param>) returns (line: Option<Message>, list: seq<Param>)
      requires entry != []
      ensures line == if onceLogFlag || entry[0].updated then Some(Text(name, entry[|entry| - 1].value)) else None
      ensures list == Settle(Trim(entry))
    {
      list, line := entry, None;
      if onceLogFlag || list[0].updated {
        line := Some(Text(name, list[|list| - 1].value));
      }
      while |list| > 2
        invariant list != [] && Trim(list) == Trim(entry)
      {
        list := list[1..];
      }
      list := list[0 := list[0].(updated := false)];
    }

    /** The LOG_ON_CHANGE branch. */
    method ProcessOnChange(name: string, entry: seq<Param>) returns (line: Option<Message>, list: seq<Param>)
      requires entry != []
      ensures var i := FirstChange(entry, 1);
              (line, list) ==
                if onceLogFlag || entry[0].updated then (Some(Text(name, entry[|entry| - 1].value)), Settle(entry[..1]))
                else if i < |entry| then (Some(Text(name, entry[i].value)), Settle([entry[i]]))
                else (None, Settle(entry[..1]))
    {
      list, line := entry, None;
      ghost var reference := entry[0];
      if onceLogFlag || list[0].updated {
        line := Some(Text(name, list[|list| - 1].value));
      } else {
        var i := 1;
        while i < |list| && list[i].value == list[0].value
          invariant 1 <= i <= |list| && FirstChange(list, 1) == FirstChange(list, i)
        {
          i := i + 1;
        }
        if i < |list| {
          line, reference := Some(Text(name, list[i].value)), list[i];
          list := list[0 := list[i]];
        }
      }
      while |list| > 1
        invariant list != [] && list[0] == reference
      {
        list := list[..|list| - 1];
      }
      assert list == [reference];
      list := list[0 := list[0].(updated := false)];
      assert list == Settle([reference]) && entry[..1] == [entry[0]];
    }

    /** The body of the update loop for one entry. */
    method ProcessEntry(name: string, list: seq<Param>, stod: Stod) returns (line: Option<Message>, kept: Option<seq<Param>>)
      requires list != []
      ensures (line, kept) == UpdateEntry(name, list, onceLogFlag, stod)
    {
      hide Total, LastToken, Trim, FirstChange;
      var last := list[|list| - 1];
      if last.kind == Latest {
        return Some(Text(name, last.value)), None;
      } else if last.kind == Average {
        var sum := SumOf(list, stod);
        if sum.Some? {
          return Some(Mean(name, sum.value / |list| as real, LastToken(last.value))), None;
        }
        return None, None;
      } else if last.kind == Once {
        var once, settled := ProcessOnce(name, list);
        return once, Some(settled);
      } else if last.kind == OnChange {
        var change, settled := ProcessOnChange(name, list);
        return change, Some(settled);
      } else {
        return None, Some(list);
      }
    }

    /** update(): visits the entries in any order. */
    method DoUpdate(stod: Stod) returns (lines: map<string, Message>)
      requires WellFormed(Current())
      modifies this
      ensures Current() == Update(old(Current()), stod) && lines == Lines(old(Current()), stod)
      ensures WellFormed(Current())
    {
      hide UpdateEntry, WellFormed, Total;
      UpdateKeeps(Current(), stod);
      lines := map[];
      ghost var before := Current();
      assert forall n :: n in logData ==> logData[n] != [] by {
        AllNonEmpty(Current());
      }
      var todo := logData.Keys;
      while todo != {}
        invariant todo <= before.data.Keys && onceLogFlag == before.once
        invariant forall n :: n in todo ==> n in logData && logData[n] == before.data[n] && n !in lines
        invariant forall n :: n !in todo ==> Visited(before, stod, n, logData, lines)
        decreases todo
      {
        var name :| name in todo;
        var line, kept := ProcessEntry(name, logData[name], stod);
        todo := todo - {name};
        if line.Some? {
          lines := lines[name := line.value];
        }
        if kept.Some? {
          logData := logData[name := kept.value];
        } else {
          logData := logData - {name};
        }
      }
      AllVisited(before, stod, logData, lines);
      onceLogFlag := false;
    }
  }

  /** Entry `n` has been processed: `data` and `lines` hold its outcome. */
  ghost predicate Visited(before: State, stod: Stod, n: string, data: map<string, seq<Param>>, lines: map<string, Message>) {
    var (line, kept) := if n in before.data then UpdateEntry(n, before.data[n], before.once, stod) else (None, None);
    && line == (if n in lines then Some(lines[n]) else None)
    && kept == (if n in data then Some(data[n]) else None)
  }

  lemma AllVisited(before: State, stod: Stod, data: map<string, seq<Param>>, lines: map<string, Message>)
    requires forall n :: Visited(before, stod, n, data, lines)
    ensures data == Update(before, stod).data && lines == Lines(before, stod)
  {
    hide UpdateEntry;
    forall n
      ensures n in data <==> n in Update(before, stod).data
      ensures n in lines <==> n in Lines(before, stod)
      ensures n in data ==> data[n] == Update(before, stod).data[n]
      ensures n in lines ==> lines[n] == Lines(before, stod)[n]
    {
      assert Visited(before, stod, n, data, lines);
    }
  }

  lemma {:induction false} TotalFails(list: seq<Param>, k: nat, stod: Stod)
    requires k <= |list| && Total(list[..k], stod).None?
    ensures Total(list, stod).None?
  {
    if k == |list| {
      assert list[..k] == list;
    } else {
      assert list[..|list| - 1][..k] == list[..k];
      TotalFails(list[..|list| - 1], k, stod);
    }
  }
}
