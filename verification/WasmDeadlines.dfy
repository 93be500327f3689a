/** A deadline running on the wasm timer (deadline/deadline.go with deadline/timer_js.go). */
module WasmDeadlines {
  import opened Options
  import opened Deadlines
  import Runs = DeadlineRuns
  import Js = JsTimers

  /** The deadline and its surroundings, and the timer that afterFunc has made, if it has. The timer field
      of the deadline's record is not used. */
  datatype Product = Product(r: Runs.System, t: Option<Js.System>)

  /** CallsF(n) is the call of the deadline's callback by the arming of the n-th Set. */
  datatype Step = Set(when: When) | GoesOff(v: nat) | GetsLock(v: nat) | CallsF(n: nat) | GetContext

  predicate Enabled(p: Product, step: Step) {
    match step
    case GoesOff(v) => p.t.Some? && Js.Enabled(p.t.value, Js.GoesOff(v))
    case GetsLock(v) => p.t.Some? && Js.Enabled(p.t.value, Js.GetsLock(v))
    case CallsF(n) => p.t.Some? && Js.Enabled(p.t.value, Js.CallsF) && n in p.r.inFlight
    case _ => true
  }

  /** A started deadline stops its timer, and is told whether that was in time. */
  function StopTimer(p: Product): (Option<Js.System>, bool) {
    if p.r.d.status == Started && p.t.Some?
    then (Some(Js.Next(p.t.value, Js.Stop)), Js.StopStep(p.t.value.t).1)
    else (p.t, false)
  }

  /** A new deadline makes its timer or resets it. */
  function StartTimer(t: Option<Js.System>): Option<Js.System> {
    if t.None? then Some(Js.Start()) else Some(Js.Next(t.value, Js.Reset))
  }

  function SetNext(p: Product, when: When): Product {
    var (t, stopped) := StopTimer(p);
    var (d, cancel) := SetWith(p.r.d, stopped, when);
    Product(Runs.Observe(p.r.(sets := p.r.sets + 1), d, cancel, when.Past?), if when.Future? then StartTimer(t) else t)
  }

  /** The runtime callback gets the timer's lock; with the current version it goes on to call f. */
  function LockNext(p: Product, v: nat): Product
    requires Enabled(p, GetsLock(v))
  {
    var t := Js.Next(p.t.value, Js.GetsLock(v));
    var goesOn := Js.CallbackStep(p.t.value.t, v).1;
    Product(if goesOn then p.r.(inFlight := p.r.inFlight + multiset{p.r.sets}, expired := p.r.expired + {p.r.sets}) else p.r,
            Some(t))
  }

  function CallNext(p: Product, n: nat): Product
    requires Enabled(p, CallsF(n))
  {
    var (d, cancel) := TimeoutStep(p.r.d);
    Product(Runs.Observe(p.r.(inFlight := p.r.inFlight - multiset{n}), d, cancel, Runs.CallbackFires(p.r.d)),
            Some(Js.Next(p.t.value, Js.CallsF)))
  }

  function Next(p: Product, step: Step): Product
    requires Enabled(p, step)
  {
    match step
    case Set(when) => SetNext(p, when)
    case GoesOff(v) => p.(t := Some(Js.Next(p.t.value, Js.GoesOff(v))))
    case GetsLock(v) => LockNext(p, v)
    case CallsF(n) => CallNext(p, n)
    case GetContext =>
      var (d, c) := ContextStep(p.r.d);
      p.(r := p.r.(d := d, handed := if c.Own? then p.r.handed + {c.id} else p.r.handed))
  }

  function Start(): Product {
    Product(Runs.Start(), None)
  }

  function After(steps: seq<Step>): Product {
    if steps == [] then Start()
    else
      var p, step := After(steps[..|steps| - 1]), steps[|steps| - 1];
      if Enabled(p, step) then Next(p, step) else p
  }

  // ---- Every run is a run of a deadline on a timer that keeps the contract ----

  function TimerOf(t: Option<Js.System>): Timer {
    if t.None? then NoTimer else if t.value.t.started then Armed else Idle
  }

  function Abs(p: Product): Runs.System {
    p.r.(d := p.r.d.(timer := TimerOf(p.t)))
  }

  /** The step of the deadline's run behind a step: waiting runtime callbacks and old versions show in none. */
  function Image(p: Product, step: Step): seq<Runs.Step> {
    match step
    case Set(when) => [Runs.Set(when)]
    case GoesOff(_) => []
    case GetsLock(v) => if p.t.Some? && v == p.t.value.t.version then [Runs.Expire] else []
    case CallsF(n) => [Runs.Callback(n)]
    case GetContext => [Runs.GetContext]
  }

  function Trace(steps: seq<Step>): seq<Runs.Step> {
    if steps == [] then []
    else
      var before, step := steps[..|steps| - 1], steps[|steps| - 1];
      Trace(before) + if Enabled(After(before), step) then Image(After(before), step) else []
  }

  predicate Inv(p: Product) {
    && (p.t.Some? ==> Js.Inv(p.t.value) && p.t.value.calls == |p.r.inFlight|)
    && (p.t.None? ==> p.r.inFlight == multiset{} && p.r.d.status != Started)
  }

  /** The step's image can be taken, and leads to the same state. */
  predicate Follows(p: Product, p': Product, image: seq<Runs.Step>) {
    if image == [] then Abs(p') == Abs(p)
    else Runs.Enabled(Abs(p), image[0]) && Abs(p') == Runs.Next(Abs(p), image[0])
  }

  lemma StartInv()
    ensures Js.Inv(Js.Start())
  {
    Js.AlwaysInv([]);
  }

  lemma TimersInv(p: Product)
    requires Inv(p)
    ensures var (t, stopped) := StopTimer(p);
            && (t.Some? ==> Js.Inv(t.value) && t.value.calls == |p.r.inFlight|)
            && (StartTimer(t).Some? && Js.Inv(StartTimer(t).value) && StartTimer(t).value.calls == |p.r.inFlight|)
            && (stopped <==> p.r.d.status == Started && TimerOf(p.t).Armed?)
            && TimerOf(t) == (if stopped then Idle else TimerOf(p.t)) && TimerOf(StartTimer(t)).Armed?
  {
    StartInv();
    if p.t.Some? {
      Js.NextInv(p.t.value, Js.Stop);
      Js.NextInv(StopTimer(p).0.value, Js.Reset);
    }
  }

  lemma SetKeepsInv(p: Product, when: When)
    requires Inv(p)
    ensures Inv(SetNext(p, when))
  {
    TimersInv(p);
  }

  lemma SetFollows(p: Product, when: When)
    requires Inv(p)
    ensures Abs(SetNext(p, when)) == Runs.Next(Abs(p), Runs.Set(when))
  {
    TimersInv(p);
  }

  lemma LockFollows(p: Product, v: nat)
    requires Inv(p) && Enabled(p, GetsLock(v))
    ensures Inv(LockNext(p, v)) && Follows(p, LockNext(p, v), Image(p, GetsLock(v)))
  {
    Js.NextInv(p.t.value, Js.GetsLock(v));
    assert |p.r.inFlight + multiset{p.r.sets}| == |p.r.inFlight| + 1;
  }

  lemma CallFollows(p: Product, n: nat)
    requires Inv(p) && Enabled(p, CallsF(n))
    ensures Inv(CallNext(p, n)) && Follows(p, CallNext(p, n), Image(p, CallsF(n)))
  {
    Js.NextInv(p.t.value, Js.CallsF);
    assert |p.r.inFlight - multiset{n}| == |p.r.inFlight| - 1;
  }

  lemma NextFollows(p: Product, step: Step)
    requires Inv(p) && Enabled(p, step)
    ensures Inv(Next(p, step)) && Follows(p, Next(p, step), Image(p, step))
  {
    match step {
      case Set(when) =>
        SetKeepsInv(p, when);
        SetFollows(p, when);
      case GoesOff(v) => Js.NextInv(p.t.value, Js.GoesOff(v));
      case GetsLock(v) => LockFollows(p, v);
      case CallsF(n) => CallFollows(p, n);
      case GetContext =>
    }
  }

  lemma ExtendTrace(trace: seq<Runs.Step>, p: Product, p': Product, image: seq<Runs.Step>)
    requires Abs(p) == Runs.After(trace) && |image| <= 1 && Follows(p, p', image)
    ensures Abs(p') == Runs.After(trace + image)
  {
    if image == [] {
      assert trace + image == trace;
    } else {
      assert image == [image[0]];
      Runs.AfterOne(trace, image[0]);
    }
  }

  /** Every run of a deadline on the wasm timer, with late runtime callbacks and old versions, is a run of
      the deadline on a timer that keeps the contract. */
  lemma {:induction false} WasmRunRefines(steps: seq<Step>)
    ensures Inv(After(steps)) && Abs(After(steps)) == Runs.After(Trace(steps))
  {
    if steps != [] {
      var before, step := steps[..|steps| - 1], steps[|steps| - 1];
      WasmRunRefines(before);
      var p := After(before);
      if Enabled(p, step) {
        NextFollows(p, step);
        ExtendTrace(Trace(before), p, Next(p, step), Image(p, step));
      } else {
        assert Trace(before) + [] == Trace(before);
      }
    }
  }

  /** So on wasm, too, each Set fires at most once, channels and contexts are signalled exactly when the
      deadline is exceeded, and up to 256 outstanding armings and callbacks none fires early. */
  lemma WasmSignals(steps: seq<Step>)
    ensures var s := Abs(After(steps)); Runs.FireInv(s) && Runs.DoneInv(s) && Runs.ContextInv(s)
    ensures Runs.Bounded(Trace(steps), 256) ==> Runs.CountInv(Abs(After(steps))) && !Runs.FiresEarlyIn(Trace(steps))
  {
    WasmRunRefines(steps);
    Runs.SignalInv(Trace(steps));
    if Runs.Bounded(Trace(steps), 256) {
      Runs.BoundedRunInv(Trace(steps));
      Runs.BoundedNeverEarly(Trace(steps));
    }
  }
}
