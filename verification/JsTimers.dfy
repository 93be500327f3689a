/** The wasm timer (deadline/timer_js.go) and the timer contract that the deadline relies on. */
module JsTimers {
  import opened Options
  import opened Deadlines
  import Runs = DeadlineRuns

  /** The contract: a timer is armed or not, and some calls of f are on their way. */
  datatype Contract = Contract(armed: bool, calls: nat)

  datatype ContractStep = CStop | CReset | CExpire | CCall | CStutter

  predicate ContractEnabled(c: Contract, step: ContractStep) {
    match step
    case CExpire => c.armed
    case CCall => c.calls > 0
    case _ => true
  }

  function ContractNext(c: Contract, step: ContractStep): Contract
    requires ContractEnabled(c, step)
  {
    match step
    case CStop => c.(armed := false)
    case CReset => c.(armed := true)
    case CExpire => Contract(false, c.calls + 1)
    case CCall => c.(calls := c.calls - 1)
    case CStutter => c
  }

  /** The timer object. A runtime timer is known by the version its callback captured; `live` are the
      runtime timers that can still go off. */
  datatype Js = Js(version: nat, started: bool, handle: Option<nat>, live: set<nat>)

  /** Stopping the runtime timer that the object refers to. */
  function StopHandle(t: Js): set<nat> {
    if t.handle.Some? then t.live - {t.handle.value} else t.live
  }

  function StopStep(t: Js): (Js, bool) {
    (t.(version := t.version + 1, started := false, live := StopHandle(t)), t.started)
  }

  function ResetStep(t: Js): (Js, bool) {
    var v := t.version + 1;
    (Js(v, true, Some(v), StopHandle(t) + {v}), t.started)
  }

  /** The callback under the lock: it goes on to call f only if its version is current. */
  function CallbackStep(t: Js, v: nat): (Js, bool) {
    if v != t.version then (t, false) else (t.(started := false), true)
  }

  class JsTimer {
    var version: nat
    var started: bool
    var timer: Option<nat>
    var live: set<nat>

    ghost function View(): Js
      reads this
    {
      Js(version, started, timer, live)
    }

    /** afterFunc: a timer that has been reset once. */
    constructor ()
      ensures View() == Js(1, true, Some(1), {1})
    {
      version, started, timer, live := 0, false, None, {};
      new;
      var _ := Reset();
    }

    method StopRuntimeTimer()
      modifies this`live
      ensures live == StopHandle(old(View()))
    {
      if timer.Some? {
        live := live - {timer.value};
      }
    }

    method Stop() returns (wasStarted: bool)
      modifies this
      ensures (View(), wasStarted) == StopStep(old(View()))
    {
      version := version + 1;
      StopRuntimeTimer();
      wasStarted := started;
      started := false;
    }

    method Reset() returns (wasStarted: bool)
      modifies this
      ensures (View(), wasStarted) == ResetStep(old(View()))
    {
      StopRuntimeTimer();
      version := version + 1;
      timer, live := Some(version), live + {version};
      wasStarted := started;
      started := true;
    }

    method Callback(v: nat) returns (callsF: bool)
      modifies this`started
      ensures (View(), callsF) == CallbackStep(old(View()), v)
    {
      if v != version {
        return false;
      }
      started := false;
      return true;
    }
  }

  // ---- Every interleaving with late runtime callbacks ----

  /** `waiting` are runtime callbacks that went off and have not got the lock; `calls` counts callbacks
      past the lock that have not called f yet; `committed` lists the versions that got that far. */
  datatype System = System(t: Js, waiting: set<nat>, calls: nat, committed: seq<nat>)

  datatype Step = Stop | Reset | GoesOff(v: nat) | GetsLock(v: nat) | CallsF

  predicate Enabled(s: System, step: Step) {
    match step
    case GoesOff(v) => v in s.t.live
    case GetsLock(v) => v in s.waiting
    case CallsF => s.calls > 0
    case _ => true
  }

  function Next(s: System, step: Step): System
    requires Enabled(s, step)
  {
    match step
    case Stop => s.(t := StopStep(s.t).0)
    case Reset => s.(t := ResetStep(s.t).0)
    case GoesOff(v) => s.(t := s.t.(live := s.t.live - {v}), waiting := s.waiting + {v})
    case GetsLock(v) =>
      var (t', callsF) := CallbackStep(s.t, v);
      s.(t := t', waiting := s.waiting - {v}, calls := if callsF then s.calls + 1 else s.calls,
         committed := if callsF then s.committed + [v] else s.committed)
    case CallsF => s.(calls := s.calls - 1)
  }

  function Start(): System {
    System(Js(1, true, Some(1), {1}), {}, 0, [])
  }

  function After(steps: seq<Step>): System {
    if steps == [] then Start()
    else
      var s, step := After(steps[..|steps| - 1]), steps[|steps| - 1];
      if Enabled(s, step) then Next(s, step) else s
  }

  /** The latest arming is still pending exactly when `started` says so: it is the current version and
      its runtime callback is still to come. */
  predicate Inv(s: System) {
    && (forall v | v in s.t.live :: s.t.handle == Some(v))
    && (forall v | v in s.waiting :: v <= s.t.version && v !in s.t.live)
    && s.t.handle.Some? && s.t.handle.value <= s.t.version
    && (s.t.started <==> s.t.version in s.t.live + s.waiting)
    && (s.t.started <==> s.t.handle == Some(s.t.version) && s.t.version !in s.committed)
    && (forall v | v in s.committed :: v <= s.t.handle.value && v !in s.t.live + s.waiting)
    && (forall i, j | 0 <= i < j < |s.committed| :: s.committed[i] != s.committed[j])
  }

  lemma NextInv(s: System, step: Step)
    requires Inv(s) && Enabled(s, step)
    ensures Inv(Next(s, step))
  {}

  lemma {:induction false} AlwaysInv(steps: seq<Step>)
    ensures Inv(After(steps))
  {
    if steps != [] {
      var s, step := After(steps[..|steps| - 1]), steps[|steps| - 1];
      AlwaysInv(steps[..|steps| - 1]);
      if Enabled(s, step) {
        NextInv(s, step);
      }
    }
  }

  function Abstract(s: System): Contract {
    Contract(s.t.started, s.calls)
  }

  /** The contract step that a step of the implementation stands for. */
  function Image(s: System, step: Step): ContractStep {
    match step
    case Stop => CStop
    case Reset => CReset
    case GoesOff(_) => CStutter
    case GetsLock(v) => if v == s.t.version then CExpire else CStutter
    case CallsF => CCall
  }

  /** In every run, each step of the wasm timer is a step of the timer contract. */
  lemma StepSimulates(steps: seq<Step>, step: Step)
    requires Enabled(After(steps), step)
    ensures var s := After(steps);
            && ContractEnabled(Abstract(s), Image(s, step))
            && Abstract(Next(s, step)) == ContractNext(Abstract(s), Image(s, step))
  {
    AlwaysInv(steps);
  }

  /** Each arming commits to at most one call of f. Stop answers true exactly when the latest arming has
      neither committed nor been stopped, and Reset answers the same. */
  lemma StopAnswers(steps: seq<Step>)
    ensures var s := After(steps);
            && (StopStep(s.t).1 <==> s.t.handle == Some(s.t.version) && s.t.version !in s.committed)
            && ResetStep(s.t).1 == StopStep(s.t).1
            && (forall i, j | 0 <= i < j < |s.committed| :: s.committed[i] != s.committed[j])
  {
    AlwaysInv(steps);
  }

  lemma AfterOne(steps: seq<Step>, step: Step)
    ensures After(steps + [step]) == var s := After(steps); if Enabled(s, step) then Next(s, step) else s
  {
    assert (steps + [step])[..|steps|] == steps;
  }

  /** An arming that Stop or Reset ended never calls f afterwards: what commits later is newer. */
  lemma {:induction false} EndedArmingNeverCalls(steps: seq<Step>, ending: Step, more: seq<Step>)
    requires ending.Stop? || ending.Reset?
    ensures var s, s' := After(steps), After(steps + [ending] + more);
            && s'.t.version > s.t.version
            && |s.committed| <= |s'.committed| && s'.committed[..|s.committed|] == s.committed
            && forall i | |s.committed| <= i < |s'.committed| :: s'.committed[i] > s.t.version
  {
    if more == [] {
      assert steps + [ending] + more == steps + [ending];
      AfterOne(steps, ending);
    } else {
      var before := steps + [ending] + more[..|more| - 1];
      assert steps + [ending] + more == before + [more[|more| - 1]];
      EndedArmingNeverCalls(steps, ending, more[..|more| - 1]);
      AfterOne(before, more[|more| - 1]);
    }
  }

  // ---- The deadline's side of the contract ----

  function Seen(s: Runs.System): Contract {
    Contract(s.d.timer.Armed?, |s.inFlight|)
  }

  /** The timer calls and events behind a step of the deadline. */
  function Uses(s: Runs.System, step: Runs.Step): seq<ContractStep> {
    match step
    case Set(when) =>
      (if s.d.status == Started then [CStop] else []) + (if when.Future? then [CReset] else [])
    case Expire => [CExpire]
    case Callback(_) => [CCall]
    case GetContext => []
  }

  function ContractRun(c: Contract, steps: seq<ContractStep>): Option<Contract>
    decreases |steps|
  {
    if steps == [] then Some(c)
    else if ContractEnabled(c, steps[0]) then ContractRun(ContractNext(c, steps[0]), steps[1..])
    else None
  }

  /** Between a deadline and its timer nothing happens but what the contract allows. */
  lemma DeadlineFollowsContract(s: Runs.System, step: Runs.Step)
    requires Runs.Enabled(s, step)
    ensures ContractRun(Seen(s), Uses(s, step)) == Some(Seen(Runs.Next(s, step)))
  {
    var uses, c := Uses(s, step), Seen(s);
    match step {
      case Set(when) =>
        if |uses| == 2 {
          assert uses[1..] == [CReset];
          assert ContractRun(ContractNext(c, CStop), [CReset]) == Some(Contract(true, c.calls));
        }
      case Expire =>
        assert |s.inFlight + multiset{s.sets}| == |s.inFlight| + 1;
      case Callback(n) =>
        assert |s.inFlight - multiset{n}| == |s.inFlight| - 1;
      case GetContext =>
    }
  }
}
