/** Every interleaving of a deadline with its timer (deadline/deadline.go): Set calls, timer expiries,
    callbacks that run late, and Context calls. */
module DeadlineRuns {
  import opened Options
  import opened Deadlines

  /** The deadline and its surroundings. Set calls are numbered from 1; `inFlight` holds, for every
      callback that was started by an expiry and has not run yet, the number of the Set call that armed it.
      The rest is history: the Set calls whose timer expired, the Set calls that led to a firing, the
      done channels closed, the contexts handed out, and the contexts whose cancel a firing took. */
  datatype System = System(d: Deadline, sets: nat, inFlight: multiset<nat>, expired: set<nat>,
                           fired: seq<nat>, closings: seq<nat>, handed: set<nat>, taken: seq<nat>)

  datatype Step = Set(when: When) | Expire | Callback(n: nat) | GetContext

  predicate Enabled(s: System, step: Step) {
    match step
    case Expire => s.d.timer.Armed?
    case Callback(n) => n in s.inFlight
    case _ => true
  }

  /** Records what the object did: a firing shows in a done channel that is closed by the step. */
  function Observe(s: System, d': Deadline, cancel: Option<nat>, firing: bool): System {
    s.(d := d',
       fired := if firing then s.fired + [s.sets] else s.fired,
       closings := if firing then s.closings + [d'.done] else s.closings,
       taken := if cancel.Some? then s.taken + [cancel.value] else s.taken)
  }

  predicate CallbackFires(d: Deadline) {
    Dec(d.pending) == 0 && d.status == Started
  }

  function Next(s: System, step: Step): System
    requires Enabled(s, step)
  {
    match step
    case Set(when) =>
      var (d', cancel) := SetStep(s.d, when);
      Observe(s.(sets := s.sets + 1), d', cancel, when.Past?)
    case Expire =>
      s.(d := s.d.(timer := Idle), inFlight := s.inFlight + multiset{s.sets}, expired := s.expired + {s.sets})
    case Callback(n) =>
      var (d', cancel) := TimeoutStep(s.d);
      Observe(s.(inFlight := s.inFlight - multiset{n}), d', cancel, CallbackFires(s.d))
    case GetContext =>
      var (d', c) := ContextStep(s.d);
      s.(d := d', handed := if c.Own? then s.handed + {c.id} else s.handed)
  }

  function Start(): System {
    System(Fresh(), 0, multiset{}, {}, [], [], {}, [])
  }

  /** The state after a run; a step that is not enabled when its turn comes does nothing. */
  function After(steps: seq<Step>): System {
    if steps == [] then Start()
    else
      var s, step := After(steps[..|steps| - 1]), steps[|steps| - 1];
      if Enabled(s, step) then Next(s, step) else s
  }

  /** Armed timers plus callbacks that have not run. */
  function Outstanding(s: System): nat {
    |s.inFlight| + (if s.d.timer.Armed? then 1 else 0)
  }

  /** No prefix of the run has more than b of them. */
  predicate Bounded(steps: seq<Step>, b: nat) {
    && Outstanding(After(steps)) <= b
    && (steps != [] ==> Bounded(steps[..|steps| - 1], b))
  }

  /** The step is a callback that fires while another timer or callback is outstanding. */
  predicate FiresEarly(s: System, step: Step) {
    step.Callback? && Enabled(s, step) && CallbackFires(s.d) && Outstanding(s) > 1
  }

  predicate FiresEarlyAt(steps: seq<Step>, i: nat) {
    i < |steps| && FiresEarly(After(steps[..i]), steps[i])
  }

  ghost predicate FiresEarlyIn(steps: seq<Step>) {
    exists i :: FiresEarlyAt(steps, i)
  }

  /** The step is a callback of a started deadline that leaves a positive multiple of 256 others. */
  predicate LeavesMultiple(s: System, step: Step) {
    step.Callback? && Enabled(s, step) && s.d.status == Started && Outstanding(s) > 1 && (Outstanding(s) - 1) % 256 == 0
  }

  predicate LeavesMultipleAt(steps: seq<Step>, i: nat) {
    i < |steps| && LeavesMultiple(After(steps[..i]), steps[i])
  }

  ghost predicate LeavesMultipleIn(steps: seq<Step>) {
    exists i :: LeavesMultipleAt(steps, i)
  }

  /** A timer that is armed while the deadline is not started is armed anew: Set has not stopped it, so
      its arming stays in the count for good. */
  predicate Loses(s: System, step: Step) {
    step == Set(Future) && s.d.timer.Armed? && s.d.status != Started
  }

  function Lost(steps: seq<Step>): nat {
    if steps == [] then 0
    else
      var before := steps[..|steps| - 1];
      Lost(before) + if Loses(After(before), steps[|steps| - 1]) then 1 else 0
  }

  predicate Distinct(ids: seq<nat>) {
    forall i, j | 0 <= i < j < |ids| :: ids[i] != ids[j]
  }

  /** Counting: `pending` is the number of armed timers and callbacks, and a started deadline has one. */
  predicate CountInv(s: System) {
    && s.d.pending == Uint8(Outstanding(s))
    && (s.d.timer.Armed? ==> s.d.status == Started)
    && (s.d.status == Started ==> Outstanding(s) >= 1)
  }

  /** Firing: the latest Set has fired exactly if the deadline is exceeded, and has either its timer
      armed or expired if the deadline is started. */
  predicate FireInv(s: System) {
    && Distinct(s.fired)
    && (forall n | n in s.fired :: n <= s.sets)
    && (s.d.status == Exceeded <==> s.sets in s.fired)
    && (s.d.status == Started ==> s.d.timer.Armed? || s.sets in s.expired)
    && (forall n | n in s.expired :: n <= s.sets)
    && (s.d.timer.Armed? ==> s.sets !in s.expired)
  }

  /** Signalling: the current done channel is closed exactly if the deadline is exceeded, and no channel
      is closed twice. */
  predicate DoneInv(s: System) {
    && (s.d.doneClosed <==> s.d.status == Exceeded)
    && Distinct(s.closings)
    && (forall c | c in s.closings :: c <= s.d.done)
    && (s.d.doneClosed <==> s.d.done in s.closings)
  }

  /** Contexts: one that was handed out is current or its cancel was taken, by exactly one firing. */
  predicate ContextInv(s: System) {
    && Distinct(s.taken)
    && (forall c | c in s.taken :: c < s.d.contexts)
    && (s.d.ctx.Some? ==> s.d.ctx.value < s.d.contexts && s.d.ctx.value !in s.taken && s.d.status != Exceeded)
    && (forall c | c in s.handed :: c in s.taken || s.d.ctx == Some(c))
  }

  lemma AppendDistinct(ids: seq<nat>, id: nat)
    requires Distinct(ids) && id !in ids
    ensures Distinct(ids + [id])
  {}

  /** uint8 arithmetic counts modulo 256. */
  lemma {:induction false} CountModulo(k: nat)
    ensures Uint8(k) < 256
    ensures Inc(Uint8(k)) == Uint8(k + 1)
    ensures k >= 1 ==> Dec(Uint8(k)) == Uint8(k - 1)
    ensures Dec(Inc(Uint8(k))) == Uint8(k)
  {
    if k >= 256 {
      CountModulo(k - 256);
    }
  }

  lemma {:induction false} SetCounted(s: System, when: When, lost: nat)
    requires s.d.pending == Uint8(Outstanding(s) + lost)
    ensures var s' := Next(s, Set(when));
            s'.d.pending == Uint8(Outstanding(s') + lost + if Loses(s, Set(when)) then 1 else 0)
  {
    CountModulo(Outstanding(s) + lost);
    CountModulo(|s.inFlight| + lost);
  }

  /** What a step does to the count, whatever was lost before. */
  lemma {:induction false} NextCounted(s: System, step: Step, lost: nat)
    requires Enabled(s, step) && s.d.pending == Uint8(Outstanding(s) + lost)
    ensures var s' := Next(s, step);
            s'.d.pending == Uint8(Outstanding(s') + lost + if Loses(s, step) then 1 else 0)
  {
    match step {
      case Set(when) => SetCounted(s, when, lost);
      case Expire => assert |s.inFlight + multiset{s.sets}| == |s.inFlight| + 1;
      case Callback(n) =>
        CountModulo(Outstanding(s) + lost);
        assert |s.inFlight - multiset{n}| == |s.inFlight| - 1;
      case GetContext =>
    }
  }

  lemma {:induction false} CallbackCount(s: System, n: nat)
    requires CountInv(s) && n in s.inFlight && !FiresEarly(s, Callback(n))
    ensures CountInv(Next(s, Callback(n)))
  {
    NextCounted(s, Callback(n), 0);
    CountModulo(Outstanding(s));
    assert |s.inFlight - multiset{n}| == |s.inFlight| - 1;
  }

  /** A step that is not an early firing keeps the count right, however much is outstanding. */
  lemma {:induction false} NextCount(s: System, step: Step)
    requires CountInv(s) && Enabled(s, step) && !FiresEarly(s, step)
    ensures CountInv(Next(s, step))
  {
    NextCounted(s, step, 0);
    if step.Callback? {
      CallbackCount(s, step.n);
    }
  }

  lemma SetFire(s: System, when: When)
    requires FireInv(s)
    ensures FireInv(Next(s, Set(when)))
  {
    AppendDistinct(s.fired, s.sets + 1);
  }

  lemma CallbackFire(s: System, n: nat)
    requires FireInv(s) && n in s.inFlight
    ensures FireInv(Next(s, Callback(n)))
  {
    if s.sets !in s.fired {
      AppendDistinct(s.fired, s.sets);
    }
  }

  lemma NextFire(s: System, step: Step)
    requires FireInv(s) && Enabled(s, step)
    ensures FireInv(Next(s, step))
  {
    match step {
      case Set(when) => SetFire(s, when);
      case Callback(n) => CallbackFire(s, n);
      case _ =>
    }
  }

  lemma SetDone(s: System, when: When)
    requires DoneInv(s)
    ensures DoneInv(Next(s, Set(when)))
  {
    if s.d.done !in s.closings {
      AppendDistinct(s.closings, s.d.done);
    }
    AppendDistinct(s.closings, s.d.done + 1);
  }

  lemma CallbackDone(s: System, n: nat)
    requires DoneInv(s) && n in s.inFlight
    ensures DoneInv(Next(s, Callback(n)))
  {
    if s.d.done !in s.closings {
      AppendDistinct(s.closings, s.d.done);
    }
  }

  lemma NextDone(s: System, step: Step)
    requires DoneInv(s) && Enabled(s, step)
    ensures DoneInv(Next(s, step))
  {
    match step {
      case Set(when) => SetDone(s, when);
      case Callback(n) => CallbackDone(s, n);
      case _ =>
    }
  }

  lemma FiringTakesContext(s: System, s': System)
    requires ContextInv(s)
    requires s'.d.contexts == s.d.contexts && s'.d.ctx == None && s'.handed == s.handed
    requires s'.taken == if s.d.ctx.Some? then s.taken + [s.d.ctx.value] else s.taken
    ensures ContextInv(s')
  {
    if s.d.ctx.Some? {
      AppendDistinct(s.taken, s.d.ctx.value);
    }
  }

  lemma NextContext(s: System, step: Step)
    requires ContextInv(s) && Enabled(s, step)
    ensures ContextInv(Next(s, step))
  {
    match step {
      case Set(when) =>
        if when.Past? {
          FiringTakesContext(s, Next(s, step));
        }
      case Callback(_) =>
        if CallbackFires(s.d) {
          FiringTakesContext(s, Next(s, step));
        }
      case _ =>
    }
  }

  /** Firing and signalling do not depend on the count: they hold after every run. */
  lemma {:induction false} SignalInv(steps: seq<Step>)
    ensures FireInv(After(steps)) && DoneInv(After(steps)) && ContextInv(After(steps))
  {
    if steps != [] {
      var s, step := After(steps[..|steps| - 1]), steps[|steps| - 1];
      SignalInv(steps[..|steps| - 1]);
      if Enabled(s, step) {
        NextFire(s, step);
        NextDone(s, step);
        NextContext(s, step);
      }
    }
  }

  // ---- The uint8 counter ----

  lemma {:induction false} Uint8Zero(k: nat)
    ensures Uint8(k) == 0 <==> k % 256 == 0
  {
    if k >= 256 {
      Uint8Zero(k - 256);
      assert k % 256 == (k - 256) % 256;
    }
  }

  lemma {:induction false} CountedRun(steps: seq<Step>)
    ensures After(steps).d.pending == Uint8(Outstanding(After(steps)) + Lost(steps))
  {
    if steps != [] {
      var s, step := After(steps[..|steps| - 1]), steps[|steps| - 1];
      CountedRun(steps[..|steps| - 1]);
      if Enabled(s, step) {
        NextCounted(s, step, Lost(steps[..|steps| - 1]));
      }
    }
  }

  /** After every run, a callback fires exactly if the deadline is started and the others together with
      the lost armings are a multiple of 256. */
  lemma CallbackFiresIff(steps: seq<Step>, n: nat)
    requires n in After(steps).inFlight
    ensures var s := After(steps);
            CallbackFires(s.d) <==> s.d.status == Started && (Outstanding(s) - 1 + Lost(steps)) % 256 == 0
  {
    CountedRun(steps);
    var k := Outstanding(After(steps)) + Lost(steps);
    CountModulo(k);
    Uint8Zero(k - 1);
  }

  lemma {:induction false} PrefixAt(steps: seq<Step>, i: nat)
    requires i < |steps| - 1
    ensures FiresEarlyAt(steps, i) <==> FiresEarlyAt(steps[..|steps| - 1], i)
    ensures LeavesMultipleAt(steps, i) <==> LeavesMultipleAt(steps[..|steps| - 1], i)
  {
    assert steps[..|steps| - 1][..i] == steps[..i];
  }

  lemma {:induction false} EarlyInPrefix(steps: seq<Step>)
    requires steps != []
    ensures FiresEarlyIn(steps) <==> FiresEarlyIn(steps[..|steps| - 1]) || FiresEarlyAt(steps, |steps| - 1)
  {
    var before := steps[..|steps| - 1];
    if i: nat :| FiresEarlyAt(steps, i) && i < |steps| - 1 {
      PrefixAt(steps, i);
    }
    if i: nat :| FiresEarlyAt(before, i) {
      PrefixAt(steps, i);
    }
  }

  lemma {:induction false} MultipleInPrefix(steps: seq<Step>)
    requires steps != []
    ensures LeavesMultipleIn(steps) <==> LeavesMultipleIn(steps[..|steps| - 1]) || LeavesMultipleAt(steps, |steps| - 1)
  {
    var before := steps[..|steps| - 1];
    if i: nat :| LeavesMultipleAt(steps, i) && i < |steps| - 1 {
      PrefixAt(steps, i);
    }
    if i: nat :| LeavesMultipleAt(before, i) {
      PrefixAt(steps, i);
    }
  }

  /** The count is right up to the first early firing of a run. */
  lemma {:induction false} CountUntilEarly(steps: seq<Step>)
    requires !FiresEarlyIn(steps)
    ensures CountInv(After(steps))
  {
    if steps != [] {
      var s, step := After(steps[..|steps| - 1]), steps[|steps| - 1];
      EarlyInPrefix(steps);
      CountUntilEarly(steps[..|steps| - 1]);
      if Enabled(s, step) {
        NextCount(s, step);
      }
    }
  }

  lemma {:induction false} NothingLostUntilEarly(steps: seq<Step>)
    requires !FiresEarlyIn(steps)
    ensures Lost(steps) == 0
  {
    if steps != [] {
      EarlyInPrefix(steps);
      NothingLostUntilEarly(steps[..|steps| - 1]);
      CountUntilEarly(steps[..|steps| - 1]);
    }
  }

  lemma EarlyIsMultiple(s: System, step: Step)
    requires CountInv(s)
    ensures FiresEarly(s, step) <==> LeavesMultiple(s, step)
  {
    if step.Callback? && Enabled(s, step) {
      CountModulo(Outstanding(s));
      Uint8Zero(Outstanding(s) - 1);
    }
  }

  /** Some callback of a run fires early, with another timer or callback still outstanding, if and only if
      some callback of the run leaves a positive multiple of 256 others to a started deadline. */
  lemma {:induction false} FiresEarlyIff(steps: seq<Step>)
    ensures FiresEarlyIn(steps) <==> LeavesMultipleIn(steps)
  {
    if steps != [] {
      var before := steps[..|steps| - 1];
      EarlyInPrefix(steps);
      MultipleInPrefix(steps);
      FiresEarlyIff(before);
      if !FiresEarlyIn(before) {
        CountUntilEarly(before);
        EarlyIsMultiple(After(before), steps[|steps| - 1]);
      }
    }
  }

  lemma {:induction false} BoundedNeverEarly(steps: seq<Step>)
    requires Bounded(steps, 256)
    ensures !FiresEarlyIn(steps)
  {
    if steps != [] {
      var before := steps[..|steps| - 1];
      BoundedNeverEarly(before);
      EarlyInPrefix(steps);
      CountUntilEarly(before);
      assert Outstanding(After(before)) <= 256;
      EarlyIsMultiple(After(before), steps[|steps| - 1]);
    }
  }

  /** With at most 256 outstanding timers and callbacks the count is right after every run. */
  lemma BoundedRunInv(steps: seq<Step>)
    requires Bounded(steps, 256)
    ensures CountInv(After(steps))
  {
    BoundedNeverEarly(steps);
    CountUntilEarly(steps);
  }

  /** A callback fires the deadline only after the timer of the latest Set has expired and every other
      callback has run; that Set had not fired before, and it now has. */
  lemma {:induction false} CallbackFiresInTime(steps: seq<Step>, n: nat)
    requires Bounded(steps, 256) && n in After(steps).inFlight
    ensures var s := After(steps);
            var s' := Next(s, Callback(n));
            && (s'.fired != s.fired <==> s.d.status == Started && !s.d.timer.Armed? && s.inFlight == multiset{n})
            && (s'.fired != s.fired ==>
                  s'.fired == s.fired + [s.sets] && s.sets in s.expired && s.sets !in s.fired && s'.d.status == Exceeded)
  {
    BoundedRunInv(steps);
    SignalInv(steps);
    FiresInTime(After(steps), n);
  }

  lemma {:induction false} FiresInTime(s: System, n: nat)
    requires CountInv(s) && FireInv(s) && Outstanding(s) <= 256 && n in s.inFlight
    ensures var s' := Next(s, Callback(n));
            && (s'.fired != s.fired <==> s.d.status == Started && !s.d.timer.Armed? && s.inFlight == multiset{n})
            && (s'.fired != s.fired ==>
                  s'.fired == s.fired + [s.sets] && s.sets in s.expired && s.sets !in s.fired && s'.d.status == Exceeded)
  {
    CountModulo(Outstanding(s));
    OnlyOne(s.inFlight, n);
  }

  lemma OnlyOne(m: multiset<nat>, n: nat)
    requires n in m
    ensures |m| == 1 <==> m == multiset{n}
  {
    assert m == m - multiset{n} + multiset{n};
    assert |m - multiset{n}| == 0 ==> m - multiset{n} == multiset{};
  }

  /** No deadline is lost without an early firing: when nothing is armed and every callback has run, it is
      not left started. */
  lemma QuiescentIsDecided(steps: seq<Step>)
    requires !FiresEarlyIn(steps)
    requires After(steps).inFlight == multiset{} && !After(steps).d.timer.Armed?
    ensures After(steps).d.status != Started
  {
    CountUntilEarly(steps);
  }

  /** Extending or suspending a deadline that has not expired keeps the current context and channel. */
  lemma {:induction false} ExtendKeepsSignals(steps: seq<Step>, when: When)
    requires After(steps).d.status != Exceeded && !when.Past?
    ensures var s := After(steps);
            var s' := Next(s, Set(when));
            && s'.d.ctx == s.d.ctx && s'.taken == s.taken && s'.d.done == s.d.done && !s'.d.doneClosed
            && Next(s', GetContext).d.ctx == (if s.d.ctx.Some? then s.d.ctx else Some(s.d.contexts))
  {
    SignalInv(steps);
    ExtendKeeps(After(steps), when);
  }

  lemma {:induction false} ExtendKeeps(s: System, when: When)
    requires DoneInv(s) && s.d.status != Exceeded && !when.Past?
    ensures var s' := Next(s, Set(when));
            && s'.d.ctx == s.d.ctx && s'.taken == s.taken && s'.d.done == s.d.done && !s'.d.doneClosed
            && Next(s', GetContext).d.ctx == (if s.d.ctx.Some? then s.d.ctx else Some(s.d.contexts))
  {}

  // ---- What Context answers ----

  function Answer(s: System): Context {
    ContextStep(s.d).1
  }

  /** After every run: the shared cancelled context exactly if the latest Set has fired; otherwise one of
      the object's own that no firing has taken, and that is current and handed out from then on. */
  lemma ContextAnswer(steps: seq<Step>)
    ensures var s := After(steps);
            var s' := Next(s, GetContext);
            && (Answer(s) == SharedExceeded <==> s.sets in s.fired)
            && (s.sets !in s.fired ==>
                  && Answer(s).Own? && Answer(s).id !in s.taken
                  && s'.d.ctx == Some(Answer(s).id) && s'.handed == s.handed + {Answer(s).id})
            && s'.fired == s.fired && s'.taken == s.taken
  {
    SignalInv(steps);
  }

  function Do(s: System, step: Step): System {
    if Enabled(s, step) then Next(s, step) else s
  }

  function RunOn(s: System, more: seq<Step>): System
    decreases |more|
  {
    if more == [] then s else RunOn(Do(s, more[0]), more[1..])
  }

  lemma {:induction false} AfterAppend(steps: seq<Step>, more: seq<Step>)
    ensures After(steps + more) == RunOn(After(steps), more)
    decreases |more|
  {
    if more == [] {
      assert steps + more == steps;
    } else {
      AfterOne(steps, more[0]);
      assert steps + more == (steps + [more[0]]) + more[1..];
      AfterAppend(steps + [more[0]], more[1..]);
    }
  }

  lemma FiredOne(s: System, step: Step)
    ensures s.fired <= Do(s, step).fired
  {}

  lemma {:induction false} FiredGrows(s: System, more: seq<Step>)
    ensures s.fired <= RunOn(s, more).fired
    decreases |more|
  {
    if more != [] {
      FiredOne(s, more[0]);
      FiredGrows(Do(s, more[0]), more[1..]);
    }
  }

  lemma KeepsContext(s: System, step: Step)
    requires s.d.ctx.Some? && s.d.status != Exceeded && Do(s, step).fired == s.fired
    ensures Do(s, step).d.ctx == s.d.ctx && Do(s, step).d.status != Exceeded
  {}

  /** A context that no firing has ended stays current. */
  lemma {:induction false} StaysCurrent(s: System, more: seq<Step>)
    requires s.d.ctx.Some? && s.d.status != Exceeded && RunOn(s, more).fired == s.fired
    ensures RunOn(s, more).d.ctx == s.d.ctx && RunOn(s, more).d.status != Exceeded
    decreases |more|
  {
    if more != [] {
      FiredOne(s, more[0]);
      FiredGrows(Do(s, more[0]), more[1..]);
      KeepsContext(s, more[0]);
      StaysCurrent(Do(s, more[0]), more[1..]);
    }
  }

  /** Two Context calls with no firing between them give the same own context, whatever extends or suspends
      the deadline meanwhile. */
  lemma {:induction false} SameContext(steps: seq<Step>, more: seq<Step>)
    requires var s, s' := After(steps), After(steps + [GetContext] + more); Answer(s).Own? && s'.fired == s.fired
    ensures Answer(After(steps + [GetContext] + more)) == Answer(After(steps))
  {
    AfterOne(steps, GetContext);
    AfterAppend(steps + [GetContext], more);
    StaysCurrent(Next(After(steps), GetContext), more);
  }

  lemma KeepsExceeded(s: System, step: Step)
    requires s.d.status == Exceeded && !step.Set?
    ensures Do(s, step).d.status == Exceeded
  {}

  lemma {:induction false} RunsExceeded(s: System, more: seq<Step>)
    requires s.d.status == Exceeded && forall i | 0 <= i < |more| :: !more[i].Set?
    ensures RunOn(s, more).d.status == Exceeded
    decreases |more|
  {
    if more != [] {
      KeepsExceeded(s, more[0]);
      RunsExceeded(Do(s, more[0]), more[1..]);
    }
  }

  /** Once exceeded, Context answers the shared context until the next Set. */
  lemma {:induction false} StaysExceeded(steps: seq<Step>, more: seq<Step>)
    requires Answer(After(steps)) == SharedExceeded && forall i | 0 <= i < |more| :: !more[i].Set?
    ensures Answer(After(steps + more)) == SharedExceeded
  {
    AfterAppend(steps, more);
    RunsExceeded(After(steps), more);
  }

  // ---- The bound is sharp ----

  /** k deadlines that each expire while their callbacks are held up. */
  function StaleRun(k: nat): seq<Step> {
    if k == 0 then [] else StaleRun(k - 1) + [Set(Future), Expire]
  }

  lemma AfterOne(steps: seq<Step>, step: Step)
    ensures After(steps + [step]) == var s := After(steps); if Enabled(s, step) then Next(s, step) else s
  {
    assert (steps + [step])[..|steps|] == steps;
  }

  /** k Set calls so far, all of them expired and none of their callbacks run. */
  predicate AllStale(s: System, k: nat) {
    && CountInv(s) && !s.d.timer.Armed? && |s.inFlight| == k && s.sets == k
    && (k > 0 ==> s.d.status == Started && 1 in s.inFlight)
    && (forall n | n in s.expired :: n <= k)
  }

  lemma StaleRound(s: System, k: nat)
    requires AllStale(s, k)
    ensures Next(s, Set(Future)).d.timer.Armed?
    ensures AllStale(Next(Next(s, Set(Future)), Expire), k + 1)
  {
    NextCount(s, Set(Future));
    NextCount(Next(s, Set(Future)), Expire);
    assert |s.inFlight + multiset{k + 1}| == k + 1;
  }

  lemma {:induction false} AfterStaleRun(k: nat)
    ensures AllStale(After(StaleRun(k)), k)
  {
    if k > 0 {
      AfterStaleRun(k - 1);
      var before := StaleRun(k - 1);
      assert StaleRun(k) == before + [Set(Future)] + [Expire];
      AfterOne(before, Set(Future));
      AfterOne(before + [Set(Future)], Expire);
      StaleRound(After(before), k - 1);
    }
  }

  lemma {:induction false} StaleRunBounded(k: nat, b: nat)
    requires k <= b
    ensures Bounded(StaleRun(k), b)
  {
    if k > 0 {
      StaleRunBounded(k - 1, b);
      AfterStaleRun(k - 1);
      AfterStaleRun(k);
      var before := StaleRun(k - 1);
      assert StaleRun(k) == before + [Set(Future)] + [Expire];
      AfterOne(before, Set(Future));
      BoundedOne(before, Set(Future), b);
      BoundedOne(before + [Set(Future)], Expire, b);
    }
  }

  lemma BoundedOne(steps: seq<Step>, step: Step, b: nat)
    requires Bounded(steps, b) && Outstanding(After(steps + [step])) <= b
    ensures Bounded(steps + [step], b)
  {
    assert (steps + [step])[..|steps|] == steps;
  }

  /** 256 late callbacks, and a Set whose timer is armed. */
  function LateRun(): seq<Step> {
    StaleRun(256) + [Set(Future)]
  }

  lemma AfterLateRun()
    ensures var s := After(LateRun());
            && CountInv(s) && Outstanding(s) == 257 && |s.inFlight| == 256 && 1 in s.inFlight
            && s.d.timer.Armed? && s.sets !in s.expired && CallbackFires(s.d)
  {
    AfterStaleRun(256);
    AfterOne(StaleRun(256), Set(Future));
    NextCount(After(StaleRun(256)), Set(Future));
    CountModulo(257);
    assert Uint8(257) == 1;
  }

  /** With 256 late callbacks the next Set is reported as exceeded while its timer is still armed. */
  lemma FiresEarlyAt257()
    ensures var s := After(LateRun());
            && Outstanding(s) == 257 && 1 in s.inFlight && s.d.timer.Armed? && s.sets !in s.expired
            && Next(s, Callback(1)).d.status == Exceeded
  {
    AfterLateRun();
  }

  lemma LateRunFiresEarly(b: nat)
    requires b >= 257
    ensures Bounded(LateRun() + [Callback(1)], b) && FiresEarlyIn(LateRun() + [Callback(1)])
  {
    var steps := LateRun() + [Callback(1)];
    AfterLateRun();
    StaleRunBounded(256, b);
    BoundedOne(StaleRun(256), Set(Future), b);
    AfterOne(LateRun(), Callback(1));
    var s := After(LateRun());
    assert |s.inFlight - multiset{1}| == 255;
    BoundedOne(LateRun(), Callback(1), b);
    assert steps[..|LateRun()|] == LateRun();
    assert FiresEarlyAt(steps, |LateRun()|);
  }

  lemma {:induction false} BoundedWider(steps: seq<Step>, b: nat, b': nat)
    requires Bounded(steps, b) && b <= b'
    ensures Bounded(steps, b')
  {
    if steps != [] {
      BoundedWider(steps[..|steps| - 1], b, b');
    }
  }

  /** A bound on the outstanding timers and callbacks keeps every run from firing early if and only if it
      is at most 256. */
  lemma BoundIsSafeIff(b: nat)
    ensures (forall steps | Bounded(steps, b) :: !FiresEarlyIn(steps)) <==> b <= 256
  {
    if b <= 256 {
      forall steps | Bounded(steps, b)
        ensures !FiresEarlyIn(steps)
      {
        BoundedWider(steps, b, 256);
        BoundedNeverEarly(steps);
      }
    } else {
      LateRunFiresEarly(b);
    }
  }

  /** An early firing with the timer armed, and a Set that arms it again. */
  lemma SetAfterEarly(s: System, n: nat)
    requires n in s.inFlight && s.d.timer.Armed? && CallbackFires(s.d) && Outstanding(s) == 257
    ensures var s' := Next(Next(s, Callback(n)), Set(Future));
            s'.d.pending == 1 && s'.d.status == Started && s'.d.timer.Armed? && Outstanding(s') == 256
    ensures Loses(Next(s, Callback(n)), Set(Future))
  {
    assert |s.inFlight - multiset{n}| == |s.inFlight| - 1;
  }

  lemma WrongAt256(s: System)
    requires s.d.pending == 1 && s.d.status == Started && Outstanding(s) == 256
    ensures !CountInv(s)
    ensures forall n | n in s.inFlight :: FiresEarly(s, Callback(n)) && !LeavesMultiple(s, Callback(n))
  {
    assert Uint8(256) == 0;
  }

  /** The count stays wrong after an early firing: once the timer that is still armed is set again, a
      callback fires with 255 others outstanding, although it leaves no multiple of 256. */
  lemma {:induction false} CountStaysWrong()
    ensures var steps := LateRun() + [Callback(1)] + [Set(Future)];
            var s := After(steps);
            && Lost(steps) == 1 && Outstanding(s) == 256 && !CountInv(s)
            && forall n | n in s.inFlight :: FiresEarly(s, Callback(n)) && !LeavesMultiple(s, Callback(n))
  {
    var fired := LateRun() + [Callback(1)];
    AfterLateRun();
    AfterOne(LateRun(), Callback(1));
    AfterOne(fired, Set(Future));
    SetAfterEarly(After(LateRun()), 1);
    WrongAt256(After(fired + [Set(Future)]));
    LateRunLosesNothing();
    LostOne(LateRun(), Callback(1));
    LostOne(fired, Set(Future));
  }

  lemma {:induction false} LostOne(steps: seq<Step>, step: Step)
    ensures Lost(steps + [step]) == Lost(steps) + if Loses(After(steps), step) then 1 else 0
  {
    assert (steps + [step])[..|steps|] == steps;
  }

  lemma {:induction false} LateRunLosesNothing()
    ensures Lost(LateRun()) == 0
  {
    StaleRunBounded(256, 256);
    BoundedNeverEarly(StaleRun(256));
    NothingLostUntilEarly(StaleRun(256));
    AfterStaleRun(256);
    LostOne(StaleRun(256), Set(Future));
  }
}
