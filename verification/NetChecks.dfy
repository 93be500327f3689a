/** Each Check of a run is the loop of the change detector (netchange/detector.go): the steps that it takes
    between changes of the network are rounds of that loop. */
module NetChecks {
  import opened NetState
  import opened NetDetector
  import opened NetRuns

  /** A Check that has returned: the detector before and after it, its rounds, and what it returned. */
  datatype Check = Check(begun: Det, rounds: seq<Round>, ended: Det, out: Outcome)

  /** A system with the history of its Checks: those that have returned, and for the one in progress the
      detector it began with, its silent rounds, and what the present round has met so far. */
  datatype Traced = Traced(s: System, done: seq<Check>, begun: Det, rounds: seq<Round>, now: Round)

  /** A round that has met nothing yet. */
  function Blank(): Round {
    Round(false, false, false, false, EnumFails, false, WaitDone)
  }

  /** What the step adds to the present round. */
  function Meets(s: System, now: Round, step: Step): Round {
    match step
    case AtTop(cancelled) => Blank().(cancelledAtTop := cancelled)
    case Drain(n, fails) => now.(notified := n > 0, drainFails := fails)
    case CancelAfterDrain => now.(cancelledAfterDrain := true)
    case Enumerate => now.(found := Interfaces(s.world))
    case EnumerateFails => now.(found := EnumFails)
    case Apply(cancelled) => now.(cancelledAfterEnum := cancelled)
    case EndWait(_, fails) => now.(wait := if fails then WaitFails else WaitDone)
    case _ => now
  }

  /** What Check returned, if the step made it return. */
  function Returned(s: System, s': System): Outcome {
    if |s'.reports| > |s.reports| then Report(s'.reports[|s.reports|]) else Error
  }

  function TracedNext(filter: Filter, t: Traced, step: Step): Traced
    requires Enabled(t.s, step)
  {
    var s' := Next(filter, t.s, step);
    var now := Meets(t.s, t.now, step);
    if t.s.pc.Outside? then
      if s'.pc.Outside? then t.(s := s') else t.(s := s', begun := s'.d, rounds := [], now := Blank())
    else if s'.pc.Outside? then
      t.(s := s', done := t.done + [Check(t.begun, t.rounds + [now], s'.d.(checking := true), Returned(t.s, s'))])
    else if step.EndWait? then t.(s := s', rounds := t.rounds + [now], now := Blank())
    else t.(s := s', now := now)
  }

  function TracedStart(start: System): Traced {
    Traced(start, [], start.d, [], Blank())
  }

  function TracedAfter(filter: Filter, start: System, steps: seq<Step>): Traced
    decreases |steps|
  {
    if steps == [] then TracedStart(start)
    else
      var t, step := TracedAfter(filter, start, steps[..|steps| - 1]), steps[|steps| - 1];
      if Enabled(t.s, step) then TracedNext(filter, t, step) else t
  }

  /** The history does not change what happens. */
  lemma {:induction false} TracedIsRun(filter: Filter, start: System, steps: seq<Step>)
    ensures TracedAfter(filter, start, steps).s == After(filter, start, steps)
    decreases |steps|
  {
    if steps != [] {
      TracedIsRun(filter, start, steps[..|steps| - 1]);
    }
  }

  // ---- The Check in progress ----

  /** The round has read the notifications and goes on to the interfaces. */
  predicate PastDrain(d0: Det, d: Det, now: Round) {
    && d0.initial.Delivered? && !now.cancelledAtTop && !now.cancelledAfterDrain
    && d == Drained(d0, now.notified, now.drainFails)
    && (d.hasSource ==> !now.drainFails && d.pending)
  }

  /** Where the Check in progress stands, against the round function. */
  predicate Tracks(filter: Filter, t: Traced) {
    t.s.pc.Outside? ||
    var (d0, out) := CheckRun(t.begun, filter, t.rounds);
    && out.StillWaiting?
    && match t.s.pc
       case Outside => true
       case Top => t.s.d == d0
       case BeforeDrain => t.s.d == d0 && d0.initial.Delivered? && t.now == Blank()
       case BeforeEnum => PastDrain(d0, t.s.d, t.now)
       case AfterEnum(seen) => PastDrain(d0, t.s.d, t.now) && t.now.found == Interfaces(seen)
       case Waiting =>
         && d0.initial.Delivered? && !t.now.cancelledAtTop
         && RefreshStep(d0, filter, t.now).1 == Report([]) && t.s.d == Waits(RefreshStep(d0, filter, t.now).0)
  }

  predicate CheckOk(filter: Filter, c: Check) {
    CheckRun(c.begun, filter, c.rounds) == (c.ended, c.out) && !c.out.StillWaiting?
  }

  /** One more round after silent ones. */
  lemma {:induction false} CheckRunOneMore(d: Det, filter: Filter, rounds: seq<Round>, r: Round)
    requires CheckRun(d, filter, rounds).1.StillWaiting?
    ensures CheckRun(d, filter, rounds + [r]) == RoundStep(CheckRun(d, filter, rounds).0, filter, r)
    decreases |rounds|
  {
    if rounds == [] {
      assert (rounds + [r])[1..] == [];
    } else {
      assert (rounds + [r])[1..] == rounds[1..] + [r];
      CheckRunOneMore(RoundStep(d, filter, rounds[0]).0, filter, rounds[1..], r);
    }
  }

  /** A step inside the loop that does not end the round. */
  lemma GoesOn(filter: Filter, t: Traced, step: Step)
    requires Tracks(filter, t) && Enabled(t.s, step) && !t.s.pc.Outside? && t.s.d.checking && !step.EndWait?
    requires !Next(filter, t.s, step).pc.Outside?
    ensures Tracks(filter, TracedNext(filter, t, step))
  {}

  lemma EndsRound(filter: Filter, t: Traced, step: Step)
    requires Tracks(filter, t) && Enabled(t.s, step) && step.EndWait?
    requires !Next(filter, t.s, step).pc.Outside?
    ensures Tracks(filter, TracedNext(filter, t, step))
  {
    CheckRunOneMore(t.begun, filter, t.rounds, Meets(t.s, t.now, step));
  }

  /** A step makes Check return, and the loop returns the same in its last round. */
  predicate ReturnsAlike(filter: Filter, t: Traced, step: Step)
    requires Enabled(t.s, step)
  {
    var s' := Next(filter, t.s, step);
    CheckOk(filter, Check(t.begun, t.rounds + [Meets(t.s, t.now, step)], s'.d.(checking := true), Returned(t.s, s')))
  }

  lemma ApplyReturns(filter: Filter, t: Traced, step: Step)
    requires Tracks(filter, t) && Enabled(t.s, step) && step.Apply? && t.s.d.checking
    requires Next(filter, t.s, step).pc.Outside?
    ensures ReturnsAlike(filter, t, step)
  {
    CheckRunOneMore(t.begun, filter, t.rounds, Meets(t.s, t.now, step));
  }

  lemma OtherReturns(filter: Filter, t: Traced, step: Step)
    requires Tracks(filter, t) && Enabled(t.s, step) && !step.Apply? && !t.s.pc.Outside? && t.s.d.checking
    requires Next(filter, t.s, step).pc.Outside?
    ensures ReturnsAlike(filter, t, step)
  {
    CheckRunOneMore(t.begun, filter, t.rounds, Meets(t.s, t.now, step));
  }

  predicate TraceInv(filter: Filter, t: Traced) {
    && Tracks(filter, t) && PendingInv(filter, t.s)
    && forall i | 0 <= i < |t.done| :: CheckOk(filter, t.done[i])
  }

  lemma NextTrace(filter: Filter, t: Traced, step: Step)
    requires TraceInv(filter, t) && Enabled(t.s, step)
    ensures TraceInv(filter, TracedNext(filter, t, step))
  {
    NextPending(filter, t.s, step);
    if !t.s.pc.Outside? {
      if Next(filter, t.s, step).pc.Outside? {
        if step.Apply? {
          ApplyReturns(filter, t, step);
        } else {
          OtherReturns(filter, t, step);
        }
      } else if step.EndWait? {
        EndsRound(filter, t, step);
      } else {
        GoesOn(filter, t, step);
      }
    }
  }

  /** In every run, whatever the network does meanwhile, each Check that has returned did what the loop
      does: its rounds lead from the detector it began with to the one it left, and to what it returned. */
  lemma {:induction false} ChecksFollowLoop(filter: Filter, hasSource: bool, world: seq<Iface>, queued: nat, steps: seq<Step>)
    requires UniqueIndices(world)
    ensures var t := TracedAfter(filter, Start(filter, hasSource, world, queued), steps);
            TraceInv(filter, t) && t.s == After(filter, Start(filter, hasSource, world, queued), steps)
    decreases |steps|
  {
    var start := Start(filter, hasSource, world, queued);
    TracedIsRun(filter, start, steps);
    if steps == [] {
      StartInv(filter, hasSource, world, queued);
    } else {
      var t, step := TracedAfter(filter, start, steps[..|steps| - 1]), steps[|steps| - 1];
      ChecksFollowLoop(filter, hasSource, world, queued, steps[..|steps| - 1]);
      if Enabled(t.s, step) {
        NextTrace(filter, t, step);
      }
    }
  }
}
