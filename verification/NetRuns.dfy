/** Every interleaving of the change detector with a changing network (netchange/detector.go): the
    interfaces change at any moment and each change queues a notification; Check calls are cancelled or
    fail anywhere. */
module NetRuns {
  import opened NetState
  import opened NetDiff
  import opened NetDetector

  /** Where the Check in progress stands: not there, at the top of the loop, before the drain, before and
      after the enumeration, or waiting. */
  datatype Pc = Outside | Top | BeforeDrain | BeforeEnum | AfterEnum(seen: seq<Iface>) | Waiting

  /** `world` are the interfaces as they are, `queued` the unread notifications. The history holds the
      reports given and the snapshots they lead through, beginning with the empty one. */
  datatype System = System(d: Det, world: seq<Iface>, queued: nat, pc: Pc,
                           reports: seq<seq<Change>>, snaps: seq<seq<Iface>>)

  datatype Step =
    | WorldChanges(world: seq<Iface>)
    | Begin(cancelled: bool) | AtTop(cancelled: bool)
    | Drain(n: nat, fails: bool) | CancelAfterDrain
    | Enumerate | EnumerateFails | Apply(cancelled: bool)
    | EndWait(n: nat, fails: bool)
    | DoClose

  predicate Enabled(s: System, step: Step) {
    match step
    case WorldChanges(world) => UniqueIndices(world)
    case Begin(_) => true
    case AtTop(_) => s.pc.Top?
    case Drain(n, _) => s.pc.BeforeDrain? && n <= s.queued && (!s.d.hasSource ==> n == 0)
    case CancelAfterDrain => s.pc.BeforeEnum?
    case Enumerate => s.pc.BeforeEnum?
    case EnumerateFails => s.pc.BeforeEnum?
    case Apply(_) => s.pc.AfterEnum?
    case EndWait(n, _) => s.pc.Waiting? && n <= s.queued && (!s.d.hasSource ==> n == 0)
    case DoClose => true
  }

  /** Check returns. */
  function Leave(s: System, d: Det): System {
    s.(d := d.(checking := false), pc := Outside)
  }

  function LeaveWith(s: System, d: Det, changes: seq<Change>): System {
    Leave(s, d).(reports := s.reports + [changes], snaps := s.snaps + [d.last])
  }

  /** A notification is read either by the drain or by the wait; n of them are. */
  function DrainStep(s: System, n: nat, fails: bool): System
    requires n <= s.queued
  {
    var d := Drained(s.d, n > 0, fails);
    var s := s.(queued := s.queued - n);
    if d.hasSource && fails then Leave(s, d)
    else if d.hasSource && !d.pending then s.(d := Waits(d), pc := Waiting)
    else s.(d := d, pc := BeforeEnum)
  }

  function ApplyStep(filter: Filter, s: System, cancelled: bool): System
    requires s.pc.AfterEnum?
  {
    if cancelled then Leave(s, s.d)
    else
      var (d, changes) := Applied(s.d, filter, s.pc.seen);
      if changes != [] then LeaveWith(s, d, changes) else s.(d := Waits(d), pc := Waiting)
  }

  function Next(filter: Filter, s: System, step: Step): System
    requires Enabled(s, step)
  {
    match step
    case WorldChanges(world) => s.(world := world, queued := s.queued + 1)
    case Begin(cancelled) =>
      var (d, begun) := BeginStep(s.d, cancelled);
      if begun.Started? then s.(d := d, pc := Top) else s
    case AtTop(cancelled) =>
      if cancelled then Leave(s, s.d)
      else if s.d.initial.Ready? then LeaveWith(s, s.d.(initial := Delivered), s.d.initial.changes)
      else s.(pc := BeforeDrain)
    case Drain(n, fails) => DrainStep(s, n, fails)
    case CancelAfterDrain => Leave(s, s.d)
    case Enumerate => s.(pc := AfterEnum(s.world))
    case EnumerateFails => Leave(s, s.d)
    case Apply(cancelled) => ApplyStep(filter, s, cancelled)
    case EndWait(n, fails) =>
      var s := s.(queued := s.queued - n);
      if fails then Leave(s, s.d) else s.(pc := Top)
    case DoClose => s.(d := CloseStep(s.d).0)
  }

  /** A detector that has just been started on the world as it is; a notification may already be queued. */
  function Start(filter: Filter, hasSource: bool, world: seq<Iface>, queued: nat): System {
    System(StartStep(Det(hasSource, false, false, false, Delivered, []), filter, world), world, queued, Outside, [], [[]])
  }

  function After(filter: Filter, start: System, steps: seq<Step>): System
    decreases |steps|
  {
    if steps == [] then start
    else
      var s, step := After(filter, start, steps[..|steps| - 1]), steps[|steps| - 1];
      if Enabled(s, step) then Next(filter, s, step) else s
  }

  // ---- Nothing is lost ----

  /** If the snapshot is out of date, a notification is queued or remembered. */
  predicate Noticed(filter: Filter, s: System) {
    Normal(s.world, filter) != s.d.last ==> s.queued > 0 || s.d.pending
  }

  predicate PendingInv(filter: Filter, s: System) {
    && UniqueIndices(s.world) && Sorted(s.d.last)
    && (s.d.checking <==> !s.pc.Outside?)
    && (s.d.closed ==> s.pc.Outside?)
    && (s.pc.AfterEnum? ==> UniqueIndices(s.pc.seen))
    && (s.d.hasSource && !s.d.closed ==>
          && Noticed(filter, s)
          && (s.pc.BeforeEnum? || s.pc.AfterEnum? || s.pc.Waiting? ==> s.d.pending)
          && (s.pc.AfterEnum? && s.pc.seen != s.world ==> s.queued > 0))
  }

  lemma NextPending(filter: Filter, s: System, step: Step)
    requires PendingInv(filter, s) && Enabled(s, step)
    ensures PendingInv(filter, Next(filter, s, step))
  {
    if step.Apply? {
      NormalIsSorted(s.pc.seen, filter);
    }
  }

  // ---- Nothing is reported twice ----

  /** The reports are the differences along the snapshots; the last of these is the current one; and
      only the first report may be empty. */
  predicate ReportInv(s: System) {
    && |s.snaps| == |s.reports| + 1 && s.snaps[0] == []
    && (forall i | 0 <= i < |s.reports| :: s.reports[i] == Diff(s.snaps[i], s.snaps[i + 1]))
    && (forall i | 0 < i < |s.reports| :: s.reports[i] != [])
    && match s.d.initial
       case Ready(changes) => s.reports == [] && (!s.d.closed ==> changes == Diff([], s.d.last)) && !s.pc.BeforeDrain?
                              && !s.pc.BeforeEnum? && !s.pc.AfterEnum? && !s.pc.Waiting?
       case Delivered => s.reports != [] && (!s.d.closed ==> s.snaps[|s.reports|] == s.d.last)
  }

  lemma ReportAppends(s: System, d: Det, changes: seq<Change>)
    requires ReportInv(s) && d.initial.Delivered? && changes == Diff(s.snaps[|s.reports|], d.last)
    requires s.reports != [] ==> changes != []
    ensures ReportInv(LeaveWith(s, d, changes))
  {}

  lemma NextReport(filter: Filter, s: System, step: Step)
    requires PendingInv(filter, s) && ReportInv(s) && Enabled(s, step)
    ensures ReportInv(Next(filter, s, step))
  {
    match step {
      case AtTop(cancelled) =>
        if !cancelled && s.d.initial.Ready? {
          ReportAppends(s, s.d.(initial := Delivered), s.d.initial.changes);
        }
      case Apply(cancelled) =>
        if !cancelled {
          NormalIsSorted(s.pc.seen, filter);
          var (d, changes) := Applied(s.d, filter, s.pc.seen);
          DiffEmptyIff(s.d.last, d.last);
          if changes != [] {
            ReportAppends(s, d, changes);
          }
        }
      case _ =>
    }
  }

  lemma StartInv(filter: Filter, hasSource: bool, world: seq<Iface>, queued: nat)
    requires UniqueIndices(world)
    ensures PendingInv(filter, Start(filter, hasSource, world, queued)) && ReportInv(Start(filter, hasSource, world, queued))
  {
    NormalIsSorted(world, filter);
  }

  lemma KeepsSource(filter: Filter, s: System, step: Step)
    requires Enabled(s, step)
    ensures Next(filter, s, step).d.hasSource == s.d.hasSource
  {}

  lemma {:induction false} RunInv(filter: Filter, hasSource: bool, world: seq<Iface>, queued: nat, steps: seq<Step>)
    requires UniqueIndices(world)
    ensures var s := After(filter, Start(filter, hasSource, world, queued), steps);
            PendingInv(filter, s) && ReportInv(s) && s.d.hasSource == hasSource
    decreases |steps|
  {
    if steps == [] {
      StartInv(filter, hasSource, world, queued);
    } else {
      var before := steps[..|steps| - 1];
      RunInv(filter, hasSource, world, queued, before);
      var s, step := After(filter, Start(filter, hasSource, world, queued), before), steps[|steps| - 1];
      if Enabled(s, step) {
        NextPending(filter, s, step);
        NextReport(filter, s, step);
        KeepsSource(filter, s, step);
      }
    }
  }

  function OneMore(filter: Filter, s: System, step: Step): System {
    if Enabled(s, step) then Next(filter, s, step) else s
  }

  /** A Check that nothing disturbs, up to the point where it has read the interfaces. */
  function CheckUpToEnum(filter: Filter, s: System): System {
    var s1 := OneMore(filter, s, Begin(false));
    var s2 := OneMore(filter, s1, AtTop(false));
    var s3 := OneMore(filter, s2, Drain(if s2.d.hasSource then s2.queued else 0, false));
    OneMore(filter, s3, Enumerate)
  }

  lemma CheckGetsThrough(filter: Filter, s: System)
    requires PendingInv(filter, s) && !s.d.closed && s.pc.Outside? && s.d.initial.Delivered?
    requires Normal(s.world, filter) != s.d.last
    ensures var s' := CheckUpToEnum(filter, s);
            && s'.pc == AfterEnum(s.world) && s'.d.last == s.d.last && s'.d.initial.Delivered?
            && s'.reports == s.reports && s'.snaps == s.snaps
  {}

  lemma CheckReportsChange(filter: Filter, s: System)
    requires PendingInv(filter, s) && ReportInv(s) && !s.d.closed && s.pc.Outside? && s.d.initial.Delivered?
    requires Normal(s.world, filter) != s.d.last
    ensures var s' := OneMore(filter, CheckUpToEnum(filter, s), Apply(false));
            s'.reports == s.reports + [Diff(s.snaps[|s.reports|], Normal(s.world, filter))]
  {
    NormalIsSorted(s.world, filter);
    DiffEmptyIff(s.d.last, Normal(s.world, filter));
    CheckGetsThrough(filter, s);
  }

  /** No change is lost over any run with cancelled, failed and silent refreshes, with native notifications
      or polling: while the detector is open, whenever the monitored interfaces differ from the last applied snapshot, the next
      undisturbed Check reports exactly the difference to the last report; with notifications, one is
      queued or `pending` is set. */
  lemma {:induction false} ChangeIsReported(filter: Filter, hasSource: bool, world: seq<Iface>, queued: nat, steps: seq<Step>, s: System)
    requires UniqueIndices(world) && s == After(filter, Start(filter, hasSource, world, queued), steps)
    requires !s.d.closed && Normal(s.world, filter) != s.d.last
    ensures hasSource ==> s.queued > 0 || s.d.pending
    ensures |s.snaps| == |s.reports| + 1
    ensures s.pc.Outside? && s.d.initial.Delivered? ==>
              var s' := OneMore(filter, CheckUpToEnum(filter, s), Apply(false));
              s'.reports == s.reports + [Diff(s.snaps[|s.reports|], Normal(s.world, filter))]
  {
    RunInv(filter, hasSource, world, queued, steps);
    if s.pc.Outside? && s.d.initial.Delivered? {
      CheckReportsChange(filter, s);
    }
  }

  /** The reports of a run add up: each is the difference of two successive snapshots, and the last of
      these is what the detector holds. So no change is reported twice. */
  lemma ReportsAddUp(filter: Filter, hasSource: bool, world: seq<Iface>, queued: nat, steps: seq<Step>)
    requires UniqueIndices(world)
    ensures var s := After(filter, Start(filter, hasSource, world, queued), steps);
            && |s.snaps| == |s.reports| + 1 && s.snaps[0] == []
            && (forall i | 0 <= i < |s.reports| :: s.reports[i] == Diff(s.snaps[i], s.snaps[i + 1]))
            && (s.d.initial.Delivered? && !s.d.closed ==> s.snaps[|s.reports|] == s.d.last)
            && (forall i | 0 < i < |s.reports| :: s.reports[i] != [])
  {
    RunInv(filter, hasSource, world, queued, steps);
  }

  // ---- Close ----

  /** What Check and Close answer after every run: closed if it is, busy exactly while another Check is
      active, and cancelled only for a Check that could have begun. */
  lemma AnswersExactly(filter: Filter, hasSource: bool, world: seq<Iface>, queued: nat, steps: seq<Step>, cancelled: bool)
    requires UniqueIndices(world)
    ensures var s := After(filter, Start(filter, hasSource, world, queued), steps);
            var (begun, closed) := (BeginStep(s.d, cancelled).1, CloseStep(s.d).1);
            if s.d.closed then begun == closed == ErrClosed && s.pc.Outside?
            else if !s.pc.Outside? then begun == closed == ErrBusy
            else begun == (if cancelled then ErrCancelled else Started) && closed == Started
  {
    RunInv(filter, hasSource, world, queued, steps);
  }

  /** A Close that is not refused closes; one that is refused changes nothing. */
  lemma CloseCloses(filter: Filter, hasSource: bool, world: seq<Iface>, queued: nat, steps: seq<Step>)
    requires UniqueIndices(world)
    ensures var s := After(filter, Start(filter, hasSource, world, queued), steps);
            var s' := Next(filter, s, DoClose);
            if s.d.closed || !s.pc.Outside? then s' == s
            else s'.d.closed && s'.d.last == [] && s' == s.(d := s'.d) && s'.reports == s.reports
  {
    RunInv(filter, hasSource, world, queued, steps);
  }

  lemma ClosedStep(filter: Filter, s: System, step: Step)
    requires PendingInv(filter, s) && s.d.closed && Enabled(s, step)
    ensures var s' := Next(filter, s, step); s'.d == s.d && s'.pc == s.pc && s'.reports == s.reports
  {}

  lemma {:induction false} ClosedReportsNothing(filter: Filter, hasSource: bool, world: seq<Iface>, queued: nat, steps: seq<Step>, more: seq<Step>)
    requires UniqueIndices(world) && After(filter, Start(filter, hasSource, world, queued), steps).d.closed
    ensures var start := Start(filter, hasSource, world, queued);
            var s, s' := After(filter, start, steps), After(filter, start, steps + more);
            s'.d == s.d && s'.reports == s.reports
  {
    if more == [] {
      assert steps + more == steps;
    } else {
      var start, before := Start(filter, hasSource, world, queued), steps + more[..|more| - 1];
      assert (steps + more)[..|steps + more| - 1] == before;
      ClosedReportsNothing(filter, hasSource, world, queued, steps, more[..|more| - 1]);
      RunInv(filter, hasSource, world, queued, before);
      var s, step := After(filter, start, before), more[|more| - 1];
      if Enabled(s, step) {
        ClosedStep(filter, s, step);
      }
    }
  }

  // ---- How a Check ends ----

  /** Cancelled anywhere, or failed, a Check returns without a report, the snapshot stays as it was, and a
      notification that it has read is remembered. */
  lemma EndsWithoutReport(filter: Filter, s: System, step: Step)
    requires PendingInv(filter, s) && Enabled(s, step)
    requires step == AtTop(true) || step == CancelAfterDrain || step == EnumerateFails || step == Apply(true) ||
             (step.Drain? && step.fails && s.d.hasSource) || (step.EndWait? && step.fails)
    ensures var s' := Next(filter, s, step);
            && s'.pc.Outside? && !s'.d.checking && s'.reports == s.reports && s'.d.last == s.d.last
            && s'.d.initial == s.d.initial && (s.d.pending ==> s'.d.pending) && (step.Drain? ==> s'.d.pending)
  {}

  /** Also a Check that has waited returns if it is cancelled before it goes on. */
  lemma CancelledAfterWait(filter: Filter, s: System, n: nat)
    requires PendingInv(filter, s) && Enabled(s, EndWait(n, false))
    ensures var s' := Next(filter, s, EndWait(n, false));
            && Enabled(s', AtTop(true)) && Next(filter, s', AtTop(true)).pc.Outside?
            && Next(filter, s', AtTop(true)).reports == s.reports
  {}

  /** The first Check reports what the detector was started with, at once, and does not report it again. */
  lemma FirstCheckReports(filter: Filter, hasSource: bool, world: seq<Iface>, queued: nat, steps: seq<Step>)
    requires UniqueIndices(world)
    ensures var s := After(filter, Start(filter, hasSource, world, queued), steps);
            var s' := OneMore(filter, OneMore(filter, s, Begin(false)), AtTop(false));
            s.pc.Outside? && !s.d.closed && s.reports == [] ==>
              s'.reports == [Diff([], Normal(world, filter))] && s'.pc.Outside? && s'.d.initial.Delivered?
  {
    RunInv(filter, hasSource, world, queued, steps);
    InitialStays(filter, hasSource, world, queued, steps);
  }

  lemma InitialStep(filter: Filter, s: System, step: Step)
    requires ReportInv(s) && PendingInv(filter, s) && Enabled(s, step) && Next(filter, s, step).reports == []
    ensures s.reports == [] && Next(filter, s, step).d.initial == s.d.initial
  {}

  lemma {:induction false} InitialStays(filter: Filter, hasSource: bool, world: seq<Iface>, queued: nat, steps: seq<Step>)
    requires UniqueIndices(world)
    ensures var s := After(filter, Start(filter, hasSource, world, queued), steps);
            s.reports == [] ==> s.d.initial == Ready(Diff([], Normal(world, filter)))
    decreases |steps|
  {
    if steps != [] {
      var before := steps[..|steps| - 1];
      InitialStays(filter, hasSource, world, queued, before);
      RunInv(filter, hasSource, world, queued, before);
      var s, step := After(filter, Start(filter, hasSource, world, queued), before), steps[|steps| - 1];
      if Enabled(s, step) && Next(filter, s, step).reports == [] {
        InitialStep(filter, s, step);
      }
    }
  }

  /** Applying a snapshot answers the notifications that were read: after a report none is pending. */
  lemma ReportClearsPending(filter: Filter, s: System)
    requires PendingInv(filter, s) && s.pc.AfterEnum?
    ensures var s' := Next(filter, s, Apply(false));
            s'.pc.Outside? ==> !s'.d.pending && s'.d.last == Normal(s.pc.seen, filter)
  {}

  /** So with native notifications a Check that meets none waits without reading the interfaces. */
  lemma QuietCheckWaits(filter: Filter, s: System)
    requires PendingInv(filter, s) && s.pc.Outside? && !s.d.closed && s.d.initial.Delivered?
    requires s.d.hasSource && !s.d.pending
    ensures var s' := OneMore(filter, OneMore(filter, OneMore(filter, s, Begin(false)), AtTop(false)), Drain(0, false));
            s'.pc.Waiting? && s'.d.last == s.d.last && s'.reports == s.reports
  {}

  // ---- The notifications ----

  /** The notifications that a step reads. */
  function Reads(s: System, step: Step): nat {
    if !Enabled(s, step) then 0
    else
      match step
      case Drain(n, _) => n
      case EndWait(n, _) => n
      case _ => 0
  }

  predicate Notifies(s: System, step: Step) {
    step.WorldChanges? && Enabled(s, step)
  }

  function ReadCount(filter: Filter, start: System, steps: seq<Step>): nat {
    if steps == [] then 0
    else
      var before := steps[..|steps| - 1];
      ReadCount(filter, start, before) + Reads(After(filter, start, before), steps[|steps| - 1])
  }

  function NotifyCount(filter: Filter, start: System, steps: seq<Step>): nat {
    if steps == [] then 0
    else
      var before := steps[..|steps| - 1];
      NotifyCount(filter, start, before) + if Notifies(After(filter, start, before), steps[|steps| - 1]) then 1 else 0
  }

  lemma QueueOne(filter: Filter, s: System, step: Step)
    requires Enabled(s, step)
    ensures Next(filter, s, step).queued + Reads(s, step) == s.queued + if Notifies(s, step) then 1 else 0
  {}

  /** Each notification is read once. */
  lemma {:induction false} NotificationsReadOnce(filter: Filter, start: System, steps: seq<Step>)
    ensures After(filter, start, steps).queued + ReadCount(filter, start, steps) ==
            start.queued + NotifyCount(filter, start, steps)
    decreases |steps|
  {
    if steps != [] {
      var s := After(filter, start, steps[..|steps| - 1]);
      NotificationsReadOnce(filter, start, steps[..|steps| - 1]);
      if Enabled(s, steps[|steps| - 1]) {
        QueueOne(filter, s, steps[|steps| - 1]);
      }
    }
  }
}
