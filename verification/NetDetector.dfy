/** The change detector (netchange/detector.go): one Check at a time refreshes the snapshot and waits. What
    the operating system answers during a round of the loop is a parameter. */
module NetDetector {
  import opened NetState
  import opened NetDiff

  /** The result of the first Check: still to be delivered, or delivered. */
  datatype Initial = Ready(changes: seq<Change>) | Delivered

  /** `hasSource` tells native notifications from polling. */
  datatype Det = Det(hasSource: bool, checking: bool, closed: bool, pending: bool, initial: Initial, last: seq<Iface>)

  datatype Enumerated = EnumFails | Interfaces(s: seq<Iface>)

  datatype WaitResult = WaitDone | WaitFails

  /** One pass of Check's loop: where the context turns out cancelled, what the notification source and
      the enumeration answer, and how the wait ends. */
  datatype Round = Round(cancelledAtTop: bool, notified: bool, drainFails: bool, cancelledAfterDrain: bool,
                         found: Enumerated, cancelledAfterEnum: bool, wait: WaitResult)

  predicate RoundOk(r: Round) {
    r.found.Interfaces? ==> UniqueIndices(r.found.s)
  }

  datatype Outcome = Report(changes: seq<Change>) | Error | StillWaiting

  /** A notification that was read, or may have been, is remembered. */
  function Drained(d: Det, notified: bool, fails: bool): Det {
    if d.hasSource then d.(pending := d.pending || notified || fails) else d
  }

  /** A snapshot is applied; only this forgets a notification. */
  function Applied(d: Det, filter: Filter, s: seq<Iface>): (Det, seq<Change>) {
    var next := Normal(s, filter);
    (d.(pending := false, last := next), Diff(d.last, next))
  }

  function Waits(d: Det): Det {
    if d.hasSource then d.(pending := true) else d
  }

  function RefreshStep(d: Det, filter: Filter, r: Round): (Det, Outcome) {
    var d := Drained(d, r.notified, r.drainFails);
    if d.hasSource && r.drainFails then (d, Error)
    else if d.hasSource && !d.pending then (d, Report([]))
    else if r.cancelledAfterDrain || r.cancelledAfterEnum || r.found.EnumFails? then (d, Error)
    else
      var (d', changes) := Applied(d, filter, r.found.s);
      (d', Report(changes))
  }

  function RoundStep(d: Det, filter: Filter, r: Round): (Det, Outcome) {
    if r.cancelledAtTop then (d, Error)
    else if d.initial.Ready? then (d.(initial := Delivered), Report(d.initial.changes))
    else
      var (d, out) := RefreshStep(d, filter, r);
      if out != Report([]) then (d, out)
      else if r.wait.WaitFails? then (Waits(d), Error)
      else (Waits(d), StillWaiting)
  }

  function CheckRun(d: Det, filter: Filter, rounds: seq<Round>): (Det, Outcome)
    decreases |rounds|
  {
    if rounds == [] then (d, StillWaiting)
    else
      var (d, out) := RoundStep(d, filter, rounds[0]);
      if out.StillWaiting? then CheckRun(d, filter, rounds[1..]) else (d, out)
  }

  /** The answers to a Check that does not get into the loop. */
  datatype Begun = Started | ErrClosed | ErrBusy | ErrCancelled

  function BeginStep(d: Det, cancelled: bool): (Det, Begun) {
    if d.closed then (d, ErrClosed)
    else if d.checking then (d, ErrBusy)
    else if cancelled then (d, ErrCancelled)
    else (d.(checking := true), Started)
  }

  function CloseStep(d: Det): (Det, Begun) {
    if d.closed then (d, ErrClosed)
    else if d.checking then (d, ErrBusy)
    else (d.(closed := true, last := []), Started)
  }

  function StartStep(d: Det, filter: Filter, first: seq<Iface>): Det {
    var next := Normal(first, filter);
    d.(initial := Ready(Diff(d.last, next)), last := next)
  }

  class Detector {
    const hasSource: bool
    var checking: bool
    var closed: bool
    var pending: bool
    var initial: Initial
    const state: StateDetector

    ghost predicate Valid()
      reads this, state
    {
      Sorted(state.last)
    }

    ghost function View(): Det
      reads this, state
    {
      Det(hasSource, checking, closed, pending, initial, state.last)
    }

    constructor (source: bool, filter: Filter)
      ensures Valid() && fresh(state) && state.interfaceFilter == filter
      ensures View() == Det(source, false, false, false, Delivered, [])
    {
      hasSource, checking, closed, pending, initial := source, false, false, false, Delivered;
      state := new StateDetector(filter);
    }

    /** The detector starts from a first snapshot, whose interfaces the first Check reports as added; if
        that snapshot cannot be taken there is no detector. */
    method Start(found: Enumerated) returns (ok: bool)
      requires Valid() && (found.Interfaces? ==> UniqueIndices(found.s))
      modifies this`initial, state
      ensures Valid() && ok == found.Interfaces?
      ensures ok ==> View() == StartStep(old(View()), state.interfaceFilter, found.s)
    {
      if found.EnumFails? {
        return false;
      }
      var changes := state.Update(found.s);
      initial := Ready(changes);
      return true;
    }

    method Refresh(r: Round) returns (out: Outcome)
      requires Valid() && RoundOk(r)
      modifies this`pending, state
      ensures Valid() && (View(), out) == RefreshStep(old(View()), state.interfaceFilter, r)
    {
      if hasSource {
        pending := pending || r.notified || r.drainFails;
        if r.drainFails {
          return Error;
        }
        if !pending {
          return Report([]);
        }
      }
      if r.cancelledAfterDrain {
        return Error;
      }
      if r.cancelledAfterEnum {
        return Error;
      }
      if r.found.EnumFails? {
        return Error;
      }
      pending := false;
      var changes := state.Update(r.found.s);
      return Report(changes);
    }

    method Wait(r: Round) returns (failed: bool)
      requires Valid()
      modifies this`pending
      ensures Valid() && View() == Waits(old(View())) && failed == r.wait.WaitFails?
    {
      if hasSource {
        pending := true;
      }
      return r.wait.WaitFails?;
    }

    /** The loop of Check, for as many rounds as are given. */
    method CheckLoop(rounds: seq<Round>) returns (out: Outcome)
      requires Valid() && forall i | 0 <= i < |rounds| :: RoundOk(rounds[i])
      modifies this`pending, this`initial, state
      ensures Valid() && (View(), out) == CheckRun(old(View()), state.interfaceFilter, rounds)
    {
      ghost var filter := state.interfaceFilter;
      var i := 0;
      while i < |rounds|
        invariant 0 <= i <= |rounds| && Valid()
        invariant CheckRun(View(), filter, rounds[i..]) == CheckRun(old(View()), filter, rounds)
      {
        var r := rounds[i];
        assert rounds[i..][0] == r && rounds[i..][1..] == rounds[i + 1..];
        if r.cancelledAtTop {
          return Error;
        }
        if initial.Ready? {
          out := Report(initial.changes);
          initial := Delivered;
          return;
        }
        out := Refresh(r);
        if out != Report([]) {
          return;
        }
        var failed := Wait(r);
        if failed {
          return Error;
        }
        i := i + 1;
      }
      out := StillWaiting;
    }

    method Begin(cancelled: bool) returns (b: Begun)
      requires Valid()
      modifies this`checking
      ensures Valid() && (View(), b) == BeginStep(old(View()), cancelled)
    {
      if closed {
        return ErrClosed;
      }
      if checking {
        return ErrBusy;
      }
      if cancelled {
        return ErrCancelled;
      }
      checking := true;
      return Started;
    }

    method Finish()
      requires Valid()
      modifies this`checking
      ensures Valid() && View() == old(View()).(checking := false)
    {
      checking := false;
    }

    method Close() returns (b: Begun)
      requires Valid()
      modifies this`closed, state
      ensures Valid() && (View(), b) == CloseStep(old(View()))
    {
      if closed {
        return ErrClosed;
      }
      if checking {
        return ErrBusy;
      }
      closed := true;
      state.last := [];
      return Started;
    }
  }

  lemma RefreshReports(d: Det, filter: Filter, r: Round)
    requires Sorted(d.last) && RoundOk(r)
    ensures var (d', out) := RefreshStep(d, filter, r);
            && Sorted(d'.last) && d'.initial == d.initial
            && (out.Report? ==> out.changes == Diff(d.last, d'.last) && (out.changes == [] <==> d'.last == d.last))
            && (!out.Report? ==> d'.last == d.last)
  {
    DiffEmptyIff(d.last, d.last);
    if r.found.Interfaces? {
      NormalIsSorted(r.found.s, filter);
      DiffEmptyIff(d.last, Normal(r.found.s, filter));
    }
  }

  /** However many silent rounds a Check goes through: after the first one, a report is the difference
      between the snapshot of the previous report and the newest one, and is not empty; without a report
      the snapshot is as it was. */
  lemma {:induction false} CheckReportsDifference(d: Det, filter: Filter, rounds: seq<Round>)
    requires Sorted(d.last) && forall i | 0 <= i < |rounds| :: RoundOk(rounds[i])
    requires d.initial.Delivered?
    ensures var (d', out) := CheckRun(d, filter, rounds);
            && Sorted(d'.last) && d'.initial.Delivered?
            && if out.Report? then out.changes == Diff(d.last, d'.last) && out.changes != [] && d'.last != d.last
               else d'.last == d.last
    decreases |rounds|
  {
    if rounds != [] {
      RefreshReports(d, filter, rounds[0]);
      var (d1, out) := RoundStep(d, filter, rounds[0]);
      if out.StillWaiting? {
        CheckReportsDifference(d1, filter, rounds[1..]);
      }
    }
  }
}
