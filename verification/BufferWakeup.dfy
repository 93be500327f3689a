/** The wake-up protocol of the packet queue (packetio/buffer.go): any number of readers and writers
    interleave at the mutex and at the capacity-one `notify` channel. */
module BufferWakeup {
  import opened PacketFormat
  import opened PacketBuffer

  /** Where a reader stands inside Read: about to lock the mutex, with `woken` set when it got there by
      receiving a token, or waiting in the select. */
  datatype Reader = AtLock(woken: bool) | Waiting

  /** The queue, the readers inside Read, and the history: the packets written and delivered so far,
      and whether some read returned EOF. */
  datatype System = System(view: View, readers: map<int, Reader>,
                           written: seq<Packet>, delivered: seq<Packet>, eof: bool)

  datatype Step =
    | DoWrite(p: Packet)
    | DoClose
    | DoLimits(count: int, size: int)
    | Enter(r: int)
    | Lock(r: int)
    | Receive(r: int)
    | GiveUp(r: int)

  predicate Enabled(s: System, step: Step) {
    match step
    case Enter(r) => r !in s.readers
    case Lock(r) => r in s.readers && s.readers[r].AtLock?
    case Receive(r) => r in s.readers && s.readers[r].Waiting? && (s.view.notify || s.view.closed)
    case GiveUp(r) => r in s.readers && s.readers[r].Waiting?
    case _ => true
  }

  /** A reader that holds the mutex leaves Read with a packet or EOF, or goes to wait. */
  function LockStep(s: System, r: int): System {
    var (view', result) := ReadStep(s.view);
    match result
    case Got(p) => s.(view := view', readers := s.readers - {r}, delivered := s.delivered + [p])
    case Eof => s.(readers := s.readers - {r}, eof := true)
    case Wait => s.(readers := s.readers[r := Waiting])
  }

  /** A receive takes the token if there is one; otherwise the channel is closed. */
  function Next(hard: bool, s: System, step: Step): System
    requires Enabled(s, step)
  {
    match step
    case DoWrite(p) =>
      var (view', result) := WriteStep(hard, s.view, p);
      s.(view := view', written := if result.Written? then s.written + [p] else s.written)
    case DoClose => s.(view := s.view.(closed := true))
    case DoLimits(count, size) => s.(view := s.view.(limitCount := count, limitSize := size))
    case Enter(r) => s.(readers := s.readers[r := AtLock(false)])
    case Lock(r) => LockStep(s, r)
    case Receive(r) =>
      s.(view := s.view.(notify := false), readers := s.readers[r := AtLock(s.view.notify)])
    case GiveUp(r) => s.(readers := s.readers - {r})
  }

  function Start(): System {
    System(View([], false, false, 0, 0), map[], [], [], false)
  }

  /** The state after a run; a step that is not enabled when its turn comes does nothing. */
  function After(hard: bool, steps: seq<Step>): System {
    if steps == [] then Start()
    else
      var s, step := After(hard, steps[..|steps| - 1]), steps[|steps| - 1];
      if Enabled(s, step) then Next(hard, s, step) else s
  }

  predicate Woken(s: System, r: int) {
    r in s.readers && s.readers[r] == AtLock(true)
  }

  /** While packets wait in an open queue, a token is queued or a woken reader is on its way. */
  ghost predicate WakeupPending(s: System) {
    !s.view.closed && s.view.queue != [] ==> s.view.notify || exists r :: Woken(s, r)
  }

  ghost predicate Inv(s: System) {
    && WakeupPending(s)
    && s.written == s.delivered + s.view.queue
    && (s.eof ==> s.view.closed && s.view.queue == [])
  }

  lemma NextKeepsWakeup(hard: bool, s: System, step: Step)
    requires WakeupPending(s) && Enabled(s, step)
    ensures WakeupPending(Next(hard, s, step))
  {
    var s' := Next(hard, s, step);
    if !s'.view.closed && s'.view.queue != [] && !s'.view.notify {
      if step.Receive? {
        assert Woken(s', step.r);
      } else {
        var w :| Woken(s, w);
        assert Woken(s', w);
      }
    }
  }

  lemma NextKeepsHistory(hard: bool, s: System, step: Step)
    requires Inv(s) && Enabled(s, step)
    ensures var s' := Next(hard, s, step);
            && s'.written == s'.delivered + s'.view.queue
            && (s'.eof ==> s'.view.closed && s'.view.queue == [])
  {
    if step.Lock? && s.view.queue != [] {
      assert s.view.queue == [s.view.queue[0]] + s.view.queue[1..];
    }
  }

  /** In every interleaving of readers, writers, timeouts, limit changes and close: wake-ups are never
      lost, packets come out in the order they were written with none lost or repeated, and EOF is
      returned only from a closed, drained queue. */
  lemma {:induction false} AlwaysInv(hard: bool, steps: seq<Step>)
    ensures Inv(After(hard, steps))
  {
    if steps != [] {
      var s, step := After(hard, steps[..|steps| - 1]), steps[|steps| - 1];
      AlwaysInv(hard, steps[..|steps| - 1]);
      if Enabled(s, step) {
        NextKeepsWakeup(hard, s, step);
        NextKeepsHistory(hard, s, step);
      }
    }
  }

  /** No packet is stranded: when a reader waits while packets are queued or after close, at most two
      steps of readers end some read, delivering the next packet or reporting EOF. */
  lemma WaitingReaderIsServed(hard: bool, steps: seq<Step>, r: int)
    returns (wake: Step, finish: Step)
    requires var s := After(hard, steps);
             && r in s.readers && s.readers[r].Waiting?
             && (s.view.queue != [] || s.view.closed)
    ensures (wake.Receive? && wake.r == r) || wake == finish
    ensures finish.Lock?
    ensures var s := After(hard, steps);
            && Enabled(s, wake)
            && var s1 := if wake == finish then s else Next(hard, s, wake);
               && Enabled(s1, finish)
               && var s2 := Next(hard, s1, finish);
                  && finish.r !in s2.readers
                  && if s.view.queue != [] then s2.delivered == s.delivered + [s.view.queue[0]] else s2.eof
  {
    AlwaysInv(hard, steps);
    var s := After(hard, steps);
    if s.view.notify || s.view.closed {
      wake, finish := Receive(r), Lock(r);
    } else {
      var w :| Woken(s, w);
      wake, finish := Lock(w), Lock(w);
    }
  }

  /** A reader leaves Read exactly when it gives up, or finds a packet or a closed queue under the lock; a reader
      that finds neither waits. */
  lemma LeavesExactly(hard: bool, s: System, step: Step, r: int)
    requires Enabled(s, step) && r in s.readers
    ensures var s' := Next(hard, s, step);
            && (r !in s'.readers <==> step == GiveUp(r) || (step == Lock(r) && (s.view.queue != [] || s.view.closed)))
            && (step == Lock(r) && r in s'.readers ==> s'.readers[r].Waiting? && s'.view == s.view)
            && (step == Lock(r) && r !in s'.readers ==>
                  if s.view.queue != [] then s'.delivered == s.delivered + [s.view.queue[0]] else s'.eof)
  {}

  /** Once some read returned EOF, no later step of a run delivers or accepts a packet. */
  lemma {:induction false} EofIsFinal(hard: bool, steps: seq<Step>, more: seq<Step>)
    requires After(hard, steps).eof
    ensures var s, s' := After(hard, steps), After(hard, steps + more);
            s'.eof && s'.delivered == s.delivered && s'.written == s.written
  {
    if more == [] {
      assert steps + more == steps;
    } else {
      EofIsFinal(hard, steps, more[..|more| - 1]);
      assert (steps + more)[..|steps + more| - 1] == steps + more[..|more| - 1];
      AlwaysInv(hard, steps + more[..|more| - 1]);
    }
  }

  // ---- The limits ----

  function Larger(a: int, b: int): int {
    if a < b then b else a
  }

  /** The queue is within the limits, or no larger than it was. */
  predicate WithinOr(hard: bool, view: View, count: nat, size: nat) {
    && (view.limitCount > 0 ==> |view.queue| <= Larger(view.limitCount, count))
    && TotalSize(view.queue) <=
       Larger(size, if view.limitSize <= 0 || (hard && view.limitSize >= 4194304) then 4194303 else view.limitSize)
  }

  lemma SmallerTail(queue: seq<Packet>)
    requires queue != []
    ensures TotalSize(queue[1..]) <= TotalSize(queue)
  {}

  lemma NextWithin(hard: bool, s: System, step: Step, count: nat, size: nat)
    requires WithinOr(hard, s.view, count, size) && Enabled(s, step) && !step.DoLimits?
    ensures var view := Next(hard, s, step).view;
            && WithinOr(hard, view, count, size)
            && view.limitCount == s.view.limitCount && view.limitSize == s.view.limitSize
  {
    match step {
      case DoWrite(p) => WriteExactly(hard, s.view, p);
      case Lock(_) =>
        if s.view.queue != [] {
          SmallerTail(s.view.queue);
        }
      case _ =>
    }
  }

  lemma AfterOne(hard: bool, steps: seq<Step>, step: Step)
    ensures After(hard, steps + [step]) == var s := After(hard, steps); if Enabled(s, step) then Next(hard, s, step) else s
  {
    assert (steps + [step])[..|steps|] == steps;
  }

  /** From a change of the limits to the next one, the queue never holds more packets or bytes than the limits
      allow, or than it held when they were changed. */
  lemma {:induction false} LimitsHold(hard: bool, steps: seq<Step>, count: int, size: int, more: seq<Step>)
    requires forall i | 0 <= i < |more| :: !more[i].DoLimits?
    ensures var was, view := After(hard, steps).view.queue, After(hard, steps + [DoLimits(count, size)] + more).view;
            && view.limitCount == count && view.limitSize == size
            && WithinOr(hard, view, |was|, TotalSize(was))
  {
    var limited := steps + [DoLimits(count, size)];
    AfterOne(hard, steps, DoLimits(count, size));
    if more == [] {
      assert limited + more == limited;
    } else {
      var before, step := more[..|more| - 1], more[|more| - 1];
      assert limited + more == (limited + before) + [step];
      LimitsHold(hard, steps, count, size, before);
      AfterOne(hard, limited + before, step);
      var was, s := After(hard, steps).view.queue, After(hard, limited + before);
      if Enabled(s, step) {
        NextWithin(hard, s, step, |was|, TotalSize(was));
      }
    }
  }

  /** So a buffer whose limits are set once, before it is used, always keeps them. */
  lemma {:induction false} LimitsAlwaysHold(hard: bool, count: int, size: int, more: seq<Step>)
    requires forall i | 0 <= i < |more| :: !more[i].DoLimits?
    ensures var view := After(hard, [DoLimits(count, size)] + more).view;
            Within(hard, count, size, view.queue)
  {
    LimitsHold(hard, [], count, size, more);
    assert [] + [DoLimits(count, size)] + more == [DoLimits(count, size)] + more;
  }

  // ---- Close and the tokens ----

  /** The buffer is closed exactly if the run closed it. */
  lemma {:induction false} ClosedIff(hard: bool, steps: seq<Step>)
    ensures After(hard, steps).view.closed <==> DoClose in steps
  {
    if steps != [] {
      var before, step := steps[..|steps| - 1], steps[|steps| - 1];
      ClosedIff(hard, before);
      assert steps == before + [step];
      var s := After(hard, before);
      if Enabled(s, step) {
        ClosedOne(hard, s, step);
      }
    }
  }

  lemma ClosedOne(hard: bool, s: System, step: Step)
    requires Enabled(s, step)
    ensures Next(hard, s, step).view.closed <==> s.view.closed || step == DoClose
    ensures step == DoClose ==> Next(hard, s, step).view.(closed := s.view.closed) == s.view
  {}

  /** The step wakes a reader of an open buffer. */
  predicate Wakes(s: System, step: Step) {
    step.Receive? && Enabled(s, step) && !s.view.closed
  }

  /** The step posts a token: a packet is queued, or a reader leaves packets behind in an open buffer. */
  predicate Posts(hard: bool, s: System, step: Step) {
    || (step.DoWrite? && |step.p.payload| <= 65535 && !s.view.closed &&
        Within(hard, s.view.limitCount, s.view.limitSize, s.view.queue + [step.p]))
    || (step.Lock? && Enabled(s, step) && |s.view.queue| > 1 && !s.view.closed)
  }

  /** A reader counts as woken only through a token it has taken. */
  lemma WokenByToken(hard: bool, s: System, step: Step, r: int)
    requires Enabled(s, step) && Woken(Next(hard, s, step), r) && !Woken(s, r)
    ensures step == Receive(r) && s.view.notify
  {}

  function WakeCount(hard: bool, steps: seq<Step>): nat {
    if steps == [] then 0
    else
      var before := steps[..|steps| - 1];
      WakeCount(hard, before) + if Wakes(After(hard, before), steps[|steps| - 1]) then 1 else 0
  }

  function PostCount(hard: bool, steps: seq<Step>): nat {
    if steps == [] then 0
    else
      var before := steps[..|steps| - 1];
      PostCount(hard, before) + if Posts(hard, After(hard, before), steps[|steps| - 1]) then 1 else 0
  }

  lemma TokenOne(hard: bool, s: System, step: Step)
    requires Enabled(s, step)
    ensures var s' := Next(hard, s, step);
            (if s'.view.notify then 1 else 0) + (if Wakes(s, step) then 1 else 0) <=
            (if s.view.notify then 1 else 0) + (if Posts(hard, s, step) then 1 else 0)
    ensures !s.view.notify && Posts(hard, s, step) ==> Next(hard, s, step).view.notify
  {
    if step.DoWrite? {
      WriteExactly(hard, s.view, step.p);
    }
  }

  /** Each token wakes at most one reader: in every run the wake-ups of an open buffer and the queued token
      together are no more than the tokens posted. */
  lemma {:induction false} TokensWakeOnce(hard: bool, steps: seq<Step>)
    ensures WakeCount(hard, steps) + (if After(hard, steps).view.notify then 1 else 0) <= PostCount(hard, steps)
  {
    if steps != [] {
      var before, step := steps[..|steps| - 1], steps[|steps| - 1];
      TokensWakeOnce(hard, before);
      var s := After(hard, before);
      if Enabled(s, step) {
        TokenOne(hard, s, step);
      }
    }
  }
}
