/** The deadline object (deadline/deadline.go). */
module Deadlines {
  import opened Options

  datatype Status = Suspended | Started | Exceeded

  /** The argument of Set, seen against the clock: the zero time, a time still to come, or one that has
      passed. */
  datatype When = Never | Future | Past

  /** A context handed out: the shared, already cancelled one, or one of the object's own. */
  datatype Context = SharedExceeded | Own(id: nat)

  datatype Timer = NoTimer | Idle | Armed

  /** The object's state. The done channels and the contexts are numbered in the order they are made;
      `pending` is a uint8. */
  datatype Deadline = Deadline(status: Status, pending: nat, timer: Timer,
                               done: nat, doneClosed: bool, ctx: Option<nat>, contexts: nat)

  function Fresh(): Deadline {
    Deadline(Suspended, 0, NoTimer, 0, false, None, 0)
  }

  /** Go's uint8 conversion. */
  function Uint8(k: nat): nat {
    if k < 256 then k else Uint8(k - 256)
  }

  /** `pending--` and `pending++` on a uint8. */
  function Dec(pending: nat): nat {
    if pending == 0 then 255 else pending - 1
  }

  function Inc(pending: nat): nat {
    if pending == 255 then 0 else pending + 1
  }

  /** Marks the deadline as exceeded; the context to cancel is handed to the caller. */
  function Fire(d: Deadline): (Deadline, Option<nat>) {
    (d.(status := Exceeded, doneClosed := true, ctx := None), d.ctx)
  }

  /** A timer callback: it fires only if it is the last one outstanding. */
  function TimeoutStep(d: Deadline): (Deadline, Option<nat>) {
    var d' := d.(pending := Dec(d.pending));
    if d'.pending != 0 || d.status != Started then (d', None) else Fire(d')
  }

  /** Set, given whether it has stopped the timer; what becomes of the timer itself is not part of it. */
  function SetWith(d: Deadline, stopped: bool, when: When): (Deadline, Option<nat>) {
    var d := if stopped then d.(pending := Dec(d.pending)) else d;
    var d := d.(pending := Inc(d.pending));
    var d := if d.status == Exceeded then d.(done := d.done + 1, doneClosed := false) else d;
    match when
    case Never => (d.(pending := Dec(d.pending), status := Suspended), None)
    case Future => (d.(status := Started), None)
    case Past => Fire(d.(pending := Dec(d.pending)))
  }

  function SetStep(d: Deadline, when: When): (Deadline, Option<nat>) {
    var stopped := d.status == Started && d.timer.Armed?;
    var (d', cancel) := SetWith(d, stopped, when);
    (d'.(timer := if when.Future? then Armed else if stopped then Idle else d.timer), cancel)
  }

  function ContextStep(d: Deadline): (Deadline, Context) {
    if d.status == Exceeded then (d, SharedExceeded)
    else if d.ctx.None? then (d.(ctx := Some(d.contexts), contexts := d.contexts + 1), Own(d.contexts))
    else (d, Own(d.ctx.value))
  }

  /** The contract of a timer made by afterFunc. */
  class TimerObject {
    var armed: bool

    constructor ()
      ensures armed
    {
      armed := true;
    }

    method Stop() returns (stopped: bool)
      modifies this
      ensures stopped == old(armed) && !armed
    {
      stopped := armed;
      armed := false;
    }

    method Reset()
      modifies this
      ensures armed
    {
      armed := true;
    }
  }

  class DeadlineObject {
    var timer: TimerObject?
    var done: nat
    var doneClosed: bool
    var ctx: Option<nat>
    var contexts: nat
    var status: Status
    var pending: nat

    /** A started deadline has a timer, and the current done channel is closed exactly when exceeded. */
    ghost predicate Valid()
      reads this
    {
      && pending < 256
      && (status == Started ==> timer != null)
      && (doneClosed <==> status == Exceeded)
    }

    ghost function View(): Deadline
      reads this, timer
    {
      Deadline(status, pending, if timer == null then NoTimer else if timer.armed then Armed else Idle,
               done, doneClosed, ctx, contexts)
    }

    constructor ()
      ensures Valid() && View() == Fresh()
    {
      timer, done, doneClosed, ctx, contexts, status, pending := null, 0, false, None, 0, Suspended, 0;
    }

    /** Closing a closed channel would panic. */
    method CloseDone()
      requires !doneClosed
      modifies this`doneClosed
      ensures doneClosed
    {
      doneClosed := true;
    }

    method DoFire() returns (cancel: Option<nat>)
      requires pending < 256 && !doneClosed
      modifies this`status, this`doneClosed, this`ctx
      ensures Valid() && (View(), cancel) == Fire(old(View()))
    {
      status := Exceeded;
      CloseDone();
      cancel := ctx;
      ctx := None;
    }

    method Timeout() returns (cancel: Option<nat>)
      requires Valid()
      modifies this
      ensures Valid() && timer == old(timer) && (View(), cancel) == TimeoutStep(old(View()))
    {
      pending := Dec(pending);
      if pending != 0 || status != Started {
        return None;
      }
      cancel := DoFire();
    }

    method Set(when: When) returns (cancel: Option<nat>)
      requires Valid()
      modifies this, timer
      ensures Valid() && (View(), cancel) == SetStep(old(View()), when)
      ensures timer == old(timer) || (old(timer) == null && timer != null && fresh(timer))
    {
      if status == Started {
        var stopped := timer.Stop();
        if stopped {
          pending := Dec(pending);
        }
      }
      pending := Inc(pending);
      if status == Exceeded {
        done, doneClosed := done + 1, false;
      }
      match when {
        case Never =>
          pending := Dec(pending);
          status := Suspended;
          return None;
        case Future =>
          status := Started;
          if timer == null {
            timer := new TimerObject();
          } else {
            timer.Reset();
          }
          return None;
        case Past =>
          pending := Dec(pending);
          cancel := DoFire();
      }
    }

    method GetContext() returns (c: Context)
      requires Valid()
      modifies this`ctx, this`contexts
      ensures Valid() && (View(), c) == ContextStep(old(View()))
    {
      if status == Exceeded {
        return SharedExceeded;
      }
      if ctx.None? {
        ctx, contexts := Some(contexts), contexts + 1;
      }
      return Own(ctx.value);
    }

    /** Err reports the exceeded state, which is also what a closed done channel means. */
    method Err() returns (exceeded: bool)
      requires Valid()
      ensures exceeded <==> View().doneClosed
    {
      return status == Exceeded;
    }
  }
}
