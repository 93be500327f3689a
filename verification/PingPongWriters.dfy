/** What becomes of the messages given to a batching connection (udp/batchconn.go, EnqueueMessage): while it is
    open, each is accepted or its writer still tries, and can always get through. */
module PingPongWriters {
  import opened MessageBatches
  import opened PingPongCore
  import opened PingPongRuns

  function Do(size: nat, s: System, step: Step): System {
    if Enabled(s, step) then Next(size, s, step) else s
  }

  // ---- No message is given up ----

  /** How often a step brings the message x. */
  function Brought(s: System, step: Step, x: Msg): nat {
    if step.Arrive? && Enabled(s, step) && step.m == x then 1 else 0
  }

  /** How often the message x arrives in a run. */
  function Arrived(size: nat, s: System, steps: seq<Step>, x: Msg): nat
    decreases |steps|
  {
    if steps == [] then 0
    else Brought(s, steps[0], x) + Arrived(size, Do(size, s, steps[0]), steps[1..], x)
  }

  function Occurs(ms: seq<Msg>, x: Msg): nat {
    if ms == [] then 0 else Occurs(ms[..|ms| - 1], x) + if ms[|ms| - 1] == x then 1 else 0
  }

  lemma OccursAppend(ms: seq<Msg>, m: Msg, x: Msg)
    ensures Occurs(ms + [m], x) == Occurs(ms, x) + if m == x then 1 else 0
  {
    assert (ms + [m])[..|ms|] == ms;
  }

  function Holds(w: Writer, x: Msg): nat {
    if Waiting(w) && w.m == x then 1 else 0
  }

  ghost function Pick(ws: map<int, Writer>): (w: int)
    requires exists w :: w in ws
    ensures w in ws
  {
    var w :| w in ws;
    w
  }

  /** How many writers still try to store the message x. */
  ghost function Held(ws: map<int, Writer>, x: Msg): nat
    decreases |ws.Keys|
  {
    if !exists w :: w in ws then 0
    else
      var w := Pick(ws);
      Smaller(ws, w);
      Holds(ws[w], x) + Held(ws - {w}, x)
  }

  lemma Smaller(ws: map<int, Writer>, w: int)
    requires w in ws
    ensures |(ws - {w}).Keys| < |ws.Keys|
  {
    assert (ws - {w}).Keys == ws.Keys - {w};
  }

  lemma {:induction false} HeldWithout(ws: map<int, Writer>, w: int, x: Msg)
    requires w in ws
    ensures Held(ws, x) == Holds(ws[w], x) + Held(ws - {w}, x)
    decreases |ws.Keys|
  {
    var v := Pick(ws);
    if v != w {
      Smaller(ws, v);
      Smaller(ws, w);
      HeldWithout(ws - {v}, w, x);
      HeldWithout(ws - {w}, v, x);
      assert (ws - {v}) - {w} == (ws - {w}) - {v};
    }
  }

  lemma {:induction false} HeldPut(ws: map<int, Writer>, w: int, y: Writer, x: Msg)
    ensures Held(ws[w := y], x) == Holds(y, x) + Held(ws - {w}, x)
  {
    HeldWithout(ws[w := y], w, x);
    assert ws[w := y] - {w} == ws - {w};
  }

  lemma {:induction false} HeldNew(ws: map<int, Writer>, w: int, y: Writer, x: Msg)
    requires w !in ws
    ensures Held(ws[w := y], x) == Holds(y, x) + Held(ws, x)
  {
    HeldPut(ws, w, y, x);
    assert ws - {w} == ws;
  }

  /** How often the message x was accepted or is still being tried. */
  ghost function Accounted(s: System, x: Msg): nat {
    Occurs(s.accepted, x) + Held(s.writers, x)
  }

  /** What a try leaves: the message stored, nothing to store, or the writer blocked. */
  lemma TryOutcome(size: nat, s: System, w: int)
    requires Enabled(s, Try(w))
    ensures var s', m := WriterTry(size, s, w), s.writers[w].m;
            || (w in s'.writers && s'.writers == s.writers[w := Blocked(m, s.core.swapChan)] && s'.accepted == s.accepted)
            || ((s'.writers == s.writers - {w} || s'.writers == s.writers[w := Signalling]) &&
                s'.accepted == if m.payload == [] then s.accepted else s.accepted + [m])
  {}

  lemma {:induction false} TryKeepsMessage(size: nat, s: System, w: int, x: Msg)
    requires Enabled(s, Try(w)) && x.payload != []
    ensures Accounted(WriterTry(size, s, w), x) == Accounted(s, x)
  {
    TryOutcome(size, s, w);
    HeldWithout(s.writers, w, x);
    HeldPut(s.writers, w, Signalling, x);
    HeldPut(s.writers, w, Blocked(s.writers[w].m, s.core.swapChan), x);
    OccursAppend(s.accepted, s.writers[w].m, x);
  }

  lemma {:induction false} WriterKeepsMessage(size: nat, s: System, step: Step, x: Msg)
    requires Enabled(s, step) && !s.closed && (step.Wake? || step.Recheck? || step.Signal?)
    ensures Accounted(Next(size, s, step), x) == Accounted(s, x)
  {
    var w := step.w;
    HeldWithout(s.writers, w, x);
    match step {
      case Wake(_) => HeldPut(s.writers, w, Rechecking(s.writers[w].m), x);
      case Recheck(_) => HeldPut(s.writers, w, Trying(s.writers[w].m), x);
      case Signal(_) =>
    }
  }

  lemma OthersKeepWriters(size: nat, s: System, step: Step)
    requires Enabled(s, step) && !step.Arrive? && !step.Try? && !step.Wake? && !step.Recheck? && !step.Signal?
    ensures Next(size, s, step).writers == s.writers && Next(size, s, step).accepted == s.accepted
  {}

  /** As long as the connection is open, no step gives up a message. */
  lemma {:induction false} StepKeepsMessages(size: nat, s: System, step: Step, x: Msg)
    requires Enabled(s, step) && !s.closed && x.payload != []
    ensures Accounted(Next(size, s, step), x) == Accounted(s, x) + Brought(s, step, x)
  {
    if step.Arrive? {
      HeldNew(s.writers, step.w, Trying(step.m), x);
    } else if step.Try? {
      TryKeepsMessage(size, s, step.w, x);
    } else if step.Wake? || step.Recheck? || step.Signal? {
      WriterKeepsMessage(size, s, step, x);
    } else {
      OthersKeepWriters(size, s, step);
    }
  }

  lemma ClosedStays(size: nat, s: System, step: Step)
    requires s.closed
    ensures Do(size, s, step).closed
  {}

  lemma {:induction false} ClosedRun(size: nat, s: System, steps: seq<Step>)
    requires s.closed
    ensures RunFrom(size, s, steps).closed
    decreases |steps|
  {
    if steps != [] {
      ClosedStays(size, s, steps[0]);
      ClosedRun(size, Do(size, s, steps[0]), steps[1..]);
    }
  }

  lemma {:induction false} RunKeepsMessages(size: nat, s: System, steps: seq<Step>, x: Msg)
    requires !RunFrom(size, s, steps).closed && x.payload != []
    ensures Accounted(RunFrom(size, s, steps), x) == Accounted(s, x) + Arrived(size, s, steps, x)
    decreases |steps|
  {
    if steps != [] {
      if s.closed {
        ClosedRun(size, s, steps);
      } else {
        if Enabled(s, steps[0]) {
          StepKeepsMessages(size, s, steps[0], x);
        }
        RunKeepsMessages(size, Do(size, s, steps[0]), steps[1..], x);
      }
    }
  }

  /** After every run that left the connection open, each nonempty message has arrived exactly as often as it
      was accepted or is held by a writer that still tries. */
  lemma NoneGivenUp(size: nat, steps: seq<Step>, x: Msg)
    requires !After(size, steps).closed && x.payload != []
    ensures var s := After(size, steps);
            Arrived(size, Start(), steps, x) == Occurs(s.accepted, x) + Held(s.writers, x)
  {
    RunKeepsMessages(size, Start(), steps, x);
  }

  // ---- Every writer can get through ----

  /** A move of the writer itself, or one that finishes what others have begun. */
  predicate Helps(w: int, step: Step) {
    Finishing(step) || step == Try(w) || step == Wake(w) || step == Recheck(w)
  }

  predicate AllHelp(w: int, run: seq<Step>) {
    forall i | 0 <= i < |run| :: Helps(w, run[i])
  }

  /** A writer with a nonempty message on an open connection. */
  ghost predicate Ready(size: nat, s: System, w: int) {
    && size >= 1 && Inv(size, s) && !s.closed
    && w in s.writers && Waiting(s.writers[w]) && s.writers[w].m.payload != []
  }

  ghost predicate Reaches(size: nat, s: System, w: int, run: seq<Step>) {
    && AllHelp(w, run) && w in s.writers && Waiting(s.writers[w])
    && RunFrom(size, s, run).accepted == s.accepted + [s.writers[w].m]
  }

  /** One move in front of a run. */
  lemma {:induction false} MoveFirst(size: nat, s: System, w: int, step: Step, run: seq<Step>)
    requires Enabled(s, step) && Helps(w, step) && w in s.writers && Waiting(s.writers[w])
    requires var s' := Next(size, s, step);
             && Reaches(size, s', w, run) && s'.accepted == s.accepted && s'.writers[w].m == s.writers[w].m
    ensures Reaches(size, s, w, [step] + run)
  {
    RunFirst(size, s, step, run);
  }

  lemma StoresWhenNotFull(size: nat, s: System, w: int)
    requires Ready(size, s, w) && s.writers[w].Trying? && |s.core.batches[s.core.write]| < size
    ensures Next(size, s, Try(w)).accepted == s.accepted + [s.writers[w].m]
  {}

  lemma BlocksWhenFull(size: nat, s: System, w: int)
    requires Ready(size, s, w) && s.writers[w].Trying? && |s.core.batches[s.core.write]| == size
    ensures var s' := Next(size, s, Try(w));
            s' == s.(writers := s.writers[w := Blocked(s.writers[w].m, s.core.swapChan)])
  {}

  lemma {:induction false} TryGetsThrough(size: nat, s: System, w: int) returns (run: seq<Step>)
    requires Ready(size, s, w) && s.writers[w].Trying? && |s.core.batches[s.core.write]| < size
    ensures Reaches(size, s, w, run) && |run| == 1
  {
    run := [Try(w)];
    StoresWhenNotFull(size, s, w);
    RunFirst(size, s, Try(w), []);
    assert [Try(w)] + [] == [Try(w)];
  }

  /** A released writer finds room if the batch is not full. */
  lemma {:induction false} WakeGetsThrough(size: nat, s: System, w: int) returns (run: seq<Step>)
    requires Ready(size, s, w) && s.writers[w].Blocked? && ChanClosed(s, s.writers[w].chan)
    requires |s.core.batches[s.core.write]| < size
    ensures Reaches(size, s, w, run) && |run| == 3
  {
    var s1 := Next(size, s, Wake(w));
    NextInv(size, s, Wake(w));
    var s2 := Next(size, s1, Recheck(w));
    NextInv(size, s1, Recheck(w));
    run := TryGetsThrough(size, s2, w);
    MoveFirst(size, s1, w, Recheck(w), run);
    MoveFirst(size, s, w, Wake(w), [Recheck(w)] + run);
    run := [Wake(w)] + ([Recheck(w)] + run);
  }

  /** A move that brings the next swap closer and leaves the waiting writer and the messages alone. */
  lemma {:induction false} ReleaseKeeps(size: nat, s: System, w: int) returns (step: Step)
    requires Ready(size, s, w) && s.writers[w].Blocked? && !ChanClosed(s, s.writers[w].chan)
    ensures Enabled(s, step) && Finishing(step)
    ensures var s' := Next(size, s, step);
            && s'.accepted == s.accepted && !s'.closed && w in s'.writers && s'.writers[w] == s.writers[w] && CoreOk(s'.core)
            && if ChanClosed(s', s.writers[w].chan) then s'.core.batches[s'.core.write] == [] else ReleaseRank(s') < ReleaseRank(s)
  {
    match s.flusher {
      case Flushing(tx) => step := if tx < |ReadBatch(s)| then Send(|ReadBatch(s)| - tx) else FlushDone;
      case Flushed => step := ReadDone;
      case Checking => step := LoadClosed;
      case Woken => step := Swap;
      case Selecting =>
        if s.ready {
          step := TakeReady;
        } else {
          var v :| IsSignalling(s, v);
          step := Signal(v);
        }
    }
  }

  /** A writer blocked on the current channel: at most seven moves lead to the swap, three more store its
      message. */
  lemma {:induction false} BlockedGetsThrough(size: nat, s: System, w: int) returns (run: seq<Step>)
    requires Ready(size, s, w) && s.writers[w].Blocked? && !ChanClosed(s, s.writers[w].chan)
    ensures Reaches(size, s, w, run) && |run| <= ReleaseRank(s) + 3
    decreases ReleaseRank(s)
  {
    var step := ReleaseKeeps(size, s, w);
    var s' := Next(size, s, step);
    NextInv(size, s, step);
    var rest;
    if ChanClosed(s', s.writers[w].chan) {
      rest := WakeGetsThrough(size, s', w);
    } else {
      rest := BlockedGetsThrough(size, s', w);
    }
    MoveFirst(size, s, w, step, rest);
    run := [step] + rest;
  }

  lemma {:induction false} TryingGetsThrough(size: nat, s: System, w: int) returns (run: seq<Step>)
    requires Ready(size, s, w) && s.writers[w].Trying?
    ensures Reaches(size, s, w, run) && |run| <= 11
  {
    if |s.core.batches[s.core.write]| < size {
      run := TryGetsThrough(size, s, w);
    } else {
      BlocksWhenFull(size, s, w);
      NextInv(size, s, Try(w));
      var s' := Next(size, s, Try(w));
      run := BlockedGetsThrough(size, s', w);
      MoveFirst(size, s, w, Try(w), run);
      run := [Try(w)] + run;
    }
  }

  lemma {:induction false} RecheckingGetsThrough(size: nat, s: System, w: int) returns (run: seq<Step>)
    requires Ready(size, s, w) && s.writers[w].Rechecking?
    ensures Reaches(size, s, w, run) && |run| <= 12
  {
    NextInv(size, s, Recheck(w));
    run := TryingGetsThrough(size, Next(size, s, Recheck(w)), w);
    MoveFirst(size, s, w, Recheck(w), run);
    run := [Recheck(w)] + run;
  }

  /** While the connection is open, at most thirteen moves of the writer, the flusher and signalling writers
      get any waiting writer's own message accepted. */
  lemma {:induction false} WriterGetsThrough(size: nat, s: System, w: int) returns (run: seq<Step>)
    requires Ready(size, s, w)
    ensures Reaches(size, s, w, run) && |run| <= 13
  {
    match s.writers[w] {
      case Trying(_) => run := TryingGetsThrough(size, s, w);
      case Rechecking(_) => run := RecheckingGetsThrough(size, s, w);
      case Blocked(_, chan) =>
        if ChanClosed(s, chan) {
          NextInv(size, s, Wake(w));
          run := RecheckingGetsThrough(size, Next(size, s, Wake(w)), w);
          MoveFirst(size, s, w, Wake(w), run);
          run := [Wake(w)] + run;
        } else {
          run := BlockedGetsThrough(size, s, w);
        }
    }
  }

  // ---- Close and the flush signals ----

  lemma ClosedOne(size: nat, s: System, step: Step)
    requires CoreOk(s.core)
    ensures Do(size, s, step).closed <==> s.closed || step == SetClosed
  {}

  lemma {:induction false} RunClosedIff(size: nat, s: System, steps: seq<Step>)
    requires size >= 1 && Inv(size, s)
    ensures RunFrom(size, s, steps).closed <==> s.closed || SetClosed in steps
    decreases |steps|
  {
    if steps != [] {
      ClosedOne(size, s, steps[0]);
      if Enabled(s, steps[0]) {
        NextInv(size, s, steps[0]);
      }
      RunClosedIff(size, Do(size, s, steps[0]), steps[1..]);
      assert steps == [steps[0]] + steps[1..];
    }
  }

  /** The connection is closed exactly if the run called Close. */
  lemma ClosedIff(size: nat, steps: seq<Step>)
    requires size >= 1
    ensures After(size, steps).closed <==> SetClosed in steps
  {
    AlwaysInv(size, []);
    assert After(size, []) == Start();
    RunClosedIff(size, Start(), steps);
  }

  /** The flusher takes a batch only when it was woken by a signal or its interval has elapsed. */
  lemma WokenByReason(size: nat, s: System, step: Step)
    requires Enabled(s, step)
    ensures Next(size, s, step).flusher.Woken? && !s.flusher.Woken? ==> step == Tick(true) || step == TakeReady
    ensures Next(size, s, step).flusher.Flushing? && !s.flusher.Flushing? ==> step == Swap && s.flusher.Woken?
  {}

  /** How often the flusher is woken by a signal, and how often writers and Close signal. */
  function Wakeups(size: nat, s: System, steps: seq<Step>): nat
    decreases |steps|
  {
    if steps == [] then 0
    else (if steps[0].TakeReady? && Enabled(s, steps[0]) then 1 else 0) + Wakeups(size, Do(size, s, steps[0]), steps[1..])
  }

  function Signals(size: nat, s: System, steps: seq<Step>): nat
    decreases |steps|
  {
    if steps == [] then 0
    else (if (steps[0].Signal? || steps[0].CloseSends?) && Enabled(s, steps[0]) then 1 else 0) +
         Signals(size, Do(size, s, steps[0]), steps[1..])
  }

  lemma SignalOne(size: nat, s: System, step: Step)
    requires Enabled(s, step)
    ensures (if Next(size, s, step).ready then 1 else 0) + (if step.TakeReady? then 1 else 0) <=
            (if s.ready then 1 else 0) + (if step.Signal? || step.CloseSends? then 1 else 0)
  {}

  /** Each signal wakes the flusher at most once. */
  lemma {:induction false} SignalsWakeOnce(size: nat, s: System, steps: seq<Step>)
    ensures Wakeups(size, s, steps) + (if RunFrom(size, s, steps).ready then 1 else 0) <=
            Signals(size, s, steps) + if s.ready then 1 else 0
    decreases |steps|
  {
    if steps != [] {
      if Enabled(s, steps[0]) {
        SignalOne(size, s, steps[0]);
      }
      SignalsWakeOnce(size, Do(size, s, steps[0]), steps[1..]);
    }
  }
}
