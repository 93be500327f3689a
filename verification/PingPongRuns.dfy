/** Every interleaving of writers, the flusher and Close over the two alternating batches
    (udp/batchconn.go). Each section under the mutex is one step. */
module PingPongRuns {
  import opened MessageBatches
  import opened PingPongCore

  /** A queued message with the number of messages accepted before it. */
  datatype Entry = Entry(ticket: nat, msg: Msg)

  /** A writer inside EnqueueMessage: about to lock, waiting for a swap, woken and about to load the
      closed flag, or about to send on writeReady. */
  datatype Writer = Trying(m: Msg) | Blocked(m: Msg, chan: nat) | Rechecking(m: Msg) | Signalling

  /** A writer whose message is not stored yet. */
  predicate Waiting(w: Writer) {
    w.Trying? || w.Blocked? || w.Rechecking?
  }

  /** The flusher: about to load the closed flag, in its select, woken with the swap still to come,
      sending a batch of which txN messages are out, about to give the batch back, on its way out with the
      swap channel still to close, or gone. */
  datatype Flusher = Checking | Selecting | Woken | Flushing(txN: nat) | Flushed | Leaving | Exited

  /** `ready` is the token of the buffered writeReady channel; `closers` are Close calls that have set
      the closed flag and not sent yet. The last four fields are history: the messages accepted, as they
      were given, those handed to the connection, whether a write failed, and the swap channels closed. */
  datatype System = System(core: Core<Entry>, writers: map<int, Writer>, flusher: Flusher, ready: bool,
                           closed: bool, closers: nat,
                           accepted: seq<Msg>, sent: seq<Entry>, failed: bool, closings: seq<nat>)

  datatype Step =
    | Arrive(w: int, m: Msg) | Try(w: int) | Wake(w: int) | Recheck(w: int) | Signal(w: int)
    | LoadClosed | Tick(elapsed: bool) | TakeReady | Swap | Send(n: nat) | SendFails | FlushDone | ReadDone
    | Leave | SetClosed | CloseSends

  /** A swap channel is closed by the swap that replaces it, or by the flusher on its way out. */
  predicate ChanClosed(s: System, chan: nat) {
    chan < s.core.swapChan || (chan == s.core.swapChan && s.flusher.Exited?)
  }

  function ReadBatch(s: System): seq<Entry>
    requires CoreOk(s.core)
  {
    s.core.batches[s.core.read]
  }

  predicate Enabled(s: System, step: Step) {
    && CoreOk(s.core)
    && match step
       case Arrive(w, _) => w !in s.writers
       case Try(w) => w in s.writers && s.writers[w].Trying?
       case Wake(w) => w in s.writers && s.writers[w].Blocked? && ChanClosed(s, s.writers[w].chan)
       case Recheck(w) => w in s.writers && s.writers[w].Rechecking?
       case Signal(w) => w in s.writers && s.writers[w].Signalling?
       case LoadClosed => s.flusher.Checking?
       case Tick(_) => s.flusher.Selecting?
       case TakeReady => s.flusher.Selecting? && s.ready
       case Swap => s.flusher.Woken?
       case Send(n) => s.flusher.Flushing? && s.flusher.txN < |ReadBatch(s)| && n <= |ReadBatch(s)| - s.flusher.txN
       case SendFails => s.flusher.Flushing? && s.flusher.txN < |ReadBatch(s)|
       case FlushDone => s.flusher.Flushing? && s.flusher.txN >= |ReadBatch(s)|
       case ReadDone => s.flusher.Flushed?
       case Leave => s.flusher.Leaving?
       case SetClosed => true
       case CloseSends => s.closers > 0
  }

  function EndFlush(s: System): System
    requires CoreOk(s.core)
  {
    s.(core := s.core.(batches := s.core.batches[s.core.read := []]), flusher := Flushed)
  }

  /** A WriteBatch call that takes n messages. */
  function SendStep(s: System, n: nat): System
    requires Enabled(s, Send(n))
  {
    var tx := s.flusher.txN;
    s.(sent := s.sent + ReadBatch(s)[tx..tx + n], flusher := Flushing(tx + n))
  }

  function WriterTry(size: nat, s: System, w: int): System
    requires Enabled(s, Try(w))
  {
    var m := s.writers[w].m;
    var (core', r) := TryStep(size, s.core, Entry(|s.accepted|, Stored(s.core, m)), m);
    match r
    case MustWait(chan) => s.(writers := s.writers[w := Blocked(m, chan)])
    case Done(full) =>
      s.(core := core', accepted := if m.payload == [] then s.accepted else s.accepted + [m],
         writers := if full then s.writers[w := Signalling] else s.writers - {w})
  }

  function FlusherSwap(s: System): System
    requires Enabled(s, Swap)
  {
    var (core', ok) := SwapStep(s.core);
    if ok then s.(core := core', flusher := Flushing(0), closings := s.closings + [s.core.swapChan])
    else s.(flusher := Checking)
  }

  function Next(size: nat, s: System, step: Step): System
    requires Enabled(s, step)
  {
    match step
    case Arrive(w, m) => s.(writers := s.writers[w := Trying(m)])
    case Try(w) => WriterTry(size, s, w)
    case Wake(w) => s.(writers := s.writers[w := Rechecking(s.writers[w].m)])
    case Recheck(w) =>
      s.(writers := if s.closed then s.writers - {w} else s.writers[w := Trying(s.writers[w].m)])
    case Signal(w) => s.(ready := true, writers := s.writers - {w})
    case LoadClosed => s.(flusher := if s.closed then Leaving else Selecting)
    case Tick(elapsed) => s.(flusher := if elapsed then Woken else Checking)
    case TakeReady => s.(ready := false, flusher := Woken)
    case Swap => FlusherSwap(s)
    case Send(n) => SendStep(s, n)
    case SendFails => EndFlush(s).(failed := true)
    case FlushDone => EndFlush(s)
    case ReadDone => s.(core := ReadDoneStep(s.core), flusher := Checking)
    case Leave => s.(flusher := Exited, closings := s.closings + [s.core.swapChan])
    case SetClosed => s.(closed := true, closers := s.closers + 1)
    case CloseSends => s.(ready := true, closers := s.closers - 1)
  }

  function Start(): System {
    System(EmptyCore(), map[], Checking, false, false, 0, [], [], false, [])
  }

  function RunFrom(size: nat, s: System, steps: seq<Step>): System
    decreases |steps|
  {
    if steps == [] then s
    else RunFrom(size, if Enabled(s, steps[0]) then Next(size, s, steps[0]) else s, steps[1..])
  }

  /** The state after a run; a step that is not enabled when its turn comes does nothing. */
  function After(size: nat, steps: seq<Step>): System {
    RunFrom(size, Start(), steps)
  }

  // ---- Exclusion: writers and the flusher never share a batch ----

  predicate Busy(f: Flusher) {
    f.Flushing? || f.Flushed?
  }

  predicate Gone(f: Flusher) {
    f.Leaving? || f.Exited?
  }

  predicate CoreInv(size: nat, s: System) {
    && CoreOk(s.core)
    && (s.core.flushPending <==> s.core.write != s.core.read)
    && (s.core.flushPending <==> Busy(s.flusher))
    && (!s.flusher.Flushing? ==> s.core.batches[1 - s.core.write] == [])
    && (s.flusher.Flushing? ==> s.flusher.txN <= |ReadBatch(s)|)
    && |s.core.batches[s.core.write]| <= size
    && (Gone(s.flusher) ==> s.closed)
  }

  lemma TryKeepsCore(size: nat, s: System, w: int)
    requires CoreInv(size, s) && Enabled(s, Try(w))
    ensures CoreInv(size, WriterTry(size, s, w))
  {}

  lemma FlushKeepsCore(size: nat, s: System, step: Step)
    requires CoreInv(size, s) && Enabled(s, step) && (step.Send? || step.SendFails? || step.FlushDone?)
    ensures CoreInv(size, Next(size, s, step))
  {}

  lemma NextCore(size: nat, s: System, step: Step)
    requires CoreInv(size, s) && Enabled(s, step)
    ensures CoreInv(size, Next(size, s, step))
  {
    match step {
      case Try(w) => TryKeepsCore(size, s, w);
      case Send(_) => FlushKeepsCore(size, s, step);
      case SendFails => FlushKeepsCore(size, s, step);
      case FlushDone => FlushKeepsCore(size, s, step);
      case Swap =>
      case ReadDone =>
      case _ => assert Next(size, s, step).core == s.core;
    }
  }

  // ---- Order: what is sent is what was accepted ----

  function InTransit(s: System): seq<Entry>
    requires CoreOk(s.core)
  {
    (if s.flusher.Flushing? && s.flusher.txN <= |ReadBatch(s)| then ReadBatch(s)[s.flusher.txN..] else [])
    + s.core.batches[s.core.write]
  }

  /** Messages out or under way, in order. */
  function Stream(s: System): seq<Entry>
    requires CoreOk(s.core)
  {
    s.sent + InTransit(s)
  }

  /** A stored message has the payload it was given with, and its address if it was given one. */
  predicate Carries(stored: Msg, given: Msg) {
    stored.payload == given.payload && (given.addr.Some? ==> stored == given)
  }

  predicate Faithful(es: seq<Entry>, accepted: seq<Msg>) {
    forall i | 0 <= i < |es| :: es[i].ticket < |accepted| && Carries(es[i].msg, accepted[es[i].ticket])
  }

  predicate Increasing(es: seq<Entry>) {
    forall i, j | 0 <= i < j < |es| :: es[i].ticket < es[j].ticket
  }

  /** The stream is a subsequence of the accepted messages, and all of them as long as no write failed. */
  predicate OrderInv(s: System) {
    && CoreOk(s.core)
    && Faithful(Stream(s), s.accepted)
    && Increasing(Stream(s))
    && (!s.failed ==> |Stream(s)| == |s.accepted|)
  }

  // ---- Signalling ----

  predicate IsSignalling(s: System, w: int) {
    w in s.writers && s.writers[w].Signalling?
  }

  /** While open, a full write batch has its flush under way. */
  ghost predicate FlushComing(size: nat, s: System) {
    !s.closed && CoreOk(s.core) && |s.core.batches[s.core.write]| == size ==>
      s.ready || s.flusher.Woken? || exists w :: IsSignalling(s, w)
  }

  /** A writer waits only on channels made so far, and on the current one only while its batch is full. */
  predicate WaitInv(size: nat, s: System) {
    && CoreOk(s.core)
    && forall w | w in s.writers && s.writers[w].Blocked? ::
         && s.writers[w].chan <= s.core.swapChan
         && (s.writers[w].chan == s.core.swapChan ==> |s.core.batches[s.core.write]| == size)
  }

  /** The flusher in its select is woken after Close. */
  predicate CloseInv(s: System) {
    s.closed && s.flusher.Selecting? ==> s.ready || s.closers > 0
  }

  /** Channels are closed in the order they are made, each once. */
  predicate ClosingsInv(s: System) {
    && |s.closings| == s.core.swapChan + (if s.flusher.Exited? then 1 else 0)
    && forall i | 0 <= i < |s.closings| :: s.closings[i] == i
  }

  ghost predicate Inv(size: nat, s: System) {
    CoreInv(size, s) && OrderInv(s) && WaitInv(size, s) && CloseInv(s) && ClosingsInv(s) && FlushComing(size, s)
  }

  // ---- Every step keeps the invariants ----

  lemma SplitMoves(sent: seq<Entry>, batch: seq<Entry>, rest: seq<Entry>, tx: nat, n: nat)
    requires tx + n <= |batch|
    ensures (sent + batch[tx..tx + n]) + (batch[tx + n..] + rest) == sent + (batch[tx..] + rest)
  {}

  lemma SendKeepsStream(size: nat, s: System, n: nat)
    requires CoreInv(size, s) && Enabled(s, Send(n))
    ensures Stream(SendStep(s, n)) == Stream(s)
  {
    SplitMoves(s.sent, ReadBatch(s), s.core.batches[s.core.write], s.flusher.txN, n);
  }

  lemma FlushDoneKeepsStream(size: nat, s: System)
    requires CoreInv(size, s) && Enabled(s, FlushDone)
    ensures Stream(EndFlush(s)) == Stream(s)
  {
    assert ReadBatch(s)[s.flusher.txN..] == [];
  }

  lemma ReadDoneKeepsStream(size: nat, s: System)
    requires CoreInv(size, s) && Enabled(s, ReadDone)
    ensures Stream(Next(size, s, ReadDone)) == Stream(s)
  {}

  /** The steps that touch neither the batches nor the messages under way. */
  predicate Aside(step: Step) {
    match step
    case Try(_) => false
    case Swap => false
    case Send(_) => false
    case SendFails => false
    case FlushDone => false
    case ReadDone => false
    case _ => true
  }

  lemma AsideKeeps(size: nat, s: System, step: Step)
    requires Enabled(s, step) && Aside(step)
    ensures var s' := Next(size, s, step);
            s'.core == s.core && s'.sent == s.sent && s'.accepted == s.accepted && s'.failed == s.failed
    ensures var f, f' := s.flusher, Next(size, s, step).flusher;
            if f.Flushing? then f' == f else !f'.Flushing?
  {}

  lemma AsideKeepsStream(size: nat, s: System, step: Step)
    requires Enabled(s, step) && Aside(step)
    ensures Stream(Next(size, s, step)) == Stream(s)
  {
    AsideKeeps(size, s, step);
  }

  lemma SwapKeepsStream(size: nat, s: System)
    requires CoreInv(size, s) && Enabled(s, Swap)
    ensures Stream(FlusherSwap(s)) == Stream(s)
  {}

  lemma DropMiddle(a: seq<Entry>, b: seq<Entry>, c: seq<Entry>, accepted: seq<Msg>)
    requires Faithful(a + b + c, accepted) && Increasing(a + b + c)
    ensures Faithful(a + c, accepted) && Increasing(a + c)
  {
    var all := a + b + c;
    forall i | 0 <= i < |a + c|
      ensures (a + c)[i] == all[if i < |a| then i else i + |b|]
    {}
  }

  /** Dropping the unsent part of a batch leaves a subsequence. */
  lemma FailureDrops(size: nat, s: System)
    requires CoreInv(size, s) && OrderInv(s) && Enabled(s, SendFails)
    ensures OrderInv(Next(size, s, SendFails))
  {
    var rest, tail := ReadBatch(s)[s.flusher.txN..], s.core.batches[s.core.write];
    assert Stream(s) == s.sent + rest + tail;
    assert Stream(Next(size, s, SendFails)) == s.sent + tail;
    DropMiddle(s.sent, rest, tail, s.accepted);
  }

  lemma AppendFaithful(es: seq<Entry>, accepted: seq<Msg>, m: Msg, stored: Msg)
    requires Faithful(es, accepted) && Increasing(es) && Carries(stored, m)
    ensures var es', accepted' := es + [Entry(|accepted|, stored)], accepted + [m];
            Faithful(es', accepted') && Increasing(es')
  {}

  lemma TryExtendsStream(size: nat, s: System, w: int)
    requires CoreInv(size, s) && Enabled(s, Try(w))
    ensures var s', m := WriterTry(size, s, w), s.writers[w].m;
            if s'.accepted == s.accepted then Stream(s') == Stream(s)
            else s'.accepted == s.accepted + [m] && Stream(s') == Stream(s) + [Entry(|s.accepted|, Stored(s.core, m))]
  {
    var s' := WriterTry(size, s, w);
    if s'.core == s.core {
      assert s'.accepted == s.accepted;
    }
  }

  lemma TryKeepsOrder(size: nat, s: System, w: int)
    requires CoreInv(size, s) && OrderInv(s) && Enabled(s, Try(w))
    ensures OrderInv(WriterTry(size, s, w))
  {
    TryExtendsStream(size, s, w);
    AppendFaithful(Stream(s), s.accepted, s.writers[w].m, Stored(s.core, s.writers[w].m));
  }

  lemma NextOrder(size: nat, s: System, step: Step)
    requires CoreInv(size, s) && OrderInv(s) && Enabled(s, step)
    ensures OrderInv(Next(size, s, step))
  {
    match step {
      case Try(w) => TryKeepsOrder(size, s, w);
      case Send(n) => SendKeepsStream(size, s, n);
      case SendFails => FailureDrops(size, s);
      case FlushDone => FlushDoneKeepsStream(size, s);
      case Swap => SwapKeepsStream(size, s);
      case ReadDone => ReadDoneKeepsStream(size, s);
      case _ =>
        AsideKeeps(size, s, step);
        AsideKeepsStream(size, s, step);
    }
  }

  lemma NextFlushComing(size: nat, s: System, step: Step)
    requires size >= 1
    requires CoreInv(size, s) && FlushComing(size, s) && Enabled(s, step)
    ensures FlushComing(size, Next(size, s, step))
  {
    var s' := Next(size, s, step);
    if !s'.closed && |s'.core.batches[s'.core.write]| == size && !s'.ready && !s'.flusher.Woken? {
      if step.Try? && s'.core != s.core {
        assert IsSignalling(s', step.w);
      } else {
        var w :| IsSignalling(s, w);
        assert IsSignalling(s', w);
      }
    }
  }

  lemma TryKeepsWait(size: nat, s: System, w: int)
    requires CoreInv(size, s) && WaitInv(size, s) && Enabled(s, Try(w))
    ensures WaitInv(size, WriterTry(size, s, w))
  {}

  lemma NextWait(size: nat, s: System, step: Step)
    requires CoreInv(size, s) && WaitInv(size, s) && Enabled(s, step)
    ensures WaitInv(size, Next(size, s, step))
  {
    match step {
      case Try(w) => TryKeepsWait(size, s, w);
      case Swap =>
      case Send(_) =>
      case SendFails =>
      case FlushDone =>
      case ReadDone =>
      case _ => assert Next(size, s, step).core == s.core;
    }
  }

  lemma NextClose(size: nat, s: System, step: Step)
    requires CloseInv(s) && Enabled(s, step)
    ensures CloseInv(Next(size, s, step))
  {}

  lemma NextClosings(size: nat, s: System, step: Step)
    requires ClosingsInv(s) && Enabled(s, step)
    ensures ClosingsInv(Next(size, s, step))
  {
    match step {
      case Swap =>
      case Leave =>
      case Try(w) => assert WriterTry(size, s, w).core.swapChan == s.core.swapChan;
      case _ => assert Next(size, s, step).core.swapChan == s.core.swapChan;
    }
  }

  lemma NextInv(size: nat, s: System, step: Step)
    requires size >= 1 && Inv(size, s) && Enabled(s, step)
    ensures Inv(size, Next(size, s, step))
  {
    NextCore(size, s, step);
    NextOrder(size, s, step);
    NextFlushComing(size, s, step);
    NextWait(size, s, step);
    NextClose(size, s, step);
    NextClosings(size, s, step);
  }

  lemma {:induction false} RunInv(size: nat, s: System, steps: seq<Step>)
    requires size >= 1 && Inv(size, s)
    ensures Inv(size, RunFrom(size, s, steps))
    decreases |steps|
  {
    if steps != [] {
      if Enabled(s, steps[0]) {
        NextInv(size, s, steps[0]);
        RunInv(size, Next(size, s, steps[0]), steps[1..]);
      } else {
        RunInv(size, s, steps[1..]);
      }
    }
  }

  // ---- What holds after every run ----

  lemma AlwaysInv(size: nat, steps: seq<Step>)
    requires size >= 1
    ensures Inv(size, After(size, steps))
  {
    RunInv(size, Start(), steps);
  }

  /** The flusher works on the read batch only while writers use the other one, and no attempt to write
      finds the batches unavailable. */
  lemma BatchesNeverShared(size: nat, steps: seq<Step>)
    requires size >= 1
    ensures var s := After(size, steps);
            && (s.core.flushPending <==> s.core.write != s.core.read)
            && (Busy(s.flusher) ==> s.core.write != s.core.read)
            && !(s.core.write == s.core.read && s.core.flushPending)
  {
    AlwaysInv(size, steps);
  }

  /** As long as no write failed, the messages out, the rest of the batch being sent and the batch being
      filled are exactly the accepted messages, in order, each with its payload and the address it was
      given, if it was given one. */
  lemma NothingLostOrReordered(size: nat, steps: seq<Step>, i: nat)
    requires size >= 1 && !After(size, steps).failed && i < |After(size, steps).accepted|
    ensures var s := After(size, steps);
            && CoreOk(s.core) && |Stream(s)| == |s.accepted|
            && Stream(s)[i].ticket == i && Carries(Stream(s)[i].msg, s.accepted[i])
  {
    AlwaysInv(size, steps);
    var s := After(size, steps);
    TicketsCount(Stream(s), |s.accepted|, i);
  }

  /** n increasing tickets below n are 0, 1, 2, ... */
  lemma {:induction false} TicketsCount(es: seq<Entry>, n: nat, i: nat)
    requires Increasing(es) && i < |es| == n
    requires forall k | 0 <= k < |es| :: es[k].ticket < n
    ensures es[i].ticket == i
  {
    TicketsAtLeast(es, i);
    TicketsAtMost(es, n, i);
  }

  lemma {:induction false} TicketsAtLeast(es: seq<Entry>, i: nat)
    requires Increasing(es) && i < |es|
    ensures es[i].ticket >= i
  {
    if i > 0 {
      TicketsAtLeast(es, i - 1);
      assert es[i - 1].ticket < es[i].ticket;
    }
  }

  lemma {:induction false} TicketsAtMost(es: seq<Entry>, n: nat, i: nat)
    requires Increasing(es) && i < |es| <= n
    requires forall k | 0 <= k < |es| :: es[k].ticket < n
    ensures es[i].ticket <= n - |es| + i
    decreases |es| - i
  {
    if i + 1 < |es| {
      TicketsAtMost(es, n, i + 1);
      assert es[i].ticket < es[i + 1].ticket;
    }
  }

  /** With failed writes, what is sent is still a subsequence of what was accepted. */
  lemma SentInOrder(size: nat, steps: seq<Step>)
    requires size >= 1
    ensures var s := After(size, steps); Faithful(s.sent, s.accepted) && Increasing(s.sent)
  {
    AlwaysInv(size, steps);
    var s := After(size, steps);
    assert forall i | 0 <= i < |s.sent| :: s.sent[i] == Stream(s)[i];
  }

  /** No swap channel is closed twice. */
  lemma SwapChannelsClosedOnce(size: nat, steps: seq<Step>)
    requires size >= 1
    ensures var s := After(size, steps);
            && (forall i, j | 0 <= i < j < |s.closings| :: s.closings[i] != s.closings[j])
            && (forall chan: nat :: chan in s.closings <==> ChanClosed(s, chan))
  {
    AlwaysInv(size, steps);
    var s := After(size, steps);
    forall chan: nat
      ensures chan in s.closings <==> ChanClosed(s, chan)
    {
      if ChanClosed(s, chan) {
        assert s.closings[chan] == chan;
      }
    }
  }

  /** A try ends with the writer signalling exactly if it leaves the write batch full: batches that are not
      full are left to the interval. */
  lemma TrySignalsIff(size: nat, s: System, w: int)
    requires CoreInv(size, s) && Enabled(s, Try(w))
    ensures var s' := WriterTry(size, s, w);
            && (IsSignalling(s', w) ==> |s'.core.batches[s'.core.write]| == size)
            && (w !in s'.writers ==> |s'.core.batches[s'.core.write]| < size)
            && (w in s'.writers && !IsSignalling(s', w) ==>
                  s' == s.(writers := s.writers[w := Blocked(s.writers[w].m, s.core.swapChan)]) &&
                  |s.core.batches[s.core.write]| == size && s.writers[w].m.payload != [])
  {}

  /** While open, a full write batch has a token queued, a woken flusher, or a writer about to signal;
      this holds after every run exactly for batch sizes of at least one. */
  lemma FullBatchIsSignalledIff(size: nat)
    ensures (forall steps :: FlushComing(size, After(size, steps))) <==> size >= 1
  {
    if size >= 1 {
      forall steps
        ensures FlushComing(size, After(size, steps))
      {
        AlwaysInv(size, steps);
      }
    } else {
      assert After(size, []) == Start();
      assert !FlushComing(size, After(size, []));
    }
  }

  // ---- Progress ----

  lemma {:induction false} RunFirst(size: nat, s: System, step: Step, steps: seq<Step>)
    requires Enabled(s, step)
    ensures RunFrom(size, s, [step] + steps) == RunFrom(size, Next(size, s, step), steps)
  {
    assert ([step] + steps)[1..] == steps;
  }

  predicate MidFlush(s: System) {
    CoreOk(s.core) && s.flusher.Flushing? && s.flusher.txN <= |ReadBatch(s)|
  }

  function Unsent(s: System): nat
    requires MidFlush(s)
  {
    |ReadBatch(s)| - s.flusher.txN
  }

  /** The state after a flush that gets n more messages out. */
  function FlushEnd(s: System, n: nat): System
    requires MidFlush(s) && n <= Unsent(s)
  {
    EndFlush(s.(sent := s.sent + ReadBatch(s)[s.flusher.txN..s.flusher.txN + n], failed := s.failed || n < Unsent(s)))
  }

  function Advance(s: System, n: nat): System
    requires MidFlush(s) && n <= Unsent(s)
  {
    var tx := s.flusher.txN;
    s.(sent := s.sent + ReadBatch(s)[tx..tx + n], flusher := Flushing(tx + n))
  }

  lemma AdvanceThenEnd(s: System, n: nat, m: nat)
    requires MidFlush(s) && n + m <= Unsent(s)
    ensures var s' := Advance(s, n);
            MidFlush(s') && Unsent(s') == Unsent(s) - n && FlushEnd(s', m) == FlushEnd(s, n + m)
  {
    var tx, batch := s.flusher.txN, ReadBatch(s);
    assert s.sent + batch[tx..tx + n] + batch[tx + n..tx + n + m] == s.sent + batch[tx..tx + n + m];
  }

  /** The flusher's steps from the middle of a flush to its end, when the WriteBatch calls take the given
      numbers of messages and the next call fails. */
  function FlushRun(size: nat, s: System, takes: seq<nat>): System
    requires MidFlush(s)
    decreases |takes|
  {
    var k := Unsent(s);
    if k == 0 then Next(size, s, FlushDone)
    else if takes == [] then Next(size, s, SendFails)
    else FlushRun(size, Next(size, s, Send(if takes[0] < k then takes[0] else k)), takes[1..])
  }

  lemma SendAdvances(size: nat, s: System, n: nat)
    requires MidFlush(s) && n <= Unsent(s) && Unsent(s) > 0
    ensures Next(size, s, Send(n)) == Advance(s, n)
  {}

  lemma FlushStops(size: nat, s: System)
    requires MidFlush(s)
    ensures Unsent(s) == 0 ==> Next(size, s, FlushDone) == FlushEnd(s, 0)
    ensures Unsent(s) > 0 ==> Next(size, s, SendFails) == FlushEnd(s, 0)
  {
    var tx := s.flusher.txN;
    assert s.sent + ReadBatch(s)[tx..tx] == s.sent;
  }

  lemma {:induction false} FlushStopsNow(size: nat, s: System, takes: seq<nat>)
    requires MidFlush(s) && (Unsent(s) == 0 || takes == [])
    ensures FlushRun(size, s, takes) == FlushEnd(s, FlushedCount(takes, Unsent(s)))
  {
    FlushStops(size, s);
  }

  /** One more WriteBatch call. */
  lemma {:induction false} FlushGoesOn(size: nat, s: System, takes: seq<nat>, n: nat)
    requires MidFlush(s) && takes != [] && Unsent(s) > 0 && n == if takes[0] < Unsent(s) then takes[0] else Unsent(s)
    requires var s' := Advance(s, n);
             MidFlush(s') && FlushRun(size, s', takes[1..]) == FlushEnd(s', FlushedCount(takes[1..], Unsent(s')))
    ensures FlushRun(size, s, takes) == FlushEnd(s, FlushedCount(takes, Unsent(s)))
  {
    SendAdvances(size, s, n);
    AdvanceThenEnd(s, n, FlushedCount(takes[1..], Unsent(s) - n));
  }

  /** Whatever the WriteBatch calls do, the flush steps of the protocol send exactly what the batch's
      Flush sends, leave the batch empty, and record a failure exactly if something was left unsent. */
  lemma {:induction false} FlushStepsMatch(size: nat, s: System, takes: seq<nat>)
    requires MidFlush(s)
    ensures FlushRun(size, s, takes) == FlushEnd(s, FlushedCount(takes, Unsent(s)))
    decreases |takes|
  {
    if Unsent(s) == 0 || takes == [] {
      FlushStopsNow(size, s, takes);
    } else {
      var n := if takes[0] < Unsent(s) then takes[0] else Unsent(s);
      FlushStepsMatch(size, Advance(s, n), takes[1..]);
      FlushGoesOn(size, s, takes, n);
    }
  }

  /** Moves that finish what the flusher, signalling writers and Close have begun. */
  predicate Finishing(step: Step) {
    || step.LoadClosed? || step.TakeReady? || step.Swap? || step.Send? || step.FlushDone? || step.ReadDone?
    || step.Leave? || step.Signal? || step.CloseSends?
  }

  /** How many such moves are left until the next swap or exit. */
  function ReleaseRank(s: System): nat
    requires CoreOk(s.core)
  {
    match s.flusher
    case Flushing(tx) => if tx < |ReadBatch(s)| then 7 else 6
    case Flushed => 5
    case Checking => 4
    case Selecting => if s.ready then 2 else 3
    case Woken => 1
    case Leaving => 1
    case Exited => 0
  }

  lemma ReleaseMove(size: nat, s: System, w: int) returns (step: Step)
    requires size >= 1 && Inv(size, s)
    requires w in s.writers && s.writers[w].Blocked? && !ChanClosed(s, s.writers[w].chan)
    ensures Enabled(s, step) && Finishing(step)
    ensures var s' := Next(size, s, step);
            ChanClosed(s', s.writers[w].chan) ||
            (CoreOk(s'.core) && ReleaseRank(s') < ReleaseRank(s) && w in s'.writers && s'.writers[w] == s.writers[w])
  {
    match s.flusher {
      case Flushing(tx) => step := if tx < |ReadBatch(s)| then Send(|ReadBatch(s)| - tx) else FlushDone;
      case Flushed => step := ReadDone;
      case Checking => step := LoadClosed;
      case Woken => step := Swap;
      case Leaving => step := Leave;
      case Selecting =>
        if s.ready {
          step := TakeReady;
        } else if s.closed {
          step := CloseSends;
        } else {
          var v :| IsSignalling(s, v);
          step := Signal(v);
        }
    }
  }

  /** A writer that waits on a swap is released by at most seven moves that the others always have. */
  lemma {:induction false} BlockedWriterReleasable(size: nat, s: System, w: int) returns (run: seq<Step>)
    requires size >= 1 && Inv(size, s)
    requires w in s.writers && s.writers[w].Blocked?
    ensures |run| <= ReleaseRank(s) <= 7 && forall i | 0 <= i < |run| :: Finishing(run[i])
    ensures ChanClosed(RunFrom(size, s, run), s.writers[w].chan)
    decreases ReleaseRank(s)
  {
    if ChanClosed(s, s.writers[w].chan) {
      run := [];
    } else {
      var step := ReleaseMove(size, s, w);
      var s' := Next(size, s, step);
      var rest := [];
      NextInv(size, s, step);
      if !ChanClosed(s', s.writers[w].chan) {
        rest := BlockedWriterReleasable(size, s', w);
      }
      RunFirst(size, s, step, rest);
      run := [step] + rest;
    }
  }

  /** How many moves are left until the flusher is gone, after Close. */
  function ExitRank(s: System): nat
    requires CoreOk(s.core)
  {
    match s.flusher
    case Selecting => if s.ready then 7 else 8
    case Woken => 6
    case Flushing(tx) => if tx < |ReadBatch(s)| then 5 else 4
    case Flushed => 3
    case Checking => 2
    case Leaving => 1
    case Exited => 0
  }

  lemma ExitMove(size: nat, s: System) returns (step: Step)
    requires size >= 1 && Inv(size, s) && s.closed && !s.flusher.Exited?
    ensures Enabled(s, step) && Finishing(step)
    ensures var s' := Next(size, s, step); s'.closed && CoreOk(s'.core) && ExitRank(s') < ExitRank(s)
  {
    match s.flusher {
      case Flushing(tx) => step := if tx < |ReadBatch(s)| then Send(|ReadBatch(s)| - tx) else FlushDone;
      case Flushed => step := ReadDone;
      case Checking => step := LoadClosed;
      case Woken => step := Swap;
      case Leaving => step := Leave;
      case Selecting => step := if s.ready then TakeReady else CloseSends;
    }
  }

  /** After Close the flusher exits within eight such moves, and then every writer that waits or will
      wait leaves in two steps of its own. */
  lemma {:induction false} CloseEndsFlusher(size: nat, s: System) returns (run: seq<Step>)
    requires size >= 1 && Inv(size, s) && s.closed
    ensures |run| <= ExitRank(s) <= 8 && forall i | 0 <= i < |run| :: Finishing(run[i])
    ensures var s' := RunFrom(size, s, run); s'.flusher.Exited? && s'.closed && Inv(size, s')
    decreases ExitRank(s)
  {
    if s.flusher.Exited? {
      run := [];
    } else {
      var step := ExitMove(size, s);
      NextInv(size, s, step);
      var rest := CloseEndsFlusher(size, Next(size, s, step));
      RunFirst(size, s, step, rest);
      run := [step] + rest;
    }
  }

  lemma ExitedReleasesWriters(size: nat, s: System, w: int)
    requires size >= 1 && Inv(size, s) && s.flusher.Exited?
    requires w in s.writers && s.writers[w].Blocked?
    ensures Enabled(s, Wake(w))
    ensures var s' := Next(size, s, Wake(w));
            Enabled(s', Recheck(w)) && w !in Next(size, s', Recheck(w)).writers
  {}

  lemma GoneStays(size: nat, s: System, step: Step)
    requires Gone(s.flusher) && Enabled(s, step)
    ensures Next(size, s, step).sent == s.sent && Gone(Next(size, s, step).flusher)
  {
    match step {
      case Try(w) => assert WriterTry(size, s, w).sent == s.sent;
      case _ =>
    }
  }

  /** Close does not flush: once the flusher has left its loop nothing more is sent, whatever is queued. */
  lemma {:induction false} NothingSentAfterExit(size: nat, s: System, steps: seq<Step>)
    requires Gone(s.flusher)
    ensures RunFrom(size, s, steps).sent == s.sent && Gone(RunFrom(size, s, steps).flusher)
    decreases |steps|
  {
    if steps != [] {
      if Enabled(s, steps[0]) {
        GoneStays(size, s, steps[0]);
        NothingSentAfterExit(size, Next(size, s, steps[0]), steps[1..]);
      } else {
        NothingSentAfterExit(size, s, steps[1..]);
      }
    }
  }

  /** What is never sent, if no write failed, is exactly the write batch that the flusher leaves behind: the
      accepted messages after the last one sent. */
  lemma LeftBehind(size: nat, steps: seq<Step>, i: nat)
    requires size >= 1 && Gone(After(size, steps).flusher) && !After(size, steps).failed
    ensures var s := After(size, steps);
            && CoreOk(s.core) && |s.sent| + |s.core.batches[s.core.write]| == |s.accepted|
            && (i < |s.core.batches[s.core.write]| ==>
                  var e := s.core.batches[s.core.write][i];
                  e.ticket == |s.sent| + i && Carries(e.msg, s.accepted[e.ticket]))
  {
    AlwaysInv(size, steps);
    var s := After(size, steps);
    if i < |s.core.batches[s.core.write]| {
      NothingLostOrReordered(size, steps, |s.sent| + i);
    }
  }

  // ---- Delivery ----

  /** The flusher's own moves when its interval has elapsed and no write fails. */
  predicate Delivering(step: Step) {
    step == Tick(true) || step.LoadClosed? || step.Swap? || step.Send? || step.FlushDone? || step.ReadDone?
  }

  /** How many such moves are left until nothing is under way. */
  function DeliverRank(s: System): nat
    requires CoreOk(s.core)
  {
    if InTransit(s) == [] then 0
    else
      match s.flusher
      case Flushing(tx) =>
        if s.core.batches[s.core.write] == [] then 1 else if tx < |ReadBatch(s)| then 7 else 6
      case Flushed => 5
      case Checking => 4
      case Selecting => 3
      case Woken => 2
      case _ => 0
  }

  /** The flusher's next move. */
  function DeliverStep(s: System): Step
    requires CoreOk(s.core)
  {
    match s.flusher
    case Flushing(tx) => if tx < |ReadBatch(s)| then Send(|ReadBatch(s)| - tx) else FlushDone
    case Flushed => ReadDone
    case Checking => LoadClosed
    case Selecting => Tick(true)
    case Woken => Swap
    case _ => Leave
  }

  /** A move that brings the messages under way closer to the connection and changes nothing else. */
  predicate Delivers(s: System, s': System) {
    && CoreOk(s.core) && CoreOk(s'.core) && DeliverRank(s') < DeliverRank(s) && Stream(s') == Stream(s)
    && s'.accepted == s.accepted && s'.failed == s.failed && s'.closed == s.closed
  }

  lemma SendDelivers(size: nat, s: System)
    requires CoreInv(size, s) && s.flusher.Flushing? && s.flusher.txN < |ReadBatch(s)|
    ensures Delivers(s, Next(size, s, DeliverStep(s)))
  {
    var s' := Next(size, s, DeliverStep(s));
    SendKeepsStream(size, s, |ReadBatch(s)| - s.flusher.txN);
    assert ReadBatch(s')[s'.flusher.txN..] == [];
  }

  lemma SwapDelivers(size: nat, s: System)
    requires CoreInv(size, s) && s.flusher.Woken? && InTransit(s) != []
    ensures Delivers(s, Next(size, s, DeliverStep(s)))
  {
    SwapKeepsStream(size, s);
  }

  lemma FlushDoneDelivers(size: nat, s: System)
    requires CoreInv(size, s) && s.flusher.Flushing? && s.flusher.txN >= |ReadBatch(s)| && InTransit(s) != []
    ensures Delivers(s, Next(size, s, DeliverStep(s)))
  {
    FlushDoneKeepsStream(size, s);
    assert ReadBatch(s)[s.flusher.txN..] == [];
  }

  lemma DeliverMove(size: nat, s: System)
    requires CoreInv(size, s) && !s.closed && InTransit(s) != []
    ensures Enabled(s, DeliverStep(s)) && Delivering(DeliverStep(s))
    ensures Delivers(s, Next(size, s, DeliverStep(s)))
  {
    match s.flusher {
      case Flushing(tx) =>
        if tx < |ReadBatch(s)| {
          SendDelivers(size, s);
        } else {
          FlushDoneDelivers(size, s);
        }
      case Flushed => ReadDoneKeepsStream(size, s);
      case Woken => SwapDelivers(size, s);
      case Checking => AsideKeeps(size, s, LoadClosed);
      case Selecting => AsideKeeps(size, s, Tick(true));
    }
  }

  function Ticks(run: seq<Step>): nat {
    if run == [] then 0 else (if run[0].Tick? then 1 else 0) + Ticks(run[1..])
  }

  /** While the connection is open, at most seven moves of the flusher, with one elapsed interval at most
      and no failing write, send everything that is under way, without help from any writer. */
  lemma {:induction false} EverythingDeliverable(size: nat, s: System) returns (run: seq<Step>)
    requires size >= 1 && Inv(size, s) && !s.closed
    ensures |run| <= DeliverRank(s) <= 7 && forall i | 0 <= i < |run| :: Delivering(run[i])
    ensures Ticks(run) <= if DeliverRank(s) >= 3 then 1 else 0
    ensures var s' := RunFrom(size, s, run); s'.sent == Stream(s) && s'.accepted == s.accepted && s'.failed == s.failed
    decreases DeliverRank(s)
  {
    if InTransit(s) == [] {
      run := [];
    } else {
      var step := DeliverStep(s);
      DeliverMove(size, s);
      NextInv(size, s, step);
      var rest := EverythingDeliverable(size, Next(size, s, step));
      RunFirst(size, s, step, rest);
      run := [step] + rest;
      assert run[1..] == rest;
    }
  }

  /** So after any run that left the connection open and had no failing write, such moves send exactly the
      accepted messages, in order. */
  lemma AcceptedDeliverable(size: nat, steps: seq<Step>) returns (run: seq<Step>)
    requires size >= 1 && !After(size, steps).closed && !After(size, steps).failed
    ensures |run| <= 7 && Ticks(run) <= 1 && forall i | 0 <= i < |run| :: Delivering(run[i])
    ensures var s, s' := After(size, steps), RunFrom(size, After(size, steps), run);
            && s'.accepted == s.accepted && |s'.sent| == |s.accepted|
            && forall i | 0 <= i < |s'.sent| :: s'.sent[i].ticket == i && Carries(s'.sent[i].msg, s.accepted[i])
  {
    var s := After(size, steps);
    AlwaysInv(size, steps);
    run := EverythingDeliverable(size, s);
    forall i | 0 <= i < |Stream(s)|
      ensures Stream(s)[i].ticket == i && Carries(Stream(s)[i].msg, s.accepted[i])
    {
      NothingLostOrReordered(size, steps, i);
    }
  }
}
