/** The addresses that batched messages are sent with (udp/batchconn.go). A message without an address is
    put into its slot without clearing the address that the slot had before. */
module PingPongAddresses {
  import opened Options
  import opened MessageBatches
  import opened PingPongCore
  import opened PingPongRuns

  /** Messages arrive with an address only if `some` allows it, and without one only if `none` does. */
  predicate Kinds(some: bool, none: bool, steps: seq<Step>) {
    forall i | 0 <= i < |steps| :: steps[i].Arrive? ==> if steps[i].m.addr.Some? then some else none
  }

  /** Every message that is out or under way is the one that was given. */
  predicate AllAsGiven(s: System) {
    && CoreOk(s.core)
    && forall i | 0 <= i < |Stream(s)| ::
         var e := Stream(s)[i]; e.ticket < |s.accepted| && e.msg == s.accepted[e.ticket]
  }

  // ---- One kind of message ----

  predicate AllOf(ms: seq<Msg>, some: bool) {
    forall i | 0 <= i < |ms| :: ms[i].addr.Some? == some
  }

  predicate NoAddress(es: seq<Entry>) {
    forall i | 0 <= i < |es| :: es[i].msg.addr.None?
  }

  /** All messages so far have an address, or none has and no slot has one either. */
  predicate OneKind(s: System, some: bool) {
    && CoreOk(s.core)
    && AllOf(s.accepted, some)
    && (forall w | w in s.writers && Waiting(s.writers[w]) :: s.writers[w].m.addr.Some? == some)
    && (!some ==> s.core.addrs[0] == map[] && s.core.addrs[1] == map[])
    && (!some ==> NoAddress(s.core.batches[0]) && NoAddress(s.core.batches[1]) && NoAddress(s.sent))
  }

  /** The message is put into the write batch. */
  function Store(s: System, m: Msg): System
    requires CoreOk(s.core)
  {
    var batch := s.core.batches[s.core.write] + [Entry(|s.accepted|, Stored(s.core, m))];
    s.(core := s.core.(batches := s.core.batches[s.core.write := batch], addrs := SetSlot(s.core, m.addr)),
       accepted := s.accepted + [m])
  }

  lemma StoreOneKind(s: System, m: Msg, some: bool)
    requires OneKind(s, some) && m.addr.Some? == some
    ensures OneKind(Store(s, m), some)
  {}

  lemma TryStores(size: nat, s: System, w: int)
    requires Enabled(s, Try(w))
    ensures var s', m := WriterTry(size, s, w), s.writers[w].m;
            || s' == s.(writers := s'.writers)
            || s' == Store(s, m).(writers := s'.writers)
  {}

  lemma TryWriters(size: nat, s: System, w: int)
    requires Enabled(s, Try(w))
    ensures var writers, m := WriterTry(size, s, w).writers, s.writers[w].m;
            forall v | v in writers && Waiting(writers[v]) ::
              v in s.writers && Waiting(s.writers[v]) && writers[v].m == s.writers[v].m
  {}

  lemma {:induction false} TryOneKind(size: nat, s: System, w: int, some: bool)
    requires OneKind(s, some) && Enabled(s, Try(w))
    ensures OneKind(WriterTry(size, s, w), some)
  {
    TryStores(size, s, w);
    TryWriters(size, s, w);
    StoreOneKind(s, s.writers[w].m, some);
    var s' := WriterTry(size, s, w);
    WritersOneKind(s, s'.writers, some);
    WritersOneKind(Store(s, s.writers[w].m), s'.writers, some);
  }

  lemma WritersOneKind(s: System, writers: map<int, Writer>, some: bool)
    requires OneKind(s, some)
    requires forall w | w in writers && Waiting(writers[w]) :: writers[w].m.addr.Some? == some
    ensures OneKind(s.(writers := writers), some)
  {}

  lemma SendOneKind(s: System, n: nat, some: bool)
    requires OneKind(s, some) && Enabled(s, Send(n))
    ensures OneKind(SendStep(s, n), some)
  {}

  lemma EndOneKind(s: System, some: bool)
    requires OneKind(s, some)
    ensures OneKind(EndFlush(s), some)
  {}

  lemma FlushOneKind(size: nat, s: System, step: Step, some: bool)
    requires OneKind(s, some) && Enabled(s, step) && !Aside(step) && !step.Try?
    ensures OneKind(Next(size, s, step), some)
  {
    match step {
      case Send(n) => SendOneKind(s, n, some);
      case SendFails => EndOneKind(s, some);
      case FlushDone => EndOneKind(s, some);
      case Swap =>
      case ReadDone =>
    }
  }

  lemma AsideOneKind(size: nat, s: System, step: Step, some: bool)
    requires OneKind(s, some) && Enabled(s, step) && Aside(step)
    requires step.Arrive? ==> step.m.addr.Some? == some
    ensures OneKind(Next(size, s, step), some)
  {
    AsideKeeps(size, s, step);
  }

  lemma {:induction false} RunOneKind(size: nat, s: System, steps: seq<Step>, some: bool)
    requires OneKind(s, some) && Kinds(some, !some, steps)
    ensures OneKind(RunFrom(size, s, steps), some)
    decreases |steps|
  {
    if steps != [] {
      var step := steps[0];
      var s' := if Enabled(s, step) then Next(size, s, step) else s;
      if Enabled(s, step) {
        if step.Try? {
          TryOneKind(size, s, step.w, some);
        } else if Aside(step) {
          AsideOneKind(size, s, step, some);
        } else {
          FlushOneKind(size, s, step, some);
        }
      }
      RunOneKind(size, s', steps[1..], some);
    }
  }

  lemma OneKindAsGiven(size: nat, s: System, some: bool)
    requires Inv(size, s) && OneKind(s, some)
    ensures AllAsGiven(s)
  {
    forall i | 0 <= i < |Stream(s)|
      ensures Stream(s)[i].msg == s.accepted[Stream(s)[i].ticket]
    {
      assert Carries(Stream(s)[i].msg, s.accepted[Stream(s)[i].ticket]);
    }
  }

  lemma {:induction false} OneKindKeeps(size: nat, steps: seq<Step>, some: bool)
    requires size >= 1 && Kinds(some, !some, steps)
    ensures AllAsGiven(After(size, steps))
  {
    AlwaysInv(size, steps);
    RunOneKind(size, Start(), steps, some);
    OneKindAsGiven(size, After(size, steps), some);
  }

  // ---- Both kinds ----

  /** One flush of the write batch, with the interval elapsed. */
  function FlushCycle(n: nat): seq<Step> {
    ([LoadClosed, Tick(true)] + [Swap]) + (Sending(n) + [FlushDone, ReadDone])
  }

  /** The flusher rests between flushes, with n messages in the write batch. */
  predicate Resting(s: System, write: nat, n: nat) {
    && CoreOk(s.core) && s.flusher.Checking? && !s.closed && !s.core.flushPending
    && s.core.write == s.core.read == write
    && |s.core.batches[write]| == n && s.core.batches[1 - write] == []
  }

  lemma {:induction false} RunAppend(size: nat, s: System, a: seq<Step>, b: seq<Step>)
    ensures RunFrom(size, s, a + b) == RunFrom(size, RunFrom(size, s, a), b)
    decreases |a|
  {
    if a == [] {
      assert a + b == b;
    } else {
      assert (a + b)[1..] == a[1..] + b;
      RunAppend(size, if Enabled(s, a[0]) then Next(size, s, a[0]) else s, a[1..], b);
    }
  }

  lemma {:induction false} Run2(size: nat, s: System, a: Step, b: Step)
    requires Enabled(s, a) && Enabled(Next(size, s, a), b)
    ensures RunFrom(size, s, [a, b]) == Next(size, Next(size, s, a), b)
  {
    RunFirst(size, s, a, [b]);
    RunFirst(size, Next(size, s, a), b, []);
    assert [a] + [b] == [a, b] && [b] + [] == [b];
  }

  /** What a flush leaves as it was. */
  predicate SameQueue(s: System, s': System) {
    s'.core.addrs == s.core.addrs && s'.writers == s.writers && s'.accepted == s.accepted
  }

  /** The flusher has just taken a batch of n messages, and the other one is empty. */
  predicate Taken(s: System, write: nat, n: nat) {
    && CoreOk(s.core) && s.flusher == Flushing(0) && !s.closed && s.core.flushPending
    && s.core.write == write && s.core.read == 1 - write
    && |s.core.batches[1 - write]| == n && s.core.batches[write] == []
  }

  lemma {:induction false} CycleTakes(size: nat, s: System, write: nat, n: nat)
    requires write < 2 && Resting(s, write, n)
    ensures var s' := RunFrom(size, s, [LoadClosed, Tick(true)] + [Swap]);
            Taken(s', 1 - write, n) && SameQueue(s, s')
  {
    Run2(size, s, LoadClosed, Tick(true));
    var s' := RunFrom(size, s, [LoadClosed, Tick(true)]);
    RunAppend(size, s, [LoadClosed, Tick(true)], [Swap]);
    RunFirst(size, s', Swap, []);
    assert [Swap] + [] == [Swap];
  }

  lemma {:induction false} CycleEnds(size: nat, s: System, write: nat, n: nat)
    requires write < 2 && Taken(s.(flusher := Flushing(0)), write, n) && s.flusher == Flushing(n)
    ensures var s' := RunFrom(size, s, [FlushDone, ReadDone]);
            Resting(s', write, 0) && SameQueue(s, s')
  {
    Run2(size, s, FlushDone, ReadDone);
  }

  function Sending(n: nat): seq<Step> {
    if n > 0 then [Send(n)] else []
  }

  lemma {:induction false} CycleSends(size: nat, s: System, write: nat, n: nat)
    requires write < 2 && Taken(s, write, n)
    ensures var s' := RunFrom(size, s, Sending(n));
            Taken(s'.(flusher := Flushing(0)), write, n) && s'.flusher == Flushing(n) && SameQueue(s, s')
  {
    if n > 0 {
      RunFirst(size, s, Send(n), []);
      assert [Send(n)] + [] == [Send(n)];
    }
  }

  lemma {:induction false} CycleRests(size: nat, s: System, write: nat, n: nat)
    requires write < 2 && Resting(s, write, n)
    ensures var s' := RunFrom(size, s, FlushCycle(n));
            Resting(s', 1 - write, 0) && SameQueue(s, s')
  {
    var taking, ending := [LoadClosed, Tick(true)] + [Swap], [FlushDone, ReadDone];
    var s1 := RunFrom(size, s, taking);
    CycleTakes(size, s, write, n);
    CycleSends(size, s1, 1 - write, n);
    CycleEnds(size, RunFrom(size, s1, Sending(n)), 1 - write, n);
    RunAppend(size, s, taking, Sending(n) + ending);
    RunAppend(size, s1, Sending(n), ending);
  }

  /** A writer stores a message in the empty write batch. */
  lemma {:induction false} StoreFirst(size: nat, s: System, write: nat, w: int, m: Msg)
    requires size >= 1 && write < 2 && Resting(s, write, 0) && w !in s.writers && m.payload != []
    ensures var s' := RunFrom(size, s, [Arrive(w, m), Try(w)]);
            && Resting(s', write, 1) && s'.accepted == s.accepted + [m] && s'.sent == s.sent
            && s'.core.batches[write] == [Entry(|s.accepted|, Stored(s.core, m))]
            && s'.core.addrs == SetSlot(s.core, m.addr) && s'.writers.Keys <= s.writers.Keys + {w}
  {
    Run2(size, s, Arrive(w, m), Try(w));
  }

  function WithAddress(): Msg {
    Msg([0], Some(0))
  }

  function WithoutAddress(): Msg {
    Msg([0], None)
  }

  /** One message with an address, two flushes, and one without in the same slot. */
  function MixedRun(): seq<Step> {
    [Arrive(0, WithAddress()), Try(0)] + (FlushCycle(1) + (FlushCycle(0) + [Arrive(1, WithoutAddress()), Try(1)]))
  }

  lemma {:induction false} MixedRunGoesAstray(size: nat)
    requires size >= 1
    ensures !AllAsGiven(After(size, MixedRun()))
  {
    var first, last := [Arrive(0, WithAddress()), Try(0)], [Arrive(1, WithoutAddress()), Try(1)];
    StoreFirst(size, Start(), 0, 0, WithAddress());
    var s1 := RunFrom(size, Start(), first);
    CycleRests(size, s1, 0, 1);
    var s2 := RunFrom(size, s1, FlushCycle(1));
    CycleRests(size, s2, 1, 0);
    var s3 := RunFrom(size, s2, FlushCycle(0));
    StoreFirst(size, s3, 0, 1, WithoutAddress());
    RunAppend(size, Start(), first, FlushCycle(1) + (FlushCycle(0) + last));
    RunAppend(size, s1, FlushCycle(1), FlushCycle(0) + last);
    RunAppend(size, s2, FlushCycle(0), last);
    var s := After(size, MixedRun());
    assert s == RunFrom(size, s3, last);
    LastIsAstray(s);
  }

  lemma LastIsAstray(s: System)
    requires CoreOk(s.core) && |s.accepted| == 2 && s.accepted[1].addr.None? && !s.flusher.Flushing?
    requires |s.core.batches[s.core.write]| == 1
    requires var e := s.core.batches[s.core.write][0]; e.ticket == 1 && e.msg.addr.Some?
    ensures !AllAsGiven(s)
  {
    assert Stream(s)[|s.sent|] == s.core.batches[s.core.write][0];
  }

  /** Messages always leave with the address they were given, or without one, if and only if they are not
      given addresses in some cases and none in others. */
  lemma {:induction false} AsGivenIff(size: nat, some: bool, none: bool)
    requires size >= 1
    ensures (forall steps | Kinds(some, none, steps) :: AllAsGiven(After(size, steps))) <==> !(some && none)
  {
    if some && none {
      assert Kinds(some, none, MixedRun());
      MixedRunGoesAstray(size);
    } else {
      forall steps | Kinds(some, none, steps)
        ensures AllAsGiven(After(size, steps))
      {
        assert Kinds(some, !some, steps);
        OneKindKeeps(size, steps, some);
      }
    }
  }
}
