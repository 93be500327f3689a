/** What a NAT promises over whole histories (vnet/nat.go; sections 4 and 5 of RFC 4787). */
module NatProperties {
  import opened NatModel
  import opened NatTable
  import opened NatRuns

  /** The result of the outbound call at position i. */
  function ResultAt(c: Config, start: int, events: seq<Event>, i: nat): Result
    requires |c.mappedIPs| > 0 && i < |events| && events[i].Out?
  {
    Outbound(c, Run(c, start, events[..i]), events[i].chunk, events[i].now, events[i].later).1
  }

  predicate IsOut(c: Config, e: Event, k: OKey) {
    e.Out? && e.chunk.proto != OtherProto && OKeyOf(c, e.chunk) == k
  }

  lemma {:induction false} RunPrefix(c: Config, start: int, events: seq<Event>, i: nat)
    requires |c.mappedIPs| > 0 && i < |events|
    ensures Run(c, start, events[..i + 1]) == Step(c, Run(c, start, events[..i]), events[i])
  {
    assert events[..i + 1][..i] == events[..i];
  }

  lemma {:induction false} TimedUpTo(start: int, events: seq<Event>, i: nat)
    requires Timed(start, events) && i <= |events|
    ensures Timed(start, events[..i])
    decreases |events| - i
  {
    if i < |events| {
      TimedUpTo(start, events, i + 1);
      assert events[..i + 1][..i] == events[..i];
    } else {
      assert events[..i] == events;
    }
  }

  // ---- Round trip ----

  /** A binding that stays usable: its address, its permission and its life time do not go away. */
  predicate Holds(s: Nat, k: OKey, mapped: Addr, filter: Key, until: int) {
    && k in s.bindings && s.bindings[k].mapped == mapped
    && filter in s.bindings[k].filters && until <= s.bindings[k].expires
  }

  lemma {:induction false} StepHolds(c: Config, s: Nat, e: Event, k: OKey, mapped: Addr, filter: Key, until: int)
    requires |c.mappedIPs| > 0 && Holds(s, k, mapped, filter, until) && e.now <= until
    requires e.Out? ==> e.now <= e.later && until <= e.later + c.lifetime
    ensures Holds(Step(c, s, e), k, mapped, filter, until)
  {}

  /** Calls made no later than `until` leave it in place. */
  lemma {:induction false} RunHolds(c: Config, start: int, events: seq<Event>, n: nat, k: OKey, mapped: Addr, filter: Key, until: int)
    requires |c.mappedIPs| > 0 && Timed(start, events) && n <= |events|
    requires Holds(Run(c, start, events[..n]), k, mapped, filter, until)
    requires until <= Clock(start, events[..n]) + c.lifetime && Clock(start, events) <= until
    ensures Holds(Run(c, start, events), k, mapped, filter, until)
    ensures Clock(start, events[..n]) <= Clock(start, events)
  {
    if n == |events| {
      assert events[..n] == events;
    } else {
      var before, e := events[..|events| - 1], events[|events| - 1];
      assert before[..n] == events[..n];
      RunHolds(c, start, before, n, k, mapped, filter, until);
      StepHolds(c, Run(c, start, before), e, k, mapped, filter, until);
    }
  }

  /** If an outbound chunk from X to Y became one from E to Y, then a chunk from Y to E is delivered to X
      until the life time is over, whatever is translated in between. */
  lemma {:induction false} RoundTrip(c: Config, start: int, events: seq<Event>, i: nat, reply: Chunk, now: int, r: Result)
    requires |c.mappedIPs| > 0 && Timed(start, events) && i < |events| && events[i].Out?
    requires ResultAt(c, start, events, i).Translated?
    requires var out, sent := events[i].chunk, ResultAt(c, start, events, i).chunk;
             reply.proto == out.proto && reply.src == out.dst && reply.dst == sent.src
    requires Clock(start, events) <= now <= events[i].later + c.lifetime
    requires InboundResult(c, Run(c, start, events), reply, now, r)
    ensures r == Translated(reply.(dst := events[i].chunk.src))
  {
    var e := events[i];
    var k, mapped, filter := OKeyOf(c, e.chunk), reply.dst, KeyOf(c.filtering, e.chunk.dst);
    TimedUpTo(start, events, i + 1);
    assert events[..i + 1][..i] == events[..i];
    RunPrefix(c, start, events, i);
    RunOk(c, start, events[..i + 1]);
    assert Holds(Run(c, start, events[..i + 1]), k, mapped, filter, e.later + c.lifetime);
    assert Clock(start, events[..i + 1]) == e.later;
    RunHolds(c, start, events, i + 1, k, mapped, filter, e.later + c.lifetime);
    RunOk(c, start, events);
    OwnerDecides(c, Run(c, start, events), k, reply, now, r);
  }

  lemma TableRunPrefix(c: Config, events: seq<Event>, tables: seq<Table>, results: seq<Result>, n: nat)
    requires |c.mappedIPs| > 0 && TableRun(c, events, tables, results) && n <= |events|
    ensures TableRun(c, events[..n], tables[..n + 1], results[..n])
  {}

  /** Each outbound result of the built table is the model's. */
  lemma {:induction false} BuiltResult(c: Config, start: int, events: seq<Event>, tables: seq<Table>, results: seq<Result>, i: nat)
    requires |c.mappedIPs| > 0 && Timed(start, events) && TableRun(c, events, tables, results)
    requires i < |events| && events[i].Out?
    ensures results[i] == ResultAt(c, start, events, i)
  {
    TimedUpTo(start, events, i + 1);
    TableRunPrefix(c, events, tables, results, i + 1);
    assert events[..i + 1][..i] == events[..i] && events[..i + 1][i] == events[i];
    TableRunRefines(c, start, events[..i + 1], tables[..i + 2], results[..i + 1]);
  }

  lemma {:induction false} BuiltInboundResult(c: Config, start: int, events: seq<Event>, tables: seq<Table>, results: seq<Result>, i: nat)
    requires |c.mappedIPs| > 0 && Timed(start, events) && TableRun(c, events, tables, results)
    requires i < |events| && events[i].In?
    ensures Timed(start, events[..i]) && Clock(start, events[..i]) <= events[i].now
    ensures InboundResult(c, Run(c, start, events[..i]), events[i].chunk, events[i].now, results[i])
  {
    TimedUpTo(start, events, i + 1);
    TimedUpTo(start, events, i);
    TableRunPrefix(c, events, tables, results, i + 1);
    assert events[..i + 1][..i] == events[..i] && events[..i + 1][i] == events[i];
    TableRunRefines(c, start, events[..i + 1], tables[..i + 2], results[..i + 1]);
  }

  lemma {:induction false} PrefixResult(c: Config, start: int, events: seq<Event>, i: nat, n: nat)
    requires |c.mappedIPs| > 0 && i < n <= |events| && events[i].Out?
    ensures events[..n][i] == events[i] && ResultAt(c, start, events[..n], i) == ResultAt(c, start, events, i)
  {
    assert events[..n][..i] == events[..i];
  }

  /** The same of the NAT as built, with its two indexes and its lazy removal. */
  lemma {:induction false} BuiltRoundTrip(c: Config, start: int, events: seq<Event>, tables: seq<Table>, results: seq<Result>, i: nat)
    requires |c.mappedIPs| > 0 && Timed(start, events) && TableRun(c, events, tables, results)
    requires i < |events| - 1 && events[i].Out? && results[i].Translated?
    requires var out, reply := events[i], events[|events| - 1];
             && reply.In? && reply.chunk.proto == out.chunk.proto && reply.chunk.src == out.chunk.dst
             && reply.chunk.dst == results[i].chunk.src && reply.now <= out.later + c.lifetime
    ensures var reply := events[|events| - 1].chunk;
            results[|events| - 1] == Translated(reply.(dst := events[i].chunk.src))
  {
    var n := |events| - 1;
    BuiltResult(c, start, events, tables, results, i);
    TableRunRefines(c, start, events, tables, results);
    PrefixResult(c, start, events, i, n);
    RoundTrip(c, start, events[..n], i, events[n].chunk, events[n].now, results[n]);
  }

  // ---- Ports ----

  lemma StepMade(c: Config, s: Nat, e: Event, proto: Proto)
    requires |c.mappedIPs| > 0
    ensures MadeFor(s, proto) <= MadeFor(Step(c, s, e), proto)
  {}

  lemma {:induction false} MadeGrows(c: Config, start: int, events: seq<Event>, i: nat, proto: Proto)
    requires |c.mappedIPs| > 0 && i <= |events|
    ensures MadeFor(Run(c, start, events[..i]), proto) <= MadeFor(Run(c, start, events), proto)
  {
    if i == |events| {
      assert events[..i] == events;
    } else {
      var before := events[..|events| - 1];
      assert before[..i] == events[..i];
      MadeGrows(c, start, before, i, proto);
      StepMade(c, Run(c, start, before), events[|events| - 1], proto);
    }
  }

  /** The address given to an outbound chunk is a port of its protocol's range, taken for its key. */
  lemma {:induction false} ResultTaken(c: Config, start: int, events: seq<Event>, i: nat)
    requires |c.mappedIPs| > 0 && i < |events| && events[i].Out?
    requires ResultAt(c, start, events, i).Translated?
    ensures var chunk, src := events[i].chunk, ResultAt(c, start, events, i).chunk.src;
            && chunk.proto != OtherProto && src.ip == c.mappedIPs[0]
            && PortBase(chunk.proto) <= src.port <= 65535
            && TakenFor(Run(c, start, events[..i + 1]), chunk.proto, src.port, OKeyOf(c, chunk))
            && ResultAt(c, start, events, i) == Translated(chunk.(src := src))
  {
    RunPrefix(c, start, events, i);
    RunOk(c, start, events[..i + 1]);
    var s, k := Run(c, start, events[..i + 1]), OKeyOf(c, events[i].chunk);
    assert BindingOk(c, s, k, s.bindings[k]);
  }

  // ---- What a live binding remembers ----

  /** Some outbound call from position `from` on used key k towards a remote with filter key f. */
  ghost predicate Permitted(c: Config, events: seq<Event>, from: nat, k: OKey, f: Key) {
    exists j: nat :: from <= j < |events| && PermitsAt(c, events, j, k, f)
  }

  predicate PermitsAt(c: Config, events: seq<Event>, j: nat, k: OKey, f: Key)
    requires j < |events|
  {
    IsOut(c, events[j], k) && KeyOf(c.filtering, events[j].chunk.dst) == f
  }

  /** The outbound call at position j was given the address `mapped`. */
  predicate GivenAt(c: Config, start: int, events: seq<Event>, j: nat, mapped: Addr)
    requires |c.mappedIPs| > 0 && j < |events| && events[j].Out?
  {
    ResultAt(c, start, events, j) == Translated(events[j].chunk.(src := mapped))
  }

  /** `mapped` was the next free address of its protocol at position i. */
  predicate MadeAt(c: Config, start: int, events: seq<Event>, i: nat, proto: Proto, mapped: Addr)
    requires |c.mappedIPs| > 0
  {
    i < |events| && mapped == NextAddr(c, Run(c, start, events[..i]), proto)
  }

  ghost predicate FiltersSince(c: Config, events: seq<Event>, from: nat, k: OKey, filters: set<Key>) {
    forall f :: f in filters <==> Permitted(c, events, from, k, f)
  }

  predicate GivenSince(c: Config, start: int, events: seq<Event>, from: nat, k: OKey, mapped: Addr)
    requires |c.mappedIPs| > 0
  {
    forall j | from <= j < |events| && IsOut(c, events[j], k) :: GivenAt(c, start, events, j, mapped)
  }

  predicate Spans(c: Config, events: seq<Event>, k: OKey, b: Binding) {
    && b.created <= b.refreshed < |events|
    && IsOut(c, events[b.created], k) && IsOut(c, events[b.refreshed], k)
    && b.expires == events[b.refreshed].later + c.lifetime
    && forall j | b.refreshed < j < |events| :: !IsOut(c, events[j], k)
  }

  /** A binding against the history: it was made at `created` on the port that was next then; every call
      with its key since then was given its address; the last of them set the expiry; and its filters are
      the remotes of those calls. */
  ghost predicate Remembers(c: Config, start: int, events: seq<Event>, k: OKey, b: Binding)
    requires |c.mappedIPs| > 0
  {
    && Spans(c, events, k, b)
    && FiltersSince(c, events, b.created, k, b.filters)
    && GivenSince(c, start, events, b.created, k, b.mapped)
    && MadeAt(c, start, events, b.created, k.proto, b.mapped)
  }

  ghost predicate AllRemember(c: Config, start: int, events: seq<Event>)
    requires |c.mappedIPs| > 0
  {
    var s := Run(c, start, events);
    forall k | k in s.bindings :: s.bindings[k].expires < s.clock || Remembers(c, start, events, k, s.bindings[k])
  }

  lemma {:induction false} GivenStable(c: Config, start: int, events: seq<Event>, j: nat, mapped: Addr)
    requires |c.mappedIPs| > 0 && j < |events| - 1 && events[j].Out?
    ensures GivenAt(c, start, events[..|events| - 1], j, mapped) <==> GivenAt(c, start, events, j, mapped)
  {
    assert events[..|events| - 1][..j] == events[..j];
  }

  lemma {:induction false} PermittedGrows(c: Config, events: seq<Event>, from: nat, k: OKey, f: Key)
    requires events != [] && from < |events|
    ensures Permitted(c, events, from, k, f) <==>
            Permitted(c, events[..|events| - 1], from, k, f) || PermitsAt(c, events, |events| - 1, k, f)
  {
    var before := events[..|events| - 1];
    if j: nat :| from <= j < |before| && PermitsAt(c, before, j, k, f) {
      assert PermitsAt(c, events, j, k, f);
    }
    if j: nat :| from <= j < |events| && PermitsAt(c, events, j, k, f) && j != |events| - 1 {
      assert PermitsAt(c, before, j, k, f);
    }
  }

  lemma {:induction false} MadeAtStable(c: Config, start: int, events: seq<Event>, i: nat, proto: Proto, mapped: Addr)
    requires |c.mappedIPs| > 0 && events != [] && MadeAt(c, start, events[..|events| - 1], i, proto, mapped)
    ensures MadeAt(c, start, events, i, proto, mapped)
  {
    assert events[..|events| - 1][..i] == events[..i];
  }

  lemma {:induction false} GivenGrowsAt(c: Config, start: int, events: seq<Event>, from: nat, k: OKey, mapped: Addr, j: nat)
    requires |c.mappedIPs| > 0 && events != [] && GivenSince(c, start, events[..|events| - 1], from, k, mapped)
    requires from <= j < |events| - 1 && IsOut(c, events[j], k)
    ensures GivenAt(c, start, events, j, mapped)
  {
    assert events[..|events| - 1][j] == events[j];
    GivenStable(c, start, events, j, mapped);
  }

  lemma {:induction false} GivenGrows(c: Config, start: int, events: seq<Event>, from: nat, k: OKey, mapped: Addr)
    requires |c.mappedIPs| > 0 && events != [] && GivenSince(c, start, events[..|events| - 1], from, k, mapped)
    requires var e := events[|events| - 1]; IsOut(c, e, k) ==> GivenAt(c, start, events, |events| - 1, mapped)
    ensures GivenSince(c, start, events, from, k, mapped)
  {
    forall j | from <= j < |events| && IsOut(c, events[j], k)
      ensures GivenAt(c, start, events, j, mapped)
    {
      if j < |events| - 1 {
        GivenGrowsAt(c, start, events, from, k, mapped, j);
      }
    }
  }

  lemma {:induction false} FiltersGrow(c: Config, events: seq<Event>, from: nat, k: OKey, filters: set<Key>)
    requires events != [] && from < |events| && FiltersSince(c, events[..|events| - 1], from, k, filters)
    ensures var e := events[|events| - 1];
            FiltersSince(c, events, from, k, if IsOut(c, e, k) then filters + {KeyOf(c.filtering, e.chunk.dst)} else filters)
  {
    forall f
      ensures Permitted(c, events, from, k, f) <==> f in filters || PermitsAt(c, events, |events| - 1, k, f)
    {
      PermittedGrows(c, events, from, k, f);
    }
  }

  lemma {:induction false} SpansKept(c: Config, events: seq<Event>, k: OKey, b: Binding)
    requires events != [] && !IsOut(c, events[|events| - 1], k) && Spans(c, events[..|events| - 1], k, b)
    ensures Spans(c, events, k, b)
  {
    var before := events[..|events| - 1];
    assert forall j | 0 <= j < |before| :: before[j] == events[j];
  }

  lemma {:induction false} SpansUsed(c: Config, events: seq<Event>, k: OKey, b: Binding, b': Binding)
    requires events != [] && IsOut(c, events[|events| - 1], k) && Spans(c, events[..|events| - 1], k, b)
    requires b'.created == b.created && b'.refreshed == |events| - 1 && b'.expires == events[|events| - 1].later + c.lifetime
    ensures Spans(c, events, k, b')
  {
    assert events[..|events| - 1][b.created] == events[b.created];
  }

  /** A call that does not use the key changes nothing that its binding remembers. */
  lemma {:induction false} OtherCallKeeps(c: Config, start: int, events: seq<Event>, k: OKey, b: Binding)
    requires |c.mappedIPs| > 0 && events != [] && !IsOut(c, events[|events| - 1], k)
    requires Remembers(c, start, events[..|events| - 1], k, b)
    ensures Remembers(c, start, events, k, b)
  {
    SpansKept(c, events, k, b);
    MadeAtStable(c, start, events, b.created, k.proto, b.mapped);
    GivenGrows(c, start, events, b.created, k, b.mapped);
    FiltersGrow(c, events, b.created, k, b.filters);
  }

  /** A call that uses a live binding adds its remote and sets the expiry. */
  lemma {:induction false} UseKeeps(c: Config, start: int, events: seq<Event>, k: OKey, b: Binding)
    requires |c.mappedIPs| > 0 && events != [] && IsOut(c, events[|events| - 1], k)
    requires Remembers(c, start, events[..|events| - 1], k, b)
    requires GivenAt(c, start, events, |events| - 1, b.mapped)
    ensures var e := events[|events| - 1];
            Remembers(c, start, events, k, b.(filters := b.filters + {KeyOf(c.filtering, e.chunk.dst)},
                                              expires := e.later + c.lifetime, refreshed := |events| - 1))
  {
    SpansUsed(c, events, k, b, b.(expires := events[|events| - 1].later + c.lifetime, refreshed := |events| - 1));
    MadeAtStable(c, start, events, b.created, k.proto, b.mapped);
    GivenGrows(c, start, events, b.created, k, b.mapped);
    FiltersGrow(c, events, b.created, k, b.filters);
  }

  lemma {:induction false} FiltersNew(c: Config, events: seq<Event>, k: OKey)
    requires events != [] && IsOut(c, events[|events| - 1], k)
    ensures FiltersSince(c, events, |events| - 1, k, {KeyOf(c.filtering, events[|events| - 1].chunk.dst)})
  {
    var n := |events| - 1;
    forall f
      ensures Permitted(c, events, n, k, f) <==> f == KeyOf(c.filtering, events[n].chunk.dst)
    {
      assert PermitsAt(c, events, n, k, f) <==> f == KeyOf(c.filtering, events[n].chunk.dst);
    }
  }

  lemma {:induction false} GivenNew(c: Config, start: int, events: seq<Event>, k: OKey, mapped: Addr)
    requires |c.mappedIPs| > 0 && events != [] && IsOut(c, events[|events| - 1], k)
    requires GivenAt(c, start, events, |events| - 1, mapped)
    ensures GivenSince(c, start, events, |events| - 1, k, mapped)
  {}

  lemma {:induction false} CreateRemembers(c: Config, start: int, events: seq<Event>, k: OKey, b: Binding)
    requires |c.mappedIPs| > 0 && events != [] && IsOut(c, events[|events| - 1], k)
    requires var n, e := |events| - 1, events[|events| - 1];
             && b == Binding(NextAddr(c, Run(c, start, events[..n]), k.proto), {KeyOf(c.filtering, e.chunk.dst)},
                             e.later + c.lifetime, n, n)
             && GivenAt(c, start, events, n, b.mapped)
    ensures Remembers(c, start, events, k, b)
  {
    FiltersNew(c, events, k);
    GivenNew(c, start, events, k, b.mapped);
    assert Spans(c, events, k, b);
  }

  lemma UseStep(c: Config, s: Nat, e: Event, k: OKey)
    requires |c.mappedIPs| > 0 && IsOut(c, e, k) && Live(s, k, e.now)
    ensures var b := s.bindings[k];
            && Outbound(c, s, e.chunk, e.now, e.later).1 == Translated(e.chunk.(src := b.mapped))
            && k in Step(c, s, e).bindings
            && Step(c, s, e).bindings[k] ==
               b.(filters := b.filters + {KeyOf(c.filtering, e.chunk.dst)}, expires := e.later + c.lifetime, refreshed := s.calls)
  {}

  lemma MakeStep(c: Config, s: Nat, e: Event, k: OKey)
    requires |c.mappedIPs| > 0 && IsOut(c, e, k) && !Live(s, k, e.now) && k in Step(c, s, e).bindings
    requires e.now <= e.later <= Step(c, s, e).bindings[k].expires
    ensures var b := Step(c, s, e).bindings[k];
            && b == Binding(NextAddr(c, s, k.proto), {KeyOf(c.filtering, e.chunk.dst)}, e.later + c.lifetime, s.calls, s.calls)
            && Outbound(c, s, e.chunk, e.now, e.later).1 == Translated(e.chunk.(src := b.mapped))
  {}

  lemma TranslatedStep(c: Config, s: Nat, e: Event, k: OKey)
    requires |c.mappedIPs| > 0 && IsOut(c, e, k) && !Live(s, k, e.now)
    requires Outbound(c, s, e.chunk, e.now, e.later).1.Translated?
    ensures k in Step(c, s, e).bindings
    ensures Step(c, s, e).bindings[k] ==
            Binding(NextAddr(c, s, k.proto), {KeyOf(c.filtering, e.chunk.dst)}, e.later + c.lifetime, s.calls, s.calls)
  {}

  lemma OtherStep(c: Config, s: Nat, e: Event, k: OKey)
    requires |c.mappedIPs| > 0 && !IsOut(c, e, k)
    ensures k in Step(c, s, e).bindings <==> k in s.bindings
    ensures k in s.bindings ==> Step(c, s, e).bindings[k] == s.bindings[k]
  {}

  lemma {:induction false} StepRemembers(c: Config, start: int, events: seq<Event>, k: OKey)
    requires |c.mappedIPs| > 0 && events != [] && Timed(start, events) && AllRemember(c, start, events[..|events| - 1])
    requires var s' := Run(c, start, events); k in s'.bindings && s'.clock <= s'.bindings[k].expires
    ensures Remembers(c, start, events, k, Run(c, start, events).bindings[k])
  {
    var before, e := events[..|events| - 1], events[|events| - 1];
    RunOk(c, start, before);
    var s, s' := Run(c, start, before), Run(c, start, events);
    if IsOut(c, e, k) {
      if Live(s, k, e.now) {
        UseStep(c, s, e, k);
        UseKeeps(c, start, events, k, s.bindings[k]);
      } else {
        MakeStep(c, s, e, k);
        CreateRemembers(c, start, events, k, s'.bindings[k]);
      }
    } else {
      OtherStep(c, s, e, k);
      OtherCallKeeps(c, start, events, k, s.bindings[k]);
    }
  }

  /** After every history, each binding that can still be used remembers exactly what was done with it. */
  lemma {:induction false} RunRemembers(c: Config, start: int, events: seq<Event>)
    requires |c.mappedIPs| > 0 && Timed(start, events)
    ensures AllRemember(c, start, events)
  {
    if events != [] {
      RunRemembers(c, start, events[..|events| - 1]);
      var s := Run(c, start, events);
      forall k | k in s.bindings && s.clock <= s.bindings[k].expires
        ensures Remembers(c, start, events, k, s.bindings[k])
      {
        StepRemembers(c, start, events, k);
      }
    }
  }

  /** While a binding is live, it admits an inbound chunk exactly if some outbound call since its creation
      had the same filter key. */
  lemma {:induction false} AdmitsPermitted(c: Config, start: int, events: seq<Event>, k: OKey, chunk: Chunk, now: int, r: Result)
    requires |c.mappedIPs| > 0 && Timed(start, events) && Clock(start, events) <= now
    requires var s := Run(c, start, events); chunk.proto != OtherProto && Owns(s, k, chunk.proto, chunk.dst, now)
    requires InboundResult(c, Run(c, start, events), chunk, now, r)
    ensures var b := Run(c, start, events).bindings[k];
            r == if Permitted(c, events, b.created, k, KeyOf(c.filtering, chunk.src))
                 then Translated(chunk.(dst := k.local)) else NoPermission
  {
    RunOk(c, start, events);
    RunRemembers(c, start, events);
    OwnerDecides(c, Run(c, start, events), k, chunk, now, r);
  }

  /** Two translated outbound calls of one protocol. */
  predicate TwoCalls(c: Config, start: int, events: seq<Event>, i: nat, j: nat)
    requires |c.mappedIPs| > 0
  {
    && i < j < |events| && events[i].Out? && events[j].Out?
    && events[i].chunk.proto == events[j].chunk.proto
    && ResultAt(c, start, events, i).Translated? && ResultAt(c, start, events, j).Translated?
  }

  function Given(c: Config, start: int, events: seq<Event>, i: nat): Addr
    requires |c.mappedIPs| > 0 && i < |events| && events[i].Out? && ResultAt(c, start, events, i).Translated?
  {
    ResultAt(c, start, events, i).chunk.src
  }

  lemma {:induction false} GivenTaken(c: Config, start: int, events: seq<Event>, i: nat)
    requires |c.mappedIPs| > 0 && i < |events| && events[i].Out? && ResultAt(c, start, events, i).Translated?
    ensures var chunk := events[i].chunk;
            TakenFor(Run(c, start, events[..i + 1]), chunk.proto, Given(c, start, events, i).port, OKeyOf(c, chunk))
  {
    ResultTaken(c, start, events, i);
  }

  lemma {:induction false} TakenOnce(s: Nat, s': Nat, proto: Proto, port: int, k: OKey, k': OKey)
    requires MadeFor(s, proto) <= MadeFor(s', proto)
    requires TakenFor(s, proto, port, k) && TakenFor(s', proto, port, k')
    ensures k == k'
  {}

  /** An address, once given, always stands for the same key, also after it has expired. */
  lemma {:induction false} SameAddressSameKey(c: Config, start: int, events: seq<Event>, i: nat, j: nat)
    requires |c.mappedIPs| > 0 && TwoCalls(c, start, events, i, j)
    requires Given(c, start, events, i) == Given(c, start, events, j)
    ensures OKeyOf(c, events[i].chunk) == OKeyOf(c, events[j].chunk)
  {
    GivenTaken(c, start, events, i);
    GivenTaken(c, start, events, j);
    SamePortSameKey(c, start, events, i, j, events[j].chunk.proto, Given(c, start, events, j).port,
                    OKeyOf(c, events[i].chunk), OKeyOf(c, events[j].chunk));
  }

  lemma {:induction false} SamePortSameKey(c: Config, start: int, events: seq<Event>, i: nat, j: nat, proto: Proto, port: int, k: OKey, k': OKey)
    requires |c.mappedIPs| > 0 && i <= j < |events|
    requires TakenFor(Run(c, start, events[..i + 1]), proto, port, k) && TakenFor(Run(c, start, events[..j + 1]), proto, port, k')
    ensures k == k'
  {
    PrefixMade(c, start, events, i + 1, j + 1, proto);
    TakenOnce(Run(c, start, events[..i + 1]), Run(c, start, events[..j + 1]), proto, port, k, k');
  }

  lemma {:induction false} BelowNext(c: Config, s: Nat, s': Nat, proto: Proto, port: int, k: OKey)
    requires |c.mappedIPs| > 0 && MadeFor(s, proto) <= MadeFor(s', proto) && TakenFor(s, proto, port, k)
    ensures port < NextAddr(c, s', proto).port
  {}

  /** A port taken at or after position n is none of those given before it. */
  lemma {:induction false} LaterPortDiffers(c: Config, start: int, events: seq<Event>, i: nat, n: nat)
    requires |c.mappedIPs| > 0 && i < n <= |events| && events[i].Out? && ResultAt(c, start, events, i).Translated?
    ensures Given(c, start, events, i).port < NextAddr(c, Run(c, start, events[..n]), events[i].chunk.proto).port
  {
    var proto := events[i].chunk.proto;
    GivenTaken(c, start, events, i);
    PrefixMade(c, start, events, i + 1, n, proto);
    BelowNext(c, Run(c, start, events[..i + 1]), Run(c, start, events[..n]), proto,
              Given(c, start, events, i).port, OKeyOf(c, events[i].chunk));
  }

  predicate ServedLive(c: Config, start: int, events: seq<Event>, j: nat)
    requires |c.mappedIPs| > 0
  {
    && j < |events| && events[j].Out? && ResultAt(c, start, events, j).Translated?
    && Live(Run(c, start, events[..j]), OKeyOf(c, events[j].chunk), events[j].now)
  }

  /** A call served by a live binding gets its address, and the binding remembers its history. */
  lemma {:induction false} LiveServes(c: Config, start: int, events: seq<Event>, j: nat)
    requires |c.mappedIPs| > 0 && Timed(start, events) && ServedLive(c, start, events, j)
    ensures var k, s := OKeyOf(c, events[j].chunk), Run(c, start, events[..j]);
            Given(c, start, events, j) == s.bindings[k].mapped && Remembers(c, start, events[..j], k, s.bindings[k])
  {
    TimedUpTo(start, events, j);
    TimedUpTo(start, events, j + 1);
    assert events[..j + 1][..j] == events[..j];
    RunOk(c, start, events[..j]);
    RunRemembers(c, start, events[..j]);
  }

  lemma {:induction false} LiveGivesSame(c: Config, start: int, events: seq<Event>, i: nat, j: nat)
    requires |c.mappedIPs| > 0 && Timed(start, events) && TwoCalls(c, start, events, i, j) && ServedLive(c, start, events, j)
    requires OKeyOf(c, events[i].chunk) == OKeyOf(c, events[j].chunk)
    requires Run(c, start, events[..j]).bindings[OKeyOf(c, events[j].chunk)].created <= i
    ensures Given(c, start, events, i) == Given(c, start, events, j)
  {
    LiveServes(c, start, events, j);
    ResultTaken(c, start, events, i);
    var k, before := OKeyOf(c, events[j].chunk), events[..j];
    assert before[..i] == events[..i] && before[i] == events[i];
    assert IsOut(c, before[i], k);
    assert GivenAt(c, start, before, i, Given(c, start, events, j));
  }

  lemma {:induction false} LiveGivesOther(c: Config, start: int, events: seq<Event>, i: nat, j: nat)
    requires |c.mappedIPs| > 0 && Timed(start, events) && TwoCalls(c, start, events, i, j) && ServedLive(c, start, events, j)
    requires Run(c, start, events[..j]).bindings[OKeyOf(c, events[j].chunk)].created > i
    ensures Given(c, start, events, i) != Given(c, start, events, j)
  {
    LiveServes(c, start, events, j);
    var b := Run(c, start, events[..j]).bindings[OKeyOf(c, events[j].chunk)];
    assert MadeAt(c, start, events[..j], b.created, events[j].chunk.proto, b.mapped);
    assert events[..j][..b.created] == events[..b.created];
    LaterPortDiffers(c, start, events, i, b.created);
  }

  lemma {:induction false} SharedIffLive(c: Config, start: int, events: seq<Event>, i: nat, j: nat)
    requires |c.mappedIPs| > 0 && Timed(start, events) && TwoCalls(c, start, events, i, j)
    ensures var k, s := OKeyOf(c, events[j].chunk), Run(c, start, events[..j]);
            Given(c, start, events, i) == Given(c, start, events, j) <==>
            OKeyOf(c, events[i].chunk) == k && Live(s, k, events[j].now) && s.bindings[k].created <= i
  {
    var k, s := OKeyOf(c, events[j].chunk), Run(c, start, events[..j]);
    if Given(c, start, events, i) == Given(c, start, events, j) {
      SameAddressSameKey(c, start, events, i, j);
    }
    if !Live(s, k, events[j].now) {
      LaterPortDiffers(c, start, events, i, j);
    } else if s.bindings[k].created > i {
      LiveGivesOther(c, start, events, i, j);
    } else if OKeyOf(c, events[i].chunk) == k {
      LiveGivesSame(c, start, events, i, j);
    }
  }

  // ---- Sharing, in terms of the calls alone ----

  /** Two consecutive calls with key k. */
  predicate NextUse(c: Config, events: seq<Event>, k: OKey, p: nat, q: nat) {
    && p < q < |events| && IsOut(c, events[p], k) && IsOut(c, events[q], k)
    && forall j | p < j < q :: !IsOut(c, events[j], k)
  }

  /** From position i on, each call with key k comes before the life time since the previous one is over. */
  ghost predicate KeptAlive(c: Config, events: seq<Event>, i: nat, k: OKey) {
    forall p: nat, q: nat | i <= p && NextUse(c, events, k, p, q) :: events[q].now <= events[p].later + c.lifetime
  }

  lemma {:induction false} NextUseInPrefix(c: Config, events: seq<Event>, k: OKey, p: nat, q: nat)
    requires q < |events| - 1
    ensures NextUse(c, events, k, p, q) <==> NextUse(c, events[..|events| - 1], k, p, q)
  {
    var before := events[..|events| - 1];
    assert forall j | 0 <= j < |before| :: before[j] == events[j];
  }

  lemma {:induction false} KeptShorter(c: Config, events: seq<Event>, i: nat, k: OKey)
    requires events != [] && KeptAlive(c, events, i, k)
    ensures KeptAlive(c, events[..|events| - 1], i, k)
  {
    var before := events[..|events| - 1];
    forall p: nat, q: nat | i <= p && NextUse(c, before, k, p, q)
      ensures before[q].now <= before[p].later + c.lifetime
    {
      NextUseInPrefix(c, events, k, p, q);
    }
  }

  /** One more call keeps the chain if it is no use of k, or comes in time after the last one. */
  lemma {:induction false} KeptLonger(c: Config, events: seq<Event>, i: nat, k: OKey)
    requires events != [] && KeptAlive(c, events[..|events| - 1], i, k)
    requires forall p: nat | i <= p && NextUse(c, events, k, p, |events| - 1) ::
               events[|events| - 1].now <= events[p].later + c.lifetime
    ensures KeptAlive(c, events, i, k)
  {
    forall p: nat, q: nat | i <= p && NextUse(c, events, k, p, q)
      ensures events[q].now <= events[p].later + c.lifetime
    {
      if q < |events| - 1 {
        NextUseInPrefix(c, events, k, p, q);
        assert events[..|events| - 1][p] == events[p] && events[..|events| - 1][q] == events[q];
      }
    }
  }

  /** The binding of k was made no later than call i, and has served every call with k since. */
  predicate ServesSince(c: Config, start: int, events: seq<Event>, i: nat, k: OKey)
    requires |c.mappedIPs| > 0
  {
    var s := Run(c, start, events);
    k in s.bindings && s.bindings[k].created <= i && Spans(c, events, k, s.bindings[k])
  }

  lemma StepRefreshed(c: Config, s: Nat, e: Event, k: OKey)
    requires |c.mappedIPs| > 0 && k in Step(c, s, e).bindings
    ensures var b := Step(c, s, e).bindings[k];
            b.refreshed == s.calls || (k in s.bindings && b.refreshed == s.bindings[k].refreshed)
  {}

  lemma {:induction false} RefreshedBefore(c: Config, start: int, events: seq<Event>, k: OKey)
    requires |c.mappedIPs| > 0 && k in Run(c, start, events).bindings
    ensures Run(c, start, events).bindings[k].refreshed < |events|
  {
    if events != [] {
      var before := events[..|events| - 1];
      RunOk(c, start, before);
      StepRefreshed(c, Run(c, start, before), events[|events| - 1], k);
      if k in Run(c, start, before).bindings {
        RefreshedBefore(c, start, before, k);
      }
    }
  }

  lemma {:induction false} OtherCallServes(c: Config, start: int, events: seq<Event>, i: nat, k: OKey)
    requires |c.mappedIPs| > 0 && events != [] && !IsOut(c, events[|events| - 1], k)
    ensures ServesSince(c, start, events, i, k) <==> ServesSince(c, start, events[..|events| - 1], i, k)
  {
    var before := events[..|events| - 1];
    var s, s' := Run(c, start, before), Run(c, start, events);
    assert k in s'.bindings <==> k in s.bindings;
    if k in s.bindings {
      assert s'.bindings[k] == s.bindings[k];
      if Spans(c, before, k, s.bindings[k]) {
        SpansKept(c, events, k, s.bindings[k]);
      }
      assert forall j | 0 <= j < |before| :: before[j] == events[j];
    }
  }

  /** A binding that has served every call so far serves the next one exactly if that comes in time. */
  lemma {:induction false} UseServes(c: Config, start: int, events: seq<Event>, i: nat, k: OKey)
    requires |c.mappedIPs| > 0 && events != [] && i < |events| - 1 && IsOut(c, events[|events| - 1], k)
    requires ServesSince(c, start, events[..|events| - 1], i, k)
    ensures var b, e := Run(c, start, events[..|events| - 1]).bindings[k], events[|events| - 1];
            ServesSince(c, start, events, i, k) <==> e.now <= events[b.refreshed].later + c.lifetime
  {
    var before, e := events[..|events| - 1], events[|events| - 1];
    RunOk(c, start, before);
    var s, s' := Run(c, start, before), Run(c, start, events);
    var b := s.bindings[k];
    assert before[b.refreshed] == events[b.refreshed];
    if Live(s, k, e.now) {
      SpansUsed(c, events, k, b, s'.bindings[k]);
    }
  }

  /** A binding that is too new, or has missed a call, stays so. */
  lemma {:induction false} NeverServesAgain(c: Config, start: int, events: seq<Event>, i: nat, k: OKey)
    requires |c.mappedIPs| > 0 && events != [] && i < |events| - 1 && IsOut(c, events[|events| - 1], k)
    requires Timed(start, events) && !ServesSince(c, start, events[..|events| - 1], i, k)
    ensures !ServesSince(c, start, events, i, k)
  {
    var before, e := events[..|events| - 1], events[|events| - 1];
    RunOk(c, start, before);
    RunRemembers(c, start, before);
    if k in Run(c, start, before).bindings {
      RefreshedBefore(c, start, before, k);
    }
  }

  /** Where the last call with k is, while its binding has served them all. */
  lemma {:induction false} LastUse(c: Config, start: int, events: seq<Event>, i: nat, k: OKey)
    requires |c.mappedIPs| > 0 && events != [] && i < |events| - 1
    requires IsOut(c, events[i], k) && IsOut(c, events[|events| - 1], k)
    requires ServesSince(c, start, events[..|events| - 1], i, k)
    ensures var b, n := Run(c, start, events[..|events| - 1]).bindings[k], |events| - 1;
            && i <= b.refreshed && NextUse(c, events, k, b.refreshed, n)
            && forall p: nat | NextUse(c, events, k, p, n) :: p == b.refreshed
  {
    var before := events[..|events| - 1];
    assert forall j | 0 <= j < |before| :: before[j] == events[j];
  }

  lemma {:induction false} KeptStep(c: Config, start: int, events: seq<Event>, i: nat, k: OKey)
    requires |c.mappedIPs| > 0 && Timed(start, events) && i < |events| - 1 && IsOut(c, events[i], k)
    requires var before := events[..|events| - 1]; KeptAlive(c, before, i, k) <==> ServesSince(c, start, before, i, k)
    ensures KeptAlive(c, events, i, k) <==> ServesSince(c, start, events, i, k)
  {
    var before, n := events[..|events| - 1], |events| - 1;
    if KeptAlive(c, events, i, k) {
      KeptShorter(c, events, i, k);
    }
    if !IsOut(c, events[n], k) {
      OtherCallServes(c, start, events, i, k);
      if KeptAlive(c, before, i, k) {
        KeptLonger(c, events, i, k);
      }
    } else if ServesSince(c, start, before, i, k) {
      LastUse(c, start, events, i, k);
      UseServes(c, start, events, i, k);
      if ServesSince(c, start, events, i, k) {
        KeptLonger(c, events, i, k);
      }
    } else {
      NeverServesAgain(c, start, events, i, k);
    }
  }

  /** The call that translated with k leaves a binding that has served it. */
  lemma {:induction false} ServesFirst(c: Config, start: int, events: seq<Event>, k: OKey)
    requires |c.mappedIPs| > 0 && Timed(start, events) && events != [] && IsOut(c, events[|events| - 1], k)
    requires ResultAt(c, start, events, |events| - 1).Translated?
    ensures ServesSince(c, start, events, |events| - 1, k)
  {
    var n := |events| - 1;
    var before, e := events[..n], events[n];
    RunOk(c, start, before);
    var s := Run(c, start, before);
    if Live(s, k, e.now) {
      RunRemembers(c, start, before);
      UseStep(c, s, e, k);
      SpansUsed(c, events, k, s.bindings[k], Run(c, start, events).bindings[k]);
    } else {
      TranslatedStep(c, s, e, k);
      assert Spans(c, events, k, Run(c, start, events).bindings[k]);
    }
  }

  lemma {:induction false} KeptAtEnd(c: Config, events: seq<Event>, k: OKey)
    requires events != []
    ensures KeptAlive(c, events, |events| - 1, k)
  {}

  /** Call i was translated with key k. */
  predicate ServedAt(c: Config, start: int, events: seq<Event>, i: nat, k: OKey)
    requires |c.mappedIPs| > 0
  {
    i < |events| && IsOut(c, events[i], k) && ResultAt(c, start, events, i).Translated?
  }

  lemma {:induction false} KeptFirst(c: Config, start: int, events: seq<Event>, i: nat, k: OKey)
    requires |c.mappedIPs| > 0 && Timed(start, events) && ServedAt(c, start, events, i, k) && i == |events| - 1
    ensures KeptAlive(c, events, i, k) && ServesSince(c, start, events, i, k)
  {
    KeptAtEnd(c, events, k);
    ServesFirst(c, start, events, k);
  }

  /** After the first n calls, the chain from call i is unbroken exactly if its binding has served it. */
  lemma {:induction false} KeptIffServes(c: Config, start: int, events: seq<Event>, n: nat, i: nat, k: OKey)
    requires |c.mappedIPs| > 0 && Timed(start, events) && i < n <= |events|
    requires ServedAt(c, start, events[..i + 1], i, k)
    ensures KeptAlive(c, events[..n], i, k) <==> ServesSince(c, start, events[..n], i, k)
  {
    if n == i + 1 {
      TimedUpTo(start, events, n);
      KeptFirst(c, start, events[..n], i, k);
    } else {
      KeptIffServes(c, start, events, n - 1, i, k);
      assert IsOut(c, events[i], k) by { assert events[..i + 1][i] == events[i]; }
      KeptStepAt(c, start, events, n, i, k);
    }
  }

  lemma {:induction false} KeptStepAt(c: Config, start: int, events: seq<Event>, n: nat, i: nat, k: OKey)
    requires |c.mappedIPs| > 0 && Timed(start, events) && i < n - 1 < |events| && IsOut(c, events[i], k)
    requires KeptAlive(c, events[..n - 1], i, k) <==> ServesSince(c, start, events[..n - 1], i, k)
    ensures KeptAlive(c, events[..n], i, k) <==> ServesSince(c, start, events[..n], i, k)
  {
    TimedUpTo(start, events, n);
    assert events[..n][..n - 1] == events[..n - 1];
    KeptStep(c, start, events[..n], i, k);
  }

  /** Serving call j too is being live then and made no later than call i. */
  lemma {:induction false} ServesIffLive(c: Config, start: int, events: seq<Event>, i: nat, k: OKey)
    requires |c.mappedIPs| > 0 && Timed(start, events) && i < |events| - 1 && IsOut(c, events[|events| - 1], k)
    ensures var s, e := Run(c, start, events[..|events| - 1]), events[|events| - 1];
            ServesSince(c, start, events, i, k) <==> Live(s, k, e.now) && s.bindings[k].created <= i
  {
    var before := events[..|events| - 1];
    if ServesSince(c, start, before, i, k) {
      RunOk(c, start, before);
      UseServes(c, start, events, i, k);
      var b := Run(c, start, before).bindings[k];
      assert before[b.refreshed] == events[b.refreshed];
    } else {
      RunOk(c, start, before);
      RunRemembers(c, start, before);
      NeverServesAgain(c, start, events, i, k);
    }
  }

  lemma {:induction false} ServedThen(c: Config, start: int, events: seq<Event>, i: nat)
    requires |c.mappedIPs| > 0 && i < |events| && events[i].Out? && ResultAt(c, start, events, i).Translated?
    ensures ServedAt(c, start, events[..i + 1], i, OKeyOf(c, events[i].chunk))
  {
    PrefixResult(c, start, events, i, i + 1);
    ResultTaken(c, start, events, i);
  }

  lemma {:induction false} LiveIffKept(c: Config, start: int, events: seq<Event>, i: nat, j: nat)
    requires |c.mappedIPs| > 0 && Timed(start, events) && TwoCalls(c, start, events, i, j)
    requires OKeyOf(c, events[i].chunk) == OKeyOf(c, events[j].chunk)
    ensures var k, s := OKeyOf(c, events[j].chunk), Run(c, start, events[..j]);
            KeptAlive(c, events[..j + 1], i, k) <==> Live(s, k, events[j].now) && s.bindings[k].created <= i
  {
    var k := OKeyOf(c, events[j].chunk);
    ServedThen(c, start, events, i);
    ResultTaken(c, start, events, j);
    KeptIffServes(c, start, events, j + 1, i, k);
    ServesIffLiveAt(c, start, events, i, j, k);
  }

  lemma {:induction false} ServesIffLiveAt(c: Config, start: int, events: seq<Event>, i: nat, j: nat, k: OKey)
    requires |c.mappedIPs| > 0 && Timed(start, events) && i < j < |events| && IsOut(c, events[j], k)
    ensures var s := Run(c, start, events[..j]);
            ServesSince(c, start, events[..j + 1], i, k) <==> Live(s, k, events[j].now) && s.bindings[k].created <= i
  {
    TimedUpTo(start, events, j + 1);
    assert events[..j + 1][..j] == events[..j];
    ServesIffLive(c, start, events[..j + 1], i, k);
  }

  /** Two outbound chunks of a protocol get the same external address exactly if source and mapping key
      agree and, from the first to the second, each call with that key comes before the life time since
      the previous one is over. */
  lemma {:induction false} SharedIffKept(c: Config, start: int, events: seq<Event>, i: nat, j: nat)
    requires |c.mappedIPs| > 0 && Timed(start, events) && TwoCalls(c, start, events, i, j)
    ensures var k := OKeyOf(c, events[j].chunk);
            Given(c, start, events, i) == Given(c, start, events, j) <==>
            OKeyOf(c, events[i].chunk) == k && KeptAlive(c, events[..j + 1], i, k)
  {
    SharedIffLive(c, start, events, i, j);
    if OKeyOf(c, events[i].chunk) == OKeyOf(c, events[j].chunk) {
      LiveIffKept(c, start, events, i, j);
    }
  }

  lemma {:induction false} PrefixMade(c: Config, start: int, events: seq<Event>, i: nat, j: nat, proto: Proto)
    requires |c.mappedIPs| > 0 && i <= j <= |events|
    ensures MadeFor(Run(c, start, events[..i]), proto) <= MadeFor(Run(c, start, events[..j]), proto)
  {
    assert events[..j][..i] == events[..i];
    MadeGrows(c, start, events[..j], i, proto);
  }

  // ---- 1:1 mode ----

  /** Where a key first occurs. */
  ghost predicate FirstAt(keys: seq<int>, i: nat) {
    i < |keys| && keys[i] !in keys[..i]
  }

  lemma {:induction false} PairOfFirst(keys: seq<int>, values: seq<int>, i: nat)
    requires |keys| == |values| && FirstAt(keys, i)
    ensures PairOf(keys, values, keys[i]) == PairedWith(values[i])
  {
    if i > 0 {
      assert keys[0] in keys[..i];
      assert keys[1..][..i - 1] == keys[..i][1..];
      PairOfFirst(keys[1..], values[1..], i - 1);
    }
  }

  lemma {:induction false} FirstOccurrence(keys: seq<int>, x: int) returns (i: nat)
    requires x in keys
    ensures FirstAt(keys, i) && keys[i] == x
  {
    if keys[0] == x {
      i := 0;
    } else {
      var j := FirstOccurrence(keys[1..], x);
      i := j + 1;
      assert keys[..i] == [keys[0]] + keys[1..][..j];
    }
  }

  /** No local address is paired, at its first place, with an external one that an earlier place has. */
  ghost predicate Unambiguous(c: Config)
    requires OneToOneOk(c)
  {
    forall i: nat | FirstAt(c.localIPs, i) :: FirstAt(c.mappedIPs, i)
  }

  /** Outbound and back in 1:1 mode. */
  ghost predicate Returns(c: Config, out: Chunk, data: int)
    requires OneToOneOk(c)
  {
    var sent := OneToOneOutbound(c, out);
    sent.Translated? ==>
      OneToOneInbound(c, Chunk(out.proto, out.dst, sent.chunk.src, data)) == Translated(Chunk(out.proto, out.dst, out.src, data))
  }

  lemma {:induction false} ReturnsIffFirst(c: Config, i: nat, port: int, remote: Addr, data: int)
    requires OneToOneOk(c) && FirstAt(c.localIPs, i)
    ensures FirstAt(c.mappedIPs, i) ==> Returns(c, Chunk(Udp, Addr(c.localIPs[i], port), remote, 0), data)
    ensures FirstAt(c.mappedIPs, i) ==> Returns(c, Chunk(Tcp, Addr(c.localIPs[i], port), remote, 0), data)
    ensures !FirstAt(c.mappedIPs, i) ==> !Returns(c, Chunk(Udp, Addr(c.localIPs[i], port), remote, 0), data)
  {
    PairOfFirst(c.localIPs, c.mappedIPs, i);
    var j := FirstOccurrence(c.mappedIPs, c.mappedIPs[i]);
    PairOfFirst(c.mappedIPs, c.localIPs, j);
    if j < i {
      assert c.mappedIPs[j] in c.mappedIPs[..i];
      assert c.localIPs[j] in c.localIPs[..i];
    }
  }

  /** Every chunk returns to its sender, at any time, exactly if the pairing is unambiguous. */
  lemma {:induction false} OneToOneReturnsIff(c: Config)
    requires OneToOneOk(c)
    ensures Unambiguous(c) <==> forall out, data :: Returns(c, out, data)
  {
    if Unambiguous(c) {
      forall out, data
        ensures Returns(c, out, data)
      {
        if OneToOneOutbound(c, out).Translated? {
          PairedIsListed(c.localIPs, c.mappedIPs, out.src.ip);
          var i := FirstOccurrence(c.localIPs, out.src.ip);
          ReturnsIffFirst(c, i, out.src.port, out.dst, data);
          assert Returns(c, out.(data := 0), data);
        }
      }
    } else {
      var i: nat :| FirstAt(c.localIPs, i) && !FirstAt(c.mappedIPs, i);
      ReturnsIffFirst(c, i, 0, Addr(0, 0), 0);
    }
  }

  lemma {:induction false} PairedIsListed(keys: seq<int>, values: seq<int>, x: int)
    requires |keys| == |values|
    ensures PairOf(keys, values, x).PairedWith? <==> x in keys
  {
    if keys != [] {
      PairedIsListed(keys[1..], values[1..], x);
    }
  }

  /** Duplicate-free external addresses are enough. */
  lemma {:induction false} DuplicateFreeReturns(c: Config, out: Chunk, data: int)
    requires OneToOneOk(c)
    requires forall i, j | 0 <= i < j < |c.mappedIPs| :: c.mappedIPs[i] != c.mappedIPs[j]
    ensures Returns(c, out, data)
  {
    forall i: nat | FirstAt(c.localIPs, i)
      ensures FirstAt(c.mappedIPs, i)
    {}
    OneToOneReturnsIff(c);
  }
}
