/** The behaviour of a NAT (vnet/nat.go; sections 4 and 5 of RFC 4787) in terms of the chunks that went through
    it: which outbound chunks share an external address, which get a new one, and which inbound chunks are
    let in. */
module NatBehaviour {
  import opened NatModel
  import opened NatTable
  import opened NatRuns
  import opened NatProperties

  /** Two outbound calls for one mapping: same protocol, same source, and remotes that the mapping
      behaviour treats alike. */
  predicate SameUse(c: Config, e: Event, e': Event) {
    && e.Out? && e'.Out? && e.chunk.proto == e'.chunk.proto && e.chunk.proto != OtherProto
    && e.chunk.src == e'.chunk.src && Alike(c.mapping, e.chunk.dst, e'.chunk.dst)
  }

  lemma SameUseIff(c: Config, e: Event, e': Event)
    requires e.Out? && e.chunk.proto != OtherProto
    ensures SameUse(c, e, e') <==> IsOut(c, e', OKeyOf(c, e.chunk))
  {
    if e'.Out? {
      SameKeyIff(c.mapping, e.chunk.dst, e'.chunk.dst);
    }
  }

  /** Positions p and q hold consecutive calls for the mapping of e. */
  predicate NextSameUse(c: Config, events: seq<Event>, e: Event, p: nat, q: nat) {
    && p < q < |events| && SameUse(c, e, events[p]) && SameUse(c, e, events[q])
    && forall j | p < j < q :: !SameUse(c, e, events[j])
  }

  /** From call i on, each call for its mapping comes before the life time since the previous one is over. */
  ghost predicate InTime(c: Config, events: seq<Event>, i: nat)
    requires i < |events|
  {
    forall p: nat, q: nat | i <= p && NextSameUse(c, events, events[i], p, q) ::
      events[q].now <= events[p].later + c.lifetime
  }

  lemma {:induction false} NextSameUseIff(c: Config, events: seq<Event>, e: Event, p: nat, q: nat)
    requires e.Out? && e.chunk.proto != OtherProto
    ensures NextSameUse(c, events, e, p, q) <==> NextUse(c, events, OKeyOf(c, e.chunk), p, q)
  {
    forall j | 0 <= j < |events|
      ensures SameUse(c, e, events[j]) <==> IsOut(c, events[j], OKeyOf(c, e.chunk))
    {
      SameUseIff(c, e, events[j]);
    }
  }

  lemma {:induction false} InTimeIff(c: Config, events: seq<Event>, i: nat)
    requires i < |events| && events[i].Out? && events[i].chunk.proto != OtherProto
    ensures InTime(c, events, i) <==> KeptAlive(c, events, i, OKeyOf(c, events[i].chunk))
  {
    forall p: nat, q: nat
      ensures NextSameUse(c, events, events[i], p, q) <==> NextUse(c, events, OKeyOf(c, events[i].chunk), p, q)
    {
      NextSameUseIff(c, events, events[i], p, q);
    }
  }

  /** Call i was an outbound chunk of the protocol and was given the address. */
  predicate GivenTo(c: Config, start: int, events: seq<Event>, i: nat, proto: Proto, addr: Addr)
    requires |c.mappedIPs| > 0
  {
    && i < |events| && events[i].Out? && events[i].chunk.proto == proto
    && ResultAt(c, start, events, i) == Translated(events[i].chunk.(src := addr))
  }

  // ---- Sharing ----

  /** Two outbound chunks of a protocol get the same external address exactly if they have the same source,
      their remotes are alike for the mapping behaviour and, from the first to the second, each call for
      that mapping comes before the life time since the previous one is over. */
  lemma {:induction false} SharedExactly(c: Config, start: int, events: seq<Event>, i: nat, j: nat)
    requires |c.mappedIPs| > 0 && Timed(start, events) && TwoCalls(c, start, events, i, j)
    ensures Given(c, start, events, i) == Given(c, start, events, j) <==>
            SameUse(c, events[i], events[j]) && InTime(c, events[..j + 1], i)
  {
    ResultTaken(c, start, events, i);
    ResultTaken(c, start, events, j);
    SharedIffKept(c, start, events, i, j);
    SameUseIff(c, events[i], events[j]);
    assert events[..j + 1][i] == events[i];
    InTimeIff(c, events[..j + 1], i);
  }

  // ---- What an outbound chunk gets ----

  /** Call i was translated, and its mapping still serves call j. */
  ghost predicate Serves(c: Config, start: int, events: seq<Event>, i: nat, j: nat)
    requires |c.mappedIPs| > 0
  {
    && i < j < |events| && SameUse(c, events[i], events[j]) && ResultAt(c, start, events, i).Translated?
    && InTime(c, events[..j + 1], i)
  }

  function FirstPort(proto: Proto): int {
    if proto == Udp then 0xC000 else 0x8000
  }

  /** Every port of the protocol's range was given to some call. */
  ghost predicate AllPortsGiven(c: Config, start: int, events: seq<Event>, proto: Proto)
    requires |c.mappedIPs| > 0
  {
    forall port | FirstPort(proto) <= port <= 65535 :: PortGiven(c, start, events, proto, port)
  }

  ghost predicate PortGiven(c: Config, start: int, events: seq<Event>, proto: Proto, port: int)
    requires |c.mappedIPs| > 0
  {
    exists i: nat :: i < |events| && GivenTo(c, start, events, i, proto, Addr(c.mappedIPs[0], port))
  }

  lemma {:induction false} GivenToGrows(c: Config, start: int, events: seq<Event>, n: nat, i: nat, proto: Proto, addr: Addr)
    requires |c.mappedIPs| > 0 && i < n <= |events|
    ensures GivenTo(c, start, events[..n], i, proto, addr) <==> GivenTo(c, start, events, i, proto, addr)
  {
    assert events[..n][i] == events[i];
    if events[i].Out? {
      PrefixResult(c, start, events, i, n);
    }
  }

  lemma {:induction false} GivenStays(c: Config, start: int, events: seq<Event>, proto: Proto, port: int)
    requires |c.mappedIPs| > 0 && events != [] && PortGiven(c, start, events[..|events| - 1], proto, port)
    ensures PortGiven(c, start, events, proto, port)
  {
    var before, addr := events[..|events| - 1], Addr(c.mappedIPs[0], port);
    var i: nat :| i < |before| && GivenTo(c, start, before, i, proto, addr);
    GivenToGrows(c, start, events, |events| - 1, i, proto, addr);
  }

  lemma {:induction false} GivenBefore(c: Config, start: int, events: seq<Event>, i: nat, proto: Proto, port: int)
    requires |c.mappedIPs| > 0 && i < |events| - 1 && GivenTo(c, start, events, i, proto, Addr(c.mappedIPs[0], port))
    ensures PortGiven(c, start, events[..|events| - 1], proto, port)
  {
    GivenToGrows(c, start, events, |events| - 1, i, proto, Addr(c.mappedIPs[0], port));
  }

  lemma {:induction false} PortGivenGrows(c: Config, start: int, events: seq<Event>, proto: Proto, port: int)
    requires |c.mappedIPs| > 0 && events != []
    ensures PortGiven(c, start, events, proto, port) <==>
            || PortGiven(c, start, events[..|events| - 1], proto, port)
            || GivenTo(c, start, events, |events| - 1, proto, Addr(c.mappedIPs[0], port))
  {
    var addr := Addr(c.mappedIPs[0], port);
    if PortGiven(c, start, events[..|events| - 1], proto, port) {
      GivenStays(c, start, events, proto, port);
    }
    if i: nat :| i < |events| - 1 && GivenTo(c, start, events, i, proto, addr) {
      GivenBefore(c, start, events, i, proto, port);
    }
  }

  /** What a call does to the ports taken: it takes one exactly if it is given the next one. */
  lemma StepTakes(c: Config, s: Nat, e: Event, proto: Proto)
    requires |c.mappedIPs| > 0 && proto != OtherProto && PortsOk(c, s)
    ensures var made, made' := |MadeFor(s, proto)|, |MadeFor(Step(c, s, e), proto)|;
            var next := NextAddr(c, s, proto);
            && (made' == made || made' == made + 1)
            && (made' == made + 1 <==>
                  e.Out? && e.chunk.proto == proto && Outbound(c, s, e.chunk, e.now, e.later).1 == Translated(e.chunk.(src := next)))
  {
    if e.Out? && e.chunk.proto == proto && Live(s, OKeyOf(c, e.chunk), e.now) {
      var k := OKeyOf(c, e.chunk);
      assert BindingOk(c, s, k, s.bindings[k]);
      assert Outbound(c, s, e.chunk, e.now, e.later).1 == Translated(e.chunk.(src := s.bindings[k].mapped));
    }
  }

  /** The ports given so far are exactly those counted. */
  lemma {:induction false} CountedPorts(c: Config, start: int, events: seq<Event>, proto: Proto, port: int)
    requires |c.mappedIPs| > 0 && proto != OtherProto
    ensures PortGiven(c, start, events, proto, port) <==>
            0 <= port - FirstPort(proto) < |MadeFor(Run(c, start, events), proto)|
  {
    if events != [] {
      var before, e := events[..|events| - 1], events[|events| - 1];
      CountedPorts(c, start, before, proto, port);
      PortGivenGrows(c, start, events, proto, port);
      RunOk(c, start, before);
      var s := Run(c, start, before);
      StepTakes(c, s, e, proto);
      var addr := Addr(c.mappedIPs[0], port);
      if GivenTo(c, start, events, |events| - 1, proto, addr) {
        ResultTaken(c, start, events, |events| - 1);
        assert events[..|events|] == events;
      }
    }
  }

  lemma {:induction false} ExhaustedIff(c: Config, start: int, events: seq<Event>, proto: Proto)
    requires |c.mappedIPs| > 0 && proto != OtherProto
    ensures AllPortsGiven(c, start, events, proto) <==> NextAddr(c, Run(c, start, events), proto).port > 65535
  {
    var next := FirstPort(proto) + |MadeFor(Run(c, start, events), proto)|;
    forall port
      ensures PortGiven(c, start, events, proto, port) <==> 0 <= port - FirstPort(proto) < next - FirstPort(proto)
    {
      CountedPorts(c, start, events, proto, port);
    }
    if next <= 65535 {
      assert !PortGiven(c, start, events, proto, next);
    }
  }

  /** A call is served by a live binding exactly if some earlier call still serves it. */
  lemma {:induction false} LiveServed(c: Config, start: int, events: seq<Event>, j: nat)
    requires |c.mappedIPs| > 0 && Timed(start, events) && ServedLive(c, start, events, j)
    ensures exists i: nat :: Serves(c, start, events, i, j)
  {
    var k, s := OKeyOf(c, events[j].chunk), Run(c, start, events[..j]);
    LiveServes(c, start, events, j);
    var b := s.bindings[k];
    var i := b.created;
    assert Spans(c, events[..j], k, b);
    assert events[..j][i] == events[i] && IsOut(c, events[i], k);
    assert GivenAt(c, start, events[..j], i, b.mapped);
    PrefixResult(c, start, events, i, j);
    ResultTaken(c, start, events, i);
    ResultTaken(c, start, events, j);
    LiveIffKept(c, start, events, i, j);
    SameUseIff(c, events[i], events[j]);
    assert events[..j + 1][i] == events[i];
    InTimeIff(c, events[..j + 1], i);
    assert Serves(c, start, events, i, j);
  }

  lemma {:induction false} ServedIsLive(c: Config, start: int, events: seq<Event>, i: nat, j: nat)
    requires |c.mappedIPs| > 0 && Timed(start, events) && Serves(c, start, events, i, j)
    ensures var s, k := Run(c, start, events[..j]), OKeyOf(c, events[j].chunk);
            Live(s, k, events[j].now) && ResultAt(c, start, events, j).Translated?
    ensures Given(c, start, events, i) == Given(c, start, events, j)
  {
    var k := OKeyOf(c, events[j].chunk);
    SameUseIff(c, events[i], events[j]);
    ServedThen(c, start, events, i);
    assert events[..j + 1][i] == events[i];
    InTimeIff(c, events[..j + 1], i);
    KeptIffServes(c, start, events, j + 1, i, k);
    ServesIffLiveAt(c, start, events, i, j, k);
    UseStep(c, Run(c, start, events[..j]), events[j], k);
    SharedExactly(c, start, events, i, j);
  }

  lemma {:induction false} FreshResult(c: Config, start: int, events: seq<Event>, j: nat)
    requires |c.mappedIPs| > 0 && j < |events| && events[j].Out? && events[j].chunk.proto != OtherProto
    requires !Live(Run(c, start, events[..j]), OKeyOf(c, events[j].chunk), events[j].now)
    ensures var chunk, next := events[j].chunk, NextAddr(c, Run(c, start, events[..j]), events[j].chunk.proto);
            ResultAt(c, start, events, j) == if next.port > 65535 then PortsExhausted else Translated(chunk.(src := next))
  {}

  /** What an outbound chunk gets: the address of any earlier call that still serves it; otherwise, while a
      port of its protocol is left, an address that no call of the protocol was given before; otherwise
      nothing. */
  lemma {:induction false} OutboundExactly(c: Config, start: int, events: seq<Event>, j: nat)
    requires |c.mappedIPs| > 0 && Timed(start, events) && j < |events| && events[j].Out? && events[j].chunk.proto != OtherProto
    ensures forall i: nat | Serves(c, start, events, i, j) ::
              ResultAt(c, start, events, j) == Translated(events[j].chunk.(src := Given(c, start, events, i)))
    ensures (!exists i: nat :: Serves(c, start, events, i, j)) ==>
              var chunk, r := events[j].chunk, ResultAt(c, start, events, j);
              if AllPortsGiven(c, start, events[..j], chunk.proto) then r == PortsExhausted
              else && r.Translated? && r == Translated(chunk.(src := Addr(c.mappedIPs[0], r.chunk.src.port)))
                   && FirstPort(chunk.proto) <= r.chunk.src.port <= 65535
                   && !PortGiven(c, start, events[..j], chunk.proto, r.chunk.src.port)
  {
    forall i: nat | Serves(c, start, events, i, j)
      ensures ResultAt(c, start, events, j) == Translated(events[j].chunk.(src := Given(c, start, events, i)))
    {
      ServedIsLive(c, start, events, i, j);
      ResultTaken(c, start, events, j);
    }
    if !exists i: nat :: Serves(c, start, events, i, j) {
      NewAddress(c, start, events, j);
    }
  }

  lemma {:induction false} NewAddress(c: Config, start: int, events: seq<Event>, j: nat)
    requires |c.mappedIPs| > 0 && Timed(start, events) && j < |events| && events[j].Out? && events[j].chunk.proto != OtherProto
    requires !exists i: nat :: Serves(c, start, events, i, j)
    ensures var chunk, r := events[j].chunk, ResultAt(c, start, events, j);
            if AllPortsGiven(c, start, events[..j], chunk.proto) then r == PortsExhausted
            else && r.Translated? && r == Translated(chunk.(src := Addr(c.mappedIPs[0], r.chunk.src.port)))
                 && FirstPort(chunk.proto) <= r.chunk.src.port <= 65535
                 && !PortGiven(c, start, events[..j], chunk.proto, r.chunk.src.port)
  {
    var s, k := Run(c, start, events[..j]), OKeyOf(c, events[j].chunk);
    if Live(s, k, events[j].now) {
      UseStep(c, s, events[j], k);
      LiveServed(c, start, events, j);
    }
    FreshResult(c, start, events, j);
    ExhaustedIff(c, start, events[..j], events[j].chunk.proto);
    CountedPorts(c, start, events[..j], events[j].chunk.proto, NextAddr(c, s, events[j].chunk.proto).port);
  }

  // ---- What an inbound chunk meets ----

  /** Some call was given the address, and its life time is not over. */
  ghost predicate InUse(c: Config, start: int, events: seq<Event>, proto: Proto, addr: Addr, now: int)
    requires |c.mappedIPs| > 0
  {
    exists i: nat :: GivenTo(c, start, events, i, proto, addr) && now <= events[i].later + c.lifetime
  }

  /** Some call that was given the address went to a remote that is alike for the filtering behaviour. */
  ghost predicate Admitted(c: Config, start: int, events: seq<Event>, proto: Proto, addr: Addr, remote: Addr)
    requires |c.mappedIPs| > 0
  {
    exists i: nat :: GivenTo(c, start, events, i, proto, addr) && Alike(c.filtering, events[i].chunk.dst, remote)
  }

  /** A call that was given the address in time means an owner. */
  lemma {:induction false} UseHasOwner(c: Config, start: int, events: seq<Event>, i: nat, proto: Proto, addr: Addr, now: int)
    requires |c.mappedIPs| > 0 && Timed(start, events) && Clock(start, events) <= now
    requires GivenTo(c, start, events, i, proto, addr) && now <= events[i].later + c.lifetime
    ensures Owns(Run(c, start, events), OKeyOf(c, events[i].chunk), proto, addr, now)
  {
    var e := events[i];
    var k, filter := OKeyOf(c, e.chunk), KeyOf(c.filtering, e.chunk.dst);
    ResultTaken(c, start, events, i);
    HoldsAfter(c, start, events, i, addr);
    TimedUpTo(start, events, i + 1);
    RunHolds(c, start, events, i + 1, k, addr, filter, e.later + c.lifetime);
  }

  lemma {:induction false} HoldsAfter(c: Config, start: int, events: seq<Event>, i: nat, addr: Addr)
    requires |c.mappedIPs| > 0 && i < |events| && events[i].Out? && events[i].chunk.proto != OtherProto
    requires GivenAt(c, start, events, i, addr)
    ensures var e := events[i];
            Holds(Run(c, start, events[..i + 1]), OKeyOf(c, e.chunk), addr, KeyOf(c.filtering, e.chunk.dst), e.later + c.lifetime)
    ensures Clock(start, events[..i + 1]) == events[i].later
  {
    RunPrefix(c, start, events, i);
    var s, e, k := Run(c, start, events[..i]), events[i], OKeyOf(c, events[i].chunk);
    if Live(s, k, e.now) {
      UseStep(c, s, e, k);
    } else {
      TranslatedStep(c, s, e, k);
    }
  }

  /** The owner of an address serves the calls that were given it, and its expiry is that of the last one. */
  lemma {:induction false} OwnerIsUsed(c: Config, start: int, events: seq<Event>, k: OKey, proto: Proto, addr: Addr, now: int)
    requires |c.mappedIPs| > 0 && Timed(start, events) && Clock(start, events) <= now
    requires Owns(Run(c, start, events), k, proto, addr, now)
    ensures InUse(c, start, events, proto, addr, now)
  {
    RunOk(c, start, events);
    RunRemembers(c, start, events);
    var b := Run(c, start, events).bindings[k];
    assert Remembers(c, start, events, k, b);
    assert GivenAt(c, start, events, b.refreshed, b.mapped);
    assert GivenTo(c, start, events, b.refreshed, proto, addr);
  }

  /** The calls that were given the owner's address are its uses since it was made. */
  lemma {:induction false} GivenIsUse(c: Config, start: int, events: seq<Event>, k: OKey, i: nat, proto: Proto, addr: Addr, now: int)
    requires |c.mappedIPs| > 0 && Timed(start, events) && Clock(start, events) <= now
    requires Owns(Run(c, start, events), k, proto, addr, now) && GivenTo(c, start, events, i, proto, addr)
    ensures IsOut(c, events[i], k) && Run(c, start, events).bindings[k].created <= i
  {
    RunOk(c, start, events);
    RunRemembers(c, start, events);
    var b := Run(c, start, events).bindings[k];
    var n := b.created;
    assert GivenAt(c, start, events, n, b.mapped);
    ResultTaken(c, start, events, i);
    ResultTaken(c, start, events, n);
    if i < n {
      LaterPortDiffers(c, start, events, i, n);
    } else if n < i {
      SameAddressSameKey(c, start, events, n, i);
    }
  }

  lemma {:induction false} AdmittedIsPermitted(c: Config, start: int, events: seq<Event>, k: OKey, i: nat, proto: Proto, addr: Addr, remote: Addr, now: int)
    requires |c.mappedIPs| > 0 && Timed(start, events) && Clock(start, events) <= now
    requires Owns(Run(c, start, events), k, proto, addr, now)
    requires GivenTo(c, start, events, i, proto, addr) && Alike(c.filtering, events[i].chunk.dst, remote)
    ensures Permitted(c, events, Run(c, start, events).bindings[k].created, k, KeyOf(c.filtering, remote))
  {
    GivenIsUse(c, start, events, k, i, proto, addr, now);
    SameKeyIff(c.filtering, events[i].chunk.dst, remote);
    assert PermitsAt(c, events, i, k, KeyOf(c.filtering, remote));
  }

  lemma {:induction false} PermittedIsAdmitted(c: Config, start: int, events: seq<Event>, k: OKey, i: nat, proto: Proto, addr: Addr, remote: Addr, now: int)
    requires |c.mappedIPs| > 0 && Timed(start, events) && Clock(start, events) <= now
    requires Owns(Run(c, start, events), k, proto, addr, now)
    requires Run(c, start, events).bindings[k].created <= i < |events| && PermitsAt(c, events, i, k, KeyOf(c.filtering, remote))
    ensures Admitted(c, start, events, proto, addr, remote)
  {
    UseIsGiven(c, start, events, k, i, proto, addr, now);
    SameKeyIff(c.filtering, events[i].chunk.dst, remote);
  }

  lemma {:induction false} UseIsGiven(c: Config, start: int, events: seq<Event>, k: OKey, i: nat, proto: Proto, addr: Addr, now: int)
    requires |c.mappedIPs| > 0 && Timed(start, events) && Clock(start, events) <= now
    requires Owns(Run(c, start, events), k, proto, addr, now)
    requires Run(c, start, events).bindings[k].created <= i < |events| && IsOut(c, events[i], k)
    ensures GivenTo(c, start, events, i, proto, addr)
  {
    RunOk(c, start, events);
    RunRemembers(c, start, events);
    assert GivenAt(c, start, events, i, addr);
  }

  lemma {:induction false} AdmittedIff(c: Config, start: int, events: seq<Event>, k: OKey, proto: Proto, addr: Addr, remote: Addr, now: int)
    requires |c.mappedIPs| > 0 && Timed(start, events) && Clock(start, events) <= now
    requires Owns(Run(c, start, events), k, proto, addr, now)
    ensures Admitted(c, start, events, proto, addr, remote) <==>
            Permitted(c, events, Run(c, start, events).bindings[k].created, k, KeyOf(c.filtering, remote))
  {
    var from, f := Run(c, start, events).bindings[k].created, KeyOf(c.filtering, remote);
    if i: nat :| GivenTo(c, start, events, i, proto, addr) && Alike(c.filtering, events[i].chunk.dst, remote) {
      AdmittedIsPermitted(c, start, events, k, i, proto, addr, remote, now);
    }
    if i: nat :| from <= i < |events| && PermitsAt(c, events, i, k, f) {
      PermittedIsAdmitted(c, start, events, k, i, proto, addr, remote, now);
    }
  }

  /** What an inbound chunk meets: no binding unless some outbound call was given its destination within the
      life time; then it is delivered to the source of those calls exactly if one of them went to a remote
      that is alike for the filtering behaviour, and refused otherwise. */
  lemma {:induction false} InboundExactly(c: Config, start: int, events: seq<Event>, chunk: Chunk, now: int, r: Result)
    requires |c.mappedIPs| > 0 && Timed(start, events) && Clock(start, events) <= now && chunk.proto != OtherProto
    requires InboundResult(c, Run(c, start, events), chunk, now, r)
    ensures !InUse(c, start, events, chunk.proto, chunk.dst, now) <==> r == NoBinding
    ensures InUse(c, start, events, chunk.proto, chunk.dst, now) ==>
              if Admitted(c, start, events, chunk.proto, chunk.dst, chunk.src)
              then forall i: nat | GivenTo(c, start, events, i, chunk.proto, chunk.dst) :: r == Translated(chunk.(dst := events[i].chunk.src))
              else r == NoPermission
  {
    if i: nat :| GivenTo(c, start, events, i, chunk.proto, chunk.dst) && now <= events[i].later + c.lifetime {
      UseHasOwner(c, start, events, i, chunk.proto, chunk.dst, now);
      OwnedInbound(c, start, events, OKeyOf(c, events[i].chunk), chunk, now, r);
    } else {
      forall k
        ensures !Owns(Run(c, start, events), k, chunk.proto, chunk.dst, now)
      {
        if Owns(Run(c, start, events), k, chunk.proto, chunk.dst, now) {
          OwnerIsUsed(c, start, events, k, chunk.proto, chunk.dst, now);
        }
      }
    }
  }

  lemma {:induction false} OwnedInbound(c: Config, start: int, events: seq<Event>, k: OKey, chunk: Chunk, now: int, r: Result)
    requires |c.mappedIPs| > 0 && Timed(start, events) && Clock(start, events) <= now && chunk.proto != OtherProto
    requires Owns(Run(c, start, events), k, chunk.proto, chunk.dst, now)
    requires InboundResult(c, Run(c, start, events), chunk, now, r)
    ensures if Admitted(c, start, events, chunk.proto, chunk.dst, chunk.src)
            then forall i: nat | GivenTo(c, start, events, i, chunk.proto, chunk.dst) :: r == Translated(chunk.(dst := events[i].chunk.src))
            else r == NoPermission
    ensures r != NoBinding
  {
    AdmitsPermitted(c, start, events, k, chunk, now, r);
    AdmittedIff(c, start, events, k, chunk.proto, chunk.dst, chunk.src, now);
    forall i: nat | GivenTo(c, start, events, i, chunk.proto, chunk.dst)
      ensures events[i].chunk.src == k.local
    {
      GivenIsUse(c, start, events, k, i, chunk.proto, chunk.dst, now);
    }
  }

  /** Chunks of other protocols, and only those, are answered as unsupported in every mode and direction, and
      leave the bindings alone. */
  lemma {:induction false} UnsupportedExactly(c: Config, s: Nat, chunk: Chunk, now: int, later: int, r: Result)
    requires |c.mappedIPs| > 0 && InboundResult(c, s, chunk, now, r)
    ensures Outbound(c, s, chunk, now, later).1 == Unsupported <==> chunk.proto == OtherProto
    ensures r == Unsupported <==> chunk.proto == OtherProto
    ensures OneToOneOk(c) ==> (OneToOneOutbound(c, chunk) == Unsupported <==> chunk.proto == OtherProto)
    ensures OneToOneOk(c) ==> (OneToOneInbound(c, chunk) == Unsupported <==> chunk.proto == OtherProto)
    ensures chunk.proto == OtherProto ==> Outbound(c, s, chunk, now, later).0.bindings == s.bindings
  {}

  // ---- 1:1 mode ----

  /** In 1:1 mode an outbound chunk of a known protocol is translated exactly if its source is listed, to the
      address listed at the same place first, with its port; an inbound one exactly if its destination is. */
  lemma {:induction false} OneToOneExactly(c: Config, chunk: Chunk)
    requires OneToOneOk(c) && chunk.proto != OtherProto
    ensures if chunk.src.ip in c.localIPs
            then exists i: nat :: FirstAt(c.localIPs, i) && c.localIPs[i] == chunk.src.ip &&
                             OneToOneOutbound(c, chunk) == Translated(chunk.(src := Addr(c.mappedIPs[i], chunk.src.port)))
            else OneToOneOutbound(c, chunk) == Dropped
    ensures if chunk.dst.ip in c.mappedIPs
            then exists i: nat :: FirstAt(c.mappedIPs, i) && c.mappedIPs[i] == chunk.dst.ip &&
                             OneToOneInbound(c, chunk) == Translated(chunk.(dst := Addr(c.localIPs[i], chunk.dst.port)))
            else OneToOneInbound(c, chunk) == NoLocalAddress
  {
    PairedIsListed(c.localIPs, c.mappedIPs, chunk.src.ip);
    PairedIsListed(c.mappedIPs, c.localIPs, chunk.dst.ip);
    if chunk.src.ip in c.localIPs {
      var i := FirstOccurrence(c.localIPs, chunk.src.ip);
      PairOfFirst(c.localIPs, c.mappedIPs, i);
    }
    if chunk.dst.ip in c.mappedIPs {
      var i := FirstOccurrence(c.mappedIPs, chunk.dst.ip);
      PairOfFirst(c.mappedIPs, c.localIPs, i);
    }
  }
}
