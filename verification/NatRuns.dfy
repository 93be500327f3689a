/** Histories of outbound and inbound chunks through a NAT (vnet/nat.go): the built table answers as the
    plain model does. */
module NatRuns {
  import opened NatModel
  import opened NatTable

  datatype Event = Out(chunk: Chunk, now: int, later: int) | In(chunk: Chunk, now: int)

  function End(e: Event): int {
    if e.Out? then e.later else e.now
  }

  function Clock(start: int, events: seq<Event>): int {
    if events == [] then start else End(events[|events| - 1])
  }

  /** The clock never goes back, within a call or from call to call. */
  predicate Timed(start: int, events: seq<Event>) {
    events == [] ||
    var before, e := events[..|events| - 1], events[|events| - 1];
    && Timed(start, before) && Clock(start, before) <= e.now
    && (e.Out? ==> e.now <= e.later)
  }

  function Step(c: Config, s: Nat, e: Event): Nat
    requires |c.mappedIPs| > 0
  {
    match e
    case Out(chunk, now, later) => Outbound(c, s, chunk, now, later).0
    case In(_, now) => Inbound(s, now)
  }

  function Run(c: Config, start: int, events: seq<Event>): Nat
    requires |c.mappedIPs| > 0
  {
    if events == [] then Nat(map[], [], [], start, 0)
    else Step(c, Run(c, start, events[..|events| - 1]), events[|events| - 1])
  }

  lemma {:induction false} RunOk(c: Config, start: int, events: seq<Event>)
    requires |c.mappedIPs| > 0
    ensures PortsOk(c, Run(c, start, events)) && Run(c, start, events).calls == |events|
    ensures Run(c, start, events).clock == Clock(start, events)
  {
    if events != [] {
      var before, e := events[..|events| - 1], events[|events| - 1];
      RunOk(c, start, before);
      if e.Out? {
        OutboundPorts(c, Run(c, start, before), e.chunk, e.now, e.later);
      }
    }
  }

  // ---- The built table refines the model ----

  function RowFor(b: Binding): Row {
    Row(b.mapped, b.filters, b.expires)
  }

  /** The rows hold every binding of the model that can still be live. */
  predicate Represents(c: Config, t: Table, s: Nat) {
    && PortsOk(c, s)
    && t.udp == |s.udpMade| && t.tcp == |s.tcpMade|
    && (forall k | k in t.rows :: k in s.bindings && t.rows[k] == RowFor(s.bindings[k]))
    && (forall k | k in s.bindings && k !in t.rows :: s.bindings[k].expires < s.clock)
  }

  lemma SameHit(c: Config, t: Table, s: Nat, k: OKey, now: int)
    requires Represents(c, t, s) && s.clock <= now
    ensures Hit(t, k, now) <==> Live(s, k, now)
  {}

  predicate SameElsewhere<V(==)>(m: map<OKey, V>, m': map<OKey, V>, k: OKey) {
    && (forall x | x in m && x != k :: x in m' && m'[x] == m[x])
    && (forall x | x in m' && x != k :: x in m)
  }

  /** Putting a row and its binding under the same key keeps the representation. */
  lemma PutBoth(c: Config, t: Table, s: Nat, t': Table, s': Nat, k: OKey)
    requires Represents(c, t, s) && PortsOk(c, s') && s.clock <= s'.clock
    requires t'.udp == |s'.udpMade| && t'.tcp == |s'.tcpMade|
    requires k in t'.rows && k in s'.bindings && t'.rows[k] == RowFor(s'.bindings[k])
    requires SameElsewhere(t'.rows, t.rows, k) && SameElsewhere(s'.bindings, s.bindings, k)
    ensures Represents(c, t', s')
  {}

  lemma HitRefines(c: Config, t: Table, s: Nat, chunk: Chunk, now: int, later: int)
    requires Represents(c, t, s) && s.clock <= now <= later && chunk.proto != OtherProto
    requires Hit(t, OKeyOf(c, chunk), now)
    ensures var (t', r) := TableOutbound(c, t, chunk, now, later);
            r == Outbound(c, s, chunk, now, later).1 && Represents(c, t', Outbound(c, s, chunk, now, later).0)
  {
    var k := OKeyOf(c, chunk);
    SameHit(c, t, s, k, now);
    OutboundPorts(c, s, chunk, now, later);
    var t', s' := TableOutbound(c, t, chunk, now, later).0, Outbound(c, s, chunk, now, later).0;
    PutBoth(c, t, s, t', s', k);
  }

  lemma CreateRefines(c: Config, t: Table, s: Nat, chunk: Chunk, now: int, later: int)
    requires Represents(c, t, s) && s.clock <= now <= later && chunk.proto != OtherProto
    requires !Hit(t, OKeyOf(c, chunk), now) && NextPort(t, chunk.proto) <= 65535
    ensures var (t', r) := TableOutbound(c, t, chunk, now, later);
            r == Outbound(c, s, chunk, now, later).1 && Represents(c, t', Outbound(c, s, chunk, now, later).0)
  {
    var k := OKeyOf(c, chunk);
    SameHit(c, t, s, k, now);
    OutboundPorts(c, s, chunk, now, later);
    var t', s' := TableOutbound(c, t, chunk, now, later).0, Outbound(c, s, chunk, now, later).0;
    PutBoth(c, t, s, t', s', k);
  }

  lemma ExhaustedRefines(c: Config, t: Table, s: Nat, chunk: Chunk, now: int, later: int)
    requires Represents(c, t, s) && s.clock <= now <= later && chunk.proto != OtherProto
    requires !Hit(t, OKeyOf(c, chunk), now) && NextPort(t, chunk.proto) > 65535
    ensures var (t', r) := TableOutbound(c, t, chunk, now, later);
            r == Outbound(c, s, chunk, now, later).1 && Represents(c, t', Outbound(c, s, chunk, now, later).0)
  {
    SameHit(c, t, s, OKeyOf(c, chunk), now);
    TouchPorts(c, s, OKeyOf(c, chunk), now, later);
  }

  lemma OutboundRefines(c: Config, t: Table, s: Nat, chunk: Chunk, now: int, later: int)
    requires Represents(c, t, s) && s.clock <= now <= later
    ensures var (t', r) := TableOutbound(c, t, chunk, now, later);
            r == Outbound(c, s, chunk, now, later).1 && Represents(c, t', Outbound(c, s, chunk, now, later).0)
  {
    if chunk.proto != OtherProto {
      if Hit(t, OKeyOf(c, chunk), now) {
        HitRefines(c, t, s, chunk, now, later);
      } else if NextPort(t, chunk.proto) <= 65535 {
        CreateRefines(c, t, s, chunk, now, later);
      } else {
        ExhaustedRefines(c, t, s, chunk, now, later);
      }
    }
  }

  lemma SameOwner(c: Config, t: Table, s: Nat, proto: Proto, mapped: Addr, now: int, k: OKey)
    requires Represents(c, t, s) && s.clock <= now
    ensures Owns(s, k, proto, mapped, now) <==> RowOwns(t, k, proto, mapped) && now <= t.rows[k].expires
  {
    SameHit(c, t, s, k, now);
  }

  lemma OneRowOwns(c: Config, t: Table, s: Nat, proto: Proto, mapped: Addr, k: OKey, k': OKey)
    requires Represents(c, t, s) && RowOwns(t, k, proto, mapped) && RowOwns(t, k', proto, mapped)
    ensures k == k'
  {
    assert BindingOk(c, s, k, s.bindings[k]) && BindingOk(c, s, k', s.bindings[k']);
  }

  lemma InboundRefines(c: Config, t: Table, s: Nat, chunk: Chunk, now: int, t': Table, r: Result)
    requires Represents(c, t, s) && s.clock <= now
    requires TableInbound(c, t, chunk, now, t', r)
    ensures InboundResult(c, s, chunk, now, r) && Represents(c, t', Inbound(s, now))
  {
    if chunk.proto != OtherProto {
      if k :| RowOwns(t, k, chunk.proto, chunk.dst) {
        forall k' | RowOwns(t, k', chunk.proto, chunk.dst)
          ensures k' == k
        {
          OneRowOwns(c, t, s, chunk.proto, chunk.dst, k, k');
        }
        OwnedRefines(c, t, s, chunk, now, k);
      } else {
        forall k
          ensures !Owns(s, k, chunk.proto, chunk.dst, now)
        {
          SameOwner(c, t, s, chunk.proto, chunk.dst, now, k);
        }
      }
    }
  }

  lemma OwnedRefines(c: Config, t: Table, s: Nat, chunk: Chunk, now: int, k: OKey)
    requires Represents(c, t, s) && s.clock <= now && chunk.proto != OtherProto
    requires RowOwns(t, k, chunk.proto, chunk.dst)
    ensures now <= t.rows[k].expires ==> forall r :: InboundResult(c, s, chunk, now, r) <==> r == Admit(c, s, k, chunk)
    ensures now > t.rows[k].expires ==>
              && InboundResult(c, s, chunk, now, NoBinding)
              && Represents(c, t.(rows := t.rows - {k}), Inbound(s, now))
    ensures Represents(c, t, Inbound(s, now)) && k in s.bindings && t.rows[k].filters == s.bindings[k].filters
  {
    if now <= t.rows[k].expires {
      forall r
        ensures InboundResult(c, s, chunk, now, r) <==> r == Admit(c, s, k, chunk)
      {
        OwnerDecides(c, s, k, chunk, now, r);
      }
    } else {
      forall k'
        ensures !Owns(s, k', chunk.proto, chunk.dst, now)
      {
        SameOwner(c, t, s, chunk.proto, chunk.dst, now, k');
        if RowOwns(t, k', chunk.proto, chunk.dst) {
          OneRowOwns(c, t, s, chunk.proto, chunk.dst, k, k');
        }
      }
    }
  }

  /** A history of the built table: the tables passed through and the results given. */
  ghost predicate TableRun(c: Config, events: seq<Event>, tables: seq<Table>, results: seq<Result>)
    requires |c.mappedIPs| > 0
  {
    && |tables| == |events| + 1 && |results| == |events|
    && tables[0] == Table(map[], 0, 0)
    && forall i | 0 <= i < |events| ::
         match events[i]
         case Out(chunk, now, later) => (tables[i + 1], results[i]) == TableOutbound(c, tables[i], chunk, now, later)
         case In(chunk, now) => TableInbound(c, tables[i], chunk, now, tables[i + 1], results[i])
  }

  /** In every history, with lazy removal and two indexes, each result is the plain model's. */
  lemma {:induction false} TableRunRefines(c: Config, start: int, events: seq<Event>, tables: seq<Table>, results: seq<Result>)
    requires |c.mappedIPs| > 0 && Timed(start, events) && TableRun(c, events, tables, results)
    ensures Represents(c, tables[|events|], Run(c, start, events))
    ensures events != [] ==>
              var e, s, r := events[|events| - 1], Run(c, start, events[..|events| - 1]), results[|events| - 1];
              if e.Out? then r == Outbound(c, s, e.chunk, e.now, e.later).1 else InboundResult(c, s, e.chunk, e.now, r)
  {
    if events != [] {
      var n := |events| - 1;
      var before, e := events[..n], events[n];
      assert TableRun(c, before, tables[..n + 1], results[..n]);
      TableRunRefines(c, start, before, tables[..n + 1], results[..n]);
      RunOk(c, start, before);
      var s := Run(c, start, before);
      if e.Out? {
        OutboundRefines(c, tables[n], s, e.chunk, e.now, e.later);
      } else {
        InboundRefines(c, tables[n], s, e.chunk, e.now, tables[n + 1], results[n]);
      }
    }
  }
}
