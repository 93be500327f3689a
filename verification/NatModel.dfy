/** What a NAT should do (vnet/nat.go): a table from internal endpoints to external addresses, without
    indexes and without removal. Addresses and keys are structured values instead of formatted strings. */
module NatModel {

  datatype Proto = Udp | Tcp | OtherProto

  datatype Addr = Addr(ip: int, port: int)

  datatype Chunk = Chunk(proto: Proto, src: Addr, dst: Addr, data: int)

  datatype Dependency = Independent | AddrDependent | AddrPortDependent

  /** The part of a remote endpoint that a behaviour depends on. */
  datatype Key = AnyRemote | RemoteIp(ip: int) | RemoteAddr(addr: Addr)

  function KeyOf(dep: Dependency, remote: Addr): Key {
    match dep
    case Independent => AnyRemote
    case AddrDependent => RemoteIp(remote.ip)
    case AddrPortDependent => RemoteAddr(remote)
  }

  /** Which remotes a behaviour treats alike (sections 4.1 and 5 of RFC 4787). */
  predicate Alike(dep: Dependency, a: Addr, b: Addr) {
    match dep
    case Independent => true
    case AddrDependent => a.ip == b.ip
    case AddrPortDependent => a.ip == b.ip && a.port == b.port
  }

  /** Two remotes have the same key exactly if the behaviour treats them alike. */
  lemma SameKeyIff(dep: Dependency, a: Addr, b: Addr)
    ensures KeyOf(dep, a) == KeyOf(dep, b) <==> Alike(dep, a, b)
  {}

  datatype Config = Config(oneToOne: bool, mapping: Dependency, filtering: Dependency, lifetime: int,
                           mappedIPs: seq<int>, localIPs: seq<int>)

  datatype ConfigResult = Accepted(c: Config) | RequiresMapping | LengthMismatch

  const DEFAULT_LIFETIME: int := 30_000_000_000

  /** What newNAT leaves in a configuration. */
  predicate ConfigOk(c: Config) {
    if c.oneToOne then OneToOneOk(c) else c.lifetime != 0
  }

  predicate OneToOneOk(c: Config) {
    c.oneToOne && |c.mappedIPs| == |c.localIPs| > 0
  }

  /** newNAT: 1:1 mode needs as many mapped as local addresses, at least one, and fixes the behaviours; in
      normal mode a zero lifetime means the default. */
  function Checked(c: Config): (r: ConfigResult)
    ensures r.Accepted? <==> (c.oneToOne ==> |c.mappedIPs| == |c.localIPs| > 0)
    ensures r.RequiresMapping? <==> c.oneToOne && c.mappedIPs == []
    ensures r.Accepted? ==> ConfigOk(r.c) && r.c.(mapping := c.mapping, filtering := c.filtering, lifetime := c.lifetime) == c
    ensures r.Accepted? && c.oneToOne ==> r.c.mapping == r.c.filtering == Independent && r.c.lifetime == 0
    ensures r.Accepted? && !c.oneToOne ==> r.c == c || (c.lifetime == 0 && r.c.lifetime == DEFAULT_LIFETIME)
    ensures ConfigOk(c) && !c.oneToOne ==> r == Accepted(c)
  {
    if c.oneToOne then
      if c.mappedIPs == [] then RequiresMapping
      else if |c.mappedIPs| != |c.localIPs| then LengthMismatch
      else Accepted(c.(mapping := Independent, filtering := Independent, lifetime := 0))
    else
      Accepted(if c.lifetime == 0 then c.(lifetime := DEFAULT_LIFETIME) else c)
  }

  /** The key of an outbound mapping. */
  datatype OKey = OKey(proto: Proto, local: Addr, bound: Key)

  /** An external address in use. `created` and `refreshed` number the calls that made and last used it. */
  datatype Binding = Binding(mapped: Addr, filters: set<Key>, expires: int, created: nat, refreshed: nat)

  /** `udpMade` and `tcpMade` list, in order, the keys for which a port was ever taken; their lengths are
      the port counters. `clock` is the latest time reading, `calls` the number of calls so far. */
  datatype Nat = Nat(bindings: map<OKey, Binding>, udpMade: seq<OKey>, tcpMade: seq<OKey>,
                     clock: int, calls: nat)

  datatype Result = Translated(chunk: Chunk) | Dropped | PortsExhausted | Unsupported
                  | NoBinding | NoPermission | NoLocalAddress

  function PortBase(proto: Proto): nat {
    if proto == Udp then 0xC000 else 0x8000
  }

  function MadeFor(s: Nat, proto: Proto): seq<OKey> {
    if proto == Udp then s.udpMade else s.tcpMade
  }

  function OKeyOf(c: Config, chunk: Chunk): OKey {
    OKey(chunk.proto, chunk.src, KeyOf(c.mapping, chunk.dst))
  }

  predicate Live(s: Nat, k: OKey, now: int) {
    k in s.bindings && now <= s.bindings[k].expires
  }

  /** A call reads the clock; an outbound call also extends the binding it finds live. */
  function Touch(c: Config, s: Nat, k: OKey, now: int, later: int): Nat {
    var s' := s.(clock := later, calls := s.calls + 1);
    if Live(s, k, now)
    then s'.(bindings := s.bindings[k := s.bindings[k].(expires := later + c.lifetime, refreshed := s.calls)])
    else s'
  }

  function Permit(s: Nat, k: OKey, filter: Key): Nat
    requires k in s.bindings
  {
    s.(bindings := s.bindings[k := s.bindings[k].(filters := s.bindings[k].filters + {filter})])
  }

  function NextAddr(c: Config, s: Nat, proto: Proto): Addr
    requires |c.mappedIPs| > 0
  {
    Addr(c.mappedIPs[0], PortBase(proto) + |MadeFor(s, proto)|)
  }

  function Create(c: Config, s: Nat, k: OKey, filter: Key, expires: int): Nat
    requires |c.mappedIPs| > 0 && s.calls > 0
  {
    var b := Binding(NextAddr(c, s, k.proto), {filter}, expires, s.calls - 1, s.calls - 1);
    s.(bindings := s.bindings[k := b],
       udpMade := if k.proto == Udp then s.udpMade + [k] else s.udpMade,
       tcpMade := if k.proto == Udp then s.tcpMade else s.tcpMade + [k])
  }

  /** An outbound chunk uses its live binding and extends it, or gets a new one on the next free port.
      The clock is read twice: `now` for the expiry test and `later` for the new expiry. */
  function Outbound(c: Config, s: Nat, chunk: Chunk, now: int, later: int): (Nat, Result)
    requires |c.mappedIPs| > 0
  {
    var k, filter := OKeyOf(c, chunk), KeyOf(c.filtering, chunk.dst);
    if chunk.proto == OtherProto then (s.(clock := later, calls := s.calls + 1), Unsupported)
    else
      var touched := Touch(c, s, k, now, later);
      if Live(s, k, now) then
        (Permit(touched, k, filter), Translated(chunk.(src := s.bindings[k].mapped)))
      else if NextAddr(c, s, chunk.proto).port > 65535 then (touched, PortsExhausted)
      else (Create(c, touched, k, filter, later + c.lifetime), Translated(chunk.(src := NextAddr(c, s, chunk.proto))))
  }

  /** The binding behind an external address at a given time. */
  predicate Owns(s: Nat, k: OKey, proto: Proto, mapped: Addr, now: int) {
    Live(s, k, now) && k.proto == proto && s.bindings[k].mapped == mapped
  }

  function Admit(c: Config, s: Nat, k: OKey, chunk: Chunk): Result
    requires k in s.bindings
  {
    if KeyOf(c.filtering, chunk.src) in s.bindings[k].filters then Translated(chunk.(dst := k.local)) else NoPermission
  }

  /** An inbound chunk goes to the owner of its destination, if the filter lets it; nothing is extended. */
  ghost predicate InboundResult(c: Config, s: Nat, chunk: Chunk, now: int, r: Result) {
    if chunk.proto == OtherProto then r == Unsupported
    else if exists k :: Owns(s, k, chunk.proto, chunk.dst, now) then
      exists k :: Owns(s, k, chunk.proto, chunk.dst, now) && r == Admit(c, s, k, chunk)
    else r == NoBinding
  }

  function Inbound(s: Nat, now: int): Nat {
    s.(clock := now, calls := s.calls + 1)
  }

  /** The key for which a port of a protocol was taken, if it was. */
  predicate TakenFor(s: Nat, proto: Proto, port: int, k: OKey) {
    var made := MadeFor(s, proto);
    0 <= port - PortBase(proto) < |made| && made[port - PortBase(proto)] == k
  }

  predicate BindingOk(c: Config, s: Nat, k: OKey, b: Binding)
    requires |c.mappedIPs| > 0
  {
    k.proto != OtherProto && b.mapped.ip == c.mappedIPs[0] && TakenFor(s, k.proto, b.mapped.port, k)
  }

  /** Every external port in use was taken for the key that uses it, and no port beyond 65535 was. */
  predicate PortsOk(c: Config, s: Nat) {
    && |c.mappedIPs| > 0
    && |s.udpMade| <= 0x4000 && |s.tcpMade| <= 0x8000
    && forall k | k in s.bindings :: BindingOk(c, s, k, s.bindings[k])
  }

  lemma CreatePorts(c: Config, s: Nat, k: OKey, filter: Key, expires: int)
    requires PortsOk(c, s) && s.calls > 0 && k.proto != OtherProto && NextAddr(c, s, k.proto).port <= 65535
    ensures PortsOk(c, Create(c, s, k, filter, expires))
  {}

  lemma TouchPorts(c: Config, s: Nat, k: OKey, now: int, later: int)
    requires PortsOk(c, s)
    ensures PortsOk(c, Touch(c, s, k, now, later))
  {}

  lemma PermitPorts(c: Config, s: Nat, k: OKey, filter: Key)
    requires PortsOk(c, s) && k in s.bindings
    ensures PortsOk(c, Permit(s, k, filter))
  {}

  lemma OutboundPorts(c: Config, s: Nat, chunk: Chunk, now: int, later: int)
    requires PortsOk(c, s)
    ensures PortsOk(c, Outbound(c, s, chunk, now, later).0)
  {
    var k, filter := OKeyOf(c, chunk), KeyOf(c.filtering, chunk.dst);
    TouchPorts(c, s, k, now, later);
    var touched := Touch(c, s, k, now, later);
    var s' := Outbound(c, s, chunk, now, later).0;
    if chunk.proto != OtherProto {
      if Live(s, k, now) {
        PermitPorts(c, touched, k, filter);
        assert s' == Permit(touched, k, filter);
      } else if NextAddr(c, s, chunk.proto).port <= 65535 {
        CreatePorts(c, touched, k, filter, later + c.lifetime);
        assert s' == Create(c, touched, k, filter, later + c.lifetime);
      } else {
        assert s' == touched;
      }
    }
  }

  lemma OneOwner(c: Config, s: Nat, k: OKey, k': OKey, proto: Proto, mapped: Addr, now: int)
    requires PortsOk(c, s) && Owns(s, k, proto, mapped, now) && Owns(s, k', proto, mapped, now)
    ensures k == k'
  {}

  /** The owner alone decides an inbound chunk. */
  lemma OwnerDecides(c: Config, s: Nat, k: OKey, chunk: Chunk, now: int, r: Result)
    requires PortsOk(c, s) && chunk.proto != OtherProto && Owns(s, k, chunk.proto, chunk.dst, now)
    ensures InboundResult(c, s, chunk, now, r) <==> r == Admit(c, s, k, chunk)
  {
    forall k' | Owns(s, k', chunk.proto, chunk.dst, now)
      ensures k' == k
    {
      OneOwner(c, s, k, k', chunk.proto, chunk.dst, now);
    }
  }

  // ---- 1:1 mode ----

  datatype Paired = Unpaired | PairedWith(ip: int)

  /** The value paired with the first occurrence of x. */
  function PairOf(keys: seq<int>, values: seq<int>, x: int): Paired
    requires |keys| == |values|
  {
    if keys == [] then Unpaired
    else if keys[0] == x then PairedWith(values[0])
    else PairOf(keys[1..], values[1..], x)
  }

  /** 1:1 mode replaces the address and keeps the port. */
  function OneToOneOutbound(c: Config, chunk: Chunk): Result
    requires OneToOneOk(c)
  {
    if chunk.proto == OtherProto then Unsupported
    else
      match PairOf(c.localIPs, c.mappedIPs, chunk.src.ip)
      case Unpaired => Dropped
      case PairedWith(ip) => Translated(chunk.(src := Addr(ip, chunk.src.port)))
  }

  function OneToOneInbound(c: Config, chunk: Chunk): Result
    requires OneToOneOk(c)
  {
    if chunk.proto == OtherProto then Unsupported
    else
      match PairOf(c.mappedIPs, c.localIPs, chunk.dst.ip)
      case Unpaired => NoLocalAddress
      case PairedWith(ip) => Translated(chunk.(dst := Addr(ip, chunk.dst.port)))
  }
}
