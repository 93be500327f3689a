/** The NAT as built (vnet/nat.go): two indexes over shared mapping objects, with expired mappings
    removed only when a lookup meets them. */
module NatTable {
  import opened NatModel

  /** A mapping seen as a table row. */
  datatype Row = Row(mapped: Addr, filters: set<Key>, expires: int)

  /** The mappings under their outbound keys, and the port counters. */
  datatype Table = Table(rows: map<OKey, Row>, udp: nat, tcp: nat)

  function NextPort(t: Table, proto: Proto): nat {
    PortBase(proto) + (if proto == Udp then t.udp else t.tcp)
  }

  function AddRow(t: Table, k: OKey, row: Row): Table {
    Table(t.rows[k := row], t.udp + (if k.proto == Udp then 1 else 0), t.tcp + (if k.proto == Udp then 0 else 1))
  }

  predicate Hit(t: Table, k: OKey, now: int) {
    k in t.rows && now <= t.rows[k].expires
  }

  /** A live row is extended and lets the remote key in. */
  function TableHit(c: Config, t: Table, k: OKey, filter: Key, later: int): Table
    requires k in t.rows
  {
    var row := t.rows[k];
    t.(rows := t.rows[k := Row(row.mapped, row.filters + {filter}, later + c.lifetime)])
  }

  /** A new row is put on the next free port. */
  function TableMiss(c: Config, t: Table, chunk: Chunk, bound: Key, filter: Key, later: int): (Table, Result)
    requires |c.mappedIPs| > 0
  {
    var mapped := Addr(c.mappedIPs[0], NextPort(t, chunk.proto));
    if mapped.port > 65535 then (t, PortsExhausted)
    else (AddRow(t, OKey(chunk.proto, chunk.src, bound), Row(mapped, {filter}, later + c.lifetime)),
          Translated(chunk.(src := mapped)))
  }

  /** What an outbound chunk does to the table: a live row is used, an expired one is dropped first. */
  function TableOutbound(c: Config, t: Table, chunk: Chunk, now: int, later: int): (Table, Result)
    requires |c.mappedIPs| > 0
  {
    var k, filter := OKeyOf(c, chunk), KeyOf(c.filtering, chunk.dst);
    if chunk.proto == OtherProto then (t, Unsupported)
    else if Hit(t, k, now) then (TableHit(c, t, k, filter, later), Translated(chunk.(src := t.rows[k].mapped)))
    else TableMiss(c, t.(rows := t.rows - {k}), chunk, k.bound, filter, later)
  }

  predicate RowOwns(t: Table, k: OKey, proto: Proto, mapped: Addr) {
    k in t.rows && k.proto == proto && t.rows[k].mapped == mapped
  }

  /** What an inbound chunk does: it drops the row it meets if that has expired, and changes no other. */
  ghost predicate TableInbound(c: Config, t: Table, chunk: Chunk, now: int, t': Table, r: Result) {
    if chunk.proto == OtherProto then t' == t && r == Unsupported
    else if exists k :: RowOwns(t, k, chunk.proto, chunk.dst) then
      exists k :: RowOwns(t, k, chunk.proto, chunk.dst) &&
                  if now > t.rows[k].expires then t' == t.(rows := t.rows - {k}) && r == NoBinding
                  else t' == t && r == (if KeyOf(c.filtering, chunk.src) in t.rows[k].filters
                                        then Translated(chunk.(dst := k.local)) else NoPermission)
    else t' == t && r == NoBinding
  }

  predicate PortsBelow(t: Table) {
    forall k | k in t.rows :: t.rows[k].mapped.port < NextPort(t, k.proto)
  }

  lemma OutboundPortsBelow(c: Config, t: Table, chunk: Chunk, now: int, later: int)
    requires PortsBelow(t) && |c.mappedIPs| > 0
    ensures PortsBelow(TableOutbound(c, t, chunk, now, later).0)
  {}

  lemma LastWriteWins(rows: map<OKey, Row>, k: OKey, r: Row, r': Row)
    ensures rows[k := r][k := r'] == rows[k := r']
  {}

  class Mapping {
    const proto: Proto
    const local: Addr
    const mapped: Addr
    const bound: Key
    var filters: set<Key>
    var expires: int

    constructor (proto: Proto, local: Addr, mapped: Addr, bound: Key, expires: int)
      ensures this.proto == proto && this.local == local && this.mapped == mapped && this.bound == bound
      ensures this.filters == {} && this.expires == expires
    {
      this.proto, this.local, this.mapped, this.bound := proto, local, mapped, bound;
      this.filters, this.expires := {}, expires;
    }

    function OutKey(): OKey {
      OKey(proto, local, bound)
    }

    function InKey(): (Proto, Addr) {
      (proto, mapped)
    }

    ghost function AsRow(): Row
      reads this
    {
      Row(mapped, filters, expires)
    }
  }

  method NewMapping(chunk: Chunk, mapped: Addr, bound: Key, filter: Key, expires: int) returns (m: Mapping)
    ensures fresh(m) && m.OutKey() == OKey(chunk.proto, chunk.src, bound) && m.InKey() == (chunk.proto, mapped)
    ensures m.AsRow() == Row(mapped, {filter}, expires)
  {
    m := new Mapping(chunk.proto, chunk.src, mapped, bound, expires);
    m.filters := m.filters + {filter};
    assert m.filters == {filter};
  }

  class Translator {
    const c: Config
    var outboundMap: map<OKey, Mapping>
    var inboundMap: map<(Proto, Addr), Mapping>
    var udpPortCounter: nat
    var tcpPortCounter: nat

    /** The two indexes hold the same mappings, each under the keys rebuilt from its own fields. */
    ghost predicate Indexed()
      reads this`outboundMap, this`inboundMap
    {
      && (forall k | k in outboundMap ::
            var m := outboundMap[k]; m.OutKey() == k && m.InKey() in inboundMap && inboundMap[m.InKey()] == m)
      && (forall i | i in inboundMap ::
            var m := inboundMap[i]; m.InKey() == i && m.OutKey() in outboundMap && outboundMap[m.OutKey()] == m)
    }

    ghost function Rows(): map<OKey, Row>
      reads this`outboundMap, outboundMap.Values
    {
      map k | k in outboundMap :: outboundMap[k].AsRow()
    }

    ghost function View(): Table
      reads this, outboundMap.Values
    {
      Table(Rows(), udpPortCounter, tcpPortCounter)
    }

    ghost predicate Valid()
      reads this, outboundMap.Values
    {
      Indexed() && PortsBelow(View()) && ConfigOk(c)
    }

    constructor (c: Config)
      requires ConfigOk(c)
      ensures Valid() && this.c == c && View() == Table(map[], 0, 0)
    {
      this.c := c;
      outboundMap, inboundMap, udpPortCounter, tcpPortCounter := map[], map[], 0, 0;
    }

    /** Takes a mapping out of both indexes. */
    method RemoveMapping(m: Mapping)
      requires Indexed() && m.OutKey() in outboundMap && outboundMap[m.OutKey()] == m
      modifies this`outboundMap, this`inboundMap
      ensures Indexed() && outboundMap == old(outboundMap) - {m.OutKey()}
      ensures Rows() == old(Rows()) - {m.OutKey()}
    {
      outboundMap := outboundMap - {m.OutKey()};
      inboundMap := inboundMap - {m.InKey()};
    }

    /** Puts a mapping with new keys into both indexes. */
    method AddMapping(m: Mapping)
      requires Indexed() && m.OutKey() !in outboundMap && m.InKey() !in inboundMap
      modifies this`outboundMap, this`inboundMap
      ensures Indexed() && outboundMap == old(outboundMap)[m.OutKey() := m]
      ensures Rows() == old(Rows())[m.OutKey() := m.AsRow()]
    {
      outboundMap := outboundMap[m.OutKey() := m];
      inboundMap := inboundMap[m.InKey() := m];
    }

    /** A live mapping is extended; an expired one is removed. */
    method FindOutboundMapping(k: OKey, now: int, later: int) returns (m: Mapping?)
      requires Valid()
      modifies this`outboundMap, this`inboundMap, outboundMap.Values
      ensures Valid() && outboundMap.Values <= old(outboundMap.Values)
      ensures m != null <==> Hit(old(View()), k, now)
      ensures m != null ==>
                && m in old(outboundMap.Values) && Points(m, k)
                && m.AsRow() == old(View()).rows[k].(expires := later + c.lifetime)
                && View() == old(View()).(rows := old(View()).rows[k := m.AsRow()])
      ensures m == null ==> View() == old(View()).(rows := old(View()).rows - {k})
    {
      if k !in outboundMap {
        return null;
      }
      m := outboundMap[k];
      if now > m.expires {
        RemoveMapping(m);
        return null;
      }
      Extend(m, later + c.lifetime);
    }

    /** Sets when a mapping expires. */
    method Extend(m: Mapping, expires: int)
      requires Indexed() && m.OutKey() in outboundMap && outboundMap[m.OutKey()] == m
      modifies m`expires
      ensures m.AsRow() == old(m.AsRow()).(expires := expires)
      ensures Rows() == old(Rows())[m.OutKey() := m.AsRow()]
    {
      m.expires := expires;
    }

    /** The outbound index leads from k to m. */
    ghost predicate Points(m: Mapping, k: OKey)
      reads this`outboundMap
    {
      m.OutKey() == k && k in outboundMap && outboundMap[k] == m
    }

    /** Lets a remote key use a mapping. */
    method PermitAccess(m: Mapping, filter: Key)
      requires Indexed() && m.OutKey() in outboundMap && outboundMap[m.OutKey()] == m
      modifies m`filters
      ensures var row := old(m.AsRow());
              Rows() == old(Rows())[m.OutKey() := row.(filters := row.filters + {filter})]
    {
      if filter !in m.filters {
        m.filters := m.filters + {filter};
      }
      assert m.filters == old(m.filters) + {filter};
    }

    /** The next port of a protocol is in no index. */
    lemma NextPortIsFree(proto: Proto, ip: int)
      requires Valid()
      ensures (proto, Addr(ip, NextPort(View(), proto))) !in inboundMap
    {
      var i := (proto, Addr(ip, NextPort(View(), proto)));
      assert i in inboundMap ==> inboundMap[i].OutKey() in View().rows;
    }

    method CountPort(proto: Proto)
      modifies this`udpPortCounter, this`tcpPortCounter
      ensures udpPortCounter == old(udpPortCounter) + (if proto == Udp then 1 else 0)
      ensures tcpPortCounter == old(tcpPortCounter) + (if proto == Udp then 0 else 1)
    {
      if proto == Udp {
        udpPortCounter := udpPortCounter + 1;
      } else {
        tcpPortCounter := tcpPortCounter + 1;
      }
    }

    /** Creates a mapping on the next port of its protocol, or none if the ports have run out. */
    method CreateMapping(chunk: Chunk, bound: Key, filter: Key, expires: int) returns (m: Mapping?)
      requires Valid() && |c.mappedIPs| > 0
      requires OKey(chunk.proto, chunk.src, bound) !in outboundMap
      modifies this
      ensures Indexed()
      ensures m == null <==> NextPort(old(View()), chunk.proto) > 65535
      ensures m == null ==> unchanged(this)
      ensures m != null ==>
                && fresh(m) && outboundMap == old(outboundMap)[OKey(chunk.proto, chunk.src, bound) := m]
                && m.mapped == Addr(c.mappedIPs[0], NextPort(old(View()), chunk.proto))
                && View() == AddRow(old(View()), OKey(chunk.proto, chunk.src, bound), Row(m.mapped, {filter}, expires))
    {
      var counter := if chunk.proto == Udp then udpPortCounter else tcpPortCounter;
      var mappedPort := PortBase(chunk.proto) + counter;
      if mappedPort > 65535 {
        return null;
      }
      NextPortIsFree(chunk.proto, c.mappedIPs[0]);
      m := NewMapping(chunk, Addr(c.mappedIPs[0], mappedPort), bound, filter, expires);
      AddMapping(m);
      CountPort(chunk.proto);
    }

    /** The lookup missed, and an expired mapping is gone: make a new one. */
    method TranslateMiss(chunk: Chunk, now: int, later: int, ghost t: Table) returns (r: Result)
      requires Valid() && |c.mappedIPs| > 0 && chunk.proto != OtherProto
      requires var k := OKeyOf(c, chunk); !Hit(t, k, now) && View() == t.(rows := t.rows - {k})
      modifies this
      ensures Indexed() && fresh(outboundMap.Values - old(outboundMap.Values))
      ensures (View(), r) == TableOutbound(c, t, chunk, now, later)
    {
      var bound, filter := KeyOf(c.mapping, chunk.dst), KeyOf(c.filtering, chunk.dst);
      assert OKey(chunk.proto, chunk.src, bound) !in View().rows;
      var m := CreateMapping(chunk, bound, filter, later + c.lifetime);
      if m == null {
        return PortsExhausted;
      }
      return Translated(chunk.(src := m.mapped));
    }

    /** The lookup hit and extended the mapping: let the remote key in. */
    method TranslateHit(m: Mapping, chunk: Chunk, now: int, later: int, ghost t: Table) returns (r: Result)
      requires Indexed() && |c.mappedIPs| > 0 && chunk.proto != OtherProto
      requires var k := OKeyOf(c, chunk);
               && Points(m, k) && Hit(t, k, now) && m.AsRow() == t.rows[k].(expires := later + c.lifetime)
               && View() == t.(rows := t.rows[k := m.AsRow()])
      modifies m`filters
      ensures Indexed()
      ensures (View(), r) == TableOutbound(c, t, chunk, now, later)
    {
      var filter := KeyOf(c.filtering, chunk.dst);
      ghost var row := m.AsRow();
      PermitAccess(m, filter);
      LastWriteWins(t.rows, m.OutKey(), row, row.(filters := row.filters + {filter}));
      assert View() == TableHit(c, t, m.OutKey(), filter, later);
      return Translated(chunk.(src := m.mapped));
    }

    /** Normal mode, outbound. */
    method TranslateOutboundNAPT(chunk: Chunk, now: int, later: int) returns (r: Result)
      requires Valid() && |c.mappedIPs| > 0 && chunk.proto != OtherProto
      modifies this, outboundMap.Values
      ensures Indexed() && fresh(outboundMap.Values - old(outboundMap.Values))
      ensures (View(), r) == TableOutbound(c, old(View()), chunk, now, later)
    {
      var k := OKey(chunk.proto, chunk.src, KeyOf(c.mapping, chunk.dst));
      ghost var t := View();
      var m := FindOutboundMapping(k, now, later);
      if m == null {
        r := TranslateMiss(chunk, now, later, t);
      } else {
        r := TranslateHit(m, chunk, now, later, t);
      }
    }

    /** A live mapping is found and left alone; an expired one is removed. */
    method FindInboundMapping(i: (Proto, Addr), now: int) returns (m: Mapping?)
      requires Indexed()
      modifies this`outboundMap, this`inboundMap
      ensures Indexed() && outboundMap.Values <= old(outboundMap.Values)
      ensures m != null ==>
                && outboundMap == old(outboundMap) && m.OutKey() in outboundMap && outboundMap[m.OutKey()] == m
                && m.InKey() == i && now <= m.expires
      ensures m == null && i in old(inboundMap) ==>
                var k := old(inboundMap[i].OutKey());
                k in old(Rows()) && Rows() == old(Rows()) - {k} && old(Rows())[k].expires < now
      ensures m == null && i !in old(inboundMap) ==> outboundMap == old(outboundMap)
    {
      if i !in inboundMap {
        return null;
      }
      m := inboundMap[i];
      if now > m.expires {
        RemoveMapping(m);
        return null;
      }
    }

    /** An address is in the inbound index exactly if some row owns it. */
    lemma OwnerIndexed(i: (Proto, Addr))
      requires Indexed()
      ensures i in inboundMap ==> RowOwns(View(), inboundMap[i].OutKey(), i.0, i.1)
      ensures i !in inboundMap ==> forall k :: !RowOwns(View(), k, i.0, i.1)
    {}

    /** Normal mode, inbound. */
    method TranslateInboundNAPT(chunk: Chunk, now: int) returns (r: Result)
      requires Valid() && chunk.proto != OtherProto
      modifies this`outboundMap, this`inboundMap
      ensures Valid() && outboundMap.Values <= old(outboundMap.Values)
      ensures TableInbound(c, old(View()), chunk, now, View(), r)
    {
      OwnerIndexed((chunk.proto, chunk.dst));
      var m := FindInboundMapping((chunk.proto, chunk.dst), now);
      if m == null {
        return NoBinding;
      }
      if KeyOf(c.filtering, chunk.src) !in m.filters {
        return NoPermission;
      }
      return Translated(chunk.(dst := m.local));
    }

    /** 1:1 mode: the external address paired with a local one. */
    method GetPairedMappedIP(locIP: int) returns (p: Paired)
      requires |c.mappedIPs| == |c.localIPs|
      ensures p == PairOf(c.localIPs, c.mappedIPs, locIP)
    {
      for i := 0 to |c.localIPs|
        invariant PairOf(c.localIPs, c.mappedIPs, locIP) == PairOf(c.localIPs[i..], c.mappedIPs[i..], locIP)
      {
        if c.localIPs[i] == locIP {
          return PairedWith(c.mappedIPs[i]);
        }
        assert c.localIPs[i..][1..] == c.localIPs[i + 1..] && c.mappedIPs[i..][1..] == c.mappedIPs[i + 1..];
      }
      return Unpaired;
    }

    /** 1:1 mode: the local address paired with an external one. */
    method GetPairedLocalIP(mappedIP: int) returns (p: Paired)
      requires |c.mappedIPs| == |c.localIPs|
      ensures p == PairOf(c.mappedIPs, c.localIPs, mappedIP)
    {
      for i := 0 to |c.mappedIPs|
        invariant PairOf(c.mappedIPs, c.localIPs, mappedIP) == PairOf(c.mappedIPs[i..], c.localIPs[i..], mappedIP)
      {
        if c.mappedIPs[i] == mappedIP {
          return PairedWith(c.localIPs[i]);
        }
        assert c.mappedIPs[i..][1..] == c.mappedIPs[i + 1..] && c.localIPs[i..][1..] == c.localIPs[i + 1..];
      }
      return Unpaired;
    }

    /** Outbound, both modes. */
    method TranslateOutbound(chunk: Chunk, now: int, later: int) returns (r: Result)
      requires Valid() && |c.mappedIPs| > 0
      modifies this, outboundMap.Values
      ensures Valid() && fresh(outboundMap.Values - old(outboundMap.Values))
      ensures if c.oneToOne then View() == old(View()) && r == OneToOneOutbound(c, chunk)
              else (View(), r) == TableOutbound(c, old(View()), chunk, now, later)
    {
      if chunk.proto == OtherProto {
        return Unsupported;
      }
      if c.oneToOne {
        var p := GetPairedMappedIP(chunk.src.ip);
        return if p.Unpaired? then Dropped else Translated(chunk.(src := Addr(p.ip, chunk.src.port)));
      }
      OutboundPortsBelow(c, View(), chunk, now, later);
      r := TranslateOutboundNAPT(chunk, now, later);
    }

    /** Inbound, both modes. */
    method TranslateInbound(chunk: Chunk, now: int) returns (r: Result)
      requires Valid()
      modifies this`outboundMap, this`inboundMap
      ensures Valid() && outboundMap.Values <= old(outboundMap.Values)
      ensures if c.oneToOne then View() == old(View()) && r == OneToOneInbound(c, chunk)
              else TableInbound(c, old(View()), chunk, now, View(), r)
    {
      if chunk.proto == OtherProto {
        return Unsupported;
      }
      if c.oneToOne {
        var p := GetPairedLocalIP(chunk.dst.ip);
        return if p.Unpaired? then NoLocalAddress else Translated(chunk.(dst := Addr(p.ip, chunk.dst.port)));
      }
      r := TranslateInboundNAPT(chunk, now);
    }
  }
  /** A translator for a checked configuration, or the error. */
  method NewNAT(given: Config) returns (t: Translator?, r: ConfigResult)
    ensures r == Checked(given) && (t != null <==> r.Accepted?)
    ensures t != null ==> fresh(t) && t.Valid() && t.c == r.c && t.View() == Table(map[], 0, 0)
  {
    r := Checked(given);
    t := null;
    if r.Accepted? {
      t := new Translator(r.c);
    }
  }
}
