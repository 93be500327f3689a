/** The queue of packets, its framing in bytes, and the circular layout (packetio/buffer.go). */
module PacketFormat {

  type Byte = b: nat | b < 256

  datatype Attribute = Attribute(key: int, value: int)
  type Attributes = seq<Attribute>

  datatype Packet = Packet(payload: seq<Byte>, attributes: Attributes)

  const MIN_SIZE: nat := 2048
  const CUTOFF_SIZE: nat := 128 * 1024
  const MAX_SIZE: nat := 4 * 1024 * 1024
  const HEADER_SIZE: nat := 2

  predicate Fits(p: Packet) {
    |p.payload| < 0x10000
  }

  predicate AllFit(ps: seq<Packet>) {
    forall i | 0 <= i < |ps| :: Fits(ps[i])
  }

  /** Big-endian length. */
  function Header(n: nat): seq<Byte>
    requires n < 0x10000
  {
    [n / 256, n % 256]
  }

  function Encode(p: Packet): seq<Byte>
    requires Fits(p)
  {
    Header(|p.payload|) + p.payload
  }

  function EncodeAll(ps: seq<Packet>): seq<Byte>
    requires AllFit(ps)
  {
    if ps == [] then [] else Encode(ps[0]) + EncodeAll(ps[1..])
  }

  /** Queued payload bytes plus two framing bytes per packet. */
  function TotalSize(ps: seq<Packet>): nat {
    if ps == [] then 0 else |ps[0].payload| + HEADER_SIZE + TotalSize(ps[1..])
  }

  lemma {:induction false} EncodedSize(ps: seq<Packet>)
    requires AllFit(ps)
    ensures |EncodeAll(ps)| == TotalSize(ps)
  {
    if ps != [] {
      EncodedSize(ps[1..]);
    }
  }

  lemma {:induction false} EncodeAppend(ps: seq<Packet>, p: Packet)
    requires AllFit(ps) && Fits(p)
    ensures AllFit(ps + [p]) && EncodeAll(ps + [p]) == EncodeAll(ps) + Encode(p)
  {
    if ps == [] {
      assert ps + [p] == [p];
      assert EncodeAll([]) == [];
    } else {
      EncodeAppend(ps[1..], p);
      assert (ps + [p])[1..] == ps[1..] + [p];
    }
  }

  datatype Decoded = Malformed | Payloads(ps: seq<seq<Byte>>)

  /** An independent reader of the framing: the list of payloads, if the bytes are whole frames. */
  function DecodeAll(bytes: seq<Byte>): Decoded {
    if bytes == [] then Payloads([])
    else if |bytes| < 2 then Malformed
    else
      var n: nat := 256 * (bytes[0] as int) + bytes[1] as int;
      if |bytes| < 2 + n then Malformed
      else
        match DecodeAll(bytes[2 + n..])
        case Malformed => Malformed
        case Payloads(ps) => Payloads([bytes[2..2 + n]] + ps)
  }

  function PayloadsOf(ps: seq<Packet>): seq<seq<Byte>> {
    seq(|ps|, i requires 0 <= i < |ps| => ps[i].payload)
  }

  /** Decoding the frames gives back exactly the queued payloads. */
  lemma {:induction false} DecodeEncode(ps: seq<Packet>)
    requires AllFit(ps)
    ensures DecodeAll(EncodeAll(ps)) == Payloads(PayloadsOf(ps))
  {
    if ps != [] {
      var p, rest := ps[0], EncodeAll(ps[1..]);
      var bytes, n := EncodeAll(ps), |ps[0].payload|;
      assert bytes[0] == n / 256 && bytes[1] == n % 256;
      assert bytes[2..2 + n] == p.payload && bytes[2 + n..] == rest;
      DecodeEncode(ps[1..]);
      assert PayloadsOf(ps) == [p.payload] + PayloadsOf(ps[1..]);
    }
  }

  // ---- Circular layout ----

  /** Position i of a ring of n slots, for a position that went round the end at most once. */
  function Wrapped(i: nat, n: nat): nat {
    if i >= n then i - n else i
  }

  predicate RingOk(n: nat, head: nat, len: nat) {
    len <= n && (if n == 0 then head == 0 else head < n)
  }

  function At<T>(d: seq<T>, head: nat, i: nat): T
    requires head < |d| && i < |d|
  {
    d[Wrapped(head + i, |d|)]
  }

  /** The `len` elements from position head on, going round the end of the array. */
  function Ring<T>(d: seq<T>, head: nat, len: nat): (r: seq<T>)
    requires RingOk(|d|, head, len)
    ensures |r| == len && forall i | 0 <= i < len :: r[i] == At(d, head, i)
  {
    seq(len, i requires 0 <= i < len => At(d, head, i))
  }

  lemma RingAppend<T>(d: seq<T>, d': seq<T>, head: nat, len: nat, src: seq<T>)
    requires RingOk(|d|, head, len) && |d'| == |d| && len + |src| <= |d|
    requires forall i | 0 <= i < len :: At(d', head, i) == At(d, head, i)
    requires forall j | 0 <= j < |src| :: At(d', Wrapped(head + len, |d|), j) == src[j]
    ensures Ring(d', head, len + |src|) == Ring(d, head, len) + src
  {
    forall i {:trigger At(d', head, i)} | len <= i < len + |src|
      ensures At(d', head, i) == src[i - len]
    {
      assert At(d', Wrapped(head + len, |d|), i - len) == src[i - len];
    }
  }

  lemma RingDrop<T>(d: seq<T>, head: nat, len: nat, k: nat)
    requires RingOk(|d|, head, len) && k <= len
    ensures RingOk(|d|, Wrapped(head + k, |d|), len - k)
    ensures Ring(d, Wrapped(head + k, |d|), len - k) == Ring(d, head, len)[k..]
  {
    forall i | 0 <= i < len - k
      ensures At(d, Wrapped(head + k, |d|), i) == Ring(d, head, len)[k..][i]
    {
      assert Ring(d, head, len)[k + i] == At(d, head, k + i);
    }
  }

  /** The first k elements, as one or two slices of the array. */
  lemma RingTake<T>(d: seq<T>, head: nat, len: nat, k: nat)
    requires RingOk(|d|, head, len) && k <= len
    ensures head + k <= |d| ==> d[head..head + k] == Ring(d, head, len)[..k]
    ensures head + k > |d| ==> head <= |d| && d[head..] + d[..head + k - |d|] == Ring(d, head, len)[..k]
  {}

  /** A ring copied to the front of a new array. */
  lemma RingMoved<T>(d: seq<T>, head: nat, len: nat, d': seq<T>)
    requires RingOk(|d|, head, len) && len <= |d'|
    requires d'[..len] == Ring(d, head, len)
    ensures Ring(d', 0, len) == Ring(d, head, len)
  {
    forall i | 0 <= i < len
      ensures At(d', 0, i) == At(d, head, i)
    {
      assert d'[..len][i] == At(d, head, i);
    }
  }
}
