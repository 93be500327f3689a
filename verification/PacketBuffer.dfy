/** The packet queue (packetio/buffer.go): a growable ring of framed bytes, run in lock-step with a
    ring of attribute lists, that behaves as a bounded first-in first-out queue. Each method is the
    part of its Go namesake that runs under the mutex. */
module PacketBuffer {
  import opened PacketFormat
  import opened RingCopies

  /** What callers can observe. `notify` is the token of the capacity-one wake-up channel. */
  datatype View = View(queue: seq<Packet>, closed: bool, notify: bool, limitCount: int, limitSize: int)

  datatype WriteResult = Written(n: nat) | TooBig | ClosedPipe | Full

  datatype ReadResult = Got(p: Packet) | Eof | Wait

  /** Read's error; NotReady is where the source waits for a wake-up. */
  datatype ReadError = NoError | ShortBuffer | EndOfFile | NotReady

  /** The largest Size a write may reach; `hard` is the packetioSizeHardlimit build tag. */
  function EffectiveLimit(hard: bool, limitSize: int): int {
    if limitSize <= 0 || (hard && limitSize >= MAX_SIZE) then MAX_SIZE - 1 else limitSize
  }

  predicate OverLimit(hard: bool, v: View, size: nat) {
    || (v.limitCount > 0 && |v.queue| >= v.limitCount)
    || TotalSize(v.queue) + size > EffectiveLimit(hard, v.limitSize)
  }

  /** The queue a write should leave, and its result. */
  function WriteStep(hard: bool, v: View, p: Packet): (View, WriteResult) {
    if |p.payload| >= 0x10000 then (v, TooBig)
    else if v.closed then (v, ClosedPipe)
    else if OverLimit(hard, v, |p.payload| + HEADER_SIZE) then (v, Full)
    else (v.(queue := v.queue + [p], notify := true), Written(|p.payload|))
  }

  /** The queue a read attempt should leave, and the packet it takes. */
  function ReadStep(v: View): (View, ReadResult) {
    if v.queue != [] then
      (v.(queue := v.queue[1..], notify := v.notify || (|v.queue| > 1 && !v.closed)), Got(v.queue[0]))
    else if v.closed then (v, Eof)
    else (v, Wait)
  }

  function AttributesOf(ps: seq<Packet>): (r: seq<Attributes>)
    ensures |r| == |ps| && forall i | 0 <= i < |ps| :: r[i] == ps[i].attributes
  {
    seq(|ps|, i requires 0 <= i < |ps| => ps[i].attributes)
  }

  lemma FirstAttributes(ps: seq<Packet>)
    requires ps != []
    ensures AttributesOf(ps) == [ps[0].attributes] + AttributesOf(ps[1..])
  {}

  /** The byte ring's next capacity. */
  function NewSize(hard: bool, limitSize: int, n: nat): int {
    var m := if n < CUTOFF_SIZE then 2 * n else 5 * n / 4;
    var m := if m < MIN_SIZE then MIN_SIZE else m;
    var m := if (limitSize <= 0 || hard) && m > MAX_SIZE then MAX_SIZE else m;
    if limitSize > 0 && m - 1 > limitSize then limitSize + 1 else m
  }

  /** A capacity that is still within the effective limit always grows: to twice itself below 128 KiB and by
      a quarter from there on, at least to 2 KiB, and at most to the limit plus the byte kept free. */
  lemma CanGrow(hard: bool, limitSize: int, n: nat)
    requires n <= EffectiveLimit(hard, limitSize)
    ensures n < NewSize(hard, limitSize, n) <= EffectiveLimit(hard, limitSize) + 1
    ensures var wanted := if n < 1024 then 2048 else if n < 131072 then 2 * n else n + n / 4;
            NewSize(hard, limitSize, n) ==
            if wanted <= EffectiveLimit(hard, limitSize) then wanted else EffectiveLimit(hard, limitSize) + 1
  {}

  // ---- The limits ----

  /** A queue within its limits. A count limit of zero or less is none; the size counts two bytes more per
      packet than its payload, and is always limited. */
  predicate Within(hard: bool, limitCount: int, limitSize: int, queue: seq<Packet>) {
    && (limitCount > 0 ==> |queue| <= limitCount)
    && TotalSize(queue) <= if limitSize <= 0 || (hard && limitSize >= 4194304) then 4194303 else limitSize
  }

  lemma {:induction false} SizeAppend(queue: seq<Packet>, p: Packet)
    ensures TotalSize(queue + [p]) == TotalSize(queue) + |p.payload| + 2
  {
    if queue == [] {
      assert queue + [p] == [p] && [p][1..] == [];
    } else {
      SizeAppend(queue[1..], p);
      assert (queue + [p])[1..] == queue[1..] + [p];
    }
  }

  /** A write is refused for its length, for a closed buffer, or because the longer queue would be over its
      limits, in this order; otherwise the packet is queued. */
  lemma {:induction false} WriteExactly(hard: bool, v: View, p: Packet)
    ensures var (v', r) := WriteStep(hard, v, p);
            if |p.payload| > 65535 then v' == v && r == TooBig
            else if v.closed then v' == v && r == ClosedPipe
            else if Within(hard, v.limitCount, v.limitSize, v.queue + [p])
            then v'.queue == v.queue + [p] && v' == v.(queue := v'.queue, notify := true) && r == Written(|p.payload|)
            else v' == v && r == Full
  {
    SizeAppend(v.queue, p);
  }

  /** Reads the two length bytes at the head of a byte ring. */
  method TakeHeader(d: array<Byte>, head: nat, ghost tail: nat) returns (size: nat, head': nat)
    requires SpanOk(d.Length, head, tail) && HEADER_SIZE <= Span(d.Length, head, tail)
    ensures SpanOk(d.Length, head', tail)
    ensures Contents(d[..], head', tail) == Contents(d[..], head, tail)[HEADER_SIZE..]
    ensures var c := Contents(d[..], head, tail); size == 256 * (c[0] as int) + c[1] as int
  {
    var header := new Byte[HEADER_SIZE];
    var k;
    k, head' := Take(d, head, tail, header, HEADER_SIZE);
    assert header[..k] == header[..];
    size := 256 * (header[..][0] as int) + header[..][1] as int;
  }

  lemma FirstFrame(queue: seq<Packet>)
    requires AllFit(queue) && queue != []
    ensures var bytes, payload := EncodeAll(queue), queue[0].payload;
            && |bytes| >= HEADER_SIZE + |payload|
            && 256 * (bytes[0] as int) + bytes[1] as int == |payload|
            && bytes[HEADER_SIZE..] == payload + EncodeAll(queue[1..])
  {
    var header, rest := Header(|queue[0].payload|), queue[0].payload + EncodeAll(queue[1..]);
    assert EncodeAll(queue) == header + rest;
    assert (header + rest)[0] == header[0] && (header + rest)[1] == header[1];
  }

  class Buffer {
    var data: array<Byte>
    var head: nat
    var tail: nat
    var notify: bool
    var notifyClosed: bool
    var closed: bool
    var count: nat
    var limitCount: int
    var limitSize: int
    var attributes: array<Attributes>
    var attributesHead: nat
    const sizeHardLimit: bool
    ghost var queue: seq<Packet>

    /** The byte ring holds the frames of the queue, and the attribute ring its attributes. */
    ghost predicate Valid()
      reads this, data, attributes
    {
      && AllFit(queue)
      && SpanOk(data.Length, head, tail)
      && Contents(data[..], head, tail) == EncodeAll(queue)
      && count == |queue| && notifyClosed == closed
      && RingOk(attributes.Length, attributesHead, count)
      && Ring(attributes[..], attributesHead, count) == AttributesOf(queue)
    }

    ghost function Observe(): View
      reads this
    {
      View(queue, closed, notify, limitCount, limitSize)
    }

    constructor (hard: bool)
      ensures Valid() && fresh(data) && fresh(attributes)
      ensures sizeHardLimit == hard && Observe() == View([], false, false, 0, 0)
    {
      data := new Byte[0];
      head, tail, count, attributesHead := 0, 0, 0, 0;
      notify, notifyClosed, closed, limitCount, limitSize := false, false, false, 0, 0;
      attributes := new Attributes[0];
      sizeHardLimit := hard;
      queue := [];
    }

    /** Reading the rings by themselves, without the ghost queue, gives the queue. */
    lemma RingsDecode()
      requires Valid()
      ensures DecodeAll(Contents(data[..], head, tail)) == Payloads(PayloadsOf(queue))
      ensures Ring(attributes[..], attributesHead, count) == AttributesOf(queue)
    {
      DecodeEncode(queue);
    }

    /** Size equals the queue's total. */
    method Size() returns (size: int)
      requires Valid()
      ensures size == TotalSize(queue)
    {
      EncodedSize(queue);
      size := tail - head;
      if size < 0 {
        size := size + data.Length;
      }
    }

    method Count() returns (n: nat)
      requires Valid()
      ensures n == |queue|
    {
      return count;
    }

    /** Whether a packet of `size` payload bytes fits without growing. */
    method Available(size: nat) returns (fits: bool)
      requires Valid()
      ensures fits <==> TotalSize(queue) + size + HEADER_SIZE < data.Length
    {
      EncodedSize(queue);
      var available := head - tail;
      if available <= 0 {
        available := available + data.Length;
      }
      return size + HEADER_SIZE + 1 <= available;
    }

    /** Moves the bytes in use to the front of a larger array, or fails and changes nothing. */
    method Grow() returns (ok: bool)
      requires Valid()
      modifies this`data, this`head, this`tail
      ensures Valid()
      ensures ok <==> NewSize(sizeHardLimit, limitSize, old(data.Length)) > old(data.Length)
      ensures ok ==> fresh(data) && data.Length == NewSize(sizeHardLimit, limitSize, old(data.Length))
      ensures !ok ==> data == old(data) && head == old(head) && tail == old(tail)
    {
      var newSize := NewSize(sizeHardLimit, limitSize, data.Length);
      if newSize <= data.Length {
        return false;
      }
      var newData := new Byte[newSize];
      var n := Unroll(data, head, tail, newData);
      head, tail, data := 0, n, newData;
      return true;
    }

    /** Makes room for one more attribute list. */
    method GrowAttributes()
      requires Valid()
      modifies this`attributes, this`attributesHead
      ensures Valid() && count < attributes.Length
      ensures attributes == old(attributes) || fresh(attributes)
    {
      if count < attributes.Length {
        return;
      }
      var size := if attributes.Length == 0 then 1 else 2 * attributes.Length;
      var bigger := new Attributes[size];
      Rotate(attributes, attributesHead, bigger);
      attributes, attributesHead := bigger, 0;
    }

    /** Grows until the packet fits. After the limit test the error return of the loop is dead. */
    method MakeRoom(size: nat)
      requires Valid()
      requires !OverLimit(sizeHardLimit, Observe(), size + HEADER_SIZE)
      modifies this`data, this`head, this`tail
      ensures Valid() && TotalSize(queue) + size + HEADER_SIZE < data.Length
      ensures data == old(data) || fresh(data)
    {
      ghost var limit := EffectiveLimit(sizeHardLimit, limitSize);
      var fits := Available(size);
      while !fits
        invariant Valid() && (data == old(data) || fresh(data))
        invariant fits <==> TotalSize(queue) + size + HEADER_SIZE < data.Length
        decreases limit - data.Length
      {
        CanGrow(sizeHardLimit, limitSize, data.Length);
        var ok := Grow();
        assert ok;
        fits := Available(size);
      }
    }

    /** Queues a packet, or rejects it and changes nothing a caller can see. */
    method Write(payload: seq<Byte>, attrs: Attributes) returns (r: WriteResult)
      requires Valid()
      modifies this, data, attributes
      ensures Valid()
      ensures (Observe(), r) == WriteStep(sizeHardLimit, old(Observe()), Packet(payload, attrs))
      ensures r.Written? <==>
              && |payload| <= 65535 && !old(closed)
              && Within(sizeHardLimit, old(limitCount), old(limitSize), old(queue) + [Packet(payload, attrs)])
      ensures data == old(data) || fresh(data)
      ensures attributes == old(attributes) || fresh(attributes)
    {
      WriteExactly(sizeHardLimit, Observe(), Packet(payload, attrs));
      if |payload| >= 0x10000 {
        return TooBig;
      }
      if closed {
        return ClosedPipe;
      }
      var limit := limitSize;
      if limit <= 0 || (sizeHardLimit && limit >= MAX_SIZE) {
        limit := MAX_SIZE - 1;
      }
      var size := Size();
      if (limitCount > 0 && count >= limitCount) || |payload| + HEADER_SIZE > limit - size {
        return Full;
      }
      Commit(payload, attrs);
      return Written(|payload|);
    }

    /** Queues a packet that passed the limit test, growing either ring as needed. */
    method Commit(payload: seq<Byte>, attrs: Attributes)
      requires Valid() && !closed && |payload| < 0x10000
      requires !OverLimit(sizeHardLimit, Observe(), |payload| + HEADER_SIZE)
      modifies this, data, attributes
      ensures Valid() && Observe() == old(Observe()).(queue := old(queue) + [Packet(payload, attrs)], notify := true)
      ensures data == old(data) || fresh(data)
      ensures attributes == old(attributes) || fresh(attributes)
    {
      MakeRoom(|payload|);
      GrowAttributes();
      Enqueue(payload, attrs);
    }

    /** Writes the frame and the attributes at the two tails and leaves a wake-up token. */
    method Enqueue(payload: seq<Byte>, attrs: Attributes)
      requires Valid() && !closed && |payload| < 0x10000
      requires TotalSize(queue) + |payload| + HEADER_SIZE < data.Length && count < attributes.Length
      modifies this`tail, this`count, this`notify, this`queue, data, attributes
      ensures Valid() && notify
      ensures queue == old(queue) + [Packet(payload, attrs)]
    {
      ghost var p := Packet(payload, attrs);
      EncodedSize(queue);
      EncodeAppend(queue, p);
      tail := Append(data, head, tail, Header(|payload|));
      tail := Append(data, head, tail, payload);
      PushAttributes(attrs);
      queue := queue + [p];
      NotifyReader();
    }

    /** Puts one list at the end of the attribute ring. */
    method PushAttributes(attrs: Attributes)
      requires RingOk(attributes.Length, attributesHead, count) && count < attributes.Length
      modifies this`count, attributes
      ensures count == old(count) + 1 && RingOk(attributes.Length, attributesHead, count)
      ensures Ring(attributes[..], attributesHead, count) ==
              old(Ring(attributes[..], attributesHead, count)) + [attrs]
    {
      ghost var slots := attributes[..];
      var last := attributesHead + count;
      if last >= attributes.Length {
        last := last - attributes.Length;
      }
      attributes[last] := attrs;
      RingAppend(slots, attributes[..], attributesHead, count, [attrs]);
      count := count + 1;
    }

    /** A non-blocking send on the wake-up channel; on a closed channel it would panic. */
    method NotifyReader()
      requires !notifyClosed
      modifies this`notify
      ensures notify
    {
      notify := true;
    }

    /** Closes the wake-up channel; closing it twice would panic. */
    method CloseNotify()
      requires !notifyClosed
      modifies this`notifyClosed
      ensures notifyClosed
    {
      notifyClosed := true;
    }

    /** One pass of Read's loop under the mutex: takes the first packet, whole or truncated to the
        caller's buffer; the attributes are always complete. */
    method Read(payloadBuf: array<Byte>) returns (n: nat, attrs: Attributes, err: ReadError, ghost r: ReadResult)
      requires Valid() && payloadBuf != data
      modifies this, attributes, payloadBuf
      ensures Valid() && data == old(data) && attributes == old(attributes)
      ensures (Observe(), r) == ReadStep(old(Observe()))
      ensures r.Got? ==>
                && n == (if |r.p.payload| < payloadBuf.Length then |r.p.payload| else payloadBuf.Length)
                && payloadBuf[..n] == r.p.payload[..n] && payloadBuf[n..] == old(payloadBuf[n..])
                && attrs == r.p.attributes && err == (if n < |r.p.payload| then ShortBuffer else NoError)
      ensures !r.Got? ==>
                && n == 0 && attrs == [] && payloadBuf[..] == old(payloadBuf[..])
                && err == (if r.Eof? then EndOfFile else NotReady)
    {
      EncodedSize(queue);
      if head != tail {
        r := Got(queue[0]);
        n, attrs, err := ConsumePacket(payloadBuf);
        return;
      }
      r := if closed then Eof else Wait;
      return 0, [], if closed then EndOfFile else NotReady, r;
    }

    /** Takes the first frame off the byte ring. */
    method ReadFrame(payloadBuf: array<Byte>) returns (n: nat, payloadSize: nat)
      requires Valid() && queue != [] && payloadBuf != data
      modifies this`head, payloadBuf
      ensures SpanOk(data.Length, head, tail) && Contents(data[..], head, tail) == EncodeAll(queue[1..])
      ensures payloadSize == |queue[0].payload|
      ensures n == if payloadSize < payloadBuf.Length then payloadSize else payloadBuf.Length
      ensures payloadBuf[..n] == queue[0].payload[..n] && payloadBuf[n..] == old(payloadBuf[n..])
    {
      FirstFrame(queue);
      var h;
      payloadSize, h := TakeHeader(data, head, tail);
      n, head := Take(data, h, tail, payloadBuf, payloadSize);
    }

    /** Takes the first list off the attribute ring. */
    method PopAttributes() returns (attrs: Attributes)
      requires RingOk(attributes.Length, attributesHead, count) && count > 0
      modifies this`attributesHead, this`count, attributes
      ensures count == old(count) - 1 && RingOk(attributes.Length, attributesHead, count)
      ensures [attrs] + Ring(attributes[..], attributesHead, count) ==
              old(Ring(attributes[..], attributesHead, count))
    {
      ghost var slots := attributes[..];
      RingDrop(slots, attributesHead, count, 1);
      attrs := attributes[attributesHead];
      attributes[attributesHead] := [];
      attributesHead := attributesHead + 1;
      if attributesHead == attributes.Length {
        attributesHead := 0;
      }
      count := count - 1;
      assert Ring(attributes[..], attributesHead, count) == Ring(slots, attributesHead, count);
    }

    /** Takes the first packet off both rings. */
    method TakeFirst(payloadBuf: array<Byte>) returns (n: nat, payloadSize: nat, attrs: Attributes)
      requires Valid() && queue != [] && payloadBuf != data
      modifies this`head, this`count, this`attributesHead, this`queue, attributes, payloadBuf
      ensures Valid() && queue == old(queue)[1..]
      ensures payloadSize == |old(queue)[0].payload| && attrs == old(queue)[0].attributes
      ensures n == if payloadSize < payloadBuf.Length then payloadSize else payloadBuf.Length
      ensures payloadBuf[..n] == old(queue)[0].payload[..n] && payloadBuf[n..] == old(payloadBuf[n..])
    {
      FirstAttributes(queue);
      n, payloadSize := ReadFrame(payloadBuf);
      attrs := PopAttributes();
      queue := queue[1..];
    }

    method ConsumePacket(payloadBuf: array<Byte>) returns (n: nat, attrs: Attributes, err: ReadError)
      requires Valid() && queue != [] && payloadBuf != data
      modifies this`head, this`tail, this`count, this`attributesHead, this`notify, this`queue, attributes, payloadBuf
      ensures Valid() && queue == old(queue)[1..]
      ensures notify == (old(notify) || (queue != [] && !closed))
      ensures var payload := old(queue)[0].payload;
              && n == (if |payload| < payloadBuf.Length then |payload| else payloadBuf.Length)
              && payloadBuf[..n] == payload[..n] && payloadBuf[n..] == old(payloadBuf[n..])
              && attrs == old(queue)[0].attributes && err == (if n < |payload| then ShortBuffer else NoError)
    {
      var payloadSize;
      n, payloadSize, attrs := TakeFirst(payloadBuf);
      EncodedSize(queue);
      if head == tail {
        head, tail, attributesHead := 0, 0, 0;
      } else if !closed {
        NotifyReader();
      }
      err := if n < payloadSize then ShortBuffer else NoError;
    }

    /** Closing keeps the queue readable. */
    method Close()
      requires Valid()
      modifies this`closed, this`notifyClosed
      ensures Valid() && Observe() == old(Observe()).(closed := true)
    {
      if !closed {
        closed := true;
        CloseNotify();
      }
    }

    method SetLimitCount(limit: int)
      requires Valid()
      modifies this`limitCount
      ensures Valid() && Observe() == old(Observe()).(limitCount := limit)
    {
      limitCount := limit;
    }

    method SetLimitSize(limit: int)
      requires Valid()
      modifies this`limitSize
      ensures Valid() && Observe() == old(Observe()).(limitSize := limit)
    {
      limitSize := limit;
    }
  }
}
