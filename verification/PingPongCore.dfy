/** The two alternating batches (udp/batchconn.go, pingPong): the sections that run under its mutex. */
module PingPongCore {
  import opened Options
  import opened PacketFormat
  import opened MessageBatches

  /** The state guarded by the mutex. `addrs` are the addresses that the slots of each batch hold. Swap
      channels are numbered; a swap closes the current one and makes the next. */
  datatype Core<T> = Core(batches: seq<seq<T>>, addrs: seq<map<int, int>>, write: nat, read: nat,
                          flushPending: bool, swapChan: nat)

  predicate CoreOk<T>(c: Core<T>) {
    |c.batches| == 2 && |c.addrs| == 2 && c.write < 2 && c.read < 2
  }

  function EmptyCore<T>(): Core<T> {
    Core([[], []], [map[], map[]], 0, 0, false, 0)
  }

  /** A message as it would be stored now: without an address it takes the one its slot holds. */
  function Stored<T>(c: Core<T>, m: Msg): Msg
    requires CoreOk(c)
  {
    Msg(m.payload, SlotAddr(m.addr, c.addrs[c.write], |c.batches[c.write]|))
  }

  function SetSlot<T>(c: Core<T>, addr: Option<int>): seq<map<int, int>>
    requires CoreOk(c)
  {
    if addr.None? then c.addrs else c.addrs[c.write := c.addrs[c.write][|c.batches[c.write]| := addr.value]]
  }

  datatype TryResult = Done(full: bool) | MustWait(chan: nat)

  /** One attempt to store a message, given as x: an empty one is done at once, a full batch means waiting. */
  function TryStep<T>(size: nat, c: Core<T>, x: T, m: Msg): (Core<T>, TryResult)
    requires CoreOk(c)
  {
    var batch := c.batches[c.write];
    if c.write == c.read && c.flushPending then (c, MustWait(c.swapChan))
    else if m.payload == [] then (c, Done(|batch| == size))
    else if |batch| == size then (c, MustWait(c.swapChan))
    else (c.(batches := c.batches[c.write := batch + [x]], addrs := SetSlot(c, m.addr)), Done(|batch| + 1 == size))
  }

  /** The flusher's swap; false when there is no batch to take. */
  function SwapStep<T>(c: Core<T>): (Core<T>, bool)
    requires CoreOk(c)
  {
    if c.write != c.read || c.flushPending then (c, false)
    else (c.(write := 1 - c.write, flushPending := true, swapChan := c.swapChan + 1), true)
  }

  function ReadDoneStep<T>(c: Core<T>): Core<T>
    requires CoreOk(c)
  {
    if !c.flushPending then c else c.(read := 1 - c.read, flushPending := false)
  }

  class PingPong {
    const batch0: MessageBatch
    const batch1: MessageBatch
    var writeBatchIdx: nat
    var readBatchIdx: nat
    var flushPending: bool
    var writeBatchSwapped: nat

    ghost predicate Valid()
      reads this, batch0, batch1
    {
      && batch0 != batch1 && batch0.messages != batch1.messages
      && batch0.Valid() && batch1.Valid() && batch0.size == batch1.size
      && writeBatchIdx < 2 && readBatchIdx < 2
    }

    ghost function View(): Core<Msg>
      requires Valid()
      reads this, batch0, batch1, batch0.messages, batch1.messages
    {
      Core([batch0.Queued(), batch1.Queued()], [batch0.Addrs(), batch1.Addrs()], writeBatchIdx, readBatchIdx, flushPending, writeBatchSwapped)
    }

    constructor (size: nat)
      ensures Valid() && batch0.size == size
      ensures View() == EmptyCore()
      ensures fresh(batch0) && fresh(batch1) && fresh(batch0.messages) && fresh(batch1.messages)
    {
      batch0 := new MessageBatch(size);
      batch1 := new MessageBatch(size);
      writeBatchIdx, readBatchIdx, flushPending, writeBatchSwapped := 0, 0, false, 0;
    }

    function Batch(i: nat): MessageBatch {
      if i == 0 then batch0 else batch1
    }

    /** The attempt of EnqueueMessage under the mutex. */
    method TryEnqueue(buf: seq<Byte>, raddr: Option<int>) returns (n: nat, r: TryResult)
      requires Valid()
      modifies batch0, batch1, batch0.messages, batch1.messages
      ensures Valid()
      ensures (View(), r) == TryStep(batch0.size, old(View()), Stored(old(View()), Msg(buf, raddr)), Msg(buf, raddr))
      ensures r.Done? ==> n == |buf|
    {
      if writeBatchIdx == readBatchIdx && flushPending {
        return 0, MustWait(writeBatchSwapped);
      }
      var full;
      n, full := Batch(writeBatchIdx).EnqueueMessage(buf, raddr);
      assert View().batches == old(View()).batches[writeBatchIdx := Batch(writeBatchIdx).Queued()];
      assert View().addrs == old(View()).addrs[writeBatchIdx := Batch(writeBatchIdx).Addrs()];
      if n == |buf| {
        return n, Done(full);
      }
      return n, MustWait(writeBatchSwapped);
    }

    method UpdateWriteBatchAndGetReadBatch() returns (batch: MessageBatch?)
      requires Valid()
      modifies this
      ensures Valid() && (View(), batch != null) == SwapStep(old(View()))
      ensures batch != null ==> batch == Batch(readBatchIdx)
    {
      if writeBatchIdx != readBatchIdx || flushPending {
        return null;
      }
      writeBatchIdx := 1 - writeBatchIdx;
      flushPending := true;
      writeBatchSwapped := writeBatchSwapped + 1;
      return Batch(readBatchIdx);
    }

    method UpdateReadBatch()
      requires Valid()
      modifies this
      ensures Valid() && View() == ReadDoneStep(old(View()))
    {
      if !flushPending {
        return;
      }
      readBatchIdx := 1 - readBatchIdx;
      flushPending := false;
    }
  }
}
