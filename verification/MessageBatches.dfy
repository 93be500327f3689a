/** A batch of outgoing datagrams (udp/batchconn.go, messageBatch). */
module MessageBatches {
  import opened Options
  import opened PacketFormat

  const SEND_MTU: nat := 1500

  /** A datagram: its payload and its remote address, if one was given. */
  datatype Msg = Msg(payload: seq<Byte>, addr: Option<int>)

  /** A message slot: a list of buffers, the first one of capacity SEND_MTU, and the address. */
  datatype Slot = Slot(buffers: seq<seq<Byte>>, addr: Option<int>)

  function Concat(buffers: seq<seq<Byte>>): seq<Byte> {
    if buffers == [] then [] else buffers[0] + Concat(buffers[1..])
  }

  function MsgOf(s: Slot): Msg {
    Msg(Concat(s.buffers), s.addr)
  }

  function MsgsOf(slots: seq<Slot>): (r: seq<Msg>)
    ensures |r| == |slots| && forall i | 0 <= i < |slots| :: r[i] == MsgOf(slots[i])
  {
    seq(|slots|, i requires 0 <= i < |slots| => MsgOf(slots[i]))
  }

  /** How many of k messages a flush gets out. `takes` says how many messages each WriteBatch call takes,
      possibly none; the call after the last of them fails. */
  function FlushedCount(takes: seq<nat>, k: nat): (n: nat)
    ensures n <= k
  {
    if k == 0 || takes == [] then 0
    else if takes[0] >= k then k
    else takes[0] + FlushedCount(takes[1..], k - takes[0])
  }

  function Sum(takes: seq<nat>): nat {
    if takes == [] then 0 else takes[0] + Sum(takes[1..])
  }

  /** The calls before the failing one take what there is, as far as they go. */
  lemma {:induction false} FlushedIsMinimum(takes: seq<nat>, k: nat)
    ensures FlushedCount(takes, k) == if Sum(takes) < k then Sum(takes) else k
  {
    if takes != [] && takes[0] < k {
      FlushedIsMinimum(takes[1..], k - takes[0]);
    }
  }

  /** The address of a message put into a slot: its own, or else the one the slot holds. */
  function SlotAddr(raddr: Option<int>, addrs: map<int, int>, slot: nat): Option<int> {
    if raddr.Some? then raddr else if slot in addrs then Some(addrs[slot]) else None
  }

  class MessageBatch {
    const size: nat
    const messages: array<Slot>
    var writePos: nat

    ghost predicate Valid()
      reads this
    {
      messages.Length == size && writePos <= size
    }

    ghost function Queued(): seq<Msg>
      requires Valid()
      reads this, messages
    {
      MsgsOf(messages[..writePos])
    }

    /** The slots, used or not, that hold an address. */
    ghost function Addrs(): map<int, int>
      reads messages
    {
      map i | 0 <= i < messages.Length && messages[i].addr.Some? :: messages[i].addr.value
    }

    constructor (size: nat)
      ensures Valid() && fresh(messages) && this.size == size && Queued() == [] && Addrs() == map[]
    {
      this.size := size;
      messages := new Slot[size](_ => Slot([[]], None));
      writePos := 0;
    }

    method IsFull() returns (full: bool)
      requires Valid()
      ensures full <==> |Queued()| == size
    {
      return writePos == size;
    }

    /** Copies the payload into the next slot, spilling what exceeds the first buffer into a second one.
        A slot reused without an address keeps its old one. */
    method EnqueueMessage(buf: seq<Byte>, raddr: Option<int>) returns (n: nat, full: bool)
      requires Valid()
      modifies this`writePos, messages
      ensures Valid()
      ensures n == if buf == [] || |old(Queued())| == size then 0 else |buf|
      ensures full <==> |Queued()| == size
      ensures n == 0 ==> Queued() == old(Queued()) && messages[..] == old(messages[..])
      ensures Addrs() == if n > 0 && raddr.Some? then old(Addrs())[old(writePos) := raddr.value] else old(Addrs())
      ensures n > 0 ==>
                && Queued() == old(Queued()) + [Msg(buf, SlotAddr(raddr, old(Addrs()), old(writePos)))]
                && |messages[old(writePos)].buffers| == (if |buf| <= SEND_MTU then 1 else 2)
                && |messages[old(writePos)].buffers[0]| <= SEND_MTU
    {
      if buf == [] || writePos == size {
        return 0, writePos == size;
      }
      var slot := messages[writePos];
      var addr := if raddr.Some? then raddr else slot.addr;
      var copied := if |buf| <= SEND_MTU then |buf| else SEND_MTU;
      var buffers := [buf[..copied]];
      assert Concat(buffers) == buf[..copied];
      if copied < |buf| {
        buffers := buffers + [buf[copied..]];
        assert buffers[1..] == [buf[copied..]];
        assert Concat(buffers[1..]) == buf[copied..];
      }
      assert Concat(buffers) == buf;
      messages[writePos] := Slot(buffers, addr);
      writePos := writePos + 1;
      return |buf|, writePos == size;
    }

    /** Hands the queued messages to the connection in order, until all are out or a call fails; the
        batch is empty afterwards either way. */
    method Flush(takes: seq<nat>) returns (sent: seq<Slot>)
      requires Valid()
      modifies this`writePos
      ensures Valid() && Queued() == []
      ensures MsgsOf(sent) == old(Queued())[..FlushedCount(takes, |old(Queued())|)]
    {
      var txN, call := 0, 0;
      sent := [];
      ghost var total := FlushedCount(takes, writePos);
      while txN < writePos
        invariant 0 <= txN <= writePos == old(writePos) && 0 <= call <= |takes|
        invariant sent == messages[..txN]
        invariant total == txN + FlushedCount(takes[call..], writePos - txN)
        decreases |takes| - call
      {
        if call == |takes| {
          break;
        }
        var left := writePos - txN;
        var n := if takes[call] >= left then left else takes[call];
        sent := sent + messages[txN..txN + n];
        assert takes[call..][1..] == takes[call + 1..];
        txN, call := txN + n, call + 1;
      }
      writePos := 0;
      assert MsgsOf(sent) == old(Queued())[..txN];
    }
  }
}
