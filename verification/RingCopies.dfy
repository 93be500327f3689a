/** In-place ring operations on arrays: the copying parts of packetio/buffer.go. */
module RingCopies {
  import opened PacketFormat

  /** Go's `copy(dst[at:], src)`. */
  method Copy<T>(dst: array<T>, at: nat, src: seq<T>) returns (n: nat)
    requires at <= dst.Length
    modifies dst
    ensures n == if |src| <= dst.Length - at then |src| else dst.Length - at
    ensures forall i | 0 <= i < dst.Length :: dst[i] == if at <= i < at + n then src[i - at] else old(dst[i])
  {
    n := if |src| <= dst.Length - at then |src| else dst.Length - at;
    forall i | at <= i < at + n {
      dst[i] := src[i - at];
    }
  }

  /** The number of slots from head up to tail, where head == tail means none. */
  function Span(n: nat, head: nat, tail: nat): int {
    if tail >= head then tail - head else tail - head + n
  }

  /** Head and tail of a ring that always keeps one slot free. */
  predicate SpanOk(n: nat, head: nat, tail: nat) {
    if n == 0 then head == 0 && tail == 0 else head < n && tail < n
  }

  /** The elements from head up to tail. */
  function Contents<T>(d: seq<T>, head: nat, tail: nat): seq<T>
    requires SpanOk(|d|, head, tail)
  {
    Ring(d, head, Span(|d|, head, tail))
  }

  /** Copies a ring to the front of a larger array. */
  method Unroll<T>(d: array<T>, head: nat, tail: nat, bigger: array<T>) returns (n: nat)
    requires SpanOk(d.Length, head, tail) && d.Length < bigger.Length && d != bigger
    modifies bigger
    ensures n == Span(d.Length, head, tail)
    ensures Contents(bigger[..], 0, n) == Contents(d[..], head, tail)
  {
    ghost var len := Span(d.Length, head, tail);
    RingTake(d[..], head, len, len);
    if head <= tail {
      n := Copy(bigger, 0, d[head..tail]);
    } else {
      n := Copy(bigger, 0, d[head..]);
      var m := Copy(bigger, n, d[..tail]);
      n := n + m;
    }
    assert bigger[..n] == Ring(d[..], head, len);
    RingMoved(d[..], head, len, bigger[..]);
  }

  /** Copies a full ring to the front of a larger array. */
  method Rotate<T>(d: array<T>, head: nat, bigger: array<T>)
    requires RingOk(d.Length, head, d.Length) && d.Length < bigger.Length && d != bigger
    modifies bigger
    ensures Ring(bigger[..], 0, d.Length) == Ring(d[..], head, d.Length)
  {
    RingTake(d[..], head, d.Length, d.Length);
    var n := Copy(bigger, 0, d[head..]);
    var _ := Copy(bigger, n, d[..head]);
    assert bigger[..d.Length] == d[head..] + d[..head];
    RingMoved(d[..], head, d.Length, bigger[..]);
  }

  /** Appends at the tail, going round the end of the array. */
  method Append<T>(d: array<T>, ghost head: nat, tail: nat, src: seq<T>) returns (tail': nat)
    requires SpanOk(d.Length, head, tail) && Span(d.Length, head, tail) + |src| < d.Length
    modifies d
    ensures SpanOk(d.Length, head, tail')
    ensures Contents(d[..], head, tail') == old(Contents(d[..], head, tail)) + src
  {
    ghost var before, len := d[..], Span(d.Length, head, tail);
    var n := Copy(d, tail, src);
    tail' := tail + n;
    if tail' >= d.Length {
      tail' := Copy(d, 0, src[n..]);
    }
    assert Wrapped(head + len, |before|) == tail;
    assert forall i | 0 <= i < len :: At(d[..], head, i) == At(before, head, i);
    assert forall j | 0 <= j < |src| :: At(d[..], tail, j) == src[j];
    RingAppend(before, d[..], head, len, src);
    assert Span(d.Length, head, tail') == len + |src|;
  }

  /** Copies the first k elements of a ring to the front of dst. */
  method CopyOut<T>(d: array<T>, head: nat, ghost len: nat, dst: array<T>, k: nat)
    requires RingOk(d.Length, head, len) && k <= len && k <= dst.Length && d != dst
    modifies dst
    ensures dst[..k] == Ring(d[..], head, len)[..k]
    ensures dst[k..] == old(dst[k..])
  {
    RingTake(d[..], head, len, k);
    if head + k <= d.Length {
      var _ := Copy(dst, 0, d[head..head + k]);
    } else {
      var n := Copy(dst, 0, d[head..]);
      var _ := Copy(dst, n, d[..k - n]);
    }
  }

  lemma SpanAfterDrop(n: nat, head: nat, tail: nat, k: nat)
    requires 0 < n && SpanOk(n, head, tail) && k <= Span(n, head, tail)
    ensures var head' := Wrapped(head + k, n);
            SpanOk(n, head', tail) && Span(n, head', tail) == Span(n, head, tail) - k
  {}

  /** Copies as much of the first `size` elements as fits in dst and discards the rest. */
  method Take<T>(d: array<T>, head: nat, ghost tail: nat, dst: array<T>, size: nat) returns (copied: nat, head': nat)
    requires 0 < d.Length && SpanOk(d.Length, head, tail) && size <= Span(d.Length, head, tail) && d != dst
    modifies dst
    ensures SpanOk(d.Length, head', tail)
    ensures Contents(d[..], head', tail) == Contents(d[..], head, tail)[size..]
    ensures copied == if dst.Length < size then dst.Length else size
    ensures dst[..copied] == Contents(d[..], head, tail)[..copied]
    ensures dst[copied..] == old(dst[copied..])
  {
    ghost var len := Span(d.Length, head, tail);
    copied := if dst.Length < size then dst.Length else size;
    CopyOut(d, head, len, dst, copied);
    head' := head + size;
    if head' >= d.Length {
      head' := head' - d.Length;
    }
    SpanAfterDrop(d.Length, head, tail, size);
    RingDrop(d[..], head, len, size);
  }
}
