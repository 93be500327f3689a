/** The wrapping replay detector (replaydetector/replaydetector.go, `WithWrap`), as used for SRTP.
    Numbers on the wire are taken modulo maxSeq + 1; the reference works on the unwrapped indices. */
module WrappedWindow {
  import opened FixedBig
  import opened ReplayWindow

  datatype State = State(latest: nat, mask: set<nat>, init: bool)

  const TWO_63: int := 0x8000_0000_0000_0000
  const TWO_64: int := 0x1_0000_0000_0000_0000

  /** Go's int64 of a value that is at most one turn out of range. */
  function Int64(x: int): int {
    if x >= TWO_63 then x - TWO_64 else if x < -TWO_63 then x + TWO_64 else x
  }

  /** Go's division by two, which truncates towards zero. */
  function Halved(x: int): int {
    if x >= 0 then x / 2 else -(-x / 2)
  }

  /** int64(maxSeq + 1), the sum taken as a uint64. */
  function Turn(c: Config): int {
    Int64(if c.maxSeq + 1 == TWO_64 then 0 else c.maxSeq + 1)
  }

  /** The distance of num behind the newest number, wrapped to the shorter direction, in 64-bit arithmetic. */
  function Diff(c: Config, latest: nat, num: nat): int {
    var diff := Int64(Int64(latest) - Int64(num));
    if diff > Halved(Int64(c.maxSeq)) then Int64(diff - Turn(c))
    else if diff <= Halved(Int64(-Int64(c.maxSeq))) then Int64(diff + Turn(c))
    else diff
  }

  /** The first check of an in-range number places the head just before that number. */
  function Initialized(c: Config, s: State, num: nat): State {
    if num > c.maxSeq || s.init then s
    else State(if num != 0 then num - 1 else c.maxSeq, s.mask, true)
  }

  predicate PassesWrapped(c: Config, s: State, num: nat) {
    && num <= c.maxSeq
    && var diff := Diff(c, Initialized(c, s, num).latest, num);
       diff < c.windowSize && (diff >= 0 ==> diff !in s.mask)
  }

  function AcceptDiff(c: Config, s: State, num: nat, diff: int): (State, bool) {
    if diff < 0 then
      var k := if -diff < c.windowSize then -diff else c.windowSize;
      (State(num, SetBit(c, ShiftedSet(s.mask, k, c.windowSize), 0), s.init), true)
    else
      (s.(mask := SetBit(c, s.mask, diff)), false)
  }

  class WrappedSlidingWindowDetector {
    var latestSeq: nat
    const maxSeq: nat
    const windowSize: nat
    const mask: FixedBigInt
    var init: bool

    ghost predicate Valid()
      reads this, mask
    {
      mask.Valid() && mask.n == windowSize
    }

    function Cfg(): Config {
      Config(windowSize, maxSeq)
    }

    ghost function View(): State
      requires Valid()
      reads this, mask, mask.bits
    {
      State(latestSeq, mask.Value(), init)
    }

    constructor (windowSize: nat, maxSeq: nat)
      requires maxSeq < TWO_64
      ensures Valid() && fresh(mask) && fresh(mask.bits)
      ensures Cfg() == Config(windowSize, maxSeq) && View() == State(0, {}, false)
    {
      this.maxSeq := maxSeq;
      this.windowSize := windowSize;
      this.latestSeq := 0;
      this.init := false;
      this.mask := new FixedBigInt(windowSize);
    }

    method CheckSeq(num: nat) returns (tok: Token)
      requires Valid()
      modifies this`latestSeq, this`init
      ensures Valid()
      ensures tok == Token(num, PassesWrapped(Cfg(), old(View()), num))
      ensures View() == Initialized(Cfg(), old(View()), num)
    {
      if num > maxSeq {
        return Token(num, false);
      }
      if !init {
        latestSeq := if num != 0 then num - 1 else maxSeq;
        init := true;
      }
      var diff := Diff(Cfg(), latestSeq, num);
      if diff >= windowSize {
        return Token(num, false);
      }
      if diff >= 0 {
        var seen := mask.BitSet(diff);
        if seen {
          return Token(num, false);
        }
      }
      return Token(num, true);
    }

    /** The distance is taken at accept time, so late accepts see the current head. */
    method Accept(tok: Token) returns (latest: bool)
      requires Valid()
      modifies this`latestSeq, mask.bits
      ensures Valid()
      ensures (View(), latest) ==
              if tok.passed
              then AcceptDiff(Cfg(), old(View()), tok.num, Diff(Cfg(), old(latestSeq), tok.num))
              else (old(View()), false)
    {
      if !tok.passed {
        return false;
      }
      var diff := Diff(Cfg(), latestSeq, tok.num);
      if diff < 0 {
        mask.Lsh(if -diff < windowSize then -diff else windowSize);
        latestSeq := tok.num;
        mask.SetBit(0);
        return true;
      }
      mask.SetBit(diff);
      return false;
    }
  }

  // ---- Decoding the distance ----

  /** The wire number of an unwrapped index. */
  function Wire(c: Config, e: int): nat {
    e % (c.maxSeq + 1)
  }

  lemma MulMonotone(a: int, b: int, m: int)
    requires a <= b && m > 0
    ensures a * m <= b * m
  {}

  lemma FactorBelow(k: int, m: int, b: int)
    requires m > 0 && -b * m < k * m < b * m
    ensures -b < k < b
  {
    if k >= b {
      MulMonotone(b, k, m);
    } else if k <= -b {
      MulMonotone(k, -b, m);
    }
  }

  lemma ModUnique(a: int, q: int, x: int, m: int)
    requires m > 0 && 0 <= x < m && a == q * m + x
    ensures a % m == x
  {
    var q' := a / m;
    assert a == q' * m + a % m;
    assert (q' - q) * m == q' * m - q * m;
    FactorBelow(q' - q, m, 1);
  }

  lemma NearTurns(raw: int, d: int, k: int, m: int)
    requires m > 0 && d == raw + k * m && -m < raw < m && -m < d < m
    ensures raw == d || raw == d + m || raw == d - m
  {
    FactorBelow(k, m, 2);
  }

  lemma Turns(x: int, y: int, m: int) returns (k: int)
    requires m > 0
    ensures x - y == x % m - y % m + k * m
  {
    k := x / m - y / m;
    assert x == x / m * m + x % m;
    assert y == y / m * m + y % m;
    assert k * m == x / m * m - y / m * m;
  }

  /** The raw difference of two wire numbers is the true distance up to one turn. */
  lemma WireShift(c: Config, head: int, d: int) returns (raw: int)
    ensures raw == Wire(c, head) - Wire(c, head - d)
    ensures 0 - c.maxSeq <= raw <= c.maxSeq
    ensures 0 - c.maxSeq <= d <= c.maxSeq ==> raw == d || raw == d + (c.maxSeq + 1) || raw == d - (c.maxSeq + 1)
  {
    var m := c.maxSeq + 1;
    raw := Wire(c, head) - Wire(c, head - d);
    if -m < d < m {
      var k := Turns(head, head - d, m);
      NearTurns(raw, d, k, m);
    }
  }

  /** The 64-bit arithmetic does what it should: maxSeq is an int64, or all of uint64 is used. */
  predicate Fits(c: Config) {
    c.maxSeq < TWO_63 || c.maxSeq + 1 == TWO_64
  }

  /** Without overflow. */
  lemma DiffFits(c: Config, latest: nat, num: nat)
    requires c.maxSeq < TWO_63 && latest <= c.maxSeq && num <= c.maxSeq
    ensures var diff := latest - num;
            Diff(c, latest, num) ==
            if diff > c.maxSeq / 2 then diff - (c.maxSeq + 1)
            else if diff <= -(c.maxSeq / 2) then diff + (c.maxSeq + 1)
            else diff
  {}

  /** With numbers of 64 bits the overflow of the difference is the wrap-around. */
  lemma DiffFull(c: Config, latest: nat, num: nat)
    requires c.maxSeq + 1 == TWO_64 && latest <= c.maxSeq && num <= c.maxSeq
    ensures Diff(c, latest, num) == Int64(latest - num)
  {}

  /** The distances that are decoded: half a turn around the head. */
  predicate InHalfRange(c: Config, d: int) {
    if c.maxSeq + 1 == TWO_64 then -TWO_63 <= d < TWO_63 else -(c.maxSeq / 2) < d <= c.maxSeq / 2
  }

  lemma DiffExact(c: Config, head: int, d: int)
    requires Fits(c) && InHalfRange(c, d)
    ensures Diff(c, Wire(c, head), Wire(c, head - d)) == d
  {
    var _ := WireShift(c, head, d);
    if c.maxSeq < TWO_63 {
      DiffFits(c, Wire(c, head), Wire(c, head - d));
    } else {
      DiffFull(c, Wire(c, head), Wire(c, head - d));
    }
  }

  lemma SmallWire(c: Config, e: int)
    requires 0 <= e <= c.maxSeq
    ensures Wire(c, e) == e
  {}

  lemma DiffBounded(c: Config, latest: nat, num: nat)
    requires Fits(c) && latest <= c.maxSeq && num <= c.maxSeq
    ensures 0 - c.maxSeq <= Diff(c, latest, num) <= c.maxSeq + 1
    ensures c.maxSeq + 1 == TWO_64 ==> -TWO_63 <= Diff(c, latest, num) < TWO_63
  {
    if c.maxSeq < TWO_63 {
      DiffFits(c, latest, num);
    } else {
      DiffFull(c, latest, num);
    }
  }

  lemma DiffWrong(c: Config, d: int) returns (head: int)
    requires Fits(c) && c.maxSeq >= 2 && !InHalfRange(c, d)
    ensures Diff(c, Wire(c, head), Wire(c, head - d)) != d
  {
    head := if 0 <= d <= c.maxSeq then d else 0;
    DiffBounded(c, Wire(c, head), Wire(c, head - d));
    if c.maxSeq < TWO_63 {
      var _ := WireShift(c, head, d);
      if 0 <= d <= c.maxSeq {
        SmallWire(c, d);
        SmallWire(c, 0);
      } else if 0 - c.maxSeq <= d < 0 {
        SmallWire(c, 0);
        SmallWire(c, -d);
      }
      DiffFits(c, Wire(c, head), Wire(c, head - d));
    }
  }

  /** A true distance d is decoded correctly at every head position exactly when it lies in the half
      range around the head. (With maxSeq below 2 that half range is empty.) */
  lemma DiffExactIff(c: Config, d: int)
    requires Fits(c) && c.maxSeq >= 2
    ensures (forall head: int :: Diff(c, Wire(c, head), Wire(c, head - d)) == d) <==> InHalfRange(c, d)
  {
    if InHalfRange(c, d) {
      forall head: int
        ensures Diff(c, Wire(c, head), Wire(c, head - d)) == d
      {
        DiffExact(c, head, d);
      }
    } else {
      var head := DiffWrong(c, d);
    }
  }

  /** The whole half range is decoded, wherever the head is, exactly if maxSeq fits. */
  lemma HalfRangeDecodedIff(c: Config)
    requires 2 <= c.maxSeq < TWO_64
    ensures (forall head: int, d: int | InHalfRange(c, d) :: Diff(c, Wire(c, head), Wire(c, head - d)) == d) <==> Fits(c)
  {
    if Fits(c) {
      forall head: int, d: int | InHalfRange(c, d)
        ensures Diff(c, Wire(c, head), Wire(c, head - d)) == d
      {
        DiffExact(c, head, d);
      }
    } else {
      SmallWire(c, 0);
      assert InHalfRange(c, 0) && Diff(c, Wire(c, 0), Wire(c, 0 - 0)) != 0;
    }
  }

  /** Exactly when the first number a detector sees is let through. */
  lemma FirstCheckPasses(c: Config, num: nat)
    requires Fits(c) && num <= c.maxSeq
    ensures PassesWrapped(c, State(0, {}, false), num) <==>
            || c.maxSeq >= 4
            || (num == 0 && c.maxSeq >= 1)
            || (if c.maxSeq == 0 then 1 else c.maxSeq) < c.windowSize
    ensures c.maxSeq >= 4 ==> Diff(c, Initialized(c, State(0, {}, false), num).latest, num) == -1
  {
    var latest := Initialized(c, State(0, {}, false), num).latest;
    if c.maxSeq < TWO_63 {
      DiffFits(c, latest, num);
    } else {
      DiffFull(c, latest, num);
    }
    assert c.maxSeq >= 4 ==> c.maxSeq / 2 >= 2;
    assert c.maxSeq < 4 ==> c.maxSeq / 2 <= 1;
  }

  // ---- The unwrapped reference ----

  datatype Reference = Reference(head: int, accepted: set<int>)

  predicate ReferencePasses(c: Config, r: Reference, e: int) {
    e > r.head || (r.head - e < c.windowSize && e !in r.accepted)
  }

  function ReferenceAccept(r: Reference, e: int): Reference {
    Reference(if e > r.head then e else r.head, r.accepted + {e})
  }

  /** Stray(num) is a check of a number that is out of range on the wire. */
  datatype WrapOp = CheckIndex(e: int) | AcceptIndex(e: int, passed: bool) | Stray(num: nat)

  function WrapStep(c: Config, s: State, op: WrapOp): State {
    match op
    case CheckIndex(e) => Initialized(c, s, Wire(c, e))
    case AcceptIndex(e, passed) =>
      if passed then AcceptDiff(c, s, Wire(c, e), Diff(c, s.latest, Wire(c, e))).0 else s
    case Stray(num) => Initialized(c, s, num)
  }

  function WrapRun(c: Config, ops: seq<WrapOp>): State {
    if ops == [] then State(0, {}, false) else WrapStep(c, WrapRun(c, ops[..|ops| - 1]), ops[|ops| - 1])
  }

  datatype Started = NotStarted | At(r: Reference)

  /** The reference starts at the first in-range check, with its head just before that index. */
  function ReferenceStep(st: Started, op: WrapOp): Started {
    match st
    case NotStarted => if op.CheckIndex? then At(Reference(op.e - 1, {})) else NotStarted
    case At(r) => if op.AcceptIndex? && op.passed then At(ReferenceAccept(r, op.e)) else st
  }

  function ReferenceRun(ops: seq<WrapOp>): Started {
    if ops == [] then NotStarted else ReferenceStep(ReferenceRun(ops[..|ops| - 1]), ops[|ops| - 1])
  }

  /** The index lies in the half range around the head, and that can be decoded. */
  predicate Near(c: Config, r: Reference, e: int) {
    Fits(c) && InHalfRange(c, r.head - e)
  }

  /** Accepts come after the first check, and indices stay in the half range around the head. */
  predicate NearStep(c: Config, st: Started, op: WrapOp) {
    match op
    case CheckIndex(e) => st.At? ==> Near(c, st.r, e)
    case AcceptIndex(e, _) => st.At? && Near(c, st.r, e)
    case Stray(num) => num > c.maxSeq
  }

  predicate NearRun(c: Config, ops: seq<WrapOp>) {
    forall i {:trigger ops[i]} | 0 <= i < |ops| :: NearStep(c, ReferenceRun(ops[..i]), ops[i])
  }

  predicate SeenIndex(r: Reference, i: nat) {
    r.head - i in r.accepted
  }

  /** The detector's state that represents a reference state. */
  ghost predicate Represents(c: Config, s: State, st: Started) {
    match st
    case NotStarted => s == State(0, {}, false)
    case At(r) =>
      && s.init && s.latest == Wire(c, r.head)
      && (forall a | a in r.accepted :: a <= r.head)
      && s.mask == (set i: nat | i < c.windowSize && SeenIndex(r, i))
  }

  lemma NearDiff(c: Config, r: Reference, e: int)
    requires Near(c, r, e)
    ensures Diff(c, Wire(c, r.head), Wire(c, e)) == r.head - e
  {
    DiffExact(c, r.head, r.head - e);
  }

  lemma AcceptAhead(c: Config, s: State, r: Reference, e: int)
    requires Represents(c, s, At(r)) && Near(c, r, e) && e > r.head
    ensures Represents(c, WrapStep(c, s, AcceptIndex(e, true)), At(ReferenceAccept(r, e)))
  {
    NearDiff(c, r, e);
    var r' := ReferenceAccept(r, e);
    var d := e - r.head;
    var k := if d < c.windowSize then d else c.windowSize;
    forall i: nat | i < c.windowSize
      ensures i == 0 || MovedHere(s.mask, k, i) <==> SeenIndex(r', i)
    {
      if d <= i {
        assert MovedHere(s.mask, k, i) <==> SeenIndex(r, i - d);
      }
    }
    assert SetBit(c, ShiftedSet(s.mask, k, c.windowSize), 0) == (set i: nat | i < c.windowSize && SeenIndex(r', i));
  }

  lemma AcceptBehind(c: Config, s: State, r: Reference, e: int)
    requires Represents(c, s, At(r)) && Near(c, r, e) && e <= r.head
    ensures Represents(c, WrapStep(c, s, AcceptIndex(e, true)), At(ReferenceAccept(r, e)))
  {
    NearDiff(c, r, e);
    var r', d := ReferenceAccept(r, e), r.head - e;
    assert forall i: nat :: SeenIndex(r', i) <==> SeenIndex(r, i) || i == d;
    assert SetBit(c, s.mask, d) == (set i: nat | i < c.windowSize && SeenIndex(r', i));
  }

  lemma FirstStep(c: Config, e: int)
    ensures Represents(c, Initialized(c, State(0, {}, false), Wire(c, e)), At(Reference(e - 1, {})))
  {
    var m, q := c.maxSeq + 1, e / (c.maxSeq + 1);
    var x := e % m;
    assert e == q * m + x;
    if x != 0 {
      ModUnique(e - 1, q, x - 1, m);
    } else {
      assert (q - 1) * m == q * m - m;
      ModUnique(e - 1, q - 1, m - 1, m);
    }
  }

  /** Over every run that stays in the half range, late and repeated accepts included, the detector
      represents the unwrapped reference. No bound on the window size is needed. */
  lemma {:induction false} WrapRunRefines(c: Config, ops: seq<WrapOp>)
    requires NearRun(c, ops)
    ensures Represents(c, WrapRun(c, ops), ReferenceRun(ops))
  {
    if ops != [] {
      var before, op := ops[..|ops| - 1], ops[|ops| - 1];
      forall i | 0 <= i < |before|
        ensures NearStep(c, ReferenceRun(before[..i]), before[i])
      {
        assert before[..i] == ops[..i] && before[i] == ops[i];
      }
      WrapRunRefines(c, before);
      var s, st := WrapRun(c, before), ReferenceRun(before);
      assert NearStep(c, st, op);
      match op {
        case CheckIndex(e) =>
          if st.NotStarted? { FirstStep(c, e); }
        case AcceptIndex(e, passed) =>
          if passed {
            if e > st.r.head { AcceptAhead(c, s, st.r, e); } else { AcceptBehind(c, s, st.r, e); }
          }
        case Stray(_) =>
      }
    }
  }

  /** A state that represents the reference decides as it does. */
  lemma {:induction false} StateDecides(c: Config, s: State, r: Reference, e: int)
    requires Represents(c, s, At(r)) && Near(c, r, e)
    ensures var num := Wire(c, e);
            && (PassesWrapped(c, s, num) <==> ReferencePasses(c, r, e))
            && (AcceptDiff(c, s, num, Diff(c, s.latest, num)).1 <==> e > r.head)
  {
    NearDiff(c, r, e);
    assert Initialized(c, s, Wire(c, e)) == s;
    if e <= r.head {
      assert SeenIndex(r, r.head - e) <==> e in r.accepted;
    }
  }

  /** Checks decide as the reference does, and Accept reports exactly the indices ahead of the head. */
  lemma {:induction false} DecidesAsReference(c: Config, ops: seq<WrapOp>, e: int)
    requires NearRun(c, ops) && ReferenceRun(ops).At? && Near(c, ReferenceRun(ops).r, e)
    ensures var s, r, num := WrapRun(c, ops), ReferenceRun(ops).r, Wire(c, e);
            && (PassesWrapped(c, s, num) <==> ReferencePasses(c, r, e))
            && (AcceptDiff(c, s, num, Diff(c, s.latest, num)).1 <==> e > r.head)
  {
    WrapRunRefines(c, ops);
    StateDecides(c, WrapRun(c, ops), ReferenceRun(ops).r, e);
  }

  /** A stray check is rejected and leaves the detector as it was, started or not. */
  lemma StrayIsInert(c: Config, ops: seq<WrapOp>, num: nat)
    requires num > c.maxSeq
    ensures !PassesWrapped(c, WrapRun(c, ops), num)
    ensures WrapRun(c, ops + [Stray(num)]) == WrapRun(c, ops)
  {
    assert (ops + [Stray(num)])[..|ops|] == ops;
  }

  /** Wrapped replay protection: an accepted index that is still in the half range never passes. */
  lemma AcceptedIndexNeverPasses(c: Config, ops: seq<WrapOp>, e: int)
    requires NearRun(c, ops) && ReferenceRun(ops).At? && Near(c, ReferenceRun(ops).r, e)
    requires e in ReferenceRun(ops).r.accepted
    ensures !PassesWrapped(c, WrapRun(c, ops), Wire(c, e))
  {
    WrapRunRefines(c, ops);
    DecidesAsReference(c, ops, e);
  }
}
