/** The non-wrapping replay detector (replaydetector/replaydetector.go, `New`), as used for DTLS. */
module ReplayWindow {
  import opened FixedBig

  /** The outcome of a check. Any token may be handed to Accept, at any time and more than once. */
  datatype Token = Token(num: nat, passed: bool)

  datatype Config = Config(windowSize: nat, maxSeq: nat)

  /** The detector's state: the newest number, and the window as its set of one bits. */
  datatype Window = Window(latest: nat, mask: set<nat>)

  predicate Passes(c: Config, w: Window, num: nat) {
    && num <= c.maxSeq
    && (num <= w.latest ==> w.latest - num < c.windowSize && w.latest - num !in w.mask)
  }

  function SetBit(c: Config, mask: set<nat>, i: nat): set<nat> {
    mask + (if i < c.windowSize then {i} else {})
  }

  /** Records a number; the boolean says whether it is the newest one. */
  function AcceptNum(c: Config, w: Window, num: nat): (Window, bool)
    requires c.maxSeq >= 1
  {
    if num > w.latest then
      var k := if num - w.latest < c.windowSize then num - w.latest else c.windowSize;
      (Window(num, SetBit(c, ShiftedSet(w.mask, k, c.windowSize), 0)), true)
    else
      (Window(w.latest, SetBit(c, w.mask, (w.latest - num) % c.maxSeq)),
       num == 0 && w.latest == 0 && 0 !in w.mask)
  }

  class SlidingWindowDetector {
    var latestSeq: nat
    const maxSeq: nat
    const windowSize: nat
    const mask: FixedBigInt

    ghost predicate Valid()
      reads this, mask
    {
      mask.Valid() && mask.n == windowSize
    }

    ghost function Cfg(): Config {
      Config(windowSize, maxSeq)
    }

    ghost function View(): Window
      requires Valid()
      reads this, mask, mask.bits
    {
      Window(latestSeq, mask.Value())
    }

    constructor (windowSize: nat, maxSeq: nat)
      ensures Valid() && fresh(mask) && fresh(mask.bits)
      ensures Cfg() == Config(windowSize, maxSeq) && View() == Window(0, {})
    {
      this.maxSeq := maxSeq;
      this.windowSize := windowSize;
      this.latestSeq := 0;
      this.mask := new FixedBigInt(windowSize);
    }

    /** A check decides and changes nothing. */
    method CheckSeq(num: nat) returns (tok: Token)
      requires Valid()
      ensures tok == Token(num, Passes(Cfg(), View(), num))
    {
      if num > maxSeq {
        return Token(num, false);
      }
      if num <= latestSeq {
        if latestSeq - num >= windowSize {
          return Token(num, false);
        }
        var seen := mask.BitSet(latestSeq - num);
        if seen {
          return Token(num, false);
        }
      }
      return Token(num, true);
    }

    method Accept(tok: Token) returns (latest: bool)
      requires Valid() && maxSeq >= 1
      modifies this`latestSeq, mask.bits
      ensures Valid()
      ensures (View(), latest) ==
              if tok.passed then AcceptNum(Cfg(), old(View()), tok.num) else (old(View()), false)
    {
      if !tok.passed {
        return false;
      }
      var bit0 := mask.BitSet(0);
      latest := tok.num == 0 && latestSeq == 0 && !bit0;
      if tok.num > latestSeq {
        mask.Lsh(if tok.num - latestSeq < windowSize then tok.num - latestSeq else windowSize);
        latestSeq := tok.num;
        latest := true;
      }
      mask.SetBit((latestSeq - tok.num) % maxSeq);
    }
  }

  // ---- Runs and the reference: the list of accepted numbers ----

  datatype Op = Check(num: nat) | Accept(tok: Token)

  /** The state after a run from a fresh detector. */
  function Run(c: Config, ops: seq<Op>): Window
    requires c.maxSeq >= 1
  {
    if ops == [] then Window(0, {})
    else
      var w, op := Run(c, ops[..|ops| - 1]), ops[|ops| - 1];
      if op.Accept? && op.tok.passed then AcceptNum(c, w, op.tok.num).0 else w
  }

  /** The reference: the largest accepted number (0 at the start) and all accepted numbers. */
  datatype History = History(head: nat, accepted: set<nat>)

  function Record(h: History, num: nat): History {
    History(if num > h.head then num else h.head, h.accepted + {num})
  }

  function Recorded(ops: seq<Op>): History {
    if ops == [] then History(0, {})
    else
      var h, op := Recorded(ops[..|ops| - 1]), ops[|ops| - 1];
      if op.Accept? && op.tok.passed then Record(h, op.tok.num) else h
  }

  lemma {:induction false} HeadIsMaximum(ops: seq<Op>)
    ensures var h := Recorded(ops);
            && (forall a | a in h.accepted :: a <= h.head)
            && (if h.accepted == {} then h.head == 0 else h.head in h.accepted)
  {
    if ops != [] {
      HeadIsMaximum(ops[..|ops| - 1]);
    }
  }

  /** The reference decision: in range, and newer than the head or unseen inside the window. */
  predicate SpecPasses(c: Config, h: History, num: nat) {
    && num <= c.maxSeq
    && (num > h.head || (h.head - num < c.windowSize && num !in h.accepted))
  }

  predicate InRange(c: Config, ops: seq<Op>) {
    forall i | 0 <= i < |ops| && ops[i].Accept? && ops[i].tok.passed :: ops[i].tok.num <= c.maxSeq
  }

  predicate Seen(h: History, i: nat) {
    i <= h.head && h.head - i in h.accepted
  }

  /** The window of a history: bit i says whether head - i was accepted. */
  function WindowOf(c: Config, h: History): Window {
    Window(h.head, set i: nat | i < c.windowSize && Seen(h, i))
  }

  lemma AcceptNewer(c: Config, h: History, num: nat)
    requires c.maxSeq >= 1
    requires forall a | a in h.accepted :: a <= h.head
    requires num > h.head
    ensures AcceptNum(c, WindowOf(c, h), num) == (WindowOf(c, Record(h, num)), true)
  {
    var w, h' := WindowOf(c, h), Record(h, num);
    var d := num - h.head;
    var k := if d < c.windowSize then d else c.windowSize;
    forall i: nat | i < c.windowSize
      ensures i == 0 || MovedHere(w.mask, k, i) <==> Seen(h', i)
    {
      if d <= i {
        assert MovedHere(w.mask, k, i) <==> Seen(h, i - d);
      }
    }
    assert SetBit(c, ShiftedSet(w.mask, k, c.windowSize), 0) == WindowOf(c, h').mask;
  }

  /** The remainder in Accept folds only the full range, onto bit 0. */
  lemma Folded(d: nat, m: nat)
    requires 1 <= m && d <= m
    ensures d % m == if d == m then 0 else d
  {}

  lemma AcceptOlder(c: Config, h: History, num: nat)
    requires 1 <= c.maxSeq && c.windowSize <= c.maxSeq
    requires num <= h.head <= c.maxSeq
    requires h.head > 0 ==> h.head in h.accepted
    ensures AcceptNum(c, WindowOf(c, h), num).0 == WindowOf(c, Record(h, num))
  {
    var d, h' := h.head - num, Record(h, num);
    Folded(d, c.maxSeq);
    if d == c.maxSeq {
      assert Seen(h, 0);
    }
    assert forall j: nat :: Seen(h', j) <==> Seen(h, j) || j == d;
    assert SetBit(c, WindowOf(c, h).mask, d % c.maxSeq) == WindowOf(c, h').mask;
  }

  /** In every run the window is exactly the recent part of the history of accepted numbers. */
  lemma {:induction false} RunRefines(c: Config, ops: seq<Op>)
    requires 1 <= c.maxSeq && c.windowSize <= c.maxSeq
    requires InRange(c, ops)
    ensures Run(c, ops) == WindowOf(c, Recorded(ops))
    ensures Recorded(ops).head <= c.maxSeq
  {
    if ops != [] {
      var before, op := ops[..|ops| - 1], ops[|ops| - 1];
      RunRefines(c, before);
      HeadIsMaximum(before);
      var h := Recorded(before);
      if op.Accept? && op.tok.passed {
        if op.tok.num > h.head {
          AcceptNewer(c, h, op.tok.num);
        } else {
          AcceptOlder(c, h, op.tok.num);
        }
      }
    }
  }

  /** After every run, with tokens accepted late, twice or out of order, a check decides as the
      reference does. */
  lemma CheckDecidesAsReference(c: Config, ops: seq<Op>, num: nat)
    requires 1 <= c.maxSeq && c.windowSize <= c.maxSeq
    requires InRange(c, ops)
    ensures Passes(c, Run(c, ops), num) <==> SpecPasses(c, Recorded(ops), num)
  {
    RunRefines(c, ops);
    var h := Recorded(ops);
    if num <= h.head {
      assert Seen(h, h.head - num) <==> num in h.accepted;
    }
  }

  /** Accept reports true exactly on a new maximum; a window of size 0 also repeats it for 0. */
  lemma AcceptReportsNewMaximum(c: Config, ops: seq<Op>, num: nat)
    requires 1 <= c.maxSeq && c.windowSize <= c.maxSeq
    requires InRange(c, ops) && num <= c.maxSeq
    ensures var accepted := Recorded(ops).accepted;
            AcceptNum(c, Run(c, ops), num).1 <==>
            || (forall a | a in accepted :: a < num)
            || (c.windowSize == 0 && num == 0 && forall a | a in accepted :: a == 0)
  {
    RunRefines(c, ops);
    HeadIsMaximum(ops);
    var h := Recorded(ops);
    assert Seen(h, 0) <==> h.head in h.accepted;
  }

  // ---- Replay protection and its exact condition ----

  /** The tokens that are accepted came out of earlier checks of the same run. */
  ghost predicate Honest(c: Config, ops: seq<Op>)
    requires c.maxSeq >= 1
  {
    forall i | 0 <= i < |ops| && ops[i].Accept? && ops[i].tok.passed ::
      exists j | 0 <= j < i :: ops[j] == Check(ops[i].tok.num) && Passes(c, Run(c, ops[..j]), ops[i].tok.num)
  }

  /** No honest run lets a number pass that it has accepted. */
  ghost predicate ReplaySafe(c: Config)
    requires c.maxSeq >= 1
  {
    forall ops: seq<Op>, num | Honest(c, ops) && num in Recorded(ops).accepted :: !Passes(c, Run(c, ops), num)
  }

  /** An accepted number never passes again, whatever happens afterwards. */
  lemma AcceptedNeverPassesAgain(c: Config, ops: seq<Op>, num: nat)
    requires 1 <= c.maxSeq && c.windowSize <= c.maxSeq
    requires InRange(c, ops) && num in Recorded(ops).accepted
    ensures !Passes(c, Run(c, ops), num)
  {
    CheckDecidesAsReference(c, ops, num);
    HeadIsMaximum(ops);
  }

  function ReplayRun(c: Config): seq<Op> {
    [Check(c.maxSeq), Accept(Token(c.maxSeq, true)), Check(0), Accept(Token(0, true))]
  }

  /** With a window wider than the number range, the remainder in Accept folds distance maxSeq onto
      bit 0, and the number 0 can be replayed. */
  lemma WideWindowReplays(c: Config)
    requires 1 <= c.maxSeq < c.windowSize
    ensures Honest(c, ReplayRun(c)) && 0 in Recorded(ReplayRun(c)).accepted
    ensures Passes(c, Run(c, ReplayRun(c)), 0)
  {
    var ops := ReplayRun(c);
    assert ops[..0] == [];
    assert ops[..1] == [Check(c.maxSeq)] && ops[..1][..0] == [];
    assert Run(c, ops[..1]) == Window(0, {});
    assert ops[..2][..1] == ops[..1] && ops[..3][..2] == ops[..2] && ops[..4] == ops && ops[..4][..3] == ops[..3];
    assert ShiftedSet({}, c.maxSeq, c.windowSize) == {};
    assert Run(c, ops[..2]) == Window(c.maxSeq, {0});
    assert Run(c, ops[..3]) == Window(c.maxSeq, {0});
    assert Run(c, ops) == Window(c.maxSeq, {0});
    assert ops[0] == Check(ops[1].tok.num) && ops[2] == Check(ops[3].tok.num);
  }

  /** Replay protection holds exactly for windows no wider than the number range. */
  lemma ReplaySafeIff(c: Config)
    requires c.maxSeq >= 1
    ensures ReplaySafe(c) <==> c.windowSize <= c.maxSeq
  {
    if c.windowSize <= c.maxSeq {
      forall ops: seq<Op>, num | Honest(c, ops) && num in Recorded(ops).accepted
        ensures !Passes(c, Run(c, ops), num)
      {
        AcceptedNeverPassesAgain(c, ops, num);
      }
    } else {
      WideWindowReplays(c);
    }
  }
}
