/** Exact drop counts of the shuffle handler over whole runs (vnet/loss_filter.go). */
module LossRuns {
  import opened LossFilters

  /** Every call carries the random choices it would use if it had to shuffle. */
  datatype Op = Packet(picks: seq<nat>) | Rate(chance: nat, reset: bool, picks: seq<nat>)

  predicate Legal(op: Op, n: nat) {
    Picks(op.picks, n) && (op.Rate? ==> op.chance <= 100)
  }

  predicate AllLegal(ops: seq<Op>, n: nat) {
    forall i | 0 <= i < |ops| :: Legal(ops[i], n)
  }

  function Step(s: Loss, op: Op): (Loss, nat)
    requires Ok(s) && Legal(op, |s.block|)
  {
    match op
    case Packet(picks) => var (s', drop) := DropStep(s, picks); (s', if drop then 1 else 0)
    case Rate(chance, reset, picks) => (RateStep(s, chance, reset, picks), 0)
  }

  /** The state after a run and the number of packets it dropped. */
  function Run(s: Loss, ops: seq<Op>): (r: (Loss, nat))
    requires Ok(s) && AllLegal(ops, |s.block|)
    ensures Ok(r.0) && |r.0.block| == |s.block|
  {
    if ops == [] then (s, 0)
    else
      var before, op := Run(s, ops[..|ops| - 1]), ops[|ops| - 1];
      StepsOk(before.0, if op.Rate? then op.chance else 0, op.Rate? && op.reset, op.picks);
      var last := Step(before.0, op);
      (last.0, before.1 + last.1)
  }

  function Packets(ops: seq<Op>): nat {
    if ops == [] then 0 else Packets(ops[..|ops| - 1]) + (if ops[|ops| - 1].Packet? then 1 else 0)
  }

  /** The chance set last, or the one to begin with. */
  function LastChance(chance: nat, ops: seq<Op>): nat {
    if ops == [] then chance
    else
      match ops[|ops| - 1]
      case Rate(latest, _, _) => latest
      case Packet(_) => LastChance(chance, ops[..|ops| - 1])
  }

  predicate NoReset(ops: seq<Op>) {
    forall i | 0 <= i < |ops| :: ops[i].Rate? ==> !ops[i].reset
  }

  lemma CountOneMore(block: seq<bool>, i: nat)
    requires i < |block|
    ensures CountTrue(block[..i + 1]) == CountTrue(block[..i]) + (if block[i] then 1 else 0)
  {
    CountSplit(block[..i + 1], i);
    assert block[..i + 1][..i] == block[..i];
    assert block[..i + 1][i..] == [block[i]];
  }

  /** A packet inside the block. */
  lemma StepInside(s: Loss, op: Op)
    requires Ok(s) && Legal(op, |s.block|) && s.idx < |s.block| && op.Packet?
    ensures Step(s, op) == (s.(idx := s.idx + 1), if s.block[s.idx] then 1 else 0)
  {}

  /** The first packet of a new block. */
  lemma StepBorder(s: Loss, op: Op)
    requires Ok(s) && Legal(op, |s.block|) && s.idx == |s.block| && op.Packet?
    ensures var s' := NewBlock(s, op.picks);
            && |s'.block| == |s.block| && CountTrue(s'.block) == DropsPerBlock(s.chance, |s.block|)
            && Step(s, op) == (s'.(idx := 1), if s'.block[0] then 1 else 0)
            && s'.chance == s.chance && s'.pending == s.pending
  {
    NewBlockOk(s, op.picks);
  }

  /** A rate set without reset leaves the block and the position alone. */
  lemma StepRate(s: Loss, op: Op)
    requires Ok(s) && Legal(op, |s.block|) && op.Rate? && !op.reset
    ensures var (s', d) := Step(s, op); s'.block == s.block && s'.idx == s.idx && d == 0
  {}

  lemma {:induction false} LegalPrefix(s: Loss, ops: seq<Op>)
    requires Ok(s) && AllLegal(ops, |s.block|) && ops != []
    ensures AllLegal(ops[..|ops| - 1], |s.block|) && Legal(ops[|ops| - 1], |s.block|)
    ensures var before := Run(s, ops[..|ops| - 1]);
            var last := Step(before.0, ops[|ops| - 1]);
            Run(s, ops) == (last.0, before.1 + last.1)
  {}

  /** From a block border on, the drops follow the new block, whatever rates are set meanwhile. */
  lemma {:induction false} FollowsBlock(s: Loss, ops: seq<Op>)
    requires Ok(s) && s.idx == |s.block| && AllLegal(ops, |s.block|)
    requires ops != [] && ops[0].Packet? && NoReset(ops) && Packets(ops) <= |s.block|
    ensures var (s', dropped) := Run(s, ops);
            && s'.block == NewBlock(s, ops[0].picks).block && s'.idx == Packets(ops)
            && dropped == CountTrue(s'.block[..s'.idx])
  {
    var before, op := ops[..|ops| - 1], ops[|ops| - 1];
    LegalPrefix(s, ops);
    if before == [] {
      StepBorder(s, op);
      CountOneMore(NewBlock(s, op.picks).block, 0);
    } else {
      FollowsBlock(s, before);
      var t := Run(s, before).0;
      if op.Packet? {
        StepInside(t, op);
        CountOneMore(t.block, t.idx);
      } else {
        StepRate(t, op);
      }
    }
  }

  /** The chance in force is the one set last, with or without reset. */
  lemma {:induction false} ChanceIsLast(s: Loss, ops: seq<Op>)
    requires Ok(s) && AllLegal(ops, |s.block|)
    ensures Run(s, ops).0.chance == LastChance(s.chance, ops)
  {
    if ops != [] {
      LegalPrefix(s, ops);
      ChanceIsLast(s, ops[..|ops| - 1]);
      StepChance(Run(s, ops[..|ops| - 1]).0, ops[|ops| - 1]);
    }
  }

  lemma StepChance(s: Loss, op: Op)
    requires Ok(s) && Legal(op, |s.block|)
    ensures Step(s, op).0.chance == if op.Rate? then op.chance else s.chance
  {
    NewBlockOk(s, op.picks);
  }

  /** After any history that ends at a block border, a block that is not cut by an immediate reset drops
      exactly the rounded share for the chance set last before its first packet, even if the rate is
      changed during the block. */
  lemma FullBlockDrops(s0: Loss, history: seq<Op>, block: seq<Op>)
    requires Ok(s0) && AllLegal(history, |s0.block|) && AllLegal(block, |s0.block|)
    requires Run(s0, history).0.idx == |s0.block|
    requires block != [] && block[0].Packet? && NoReset(block) && Packets(block) == |s0.block|
    ensures var s := Run(s0, history).0;
            Run(s, block).1 == DropsPerBlock(LastChance(s0.chance, history), |s0.block|)
  {
    ChanceIsLast(s0, history);
    var s := Run(s0, history).0;
    FollowsBlock(s, block);
    StepBorder(s, block[0]);
    var b := NewBlock(s, block[0].picks).block;
    assert b[..|b|] == b;
  }

  /** Inside a block the drops follow the block, whatever rates are set meanwhile. */
  lemma {:induction false} InsideBlock(s: Loss, ops: seq<Op>)
    requires Ok(s) && AllLegal(ops, |s.block|) && NoReset(ops) && s.idx + Packets(ops) <= |s.block|
    ensures var (s', dropped) := Run(s, ops);
            && s'.block == s.block && s'.idx == s.idx + Packets(ops)
            && dropped == CountTrue(s.block[..s'.idx]) - CountTrue(s.block[..s.idx])
  {
    if ops != [] {
      var before, op := ops[..|ops| - 1], ops[|ops| - 1];
      LegalPrefix(s, ops);
      InsideBlock(s, before);
      var t := Run(s, before).0;
      if op.Packet? {
        StepInside(t, op);
        CountOneMore(t.block, t.idx);
      } else {
        StepRate(t, op);
      }
    }
  }

  /** The block that the constructor or an immediate reset begins: if no further reset cuts it, it drops
      exactly the rounded share for the chance it was begun with. */
  lemma BegunBlockDrops(s: Loss, ops: seq<Op>)
    requires Ok(s) && s.idx == 0 && AllLegal(ops, |s.block|) && NoReset(ops) && Packets(ops) == |s.block|
    ensures Run(s, ops).1 == CountTrue(s.block)
  {
    InsideBlock(s, ops);
    assert s.block[..|s.block|] == s.block;
  }

  lemma ResetBlockDrops(s: Loss, chance: nat, picks: seq<nat>, ops: seq<Op>)
    requires Ok(s) && chance <= 100 && Picks(picks, |s.block|)
    requires AllLegal(ops, |s.block|) && NoReset(ops) && Packets(ops) == |s.block|
    ensures Ok(RateStep(s, chance, true, picks)) && |RateStep(s, chance, true, picks).block| == |s.block|
    ensures Run(RateStep(s, chance, true, picks), ops).1 == DropsPerBlock(chance, |s.block|)
  {
    NewBlockOk(s.(chance := chance, pending := DropsPerBlock(chance, |s.block|)), picks);
    BegunBlockDrops(RateStep(s, chance, true, picks), ops);
  }

  // ---- A constant rate ----

  predicate OnlyPackets(ops: seq<Op>) {
    forall i | 0 <= i < |ops| :: ops[i].Packet?
  }

  /** k packets, dropped so far: q times the share d, plus the start of the current block. */
  predicate Progress(t: Loss, b: nat, d: nat, k: nat, q: nat, dropped: nat) {
    && Ok(t) && |t.block| == b && t.pending == d && CountTrue(t.block) == d
    && k == q * b + t.idx && dropped == q * d + CountTrue(t.block[..t.idx])
  }

  lemma ProgressStep(t: Loss, b: nat, d: nat, k: nat, q: nat, dropped: nat, op: Op) returns (q': nat)
    requires Progress(t, b, d, k, q, dropped) && Legal(op, b) && op.Packet?
    ensures Ok(Step(t, op).0) && Progress(Step(t, op).0, b, d, k + 1, q', dropped + Step(t, op).1)
  {
    StepsOk(t, 0, false, op.picks);
    if t.idx == b {
      StepBorder(t, op);
      CountOneMore(NewBlock(t, op.picks).block, 0);
      assert t.block[..t.idx] == t.block;
      Distribute(q, b);
      Distribute(q, d);
      q' := q + 1;
    } else {
      StepInside(t, op);
      CountOneMore(t.block, t.idx);
      q' := q;
    }
  }

  lemma Distribute(q: nat, n: nat)
    ensures (q + 1) * n == q * n + n
  {}

  lemma {:induction false} ConstantRate(s: Loss, ops: seq<Op>) returns (q: nat)
    requires Ok(s) && s.idx == 0 && CountTrue(s.block) == s.pending && AllLegal(ops, |s.block|) && OnlyPackets(ops)
    ensures var (t, dropped) := Run(s, ops); Progress(t, |s.block|, s.pending, |ops|, q, dropped)
  {
    if ops == [] {
      q := 0;
    } else {
      var before := ops[..|ops| - 1];
      LegalPrefix(s, ops);
      q := ConstantRate(s, before);
      var (t, dropped) := Run(s, before);
      q := ProgressStep(t, |s.block|, s.pending, |before|, q, dropped, ops[|ops| - 1]);
    }
  }

  /** With a constant rate, k packets lose (k / b) * d packets from whole blocks, and from the last
      m = k % b packets at most min(m, d) and at least d - (b - m). */
  lemma TotalDropBounds(s: Loss, ops: seq<Op>)
    requires Ok(s) && s.idx == 0 && CountTrue(s.block) == s.pending && AllLegal(ops, |s.block|) && OnlyPackets(ops)
    ensures var k, b, d, dropped := |ops|, |s.block|, DropsPerBlock(s.chance, |s.block|), Run(s, ops).1;
            && k / b * d <= dropped <= k / b * d + (if k % b < d then k % b else d)
            && k / b * d + d - (b - k % b) <= dropped
  {
    var q := ConstantRate(s, ops);
    var (t, dropped) := Run(s, ops);
    var b, d := |s.block|, s.pending;
    ProgressBounds(t, b, d, |ops|, q, dropped);
  }

  lemma ProgressBounds(t: Loss, b: nat, d: nat, k: nat, q: nat, dropped: nat)
    requires b >= 1 && Progress(t, b, d, k, q, dropped)
    ensures k / b * d <= dropped <= k / b * d + (if k % b < d then k % b else d)
    ensures k / b * d + d - (b - k % b) <= dropped
  {
    CountSplit(t.block, t.idx);
    if t.idx == b {
      assert t.block[..t.idx] == t.block;
      Distribute(q, b);
      Distribute(q, d);
      DivUnique(k, q + 1, 0, b);
    } else {
      DivUnique(k, q, t.idx, b);
    }
  }

  lemma DivUnique(k: nat, q: nat, m: nat, b: nat)
    requires m < b && k == q * b + m
    ensures k / b == q && k % b == m
  {
    var q' := k / b;
    assert (q' - q) * b == q' * b - q * b == m - k % b;
    if q' - q >= 1 {
      AtLeast(q' - q, b);
    } else if q - q' >= 1 {
      assert (q - q') * b == k % b - m;
      AtLeast(q - q', b);
    }
  }

  lemma AtLeast(n: nat, b: nat)
    requires n >= 1
    ensures n * b >= b
  {}
}
