/** Shuffle-based packet loss (vnet/loss_filter.go): every block of packets loses a fixed number of them,
    at positions chosen by a random shuffle. The random choices are parameters. */
module LossFilters {

  function DropsPerBlock(chance: nat, blockSize: nat): (d: nat)
    ensures chance <= 100 ==> d <= blockSize
    ensures chance == 0 ==> d == 0
    ensures chance == 100 ==> d == blockSize
  {
    (chance * blockSize + 50) / 100
  }

  /** The number of drops is blockSize * chance / 100 rounded to the nearest integer, halves up. */
  lemma DropsRounded(chance: nat, blockSize: nat)
    ensures var d := DropsPerBlock(chance, blockSize);
            200 * d - 100 <= 2 * chance * blockSize < 200 * d + 100
  {}

  function CountTrue(s: seq<bool>): (n: nat)
    ensures n <= |s|
  {
    if s == [] then 0 else (if s[0] then 1 else 0) + CountTrue(s[1..])
  }

  lemma {:induction false} CountSplit(s: seq<bool>, i: nat)
    requires i <= |s|
    ensures CountTrue(s) == CountTrue(s[..i]) + CountTrue(s[i..])
  {
    if i > 0 {
      CountSplit(s[1..], i - 1);
      assert s[..i][1..] == s[1..][..i - 1];
      assert s[i..] == s[1..][i - 1..];
    }
  }

  lemma CountUpdate(s: seq<bool>, i: nat, v: bool)
    requires i < |s|
    ensures CountTrue(s[i := v]) == CountTrue(s) - (if s[i] then 1 else 0) + (if v then 1 else 0)
  {
    CountSplit(s, i);
    CountSplit(s[i := v], i);
    assert s[i := v][..i] == s[..i];
    assert s[i := v][i..][1..] == s[i..][1..];
  }

  lemma {:induction false} CountAll(s: seq<bool>, v: bool)
    requires forall i | 0 <= i < |s| :: s[i] == v
    ensures CountTrue(s) == if v then |s| else 0
  {
    if s != [] {
      CountAll(s[1..], v);
    }
  }

  // ---- The block ----

  /** Turns entries from position idx on until the block has `pending` drops. */
  function Adjusted(block: seq<bool>, idx: nat, current: nat, pending: nat): (seq<bool>, nat)
    requires idx <= |block|
    decreases |block| - idx
  {
    if idx == |block| || pending == current then (block, current)
    else if pending > current && !block[idx] then Adjusted(block[idx := true], idx + 1, current + 1, pending)
    else if pending < current && block[idx] then Adjusted(block[idx := false], idx + 1, current - 1, pending)
    else Adjusted(block, idx + 1, current, pending)
  }

  /** Adjusting one way or the other reaches exactly the pending number of drops. */
  lemma {:induction false} AdjustedCount(block: seq<bool>, idx: nat, current: nat, pending: nat)
    requires idx <= |block| && CountTrue(block) == current && pending <= |block|
    requires pending > current ==> forall i | 0 <= i < idx :: block[i]
    requires pending < current ==> forall i | 0 <= i < idx :: !block[i]
    ensures var (block', current') := Adjusted(block, idx, current, pending);
            |block'| == |block| && current' == pending && CountTrue(block') == pending
    decreases |block| - idx
  {
    if idx == |block| {
      if pending != current {
        CountAll(block, pending > current);
      }
    } else if pending != current {
      CountUpdate(block, idx, pending > current);
      if pending > current && !block[idx] {
        AdjustedCount(block[idx := true], idx + 1, current + 1, pending);
      } else if pending < current && block[idx] {
        AdjustedCount(block[idx := false], idx + 1, current - 1, pending);
      } else {
        AdjustedCount(block, idx + 1, current, pending);
      }
    }
  }

  /** The random choices of one shuffle: position i is swapped with some position up to i. */
  predicate Picks(picks: seq<nat>, n: nat) {
    |picks| == n && forall i | 0 <= i < n :: picks[i] <= i
  }

  function Swapped<T>(s: seq<T>, i: nat, j: nat): seq<T>
    requires i < |s| && j < |s|
  {
    s[i := s[j]][j := s[i]]
  }

  /** rand.Shuffle from position i - 1 down to 1. */
  function Shuffled<T>(s: seq<T>, picks: seq<nat>, i: nat): seq<T>
    requires i <= |s| && Picks(picks, |s|)
    decreases i
  {
    if i <= 1 then s else Shuffled(Swapped(s, i - 1, picks[i - 1]), picks, i - 1)
  }

  lemma SamePieces<T>(a: seq<T>, x: T, b: seq<T>, y: T, c: seq<T>)
    ensures multiset(a + [x] + b + [y] + c) == multiset(a + [y] + b + [x] + c)
  {}

  lemma SwapPieces<T>(s: seq<T>, i: nat, j: nat)
    requires j < i < |s|
    ensures s == s[..j] + [s[j]] + s[j + 1..i] + [s[i]] + s[i + 1..]
    ensures Swapped(s, i, j) == s[..j] + [s[i]] + s[j + 1..i] + [s[j]] + s[i + 1..]
  {}

  lemma {:induction false} SwapPermutes<T>(s: seq<T>, i: nat, j: nat)
    requires j <= i < |s|
    ensures multiset(Swapped(s, i, j)) == multiset(s)
  {
    if j < i {
      SwapPieces(s, i, j);
      SamePieces(s[..j], s[j], s[j + 1..i], s[i], s[i + 1..]);
    } else {
      assert Swapped(s, i, j) == s;
    }
  }

  /** A shuffle permutes the block, from position i on not at all. */
  lemma {:induction false} ShufflePermutes<T>(s: seq<T>, picks: seq<nat>, i: nat)
    requires i <= |s| && Picks(picks, |s|)
    ensures var t := Shuffled(s, picks, i);
            |t| == |s| && multiset(t) == multiset(s) && t[i..] == s[i..]
    decreases i
  {
    if i > 1 {
      SwapPermutes(s, i - 1, picks[i - 1]);
      var s' := Swapped(s, i - 1, picks[i - 1]);
      ShufflePermutes(s', picks, i - 1);
      var t := Shuffled(s', picks, i - 1);
      assert t[i..] == t[i - 1..][1..] && s'[i - 1..][1..] == s'[i..] == s[i..];
    }
  }

  lemma {:induction false} ShuffledAgrees<T>(s: seq<T>, picks: seq<nat>, picks': seq<nat>, i: nat)
    requires i <= |s| && Picks(picks, |s|) && Picks(picks', |s|) && picks[..i] == picks'[..i]
    ensures Shuffled(s, picks, i) == Shuffled(s, picks', i)
    decreases i
  {
    if i > 1 {
      assert picks[i - 1] == picks[..i][i - 1] == picks'[i - 1];
      assert picks[..i - 1] == picks[..i][..i - 1] == picks'[..i - 1];
      ShuffledAgrees(Swapped(s, i - 1, picks[i - 1]), picks, picks', i - 1);
    }
  }

  lemma AllButLast<T>(p: seq<T>)
    requires p != []
    ensures multiset(p[..|p| - 1]) == multiset(p) - multiset{p[|p| - 1]}
  {
    assert p == p[..|p| - 1] + [p[|p| - 1]];
  }

  lemma {:induction false} SameFront<T>(a: seq<T>, b: seq<T>)
    requires a != [] && b != [] && multiset(a) == multiset(b) && a[|a| - 1] == b[|b| - 1]
    ensures multiset(a[..|a| - 1]) == multiset(b[..|b| - 1])
  {
    AllButLast(a);
    AllButLast(b);
  }

  lemma SwapLast<T>(p: seq<T>, j: nat)
    requires j < |p|
    ensures |Swapped(p, |p| - 1, j)| == |p| && Swapped(p, |p| - 1, j)[|p| - 1] == p[j]
  {}

  lemma {:induction false} FrontSwapped<T>(p: seq<T>, q: seq<T>, j: nat)
    requires multiset(p) == multiset(q) && j < |p| == |q| && p[j] == q[|q| - 1]
    ensures multiset(Swapped(p, |p| - 1, j)[..|p| - 1]) == multiset(q[..|q| - 1])
  {
    SwapPermutes(p, |p| - 1, j);
    SwapLast(p, j);
    SameFront(Swapped(p, |p| - 1, j), q);
  }

  lemma SwapSlices<T>(s: seq<T>, i: nat, j: nat)
    requires j < i <= |s|
    ensures var s' := Swapped(s, i - 1, j);
            s'[..i - 1] == Swapped(s[..i], i - 1, j)[..i - 1] && s'[i - 1..] == [s[j]] + s[i..]
  {}

  lemma TakeLess<T>(t: seq<T>, i: nat)
    requires 0 < i <= |t|
    ensures t[..i][..i - 1] == t[..i - 1] && t[i - 1..] == [t[i - 1]] + t[i..]
  {}

  /** One swap puts the right entry at position i - 1. */
  lemma {:induction false} SwapStepReaches<T>(s: seq<T>, t: seq<T>, i: nat, j: nat)
    requires |s| == |t| && j < i <= |s| && multiset(s[..i]) == multiset(t[..i]) && s[i..] == t[i..] && s[j] == t[i - 1]
    ensures var s' := Swapped(s, i - 1, j);
            multiset(s'[..i - 1]) == multiset(t[..i - 1]) && s'[i - 1..] == t[i - 1..]
  {
    SwapSlices(s, i, j);
    TakeLess(t, i);
    FrontSwapped(s[..i], t[..i], j);
  }

  lemma FindEntry<T>(s: seq<T>, t: seq<T>, i: nat) returns (j: nat)
    requires 0 < i <= |s| == |t| && multiset(s[..i]) == multiset(t[..i])
    ensures j < i && s[j] == t[i - 1]
  {
    assert t[..i][i - 1] in multiset(t[..i]);
    assert t[i - 1] in s[..i];
    j :| j < i && s[..i][j] == t[i - 1];
  }

  lemma ReachesAtOnce<T>(s: seq<T>, t: seq<T>, i: nat)
    requires i <= 1 && i <= |s| == |t| && multiset(s[..i]) == multiset(t[..i]) && s[i..] == t[i..]
    ensures s == t
  {
    if i == 1 {
      var j := FindEntry(s, t, 1);
    }
    assert s == s[..i] + s[i..] && t == t[..i] + t[i..];
  }

  /** One more choice in front of those for the first i - 1 positions. */
  lemma {:induction false} ChooseFirst<T>(s: seq<T>, rest: seq<nat>, i: nat, j: nat)
    requires Picks(rest, |s|) && j < i && 1 < i <= |s|
    ensures Picks(rest[i - 1 := j], |s|)
    ensures Shuffled(s, rest[i - 1 := j], i) == Shuffled(Swapped(s, i - 1, j), rest, i - 1)
  {
    var picks := rest[i - 1 := j];
    assert picks[..i - 1] == rest[..i - 1];
    ShuffledAgrees(Swapped(s, i - 1, j), picks, rest, i - 1);
  }

  /** The first i entries are those of the other block in some order, and the rest agrees. */
  ghost predicate SameUpTo<T>(s: seq<T>, t: seq<T>, i: nat) {
    i <= |s| == |t| && multiset(s[..i]) == multiset(t[..i]) && s[i..] == t[i..]
  }

  lemma {:induction false} OneSwap<T>(s: seq<T>, t: seq<T>, i: nat) returns (j: nat)
    requires SameUpTo(s, t, i) && i > 1
    ensures j < i && SameUpTo(Swapped(s, i - 1, j), t, i - 1)
  {
    j := FindEntry(s, t, i);
    SwapStepReaches(s, t, i, j);
  }

  /** Every order of the block is the result of some choices. */
  lemma {:induction false} ShuffleReaches<T>(s: seq<T>, t: seq<T>, i: nat) returns (picks: seq<nat>)
    requires SameUpTo(s, t, i)
    ensures Picks(picks, |s|) && Shuffled(s, picks, i) == t
    decreases i
  {
    if i <= 1 {
      picks := seq(|s|, _ => 0);
      ReachesAtOnce(s, t, i);
    } else {
      var j := OneSwap(s, t, i);
      var rest := ShuffleReaches(Swapped(s, i - 1, j), t, i - 1);
      ChooseFirst(s, rest, i, j);
      picks := rest[i - 1 := j];
    }
  }

  /** A block can become another by a shuffle exactly if that is one of its permutations. */
  lemma ShuffleReachesIff<T>(s: seq<T>, t: seq<T>)
    ensures (exists picks :: Picks(picks, |s|) && Shuffled(s, picks, |s|) == t) <==> multiset(s) == multiset(t)
  {
    if multiset(s) == multiset(t) {
      assert |s| == |multiset(s)| && |t| == |multiset(t)|;
      assert s[..|s|] == s && t[..|s|] == t && s[|s|..] == t[|s|..];
      var picks := ShuffleReaches(s, t, |s|);
    }
    if picks :| Picks(picks, |s|) && Shuffled(s, picks, |s|) == t {
      ShufflePermutes(s, picks, |s|);
    }
  }

  /** No shuffle changes how many packets of the block are dropped. */
  lemma {:induction false} ShuffledCount(s: seq<bool>, picks: seq<nat>, i: nat)
    requires i <= |s| && Picks(picks, |s|)
    ensures |Shuffled(s, picks, i)| == |s| && CountTrue(Shuffled(s, picks, i)) == CountTrue(s)
    decreases i
  {
    if i > 1 {
      var j := picks[i - 1];
      CountUpdate(s, i - 1, s[j]);
      CountUpdate(s[i - 1 := s[j]], j, s[i - 1]);
      ShuffledCount(Swapped(s, i - 1, j), picks, i - 1);
    }
  }

  /** The handler: the block, the position in it, the drops it has, and the drops of the next one. */
  datatype Loss = Loss(chance: nat, block: seq<bool>, idx: nat, current: nat, pending: nat)

  predicate Ok(s: Loss) {
    && s.chance <= 100 && |s.block| >= 1 && s.idx <= |s.block|
    && CountTrue(s.block) == s.current
    && s.pending == DropsPerBlock(s.chance, |s.block|)
  }

  function NewBlock(s: Loss, picks: seq<nat>): Loss
    requires Picks(picks, |s.block|) && Ok(s)
  {
    var (adjusted, current) := Adjusted(s.block, 0, s.current, s.pending);
    AdjustedCount(s.block, 0, s.current, s.pending);
    s.(block := Shuffled(adjusted, picks, |adjusted|), current := current, idx := 0)
  }

  /** A new block drops exactly the rounded share for the chance in force when it begins. */
  lemma NewBlockOk(s: Loss, picks: seq<nat>)
    requires Ok(s) && Picks(picks, |s.block|)
    ensures var s' := NewBlock(s, picks);
            && Ok(s') && s'.idx == 0 && |s'.block| == |s.block| && s'.chance == s.chance
            && CountTrue(s'.block) == DropsPerBlock(s.chance, |s.block|)
  {
    AdjustedCount(s.block, 0, s.current, s.pending);
    var adjusted := Adjusted(s.block, 0, s.current, s.pending).0;
    ShuffledCount(adjusted, picks, |adjusted|);
  }

  function DropStep(s: Loss, picks: seq<nat>): (Loss, bool)
    requires Ok(s) && Picks(picks, |s.block|)
  {
    NewBlockOk(s, picks);
    var s := if s.idx == |s.block| then NewBlock(s, picks) else s;
    (s.(idx := s.idx + 1), s.block[s.idx])
  }

  function RateStep(s: Loss, chance: nat, reset: bool, picks: seq<nat>): Loss
    requires Ok(s) && chance <= 100 && Picks(picks, |s.block|)
  {
    var s := s.(chance := chance, pending := DropsPerBlock(chance, |s.block|));
    if reset then NewBlock(s, picks) else s
  }

  lemma StepsOk(s: Loss, chance: nat, reset: bool, picks: seq<nat>)
    requires Ok(s) && chance <= 100 && Picks(picks, |s.block|)
    ensures Ok(DropStep(s, picks).0) && Ok(RateStep(s, chance, reset, picks))
    ensures |DropStep(s, picks).0.block| == |s.block| == |RateStep(s, chance, reset, picks).block|
  {
    NewBlockOk(s, picks);
    NewBlockOk(s.(chance := chance, pending := DropsPerBlock(chance, |s.block|)), picks);
  }

  class LossHandle {
    var chance: nat
    var blockIdx: nat
    const shuffledBlock: array<bool>
    var currentDrops: nat
    var pendingDrops: nat

    ghost function View(): Loss
      reads this, shuffledBlock
    {
      Loss(chance, shuffledBlock[..], blockIdx, currentDrops, pendingDrops)
    }

    constructor (chance: nat, shuffleBlockSize: nat, picks: seq<nat>)
      requires chance <= 100 && shuffleBlockSize >= 1 && Picks(picks, shuffleBlockSize)
      ensures Ok(View()) && fresh(shuffledBlock) && shuffledBlock.Length == shuffleBlockSize
      ensures this.chance == chance && blockIdx == 0
      ensures CountTrue(View().block) == DropsPerBlock(chance, shuffleBlockSize)
    {
      var drops := DropsPerBlock(chance, shuffleBlockSize);
      this.chance := chance;
      shuffledBlock := new bool[shuffleBlockSize](_ => false);
      currentDrops, pendingDrops, blockIdx := drops, drops, 0;
      new;
      CountAll(shuffledBlock[..], false);
      var i := 0;
      while i < currentDrops
        invariant i <= currentDrops == pendingDrops == drops && blockIdx == 0 && this.chance == chance
        invariant CountTrue(shuffledBlock[..]) == i
        invariant forall j | i <= j < shuffledBlock.Length :: !shuffledBlock[j]
      {
        CountUpdate(shuffledBlock[..], i, true);
        shuffledBlock[i] := true;
        i := i + 1;
      }
      NewBlockOk(View(), picks);
      ShuffleBlock(picks);
    }

    /** rand.Shuffle with the given choices. */
    method Shuffle(picks: seq<nat>)
      requires Picks(picks, shuffledBlock.Length)
      modifies shuffledBlock
      ensures shuffledBlock[..] == Shuffled(old(shuffledBlock[..]), picks, shuffledBlock.Length)
    {
      var i := shuffledBlock.Length;
      while i > 1
        invariant 0 <= i <= shuffledBlock.Length
        invariant Shuffled(shuffledBlock[..], picks, i) == Shuffled(old(shuffledBlock[..]), picks, shuffledBlock.Length)
      {
        i := i - 1;
        ghost var before := shuffledBlock[..];
        shuffledBlock[i], shuffledBlock[picks[i]] := shuffledBlock[picks[i]], shuffledBlock[i];
        assert shuffledBlock[..] == Swapped(before, i, picks[i]);
      }
    }

    /** Adjusts the number of drops in the block and shuffles it. */
    method ShuffleBlock(picks: seq<nat>)
      requires Ok(View()) && Picks(picks, shuffledBlock.Length)
      modifies this, shuffledBlock
      ensures View() == NewBlock(old(View()), picks) && Ok(View())
    {
      NewBlockOk(View(), picks);
      AdjustedCount(View().block, 0, currentDrops, pendingDrops);
      ghost var target := Adjusted(shuffledBlock[..], 0, currentDrops, pendingDrops);
      var idx := 0;
      while idx < shuffledBlock.Length && pendingDrops != currentDrops
        invariant 0 <= idx <= shuffledBlock.Length
        invariant Adjusted(shuffledBlock[..], idx, currentDrops, pendingDrops) == target
        invariant chance == old(chance) && pendingDrops == old(pendingDrops)
      {
        ghost var before := shuffledBlock[..];
        if pendingDrops > currentDrops && !shuffledBlock[idx] {
          shuffledBlock[idx] := true;
          assert shuffledBlock[..] == before[idx := true];
          currentDrops := currentDrops + 1;
        } else if pendingDrops < currentDrops && shuffledBlock[idx] {
          shuffledBlock[idx] := false;
          assert shuffledBlock[..] == before[idx := false];
          currentDrops := currentDrops - 1;
        }
        idx := idx + 1;
      }
      Shuffle(picks);
      blockIdx := 0;
    }

    method ShouldDropShuffle(picks: seq<nat>) returns (drop: bool)
      requires Ok(View()) && Picks(picks, shuffledBlock.Length)
      modifies this, shuffledBlock
      ensures (View(), drop) == DropStep(old(View()), picks) && Ok(View())
    {
      if blockIdx == shuffledBlock.Length {
        ShuffleBlock(picks);
      }
      drop := shuffledBlock[blockIdx];
      blockIdx := blockIdx + 1;
    }

    method SetLossRateShuffle(chance: nat, resetImmediately: bool, picks: seq<nat>)
      requires Ok(View()) && chance <= 100 && Picks(picks, shuffledBlock.Length)
      modifies this, shuffledBlock
      ensures View() == RateStep(old(View()), chance, resetImmediately, picks) && Ok(View())
    {
      this.chance := chance;
      pendingDrops := DropsPerBlock(chance, shuffledBlock.Length);
      if resetImmediately {
        ShuffleBlock(picks);
      }
    }
  }
}
