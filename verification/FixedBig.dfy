/** The fixed-width multi-word integer that holds a replay window (replaydetector/fixedbig.go). */
module FixedBig {
  import opened Word64

  function Chunks(n: nat): (c: nat)
    ensures c >= 1 && n <= 64 * c && (n > 0 ==> 64 * (c - 1) < n)
  {
    if (n + 63) / 64 > 1 then (n + 63) / 64 else 1
  }

  function TopMask(n: nat): Word {
    Shr(ALL_ONES, (64 - n % 64) % 64)
  }

  /** Bit j of a multi-word number, least significant word first. */
  predicate BitAt(words: seq<Word>, j: nat)
    requires j < 64 * |words|
  {
    Bit(words[j / 64], j % 64)
  }

  /** The bits moved into word i by a left shift of `words` by k. */
  function Carry(words: seq<Word>, i: nat, k: nat): Word
    requires i < |words|
  {
    var src := i - k / 64;
    if src < 0 then 0
    else
      var low := Shl(words[src], k % 64);
      if src == 0 then low else Or(low, Shr(words[src - 1], 64 - k % 64))
  }

  function ShiftedWord(words: seq<Word>, i: nat, k: nat): Word
    requires i < |words|
  {
    Or(Shl(words[i], k), Carry(words, i, k))
  }

  /** Two neighbouring words shifted by r < 64 and merged. */
  lemma MergedBit(high: Word, low: Word, r: nat, p: nat)
    requires r < 64 && p < 64
    ensures Bit(Or(Shl(high, r), Shr(low, 64 - r)), p) <==>
            if r <= p then Bit(high, p - r) else Bit(low, p + 64 - r)
  {
    OrBitsBit(64, Shl(high, r), Shr(low, 64 - r), p);
    ShlBit(high, r, p);
    ShrBit(low, 64 - r, p);
  }

  /** The bits of the carry, seen from the word they come from. */
  lemma CarryBitInWord(words: seq<Word>, i: nat, k: nat, p: nat)
    requires i < |words| && p < 64 && k / 64 <= i
    ensures var src, r := i - k / 64, k % 64;
            Bit(Carry(words, i, k), p) <==>
            if r <= p then Bit(words[src], p - r) else src > 0 && Bit(words[src - 1], p + 64 - r)
  {
    var src, r := i - k / 64, k % 64;
    if src > 0 {
      MergedBit(words[src], words[src - 1], r, p);
    } else {
      ShlBit(words[src], r, p);
    }
  }

  /** The carry holds, at bit p of word i, the bit k places further down, across the word border. */
  lemma CarryBit(words: seq<Word>, i: nat, k: nat, p: nat)
    requires i < |words| && p < 64
    ensures Bit(Carry(words, i, k), p) <==> 64 * i + p >= k && BitAt(words, 64 * i + p - k)
  {
    if k / 64 > i {
      NoBitAbove(0, 0, p);
    } else {
      CarryBitInWord(words, i, k, p);
      if 64 * i + p >= k {
        SplitIndex(i, k, p);
      }
    }
  }

  lemma SplitIndex(i: nat, k: nat, p: nat)
    requires p < 64 && 64 * i + p >= k
    ensures p >= k % 64 ==> (64 * i + p - k) / 64 == i - k / 64 && (64 * i + p - k) % 64 == p - k % 64
    ensures p < k % 64 ==> (64 * i + p - k) / 64 == i - k / 64 - 1 && (64 * i + p - k) % 64 == p + 64 - k % 64
  {}

  lemma ShiftedWordBit(words: seq<Word>, i: nat, k: nat, p: nat)
    requires i < |words| && p < 64
    ensures Bit(ShiftedWord(words, i, k), p) <==> 64 * i + p >= k && BitAt(words, 64 * i + p - k)
  {
    OrBitsBit(64, Shl(words[i], k), Carry(words, i, k), p);
    CarryBit(words, i, k, p);
    ShlBit(words[i], k, p);
    if k <= p {
      assert (64 * i + p - k) / 64 == i && (64 * i + p - k) % 64 == p - k;
    }
  }

  /** The top mask keeps exactly the bits of the last word that lie below the width n. */
  lemma TopMaskBit(n: nat, p: nat)
    requires p < 64 && n > 0
    ensures Bit(TopMask(n), p) <==> 64 * (Chunks(n) - 1) + p < n
  {
    var spare := (64 - n % 64) % 64;
    OnesBit(spare, p);
    SpareBits(n);
  }

  lemma SpareBits(n: nat)
    requires n > 0
    ensures n + (64 - n % 64) % 64 == 64 * Chunks(n)
  {}

  /** The window contents: the positions of the one bits below the width. */
  function Ones(words: seq<Word>, n: nat): set<nat>
    requires n <= 64 * |words|
  {
    set j: nat | j < n && BitAt(words, j)
  }

  predicate MovedHere(ones: set<nat>, k: nat, j: nat) {
    k <= j && j - k in ones
  }

  /** What a left shift by k, truncated to n bits, does to the set of one bits. */
  function ShiftedSet(ones: set<nat>, k: nat, n: nat): set<nat> {
    set j: nat | j < n && MovedHere(ones, k, j)
  }

  /** `moved` is `words` shifted left by k, with the top word masked to the width n. */
  predicate IsShift(words: seq<Word>, moved: seq<Word>, k: nat, n: nat) {
    && n > 0 && |words| == |moved| == Chunks(n)
    && (forall c | 0 <= c < |words| - 1 :: moved[c] == ShiftedWord(words, c, k))
    && moved[|words| - 1] == And(ShiftedWord(words, |words| - 1, k), TopMask(n))
  }

  lemma MovedBit(words: seq<Word>, moved: seq<Word>, k: nat, n: nat, j: nat)
    requires IsShift(words, moved, k, n) && j < n
    ensures BitAt(moved, j) <==> j >= k && BitAt(words, j - k)
  {
    var c, p := j / 64, j % 64;
    ShiftedWordBit(words, c, k, p);
    if c == |words| - 1 {
      AndBitsBit(64, ShiftedWord(words, c, k), TopMask(n), p);
      TopMaskBit(n, p);
    }
  }

  lemma ShiftOnes(words: seq<Word>, moved: seq<Word>, k: nat, n: nat)
    requires IsShift(words, moved, k, n)
    ensures Ones(moved, n) == ShiftedSet(Ones(words, n), k, n)
  {
    forall j: nat | j < n
      ensures j in Ones(moved, n) <==> MovedHere(Ones(words, n), k, j)
    {
      MovedBit(words, moved, k, n, j);
    }
  }

  class FixedBigInt {
    const bits: array<Word>
    const n: nat
    const msbMask: Word

    ghost predicate Valid()
      reads this
    {
      bits.Length == Chunks(n) && msbMask == TopMask(n)
    }

    /** The positions of the one bits. */
    ghost function Value(): set<nat>
      requires Valid()
      reads this, bits
    {
      Ones(bits[..], n)
    }

    constructor (n: nat)
      ensures Valid() && fresh(bits) && this.n == n
      ensures Value() == {}
    {
      this.n := n;
      bits := new Word[Chunks(n)](_ => 0);
      msbMask := TopMask(n);
      new;
      forall j: nat | j < n
        ensures !BitAt(bits[..], j)
      {
        NoBitAbove(0, 0, j % 64);
      }
    }

    /** Left shift: each one bit moves up by k, and those that leave the width are dropped. */
    method Lsh(k: nat)
      requires Valid()
      modifies bits
      ensures Value() == ShiftedSet(old(Value()), k, n)
    {
      if k == 0 {
        return;
      }
      ghost var words := bits[..];
      var nChunk, nN := k / 64, k % 64;
      var i := bits.Length - 1;
      while i >= 0
        invariant -1 <= i < bits.Length
        invariant forall c | 0 <= c <= i :: bits[c] == words[c]
        invariant forall c | i < c < bits.Length :: bits[c] == ShiftedWord(words, c, k)
      {
        var carry: Word := 0;
        if i - nChunk >= 0 {
          carry := Shl(bits[i - nChunk], nN);
          if i - nChunk - 1 >= 0 {
            carry := Or(carry, Shr(bits[i - nChunk - 1], 64 - nN));
          }
        }
        bits[i] := Or(Shl(bits[i], k), carry);
        i := i - 1;
      }
      bits[bits.Length - 1] := And(bits[bits.Length - 1], msbMask);
      if n > 0 {
        ShiftOnes(words, bits[..], k, n);
      }
    }

    /** Bit i, or false when i is beyond the width. */
    method BitSet(i: nat) returns (b: bool)
      requires Valid()
      ensures b <==> i in Value()
    {
      if i >= n {
        return false;
      }
      MaskBit(bits[i / 64], i % 64);
      return And(bits[i / 64], Shl(1, i % 64)) != 0;
    }

    /** Sets bit i; a position beyond the width is ignored. */
    method SetBit(i: nat)
      requires Valid()
      modifies bits
      ensures Value() == old(Value()) + (if i < n then {i} else {})
    {
      if i >= n {
        return;
      }
      ghost var words := bits[..];
      var chunk, pos := i / 64, i % 64;
      bits[chunk] := Or(bits[chunk], Shl(1, pos));
      forall j: nat | j < n
        ensures BitAt(bits[..], j) <==> j == i || BitAt(words, j)
      {
        if j / 64 == chunk {
          OrBitsBit(64, words[chunk], Shl(1, pos), j % 64);
          OneBit(pos, j % 64);
        }
      }
    }
  }
}
