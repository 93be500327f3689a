/** Go's uint64 words with the operators the replay window uses. A word is a number below 2^64.
    A shift by k is k shifts by one, as the Go specification defines it, so a count of 64 or more
    leaves 0; `|` and `&` work digit by digit. */
module Word64 {

  function Pow2(w: nat): (r: nat)
    ensures r >= 1
  {
    if w == 0 then 1 else 2 * Pow2(w - 1)
  }

  type Word = x: nat | x < Pow2(64)

  const ALL_ONES: Word := Pow2(64) - 1

  /** `x << 1`: doubling, with the carry out of the top bit lost. */
  function Double(x: Word): Word {
    if 2 * x < Pow2(64) then 2 * x else 2 * x - Pow2(64)
  }

  /** `x << k`. */
  function Shl(x: Word, k: nat): Word
    decreases k
  {
    if k == 0 then x else Shl(Double(x), k - 1)
  }

  /** `x >> k`. */
  function Shr(x: nat, k: nat): (r: nat)
    ensures r <= x
  {
    if k == 0 then x else Shr(x / 2, k - 1)
  }

  function OrBits(w: nat, x: nat, y: nat): (r: nat)
    requires x < Pow2(w) && y < Pow2(w)
    ensures r < Pow2(w)
  {
    if w == 0 then 0
    else 2 * OrBits(w - 1, x / 2, y / 2) + (if x % 2 == 1 || y % 2 == 1 then 1 else 0)
  }

  function AndBits(w: nat, x: nat, y: nat): (r: nat)
    requires x < Pow2(w) && y < Pow2(w)
    ensures r < Pow2(w)
  {
    if w == 0 then 0
    else 2 * AndBits(w - 1, x / 2, y / 2) + (if x % 2 == 1 && y % 2 == 1 then 1 else 0)
  }

  /** `x | y`. */
  function Or(x: Word, y: Word): Word {
    OrBits(64, x, y)
  }

  /** `x & y`. */
  function And(x: Word, y: Word): Word {
    AndBits(64, x, y)
  }

  /** Binary digit p of x. */
  predicate Bit(x: nat, p: nat) {
    Shr(x, p) % 2 == 1
  }

  lemma {:induction false} ShrAdd(x: nat, a: nat, b: nat)
    ensures Shr(x, a + b) == Shr(Shr(x, a), b)
  {
    if a > 0 {
      ShrAdd(x / 2, a - 1, b);
    }
  }

  lemma {:induction false} NoBitAbove(x: nat, w: nat, p: nat)
    requires x < Pow2(w) && w <= p
    ensures !Bit(x, p)
  {
    if p > 0 {
      NoBitAbove(x / 2, if w == 0 then 0 else w - 1, p - 1);
    }
  }

  /** A right shift moves every bit down by k and fills with zeros. */
  lemma ShrBit(x: Word, k: nat, p: nat)
    ensures Bit(Shr(x, k), p) <==> p + k < 64 && Bit(x, p + k)
  {
    ShrAdd(x, k, p);
    if p + k >= 64 {
      NoBitAbove(x, 64, p + k);
    }
  }

  lemma {:induction false} OrBitsBit(w: nat, x: nat, y: nat, p: nat)
    requires x < Pow2(w) && y < Pow2(w)
    ensures Bit(OrBits(w, x, y), p) <==> Bit(x, p) || Bit(y, p)
  {
    if w == 0 {
      NoBitAbove(0, 0, p);
    } else if p > 0 {
      OrBitsBit(w - 1, x / 2, y / 2, p - 1);
    }
  }

  lemma {:induction false} AndBitsBit(w: nat, x: nat, y: nat, p: nat)
    requires x < Pow2(w) && y < Pow2(w)
    ensures Bit(AndBits(w, x, y), p) <==> Bit(x, p) && Bit(y, p)
  {
    if w == 0 {
      NoBitAbove(0, 0, p);
    } else if p > 0 {
      AndBitsBit(w - 1, x / 2, y / 2, p - 1);
    }
  }

  lemma {:induction false} OnesBits(w: nat, p: nat)
    ensures Bit(Pow2(w) - 1, p) <==> p < w
  {
    if w == 0 {
      NoBitAbove(0, 0, p);
    } else if p > 0 {
      assert (Pow2(w) - 1) / 2 == Pow2(w - 1) - 1;
      OnesBits(w - 1, p - 1);
    }
  }

  /** Shifting the all-ones word right by k leaves exactly the lowest 64 - k bits. */
  lemma OnesBit(k: nat, p: nat)
    ensures Bit(Shr(ALL_ONES, k), p) <==> p + k < 64
  {
    ShrBit(ALL_ONES, k, p);
    OnesBits(64, p + k);
  }

  lemma {:induction false} DropTop(x: nat, w: nat, p: nat)
    requires p < w && Pow2(w) <= x
    ensures Bit(x - Pow2(w), p) <==> Bit(x, p)
  {
    if p > 0 {
      assert (x - Pow2(w)) / 2 == x / 2 - Pow2(w - 1);
      DropTop(x / 2, w - 1, p - 1);
    }
  }

  lemma DoubleBit(x: Word, p: nat)
    requires p < 64
    ensures Bit(Double(x), p) <==> 1 <= p && Bit(x, p - 1)
  {
    if 2 * x >= Pow2(64) {
      DropTop(2 * x, 64, p);
    }
    if p > 0 {
      assert 2 * x / 2 == x;
    }
  }

  /** A left shift moves every bit up by k and fills with zeros. */
  lemma {:induction false} ShlBit(x: Word, k: nat, p: nat)
    requires p < 64
    ensures Bit(Shl(x, k), p) <==> k <= p && Bit(x, p - k)
    decreases k
  {
    if k > 0 {
      ShlBit(Double(x), k - 1, p);
      if k - 1 <= p {
        DoubleBit(x, p - (k - 1));
      }
    }
  }

  lemma {:induction false} NoBitIsZero(x: nat, w: nat)
    requires x < Pow2(w)
    requires forall q: nat | q < w :: !Bit(x, q)
    ensures x == 0
  {
    if w > 0 {
      assert !Bit(x, 0);
      forall q: nat | q < w - 1
        ensures !Bit(x / 2, q)
      {
        assert !Bit(x, q + 1);
      }
      NoBitIsZero(x / 2, w - 1);
    }
  }

  /** `1 << p` has bit p and no other. */
  lemma OneBit(p: nat, q: nat)
    requires p < 64 && q < 64
    ensures Bit(Shl(1, p), q) <==> q == p
  {
    ShlBit(1, p, q);
    if p < q {
      NoBitAbove(1, 1, q - p);
    }
  }

  /** `x & (1 << p) != 0` reads bit p. */
  lemma MaskBit(x: Word, p: nat)
    requires p < 64
    ensures And(x, Shl(1, p)) != 0 <==> Bit(x, p)
  {
    var y := And(x, Shl(1, p));
    forall q: nat | q < 64
      ensures Bit(y, q) <==> q == p && Bit(x, p)
    {
      AndBitsBit(64, x, Shl(1, p), q);
      OneBit(p, q);
    }
    if Bit(x, p) {
      assert Bit(y, p);
      NoBitAbove(0, 0, p);
    } else {
      NoBitIsZero(y, 64);
    }
  }
}
