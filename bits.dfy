/** The 64-bit words of the packed Hamming engine and the C operators the
    adapter applies to them. A word is an integer in `[0, 2^64)`; bit `k` of a
    word is its `k`-th binary digit (`BitSet`). The operators `|`, `<<`, `>>`
    and `& 1` are defined arithmetically, and the lemmas connect each of them
    to the digits. */
module Bits {

  const WORD_RANGE: int := 0x1_0000_0000_0000_0000

  /** A `uint64_t` value. */
  type Word = x: int | 0 <= x < 0x1_0000_0000_0000_0000

  function Pow2(n: nat): (p: nat)
    ensures p >= 1
  {
    if n == 0 then 1 else 2 * Pow2(n - 1)
  }

  lemma {:induction false} Pow2Monotone(m: nat, n: nat)
    requires m <= n
    ensures Pow2(m) <= Pow2(n)
  {
    if m < n {
      Pow2Monotone(m, n - 1);
    }
  }

  lemma Pow2Plus8(j: nat)
    ensures Pow2(j + 8) == 256 * Pow2(j)
  {
    assert Pow2(j + 8) == 2 * Pow2(j + 7);
    assert Pow2(j + 7) == 2 * Pow2(j + 6);
    assert Pow2(j + 6) == 2 * Pow2(j + 5);
    assert Pow2(j + 5) == 2 * Pow2(j + 4);
    assert Pow2(j + 4) == 2 * Pow2(j + 3);
    assert Pow2(j + 3) == 2 * Pow2(j + 2);
    assert Pow2(j + 2) == 2 * Pow2(j + 1);
  }

  /** `2^64` is the number of words. `n` is a variable so that the power is
      built from eight steps of `2^8` rather than evaluated. */
  lemma Pow2Of64(n: nat)
    requires n == 64
    ensures Pow2(n) == WORD_RANGE
  {
    var z := n - 64;
    Pow2Plus8(z);
    Pow2Plus8(z + 8);
    assert Pow2(z + 8 + 8) == 0x1_0000;
    Pow2Plus8(z + 8 + 8);
    Pow2Plus8(z + 8 + 8 + 8);
    assert Pow2(z + 8 + 8 + 8 + 8) == 0x1_0000_0000;
    Pow2Plus8(z + 8 + 8 + 8 + 8);
    Pow2Plus8(z + 8 + 8 + 8 + 8 + 8);
    assert Pow2(z + 8 + 8 + 8 + 8 + 8 + 8) == 0x1_0000_0000_0000;
    Pow2Plus8(z + 8 + 8 + 8 + 8 + 8 + 8);
    Pow2Plus8(z + 8 + 8 + 8 + 8 + 8 + 8 + 8);
    assert n == z + 8 + 8 + 8 + 8 + 8 + 8 + 8 + 8;
  }

  /** Every power below `2^64` is a word. */
  lemma Pow2InWord(m: nat, n: nat)
    requires m < n == 64
    ensures Pow2(m) < WORD_RANGE
  {
    Pow2Monotone(m + 1, n);
    Pow2Of64(n);
  }

  /** Bit `k` of `w`: its `k`-th binary digit, found by halving `k` times. */
  predicate BitSet(w: nat, k: nat) {
    if k == 0 then w % 2 == 1 else BitSet(w / 2, k - 1)
  }

  /** The one-bit value `(uint64_t)(b)` of a C boolean. */
  function BoolBit(b: bool): (r: Word)
    ensures r == 0 || r == 1
    ensures r == 1 <==> b
  {
    if b then 1 else 0
  }

  /** The low `n` digits of the bitwise or of `x` and `y`, digit by digit. */
  function OrDigits(x: nat, y: nat, n: nat): (r: nat)
    ensures r < Pow2(n)
  {
    if n == 0 then 0
    else (if x % 2 == 1 || y % 2 == 1 then 1 else 0) + 2 * OrDigits(x / 2, y / 2, n - 1)
  }

  /** `x | y` on words. */
  function Or(x: Word, y: Word): Word {
    Pow2Of64(64);
    OrDigits(x, y, 64)
  }

  /** `x << m` on words: `m` doublings, each dropping the bit shifted out past bit 63. */
  function Shl(x: Word, m: nat): Word {
    if m == 0 then x else (2 * Shl(x, m - 1)) % WORD_RANGE
  }

  /** `w >> k` on words: `k` halvings, each dropping the bit shifted out past bit 0. */
  function Shr(w: Word, k: nat): (r: Word)
    ensures r <= w
  {
    if k == 0 then w else Shr(w, k - 1) / 2
  }

  /** Bit `k` of zero is clear, whatever `k`. */
  lemma {:induction false} NoBitOfZero(k: nat)
    ensures !BitSet(0, k)
  {
    if k > 0 {
      NoBitOfZero(k - 1);
    }
  }

  /** No bit of the zero word is set. */
  lemma NoBitOfZeroWord()
    ensures forall k :: 0 <= k < 64 ==> !BitSet(0, k)
  {
    forall k | 0 <= k < 64 {
      NoBitOfZero(k);
    }
  }

  lemma {:induction false} BitSetOrDigits(x: nat, y: nat, n: nat, k: nat)
    requires k < n
    ensures BitSet(OrDigits(x, y, n), k) <==> BitSet(x, k) || BitSet(y, k)
  {
    if k > 0 {
      BitSetOrDigits(x / 2, y / 2, n - 1, k - 1);
    }
  }

  /** A bit of a bitwise or is set iff it is set in one of the operands. */
  lemma BitSetOr(x: Word, y: Word, k: nat)
    requires k < 64
    ensures BitSet(Or(x, y), k) <==> BitSet(x, k) || BitSet(y, k)
  {
    BitSetOrDigits(x, y, 64, k);
  }

  /** `2^m` has exactly bit `m` set. */
  lemma {:induction false} BitSetPow2(m: nat, k: nat)
    ensures BitSet(Pow2(m), k) <==> k == m
  {
    if k == 0 {
    } else if m == 0 {
      NoBitOfZero(k - 1);
    } else {
      BitSetPow2(m - 1, k - 1);
    }
  }

  /** `1 << m` is `2^m` for every shift count below 64: nothing is shifted out. */
  lemma {:induction false} ShlOne(m: nat)
    requires m < 64
    ensures Shl(1, m) == Pow2(m)
  {
    if m > 0 {
      ShlOne(m - 1);
      Pow2InWord(m, 64);
    }
  }

  /** `0 << m` is zero. */
  lemma {:induction false} ShlZero(m: nat)
    ensures Shl(0, m) == 0
  {
    if m > 0 {
      ShlZero(m - 1);
    }
  }

  /** Or-ing `(uint64_t)(b) << m` into `w` sets bit `m` when `b` holds and leaves every other bit as it was. */
  lemma BitSetOrShifted(w: Word, b: bool, m: nat)
    requires m < 64
    ensures forall k :: 0 <= k < 64 ==>
      (BitSet(Or(w, Shl(BoolBit(b), m)), k) <==> BitSet(w, k) || (b && k == m))
  {
    forall k | 0 <= k < 64
      ensures BitSet(Or(w, Shl(BoolBit(b), m)), k) <==> BitSet(w, k) || (b && k == m)
    {
      BitSetOr(w, Shl(BoolBit(b), m), k);
      if b {
        ShlOne(m);
        BitSetPow2(m, k);
      } else {
        ShlZero(m);
        NoBitOfZero(k);
      }
    }
  }

  /** `w |= (uint64_t)(b) << m`: bit `m` becomes set when `b` holds, and
      every other bit keeps its value. */
  function OrBit(w: Word, b: bool, m: nat): (r: Word)
    requires m < 64
    ensures forall k :: 0 <= k < 64 ==> (BitSet(r, k) <==> BitSet(w, k) || (b && k == m))
  {
    BitSetOrShifted(w, b, m);
    Or(w, Shl(BoolBit(b), m))
  }

  /** Shifting right by `k` halves first and then shifts by `k - 1`. */
  lemma {:induction false} ShrHalfFirst(w: Word, k: nat)
    requires k > 0
    ensures Shr(w, k) == Shr(w / 2, k - 1)
  {
    if k > 1 {
      ShrHalfFirst(w, k - 1);
    }
  }

  /** The parity of `w >> k` is bit `k` of `w`. */
  lemma {:induction false} ShrDigit(w: Word, k: nat)
    ensures Shr(w, k) % 2 == (if BitSet(w, k) then 1 else 0)
  {
    if k > 0 {
      ShrHalfFirst(w, k);
      ShrDigit(w / 2, k - 1);
    }
  }

  /** `(w >> k) & 1`: 1 when bit `k` of `w` is set and 0 otherwise. */
  function LowBit(w: Word, k: nat): (r: Word)
    ensures r == if BitSet(w, k) then 1 else 0
  {
    ShrDigit(w, k);
    Shr(w, k) % 2
  }
}
