/** The Hamming adapter's representation change: an external vector of `f`
    reals becomes `ceil(f / 64)` 64-bit words, bit `j` of word `i` standing for
    dimension `i * 64 + j`, set exactly when that element exceeds 0.5. */
module Packing {
  import opened Common
  import opened Bits

  /** Number of words that hold `f` one-bit dimensions: `(f + 63) / 64`. */
  function InternalWidth(f: nat): (w: nat)
    ensures f <= 64 * w < f + 64
    ensures f % 64 == 0 ==> 64 * w == f
  {
    (f + 63) / 64
  }

  /** The hard threshold applied to each external element. */
  predicate Hot(x: real) {
    x > 0.5
  }

  /** Word `i` of the packing of `v` with only bit positions below `j` filled in,
      as the inner packing loop has accumulated it after `j` steps: bit `k` is
      set iff `k` is one of the first `j` positions, lies inside `v`, and its
      element is hot. */
  function WordPrefix(v: seq<real>, i: nat, j: nat): (w: Word)
    requires j <= 64
    ensures forall k :: 0 <= k < 64 ==>
      (BitSet(w, k) <==> k < j && i * 64 + k < |v| && Hot(v[i * 64 + k]))
  {
    if j == 0 then
      NoBitOfZeroWord();
      0
    else if i * 64 + (j - 1) < |v| then
      OrBit(WordPrefix(v, i, j - 1), Hot(v[i * 64 + (j - 1)]), j - 1)
    else
      WordPrefix(v, i, j - 1)
  }

  /** One step of the inner packing loop: position `j` of word `i` lies inside
      `v`, so the next prefix or-s its thresholded bit into the current one. */
  lemma WordPrefixNext(v: seq<real>, i: nat, j: nat)
    requires j < 64 && i * 64 + j < |v|
    ensures WordPrefix(v, i, j + 1) == OrBit(WordPrefix(v, i, j), Hot(v[i * 64 + j]), j)
  {
  }

  /** Word `i` of the packing of `v`: bit `k` is set iff dimension `i * 64 + k`
      exists and its element exceeds 0.5. */
  function PackedWord(v: seq<real>, i: nat): (w: Word)
    ensures forall k :: 0 <= k < 64 ==> (BitSet(w, k) <==> i * 64 + k < |v| && Hot(v[i * 64 + k]))
  {
    WordPrefix(v, i, 64)
  }

  /** The packed internal vector of `v`. */
  function Packed(v: seq<real>): (ws: seq<Word>)
    ensures |ws| == InternalWidth(|v|)
  {
    seq(InternalWidth(|v|), i requires 0 <= i => PackedWord(v, i))
  }

  /** The external vector read back from the first `f` bit positions of `ws`:
      element `k` is 1.0 when bit `k % 64` of word `k / 64` is set and 0.0
      otherwise. */
  function Unpacked(ws: seq<Word>, f: nat): (v: seq<real>)
    requires f <= 64 * |ws|
    ensures |v| == f
    ensures forall k :: 0 <= k < f ==> v[k] == if BitSet(ws[k / 64], k % 64) then 1.0 else 0.0
  {
    seq(f, k requires 0 <= k < f => LowBit(ws[k / 64], k % 64) as real)
  }

  /** The reference meaning of packing and unpacking: each element thresholded to 0.0 or 1.0. */
  function Binarised(v: seq<real>): seq<real> {
    seq(|v|, k requires 0 <= k < |v| => if Hot(v[k]) then 1.0 else 0.0)
  }

  /** Once the position runs past the end of `v` the word no longer changes:
      the inner loop may stop there. */
  lemma {:induction false} WordPrefixSaturates(v: seq<real>, i: nat, j: nat, j': nat)
    requires j <= j' <= 64 && |v| <= i * 64 + j
    ensures WordPrefix(v, i, j') == WordPrefix(v, i, j)
  {
    if j' > j {
      WordPrefixSaturates(v, i, j, j' - 1);
      assert |v| <= i * 64 + (j' - 1);
    }
  }

  /** The packing rule, word by word: bit `j` of word `i` is set iff dimension
      `i * 64 + j` exists and its element exceeds 0.5. In particular every
      position past the last dimension is zero. */
  lemma PackingRule(v: seq<real>, i: nat, j: nat)
    requires i < InternalWidth(|v|) && j < 64
    ensures BitSet(Packed(v)[i], j) <==> i * 64 + j < |v| && Hot(v[i * 64 + j])
  {
  }

  /** The packing rule, dimension by dimension: dimension `k` lives in bit `k % 64` of word `k / 64`. */
  lemma PackingRuleByDimension(v: seq<real>, k: nat)
    requires k < |v|
    ensures k / 64 < |Packed(v)|
    ensures BitSet(Packed(v)[k / 64], k % 64) <==> Hot(v[k])
  {
    PackingRule(v, k / 64, k % 64);
  }

  /** Zero padding: the bit positions of the last word past dimension `f - 1` are clear. */
  lemma PaddingClear(v: seq<real>, i: nat, j: nat)
    requires i < InternalWidth(|v|) && j < 64 && |v| <= i * 64 + j
    ensures !BitSet(Packed(v)[i], j)
  {
    PackingRule(v, i, j);
  }

  /** The lossy round trip: unpacking the packing of `v` yields `v` thresholded
      to 0.0 and 1.0, of the same length. */
  lemma RoundTrip(v: seq<real>)
    ensures |v| <= 64 * |Packed(v)|
    ensures Unpacked(Packed(v), |v|) == Binarised(v)
  {
    forall k | 0 <= k < |v|
      ensures Unpacked(Packed(v), |v|)[k] == Binarised(v)[k]
    {
      PackingRuleByDimension(v, k);
    }
  }

  /** Unpacking reads only the words that hold the first `f` positions: words
      after them do not affect the result. */
  lemma UnpackedIgnoresExtraWords(ws: seq<Word>, extra: seq<Word>, f: nat)
    requires f <= 64 * |ws|
    ensures Unpacked(ws + extra, f) == Unpacked(ws, f)
  {
  }

  /** Thresholding first changes no packed word: hot elements become 1.0 and
      cold ones 0.0, which the threshold classifies the same way. */
  lemma {:induction false} WordPrefixOfBinarised(v: seq<real>, i: nat, j: nat)
    requires j <= 64
    ensures WordPrefix(Binarised(v), i, j) == WordPrefix(v, i, j)
  {
    if j > 0 {
      WordPrefixOfBinarised(v, i, j - 1);
      if i * 64 + (j - 1) < |v| {
        assert Hot(Binarised(v)[i * 64 + (j - 1)]) == Hot(v[i * 64 + (j - 1)]);
      }
    }
  }

  /** Packing what unpacking returned restores the packed words: an item read
      back from the index and added again is stored exactly as before. */
  lemma RepackStable(v: seq<real>)
    ensures Packed(Unpacked(Packed(v), |v|)) == Packed(v)
  {
    RoundTrip(v);
    forall i | 0 <= i < InternalWidth(|v|)
      ensures Packed(Binarised(v))[i] == Packed(v)[i]
    {
      WordPrefixOfBinarised(v, i, 64);
    }
  }

  /** The five-dimensional example: [0.9, 0.1, 0.6, 0.4, 1.0]
      packs into one word with exactly bits 0, 2 and 4 set and reads back as
      [1.0, 0.0, 1.0, 0.0, 1.0]. */
  lemma FiveDimensionExample()
    ensures |Packed([0.9, 0.1, 0.6, 0.4, 1.0])| == 1
    ensures forall j :: 0 <= j < 64 ==>
      (BitSet(Packed([0.9, 0.1, 0.6, 0.4, 1.0])[0], j) <==> j == 0 || j == 2 || j == 4)
    ensures Unpacked(Packed([0.9, 0.1, 0.6, 0.4, 1.0]), 5) == [1.0, 0.0, 1.0, 0.0, 1.0]
  {
    var v := [0.9, 0.1, 0.6, 0.4, 1.0];
    forall j | 0 <= j < 64
      ensures BitSet(Packed(v)[0], j) <==> j == 0 || j == 2 || j == 4
    {
      PackingRule(v, 0, j);
    }
    RoundTrip(v);
    assert Binarised(v) == [1.0, 0.0, 1.0, 0.0, 1.0];
  }

  // The width as the constructor computes it, in C `int` arithmetic. A signed
  // overflow there is undefined behaviour in C++; the model takes the
  // two's-complement wrap-around that the usual targets produce.

  /** Two's-complement wrap-around of a signed 32-bit result. */
  function Wrap32(x: int): (r: int)
    ensures -0x8000_0000 <= r < 0x8000_0000
    ensures (r - x) % 0x1_0000_0000 == 0
  {
    (x + 0x8000_0000) % 0x1_0000_0000 - 0x8000_0000
  }

  /** C++ integer division, which truncates toward zero: the quotient times `b`
      lies at or below a non-negative dividend and at or above a negative one,
      by less than `b`. */
  function CDiv(a: int, b: int): (q: int)
    requires b > 0
    ensures a >= 0 ==> q * b <= a < q * b + b
    ensures a < 0 ==> q * b - b < a <= q * b
  {
    if a >= 0 then a / b else -((-a) / b)
  }

  /** `(f + 63) / 64` evaluated in 32-bit `int` with the sum wrapped. For every
      dimension up to `INT32_MAX - 63` it is the ceiling of `f / 64`; in the
      last 63 values of `int` the sum overflows and the width comes out
      negative, which no vector can have. A negative dimension truncates to the
      width 0 down to -126 and gives a negative width below that. */
  function InternalWidthAsWritten(f: int32): (w: int)
    ensures 0 <= f as int <= INT32_MAX - 63 ==> w == InternalWidth(f as nat)
    ensures INT32_MAX - 63 < f as int ==> w < 0 < InternalWidth(f as nat)
    ensures -126 <= f as int < 0 ==> w == 0
    ensures f as int <= -127 ==> w < 0
  {
    CDiv(Wrap32(f as int + 63), 64)
  }

  /** For `f == INT32_MAX` the overflowing sum `f + 63`, wrapped, gives the
      width -33554431 instead of 33554432. */
  lemma InternalWidthOverflows()
    ensures InternalWidthAsWritten(0x7fff_ffff) == -33554431
    ensures InternalWidth(0x7fff_ffff) == 33554432
  {
  }
}
