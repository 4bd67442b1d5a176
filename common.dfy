/** Types shared by every part of the model: the C integer types that cross the
    boundary and an optional value standing for a nullable result. */
module Common {
  import opened Bits

  /** A signed 32-bit C integer (`int32_t`, and `int` on the platforms the library targets). */
  newtype int32 = x: int | -0x8000_0000 <= x < 0x8000_0000

  const INT32_MAX: int := 0x7fff_ffff

  datatype Option<+T> = None | Some(value: T)

  /** The implicit conversion of an unsigned 64-bit engine value to the external
      `float` distance type, taken as exact (rounding is not modelled). */
  function Widen(d: Word): (x: real)
    ensures 0.0 <= x
    ensures x == 0.0 <==> d == 0
  {
    d as real
  }

  /** Elementwise widening of a vector of engine distances, order preserved. */
  function WidenAll(ds: seq<Word>): (xs: seq<real>)
    ensures |xs| == |ds|
    ensures forall k :: 0 <= k < |ds| ==> xs[k] == Widen(ds[k])
  {
    seq(|ds|, k requires 0 <= k < |ds| => Widen(ds[k]))
  }

  /** A `std::vector` passed by pointer, which the callee may grow in place. */
  class Vec<T> {
    var elems: seq<T>

    constructor ()
      ensures elems == []
    {
      elems := [];
    }
  }
}
