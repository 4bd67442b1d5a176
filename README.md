# Annoy C bindings: a verified model of the facade

The bindings expose the Annoy approximate-nearest-neighbour library through a
C interface. A handle (`AnnoyIndexWrapper`) holds a pointer to an
`AnnoyIndexInterface<int32_t, float>`. `annoy_alloc` picks the index behind
that pointer by metric name. The `annoy_*` entry points check the pointer
before they delegate. For the Hamming metric, the index is a `HammingWrapper`.
It packs float vectors into 64-bit words for a Hamming engine of width
`ceil(f / 64)`, and unpacks them again on the way out.

The project models this facade. The engine itself is foreign and is modelled
only through its interface.

- `Common`: 32-bit integers, `Option`, std::vector as `Vec`, and the widening
  of `uint64_t` distances to reals.
- `Bits`: `uint64_t` words as integers in `[0, 2^64)`. Bit `k` of a word is
  its `k`-th binary digit. The C operators `|`, `<<`, `>>` and `& 1` are
  defined arithmetically, as digit-wise or, doubling and halving. The lemmas
  connect each operator to the digits: an OR with a shifted flag, and the
  extraction of one bit.
- `Packing`: the internal width, and the packed and unpacked representation
  as functions. It proves the packing rule, zero padding, the lossy round trip
  and re-pack stability. It also holds the width as the 32-bit `int`
  expression gives it. That expression can overflow, which is undefined
  behaviour in C++; the model takes two's-complement wrap-around there.
- `Engine`: the foreign `AnnoyIndex` as a class.
  - It records every state-changing call it receives.
  - It answers each call through a `behaviour` function of that history.
  - What the model assumes about the engine:
    - `Honours`: item vectors have the engine's width, each neighbour has one
      distance, at most `n` neighbours come back, and counts are not negative.
    - `get_nns_by_item` and `get_nns_by_vector` append the ids to `result` and
      the distances to `distances`; they do not overwrite the vectors.
    - The const queries (`get_distance`, the two counts, `get_item` and the
      two neighbour queries) do not change the engine's call history.
    - `get_item` writes exactly `v[0 .. f)` and leaves the rest of `v` alone.
    - `add_item` and `get_nns_by_vector` read exactly `w[0 .. f)`.
    - The last four are the bodies of the `Engine.Index` methods.
- `Hamming`: `HammingWrapper`.
  - `Pack` and `Unpack` are array loops proved against the `Packing` functions.
  - The other operations are proved to hand the engine exactly the packed
    vector and the unchanged arguments.
  - They also return the engine's answer unchanged, widened, or unpacked.
- `Factory`: the metric names and the five backends. `Instance` is the
  polymorphic index: either a float engine or a Hamming wrapper.
- `Boundary`: the handle with its nullable pointer, and `annoy_alloc`. It also
  has the null-pointer sentinels of `annoy_load`, `annoy_get_n_items`,
  `annoy_get_n_trees` and `annoy_get_item`, and the buffer copy of
  `annoy_get_nns_by_item`.

## Model

| member | source | states |
|---|---|---|
| Common.Widen | bindings.cpp:73 | a `uint64_t` distance becomes a non-negative real, zero exactly when the word is zero |
| Common.WidenAll | bindings.cpp:80 | the distance vector is converted element by element, in order, with its length kept |
| Bits.BitSetOr | bindings.cpp:48 | a bit of the bitwise or of `x` and `y` is set iff it is set in `x` or in `y` |
| Bits.BitSetPow2 | bindings.cpp:48 | `2^m` has bit `m` set and no other bit |
| Bits.ShlOne | bindings.cpp:48 | `1 << m` is `2^m` for every shift count below 64 |
| Bits.ShlZero | bindings.cpp:48 | `0 << m` is 0 |
| Bits.BitSetOrShifted | bindings.cpp:48 | OR-ing a word with a flag shifted to position `m` sets bit `m` exactly when the flag holds, and keeps every other bit |
| Bits.OrBit | bindings.cpp:48 | `w` or-ed with `(uint64_t)(b) << m`: bit `m` of the result is set iff it was set or `b` holds; every other bit keeps its value |
| Bits.NoBitOfZeroWord | bindings.cpp:45 | the word 0 written before the inner loop has no bit set |
| Bits.ShrDigit | bindings.cpp:56 | the parity of `w >> k`, shifted by halving `k` times, is the `k`-th binary digit of `w` |
| Bits.LowBit | bindings.cpp:56 | `(w >> k) & 1` is 1 when bit `k` of `w` is set and 0 otherwise; the shift and the digit are defined independently |
| Packing.InternalWidth | bindings.cpp:61 | the internal width `w` is the least word count holding `f` bits: `f <= 64 w < f + 64`, exactly `f / 64` for multiples of 64 |
| Packing.Packed | bindings.cpp:41-51 | the packed vector has the internal width of the external one |
| Packing.WordPrefix | bindings.cpp:45-49 | after `j` inner steps from 0, bit `k` is set iff `k < j`, dimension `64 i + k` exists and its element exceeds 0.5 |
| Packing.WordPrefixNext | bindings.cpp:48 | one inner step at a dimension inside the vector ORs that dimension's thresholded bit into the word |
| Packing.PackedWord | bindings.cpp:43-49 | bit `k` of packed word `i` is set iff dimension `64 i + k` exists and its element exceeds 0.5 |
| Packing.Unpacked | bindings.cpp:52-58 | `f` elements; element `k` is 1.0 when bit `k % 64` of word `k / 64` is set and 0.0 otherwise |
| Packing.WordPrefixSaturates | bindings.cpp:46 | once position `64 i + j` passes the last dimension, further steps leave the word unchanged, so the inner loop may stop early |
| Packing.PackingRule | bindings.cpp:41-51 | bit `j` of packed word `i` is set iff dimension `64 i + j` exists and exceeds 0.5 |
| Packing.PackingRuleByDimension | bindings.cpp:48 | dimension `k` is bit `k % 64` of word `k / 64`, set iff its element exceeds 0.5 |
| Packing.PaddingClear | bindings.cpp:43-46 | every bit position of the packed words past the last dimension is 0 |
| Packing.RoundTrip | bindings.cpp:41-58 | unpacking a packing gives back `f` elements, each 1.0 when the original exceeded 0.5 and 0.0 otherwise |
| Packing.UnpackedIgnoresExtraWords | bindings.cpp:52-58 | unpacking reads only the words holding the first `f` positions; later words do not affect the result |
| Packing.WordPrefixOfBinarised | bindings.cpp:48 | thresholding a vector first changes none of its packed words |
| Packing.RepackStable | bindings.cpp:41-58 | packing the unpacking of a packed vector returns the same words |
| Packing.FiveDimensionExample | bindings.cpp:41-58 | `[0.9, 0.1, 0.6, 0.4, 1.0]` packs to one word with bits 0, 2 and 4 set, and reads back as `[1, 0, 1, 0, 1]` |
| Packing.Wrap32 | bindings.cpp:61 | 32-bit `int` wrap-around: a result in the `int` range, congruent to the exact value modulo 2^32 |
| Packing.CDiv | bindings.cpp:61 | C++ division truncates toward zero: `q * b <= a < q * b + b` for a non-negative dividend and `q * b - b < a <= q * b` for a negative one |
| Packing.InternalWidthAsWritten | bindings.cpp:61 | for `0 <= f <= INT32_MAX - 63` the 32-bit width equals the intended width; for every larger `f` the sum overflows and, wrapped, the width is negative while the intended width is positive; a negative `f` gives 0 down to -126 and a negative width below that |
| Packing.InternalWidthOverflows | bindings.cpp:61 | for `f = INT32_MAX` the wrapped 32-bit width is -33554431, where 33554432 is intended |
| Hamming.HammingWrapper.constructor | bindings.cpp:61 | external width `f`; the engine is a fresh Hamming engine with no calls, of width `ceil(f / 64)`, not `f` |
| Hamming.HammingWrapper.Pack | bindings.cpp:41-51 | `dst[0 .. fInternal)` becomes the packing of `src[0 .. f)`, whatever `dst` held before; later slots are unchanged |
| Hamming.HammingWrapper.PackWord | bindings.cpp:45-49 | one pass of the inner loop: word `i` of `dst` becomes packed word `i` of `src[0 .. f)`; every other slot is unchanged |
| Hamming.HammingWrapper.Unpack | bindings.cpp:52-58 | `dst[0 .. f)` becomes the unpacking of `src[0 .. fInternal)`; later slots are unchanged |
| Hamming.HammingWrapper.AddItem | bindings.cpp:62-67 | the engine receives exactly `add_item(item, Packed(w))` and the engine's verdict is returned |
| Hamming.HammingWrapper.Build | bindings.cpp:68 | `build` is forwarded with its arguments and its verdict returned |
| Hamming.HammingWrapper.Unbuild | bindings.cpp:69 | `unbuild` is forwarded and its verdict returned |
| Hamming.HammingWrapper.Save | bindings.cpp:70 | `save` is forwarded with file name and prefault flag, and its verdict returned |
| Hamming.HammingWrapper.Unload | bindings.cpp:71 | `unload` is forwarded |
| Hamming.HammingWrapper.Load | bindings.cpp:72 | `load` is forwarded with file name and prefault flag, and its verdict returned |
| Hamming.HammingWrapper.GetDistance | bindings.cpp:73 | the engine's word distance for `(i, j)`, widened |
| Hamming.HammingWrapper.GetNnsByItem | bindings.cpp:74-86 | the engine's ids are appended to `result`; with `distances`, the widened engine distances are inserted in order at its front; without it, the engine is asked without distances |
| Hamming.HammingWrapper.GetNnsByVector | bindings.cpp:87-100 | as GetNnsByItem, with the engine queried on the packing of `w` |
| Hamming.HammingWrapper.GetNItems | bindings.cpp:102 | the engine's item count, unchanged |
| Hamming.HammingWrapper.GetNTrees | bindings.cpp:103 | the engine's tree count, unchanged |
| Hamming.HammingWrapper.Verbose | bindings.cpp:104 | `verbose` is forwarded |
| Hamming.HammingWrapper.GetItem | bindings.cpp:105-110 | `v[0 .. f)` becomes the unpacking of the engine's stored words for `item`; later slots are unchanged |
| Hamming.HammingWrapper.SetSeed | bindings.cpp:111 | `set_seed` is forwarded |
| Hamming.HammingWrapper.OnDiskBuild | bindings.cpp:112 | `on_disk_build` is forwarded and its verdict returned |
| Factory.Name | bindings.cpp:123-139 | the metric name of each backend; "hamming" is exactly the name of the Hamming backend |
| Factory.EngineDistance | bindings.cpp:123-142 | each backend's engine distance; the Hamming distance is used exactly by the Hamming backend |
| Factory.ParseMetric | bindings.cpp:123-146 | a recognised name selects the backend of that name, and the result is empty exactly when no backend has that name |
| Factory.NameSelects | bindings.cpp:123-142 | every backend's own name selects that backend |
| Factory.Instance.Float | bindings.cpp:125-141 | a float backend of dimension `dim`, over a fresh engine with that backend's distance and width `dim` |
| Factory.Instance.Wrapped | bindings.cpp:137 | the Hamming backend of dimension `dim`, over a fresh wrapper |
| Factory.Instance.Load | bindings.cpp:72 | the instance's engine receives exactly `load(filename, prefault)` and the verdict is returned |
| Factory.Instance.GetNItems | bindings.cpp:102 | the engine's item count |
| Factory.Instance.GetNTrees | bindings.cpp:103 | the engine's tree count |
| Factory.Instance.GetItem | bindings.cpp:105-110 | `v[0 .. dim)` becomes the item's external vector; later slots are unchanged |
| Factory.Instance.GetNnsByItem | bindings.cpp:74-86 | ids are appended; a float engine appends its distances, the Hamming wrapper inserts them at the front |
| Boundary.Alloc | bindings.cpp:120-148 | no handle exactly when the metric names no backend; otherwise a fresh handle with a non-null instance of that backend and dimension, over a fresh engine with no calls |
| Boundary.Load | bindings.cpp:156-165 | returns 0 or 1, and 1 exactly when the pointer is non-null and the engine accepted the file; the engine receives just that load |
| Boundary.GetNItems | bindings.cpp:167-174 | -1 exactly when the pointer is null, and otherwise the instance's item count |
| Boundary.GetNTrees | bindings.cpp:176-183 | -1 exactly when the pointer is null, and otherwise the instance's tree count |
| Boundary.GetItem | bindings.cpp:185-191 | with a null pointer `v` is unchanged; otherwise `v[0 .. dim)` holds the item's vector and the rest is unchanged |
| Boundary.GetNnsByItem | bindings.cpp:193-206 | with a null pointer nothing changes; otherwise the first `m` slots of both buffers hold the `m` neighbours and distances found, and all later slots are unchanged |
| Boundary.CopyOut | bindings.cpp:200-204 | the first `|ids|` slots of both buffers receive the ids and distances in order, and later slots keep their values |

## Left out

- The Annoy engine (`annoylib.h`, `kissrandom.h`) is not part of this model. `Engine.Index<E>` stands in for it. Its answers are a `behaviour` parameter of the constructor. They are constrained by `Engine.Honours`, and the `Engine.Index` method bodies fix how the answers reach the caller's buffers (see `Engine` above). Tree building, search and the distance functions are therefore not modelled.
- Engine lifecycle rules (no `add_item` after `build`, a loaded index is read-only, and so on) belong to the engine and are not modelled.
- The threading build policy (bindings.cpp:25-29) is not modelled, because it concerns concurrency inside the engine.
- File I/O of `save`, `load` and `on_disk_build` is not modelled. Their outcomes are engine answers, and the `prefault` flag is passed through.
- The `char **error` out-parameters are not modelled. This includes the `NULL` error pointer `annoy_load` passes.
- `annoy_dealloc` and raw memory (`malloc`, `free`, `new`, `delete`) are not modelled. Handles and instances are Dafny objects.
  - For that reason, two defects are not captured: the leak of the `malloc`'d handle on the unknown-metric path of `annoy_alloc`, and the missing null check in `annoy_dealloc`.
- The entry points assume the handle pointer itself is non-null, because the C code dereferences it without a check.
- Virtual dispatch over `AnnoyIndexInterface` is modelled as `Factory.Instance`, a class with a backend tag and one of two engine fields.
  - `Instance` has only the operations the C entry points reach: load, the two counts, `get_item` and `get_nns_by_item`.
  - The float backends' other methods are engine calls.
- `Common.Widen`: the conversion from `uint64_t` to `float` is exact on reals. The rounding of distances above 2^24 is not modelled.
- External vector elements are reals. For finite values nothing is lost, because the only operation on them is the comparison with 0.5.
  - NaN and the infinities are not modelled, because reals cannot represent them. A NaN element packs to 0, since `NaN > 0.5` is false, and an infinity packs by its sign.
- `Boundary.Alloc`: requires `dim >= 0`. The source does not check the dimension, and a negative one gives a float engine a negative width, and the Hamming engine a width of 0 for -126 <= dim <= -1 and a negative width below that.
- `Boundary.GetNnsByItem`: requires both caller buffers to hold `n` entries. This is the caller contract the C function relies on without checking it.
- 32-bit overflow of the index arithmetic is not modelled:
  - `i * 64 + j` in `_pack` and `int i` against `size()` in the copy loop are unbounded integers here.
  - The first overflows only for dimensions the width overflow already breaks.
  - The second needs more than 2^31 neighbours.
- `Hamming.HammingWrapper.constructor`: uses the intended width `ceil(f / 64)` rather than the overflowing 32-bit expression (see Findings).

## Findings

| source | as written | input that shows it | evidently intended | confidence | as-written member | corrected member |
|---|---|---|---|---|---|---|
| bindings.cpp:61 | `(f + 63) / 64` is computed in 32-bit `int`, so `f + 63` overflows `int` for `f > INT32_MAX - 63`, which is undefined behaviour in C++ | `f = 2147483647`: with two's-complement wrapping the width is -33554431 words, and every `f` in the last 63 `int` values gives a negative width | `ceil(f / 64)` words: 33554432 for `f = 2147483647` | not executed | Packing.InternalWidthAsWritten, Packing.InternalWidthOverflows | Packing.InternalWidth |
