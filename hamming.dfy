/** `HammingWrapper`: the float-vector index interface over a packed Hamming
    engine of width `ceil(f / 64)`, owned by composition. Vectors are packed on
    the way in, item vectors unpacked on the way out, distances widened from
    64-bit words to reals; everything else is forwarded unchanged. */
module Hamming {
  import opened Common
  import opened Bits
  import opened Packing
  import Engine

  class HammingWrapper {
    const fExternal: nat
    const fInternal: nat
    const index: Engine.Index<Word>

    ghost predicate Valid() {
      && fInternal == InternalWidth(fExternal)
      && index.f == fInternal
      && index.distance == Engine.Hamming
      && index.Valid()
    }

    /** The wrapped engine is built with the internal width, not with `f`. */
    constructor (f: nat, behaviour: Engine.Behaviour<Word>)
      requires Engine.Honours(behaviour, InternalWidth(f))
      ensures Valid() && fExternal == f
      ensures fresh(index) && index.behaviour == behaviour && index.calls == []
    {
      fExternal := f;
      fInternal := (f + 63) / 64;
      index := new Engine.Index((f + 63) / 64, Engine.Hamming, behaviour);
    }

    /** `_pack`: every word of `dst[0 .. fInternal)` is reset and then receives
        the thresholded bits of its 64 dimensions; later slots are untouched. */
    method Pack(src: array<real>, dst: array<Word>)
      requires Valid() && src.Length >= fExternal && dst.Length >= fInternal
      modifies dst
      ensures dst[..fInternal] == Packed(src[..fExternal])
      ensures dst[fInternal..] == old(dst[fInternal..])
    {
      var i := 0;
      while i < fInternal
        invariant 0 <= i <= fInternal
        invariant forall k :: 0 <= k < i ==> dst[k] == PackedWord(src[..fExternal], k)
        invariant forall k :: fInternal <= k < dst.Length ==> dst[k] == old(dst[k])
      {
        PackWord(src, dst, i);
        i := i + 1;
      }
    }

    /** One pass of the inner loop of `_pack`: word `i` of `dst` is reset and
        then receives the bits of dimensions `i * 64 + j` for `j` up to 64 or
        to the end of the vector; every other slot is untouched. */
    method PackWord(src: array<real>, dst: array<Word>, i: nat)
      requires src.Length >= fExternal && i < dst.Length
      modifies dst
      ensures dst[i] == PackedWord(src[..fExternal], i)
      ensures forall k :: 0 <= k < dst.Length && k != i ==> dst[k] == old(dst[k])
    {
      ghost var v := src[..fExternal];
      dst[i] := 0;
      var j := 0;
      while j < 64 && i * 64 + j < fExternal
        invariant 0 <= j <= 64
        invariant dst[i] == WordPrefix(v, i, j)
        invariant forall k :: 0 <= k < dst.Length && k != i ==> dst[k] == old(dst[k])
      {
        assert src[i * 64 + j] == v[i * 64 + j];
        WordPrefixNext(v, i, j);
        dst[i] := OrBit(dst[i], Hot(src[i * 64 + j]), j);
        j := j + 1;
      }
      if j < 64 {
        WordPrefixSaturates(v, i, j, 64);
      }
    }

    /** `_unpack`: element `i` of `dst` becomes bit `i % 64` of word `i / 64`, as
        0.0 or 1.0, for every `i < fExternal`; only the first `fInternal` words
        are read and later slots of `dst` are untouched. */
    method Unpack(src: array<Word>, dst: array<real>)
      requires Valid() && src.Length >= fInternal && dst.Length >= fExternal
      modifies dst
      ensures dst[..fExternal] == Unpacked(src[..fInternal], fExternal)
      ensures dst[fExternal..] == old(dst[fExternal..])
    {
      ghost var ws := src[..fInternal];
      var i := 0;
      while i < fExternal
        invariant 0 <= i <= fExternal
        invariant src[..fInternal] == ws
        invariant forall k :: 0 <= k < i ==> dst[k] == Unpacked(ws, fExternal)[k]
        invariant dst[fExternal..] == old(dst[fExternal..])
      {
        dst[i] := LowBit(src[i / 64], i % 64) as real;
        i := i + 1;
      }
    }

    /** `add_item` hands the engine the packing of the item's vector and returns its verdict. */
    method AddItem(item: int32, w: array<real>) returns (ok: bool)
      requires Valid() && w.Length >= fExternal
      modifies index
      ensures index.calls == old(index.calls) + [Engine.AddItem(item, Packed(w[..fExternal]))]
      ensures ok == old(index.Answer(Engine.AddItem(item, Packed(w[..fExternal])))).ok
    {
      var wInternal := new Word[fInternal];
      Pack(w, wInternal);
      ok := index.AddItem(item, wInternal);
    }

    method Build(trees: int32, threads: int32) returns (ok: bool)
      requires Valid()
      modifies index
      ensures index.calls == old(index.calls) + [Engine.Build(trees, threads)]
      ensures ok == old(index.Answer(Engine.Build(trees, threads))).ok
    {
      ok := index.Build(trees, threads);
    }

    method Unbuild() returns (ok: bool)
      requires Valid()
      modifies index
      ensures index.calls == old(index.calls) + [Engine.Unbuild]
      ensures ok == old(index.Answer(Engine.Unbuild)).ok
    {
      ok := index.Unbuild();
    }

    method Save(filename: string, prefault: bool) returns (ok: bool)
      requires Valid()
      modifies index
      ensures index.calls == old(index.calls) + [Engine.Save(filename, prefault)]
      ensures ok == old(index.Answer(Engine.Save(filename, prefault))).ok
    {
      ok := index.Save(filename, prefault);
    }

    method Unload()
      requires Valid()
      modifies index
      ensures index.calls == old(index.calls) + [Engine.Unload]
    {
      index.Unload();
    }

    method Load(filename: string, prefault: bool) returns (ok: bool)
      requires Valid()
      modifies index
      ensures index.calls == old(index.calls) + [Engine.Load(filename, prefault)]
      ensures ok == old(index.Answer(Engine.Load(filename, prefault))).ok
    {
      ok := index.Load(filename, prefault);
    }

    /** `get_distance` widens the engine's word distance. */
    method GetDistance(i: int32, j: int32) returns (d: real)
      requires Valid()
      ensures d == Widen(index.Answer(Engine.GetDistance(i, j)).distance)
    {
      var e := index.GetDistance(i, j);
      d := Widen(e);
    }

    /** `get_nns_by_item`: the ids go straight from the engine into `result`; when
        `distances` is not null the engine fills a fresh word vector whose
        widened contents are inserted, in order, at the front of `distances`;
        otherwise the engine is asked without distances. */
    method GetNnsByItem(item: int32, n: nat, searchK: int32, result: Vec<int32>, distances: Vec?<real>)
      requires Valid()
      modifies result, distances
      ensures result.elems == old(result.elems) + index.Answer(Engine.GetNnsByItem(item, n, searchK, distances != null)).ids
      ensures distances != null ==>
        distances.elems == WidenAll(index.Answer(Engine.GetNnsByItem(item, n, searchK, true)).distances) + old(distances.elems)
    {
      if distances != null {
        var internal := new Vec<Word>();
        index.GetNnsByItem(item, n, searchK, result, internal);
        distances.elems := WidenAll(internal.elems) + distances.elems;
      } else {
        index.GetNnsByItem(item, n, searchK, result, null);
      }
    }

    /** `get_nns_by_vector`: the query is packed first, then reported as in GetNnsByItem. */
    method GetNnsByVector(w: array<real>, n: nat, searchK: int32, result: Vec<int32>, distances: Vec?<real>)
      requires Valid() && w.Length >= fExternal
      modifies result, distances
      ensures result.elems ==
        old(result.elems) + index.Answer(Engine.GetNnsByVector(Packed(w[..fExternal]), n, searchK, distances != null)).ids
      ensures distances != null ==>
        distances.elems ==
          WidenAll(index.Answer(Engine.GetNnsByVector(Packed(w[..fExternal]), n, searchK, true)).distances)
          + old(distances.elems)
    {
      var wInternal := new Word[fInternal];
      Pack(w, wInternal);
      if distances != null {
        var internal := new Vec<Word>();
        index.GetNnsByVector(wInternal, n, searchK, result, internal);
        distances.elems := WidenAll(internal.elems) + distances.elems;
      } else {
        index.GetNnsByVector(wInternal, n, searchK, result, null);
      }
    }

    method GetNItems() returns (count: int32)
      requires Valid()
      ensures count == index.Answer(Engine.GetNItems).count
    {
      count := index.GetNItems();
    }

    method GetNTrees() returns (count: int32)
      requires Valid()
      ensures count == index.Answer(Engine.GetNTrees).count
    {
      count := index.GetNTrees();
    }

    method Verbose(on: bool)
      requires Valid()
      modifies index
      ensures index.calls == old(index.calls) + [Engine.Verbose(on)]
    {
      index.Verbose(on);
    }

    /** `get_item`: the engine fills a fresh word vector of the internal width,
        which is unpacked into the first `fExternal` slots of `v`. */
    method GetItem(item: int32, v: array<real>)
      requires Valid() && v.Length >= fExternal
      modifies v
      ensures v[..fExternal] == Unpacked(index.Answer(Engine.GetItem(item)).vector, fExternal)
      ensures v[fExternal..] == old(v[fExternal..])
    {
      var vInternal := new Word[fInternal];
      index.GetItem(item, vInternal);
      Unpack(vInternal, v);
    }

    method SetSeed(seed: int32)
      requires Valid()
      modifies index
      ensures index.calls == old(index.calls) + [Engine.SetSeed(seed)]
    {
      index.SetSeed(seed);
    }

    method OnDiskBuild(filename: string) returns (ok: bool)
      requires Valid()
      modifies index
      ensures index.calls == old(index.calls) + [Engine.OnDiskBuild(filename)]
      ensures ok == old(index.Answer(Engine.OnDiskBuild(filename))).ok
    {
      ok := index.OnDiskBuild(filename);
    }
  }
}
