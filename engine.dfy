/** The external Annoy index (`AnnoyIndex<int32_t, T, Distance, Kiss64Random, ...>`),
    whose code is not part of this model. An engine of width `f` over elements of
    type `E` is described only by what it is asked and what it answers: it keeps
    the sequence of state-changing calls it has received, and its answer to any
    call is a fixed function of that history (its `behaviour`). Queries, which are
    `const` in the engine, do not extend the history. */
module Engine {
  import opened Common

  /** The distance policies the engine is instantiated with. */
  datatype Distance = Angular | Euclidean | Manhattan | DotProduct | Hamming

  /** A call into the engine, with the arguments it receives. */
  datatype Call<E> =
    | AddItem(item: int32, w: seq<E>)
    | Build(trees: int32, threads: int32)
    | Unbuild
    | Save(filename: string, prefault: bool)
    | Unload
    | Load(filename: string, prefault: bool)
    | Verbose(on: bool)
    | SetSeed(seed: int32)
    | OnDiskBuild(filename: string)
    | GetDistance(i: int32, j: int32)
    | GetNnsByItem(item: int32, n: nat, searchK: int32, withDistances: bool)
    | GetNnsByVector(w: seq<E>, n: nat, searchK: int32, withDistances: bool)
    | GetNItems
    | GetNTrees
    | GetItem(item: int32)

  /** The engine's answer to a call; each call reads the part its C++ result has:
      a success flag, a count, one distance, an item vector, or neighbour ids
      with their distances. */
  datatype Reply<E> = Reply(ok: bool, count: int32, distance: E, vector: seq<E>, ids: seq<int32>, distances: seq<E>)

  type Behaviour<!E> = (seq<Call<E>>, Call<E>) -> Reply<E>

  /** The contract the engine is assumed to keep: item vectors have its width
      `f`, every neighbour comes with one distance, a query for `n` neighbours
      yields at most `n`, and item and tree counts are never negative. */
  ghost predicate Honours<E(!new)>(behaviour: Behaviour<E>, f: nat) {
    forall history: seq<Call<E>>, c: Call<E> ::
      && |behaviour(history, c).vector| == f
      && |behaviour(history, c).distances| == |behaviour(history, c).ids|
      && ((c.GetNnsByItem? || c.GetNnsByVector?) ==> |behaviour(history, c).ids| <= c.n)
      && ((c.GetNItems? || c.GetNTrees?) ==> behaviour(history, c).count >= 0)
  }

  class Index<E(!new)> {
    const f: nat
    const distance: Distance
    const behaviour: Behaviour<E>
    /** The state-changing calls received so far, oldest first. */
    var calls: seq<Call<E>>

    ghost predicate Valid() {
      Honours(behaviour, f)
    }

    constructor (f: nat, distance: Distance, behaviour: Behaviour<E>)
      requires Honours(behaviour, f)
      ensures Valid()
      ensures this.f == f && this.distance == distance && this.behaviour == behaviour
      ensures calls == []
    {
      this.f := f;
      this.distance := distance;
      this.behaviour := behaviour;
      calls := [];
    }

    /** What the engine answers to `c` in its present state. */
    function Answer(c: Call<E>): Reply<E>
      reads this
    {
      behaviour(calls, c)
    }

    /** Receive a state-changing call: answer it and record it. */
    method Perform(c: Call<E>) returns (r: Reply<E>)
      modifies this
      ensures calls == old(calls) + [c]
      ensures r == old(Answer(c))
    {
      r := Answer(c);
      calls := calls + [c];
    }

    /** `add_item` reads the first `f` elements of `w`. */
    method AddItem(item: int32, w: array<E>) returns (ok: bool)
      requires w.Length >= f
      modifies this
      ensures calls == old(calls) + [Call.AddItem(item, w[..f])]
      ensures ok == old(Answer(Call.AddItem(item, w[..f]))).ok
    {
      var r := Perform(Call.AddItem(item, w[..f]));
      ok := r.ok;
    }

    method Build(trees: int32, threads: int32) returns (ok: bool)
      modifies this
      ensures calls == old(calls) + [Call.Build(trees, threads)]
      ensures ok == old(Answer(Call.Build(trees, threads))).ok
    {
      var r := Perform(Call.Build(trees, threads));
      ok := r.ok;
    }

    method Unbuild() returns (ok: bool)
      modifies this
      ensures calls == old(calls) + [Call.Unbuild]
      ensures ok == old(Answer(Call.Unbuild)).ok
    {
      var r := Perform(Call.Unbuild);
      ok := r.ok;
    }

    method Save(filename: string, prefault: bool) returns (ok: bool)
      modifies this
      ensures calls == old(calls) + [Call.Save(filename, prefault)]
      ensures ok == old(Answer(Call.Save(filename, prefault))).ok
    {
      var r := Perform(Call.Save(filename, prefault));
      ok := r.ok;
    }

    method Unload()
      modifies this
      ensures calls == old(calls) + [Call.Unload]
    {
      var _ := Perform(Call.Unload);
    }

    method Load(filename: string, prefault: bool) returns (ok: bool)
      modifies this
      ensures calls == old(calls) + [Call.Load(filename, prefault)]
      ensures ok == old(Answer(Call.Load(filename, prefault))).ok
    {
      var r := Perform(Call.Load(filename, prefault));
      ok := r.ok;
    }

    method Verbose(on: bool)
      modifies this
      ensures calls == old(calls) + [Call.Verbose(on)]
    {
      var _ := Perform(Call.Verbose(on));
    }

    method SetSeed(seed: int32)
      modifies this
      ensures calls == old(calls) + [Call.SetSeed(seed)]
    {
      var _ := Perform(Call.SetSeed(seed));
    }

    method OnDiskBuild(filename: string) returns (ok: bool)
      modifies this
      ensures calls == old(calls) + [Call.OnDiskBuild(filename)]
      ensures ok == old(Answer(Call.OnDiskBuild(filename))).ok
    {
      var r := Perform(Call.OnDiskBuild(filename));
      ok := r.ok;
    }

    method GetDistance(i: int32, j: int32) returns (d: E)
      ensures d == Answer(Call.GetDistance(i, j)).distance
    {
      d := Answer(Call.GetDistance(i, j)).distance;
    }

    method GetNItems() returns (n: int32)
      ensures n == Answer(Call.GetNItems).count
    {
      n := Answer(Call.GetNItems).count;
    }

    method GetNTrees() returns (n: int32)
      ensures n == Answer(Call.GetNTrees).count
    {
      n := Answer(Call.GetNTrees).count;
    }

    /** `get_item` writes the item's `f` elements into the start of `v`. */
    method GetItem(item: int32, v: array<E>)
      requires Valid() && v.Length >= f
      modifies v
      ensures v[..f] == Answer(Call.GetItem(item)).vector
      ensures v[f..] == old(v[f..])
    {
      var w := Answer(Call.GetItem(item)).vector;
      forall k | 0 <= k < f {
        v[k] := w[k];
      }
    }

    /** `get_nns_by_item` appends the neighbour ids to `result` and, when
        `distances` is not null, their distances to `distances`. */
    method GetNnsByItem(item: int32, n: nat, searchK: int32, result: Vec<int32>, distances: Vec?<E>)
      requires distances != null ==> distances as object != result as object
      modifies result, distances
      ensures result.elems == old(result.elems) + Answer(Call.GetNnsByItem(item, n, searchK, distances != null)).ids
      ensures distances != null ==>
        distances.elems == old(distances.elems) + Answer(Call.GetNnsByItem(item, n, searchK, true)).distances
    {
      var r := Answer(Call.GetNnsByItem(item, n, searchK, distances != null));
      result.elems := result.elems + r.ids;
      if distances != null {
        distances.elems := distances.elems + r.distances;
      }
    }

    /** `get_nns_by_vector` reads the first `f` elements of `w` and reports like Call.GetNnsByItem. */
    method GetNnsByVector(w: array<E>, n: nat, searchK: int32, result: Vec<int32>, distances: Vec?<E>)
      requires w.Length >= f
      requires distances != null ==> distances as object != result as object
      modifies result, distances
      ensures result.elems == old(result.elems) + Answer(Call.GetNnsByVector(w[..f], n, searchK, distances != null)).ids
      ensures distances != null ==>
        distances.elems == old(distances.elems) + Answer(Call.GetNnsByVector(w[..f], n, searchK, true)).distances
    {
      var r := Answer(Call.GetNnsByVector(w[..f], n, searchK, distances != null));
      result.elems := result.elems + r.ids;
      if distances != null {
        distances.elems := distances.elems + r.distances;
      }
    }
  }
}
