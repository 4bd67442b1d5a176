/** The polymorphic index behind a handle (`AnnoyIndexInterface<int32_t, float>`)
    and the metric names that select its backend. The interface is a closed set
    of variants: a float engine for the four continuous metrics, or the Hamming
    wrapper. */
module Factory {
  import opened Common
  import opened Packing
  import opened Bits
  import Engine
  import Hamming

  datatype Backend = AngularIndex | EuclideanIndex | ManhattanIndex | HammingIndex | DotIndex

  /** The metric name that selects each backend; "hamming" is the name of the
      one backend that packs its vectors. */
  function Name(b: Backend): (name: string)
    ensures name == "hamming" <==> b == HammingIndex
  {
    match b
    case AngularIndex => "angular"
    case EuclideanIndex => "euclidean"
    case ManhattanIndex => "manhattan"
    case HammingIndex => "hamming"
    case DotIndex => "dot"
  }

  /** The distance policy of the engine behind each backend. */
  function EngineDistance(b: Backend): (d: Engine.Distance)
    ensures d == Engine.Hamming <==> b == HammingIndex
  {
    match b
    case AngularIndex => Engine.Angular
    case EuclideanIndex => Engine.Euclidean
    case ManhattanIndex => Engine.Manhattan
    case HammingIndex => Engine.Hamming
    case DotIndex => Engine.DotProduct
  }

  /** The name comparisons of `annoy_alloc`, in its order: a name selects the
      backend it names, and any other name selects nothing. */
  function ParseMetric(metric: string): (r: Option<Backend>)
    ensures r.Some? ==> Name(r.value) == metric
    ensures r.None? <==> forall b: Backend :: Name(b) != metric
  {
    if metric == "angular" then Some(AngularIndex)
    else if metric == "euclidean" then Some(EuclideanIndex)
    else if metric == "manhattan" then Some(ManhattanIndex)
    else if metric == "hamming" then Some(HammingIndex)
    else if metric == "dot" then Some(DotIndex)
    else None
  }

  /** Every backend's own name selects it. */
  lemma NameSelects(b: Backend)
    ensures ParseMetric(Name(b)) == Some(b)
  {
  }

  class Instance {
    const backend: Backend
    const dim: nat
    /** The float engine, for every backend but Hamming. */
    const plain: Engine.Index?<real>
    /** The Hamming wrapper, for the Hamming backend. */
    const packed: Hamming.HammingWrapper?

    ghost predicate Valid() {
      && (backend == HammingIndex <==> packed != null)
      && (backend == HammingIndex <==> plain == null)
      && (plain != null ==> plain.f == dim && plain.distance == EngineDistance(backend) && plain.Valid())
      && (packed != null ==> packed.fExternal == dim && packed.Valid())
    }

    /** The engine object that the instance's calls change. */
    ghost function Footprint(): set<object> {
      (if plain != null then {plain as object} else {}) + (if packed != null then {packed.index as object} else {})
    }

    /** `new AnnoyIndex<int32_t, float, D, ...>(dim)` for a float backend. */
    constructor Float(backend: Backend, dim: nat, behaviour: Engine.Behaviour<real>)
      requires backend != HammingIndex && Engine.Honours(behaviour, dim)
      ensures Valid() && this.backend == backend && this.dim == dim
      ensures plain != null && fresh(plain) && plain.behaviour == behaviour && plain.calls == []
    {
      this.backend := backend;
      this.dim := dim;
      plain := new Engine.Index(dim, EngineDistance(backend), behaviour);
      packed := null;
    }

    /** `new HammingWrapper(dim)`. */
    constructor Wrapped(dim: nat, behaviour: Engine.Behaviour<Word>)
      requires Engine.Honours(behaviour, InternalWidth(dim))
      ensures Valid() && backend == HammingIndex && this.dim == dim
      ensures packed != null && fresh(packed) && fresh(packed.index)
      ensures packed.index.behaviour == behaviour && packed.index.calls == []
    {
      backend := HammingIndex;
      this.dim := dim;
      plain := null;
      packed := new Hamming.HammingWrapper(dim, behaviour);
    }

    /** The instance's engine received exactly call `c` (the float engine) or `c'`
        (the packed engine) and nothing else. */
    twostate predicate Received(c: Engine.Call<real>, c': Engine.Call<Word>)
      reads Footprint()
    {
      && (plain != null ==> plain.calls == old(plain.calls) + [c])
      && (packed != null ==> packed.index.calls == old(packed.index.calls) + [c'])
    }

    /** The engine's verdict on `load(filename, prefault)`. */
    ghost function LoadVerdict(filename: string, prefault: bool): bool
      requires Valid()
      reads Footprint()
    {
      if plain != null then plain.Answer(Engine.Load(filename, prefault)).ok
      else packed.index.Answer(Engine.Load(filename, prefault)).ok
    }

    /** The item count the engine reports. */
    ghost function ItemCount(): (n: int32)
      requires Valid()
      reads Footprint()
      ensures n >= 0
    {
      if plain != null then plain.Answer(Engine.GetNItems).count
      else packed.index.Answer(Engine.GetNItems).count
    }

    /** The tree count the engine reports. */
    ghost function TreeCount(): (n: int32)
      requires Valid()
      reads Footprint()
      ensures n >= 0
    {
      if plain != null then plain.Answer(Engine.GetNTrees).count
      else packed.index.Answer(Engine.GetNTrees).count
    }

    /** The external vector of `item`: the float engine's own, or the unpacking
        of the packed engine's words. */
    ghost function ItemVector(item: int32): (v: seq<real>)
      requires Valid()
      reads Footprint()
      ensures |v| == dim
    {
      if plain != null then plain.Answer(Engine.GetItem(item)).vector
      else Unpacked(packed.index.Answer(Engine.GetItem(item)).vector, dim)
    }

    /** The neighbour ids and external distances the engine reports for `item`. */
    ghost function Neighbours(item: int32, n: nat, searchK: int32): (r: (seq<int32>, seq<real>))
      requires Valid()
      reads Footprint()
      ensures |r.0| <= n && |r.1| == |r.0|
    {
      if plain != null then
        var a := plain.Answer(Engine.GetNnsByItem(item, n, searchK, true));
        (a.ids, a.distances)
      else
        var a := packed.index.Answer(Engine.GetNnsByItem(item, n, searchK, true));
        (a.ids, WidenAll(a.distances))
    }

    method Load(filename: string, prefault: bool) returns (ok: bool)
      requires Valid()
      modifies Footprint()
      ensures Received(Engine.Load(filename, prefault), Engine.Load(filename, prefault))
      ensures ok == old(LoadVerdict(filename, prefault))
    {
      if plain != null {
        ok := plain.Load(filename, prefault);
      } else {
        ok := packed.Load(filename, prefault);
      }
    }

    method GetNItems() returns (count: int32)
      requires Valid()
      ensures count == ItemCount()
    {
      if plain != null {
        count := plain.GetNItems();
      } else {
        count := packed.GetNItems();
      }
    }

    method GetNTrees() returns (count: int32)
      requires Valid()
      ensures count == TreeCount()
    {
      if plain != null {
        count := plain.GetNTrees();
      } else {
        count := packed.GetNTrees();
      }
    }

    method GetItem(item: int32, v: array<real>)
      requires Valid() && v.Length >= dim
      modifies v
      ensures v[..dim] == ItemVector(item)
      ensures v[dim..] == old(v[dim..])
    {
      if plain != null {
        plain.GetItem(item, v);
      } else {
        packed.GetItem(item, v);
      }
    }

    /** `get_nns_by_item` with both output vectors: the float engine appends to
        them, the Hamming wrapper inserts its distances at the front. */
    method GetNnsByItem(item: int32, n: nat, searchK: int32, result: Vec<int32>, distances: Vec<real>)
      requires Valid()
      modifies result, distances
      ensures result.elems == old(result.elems) + Neighbours(item, n, searchK).0
      ensures plain != null ==> distances.elems == old(distances.elems) + Neighbours(item, n, searchK).1
      ensures packed != null ==> distances.elems == Neighbours(item, n, searchK).1 + old(distances.elems)
    {
      if plain != null {
        plain.GetNnsByItem(item, n, searchK, result, distances);
      } else {
        packed.GetNnsByItem(item, n, searchK, result, distances);
      }
    }
  }
}
