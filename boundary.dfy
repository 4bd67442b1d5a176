/** The C entry points: a handle (`AnnoyIndexWrapper`) holding a possibly null
    instance pointer, the allocation that picks a backend by metric name, and
    the functions that guard every use of the pointer with a sentinel. */
module Boundary {
  import opened Common
  import opened Packing
  import opened Bits
  import Engine
  import Factory

  class Handle {
    var ptr: Factory.Instance?

    ghost predicate Valid()
      reads this
    {
      ptr != null ==> ptr.Valid()
    }

    constructor (ptr: Factory.Instance?)
      ensures this.ptr == ptr
    {
      this.ptr := ptr;
    }
  }

  /** `annoy_alloc`: the float engines and the packed engine the metric may
      select are parameters; an unknown metric yields no handle. */
  method Alloc(dim: int32, metric: string,
               floatEngines: Engine.Distance -> Engine.Behaviour<real>,
               hammingEngine: Engine.Behaviour<Word>)
    returns (h: Handle?)
    requires dim >= 0
    requires forall d: Engine.Distance :: Engine.Honours(floatEngines(d), dim as nat)
    requires Engine.Honours(hammingEngine, InternalWidth(dim as nat))
    ensures h == null <==> Factory.ParseMetric(metric).None?
    ensures h != null ==>
      && fresh(h) && h.ptr != null && fresh(h.ptr) && fresh(h.ptr.Footprint()) && h.Valid()
      && Factory.ParseMetric(metric) == Some(h.ptr.backend) && h.ptr.dim == dim as nat
    ensures h != null && h.ptr.plain != null ==>
      h.ptr.plain.behaviour == floatEngines(h.ptr.plain.distance) && h.ptr.plain.calls == []
    ensures h != null && h.ptr.packed != null ==>
      h.ptr.packed.index.behaviour == hammingEngine && h.ptr.packed.index.calls == []
  {
    var chosen := Factory.ParseMetric(metric);
    if chosen.None? {
      return null;
    }
    var b := chosen.value;
    var instance: Factory.Instance;
    if b == Factory.HammingIndex {
      instance := new Factory.Instance.Wrapped(dim as nat, hammingEngine);
    } else {
      instance := new Factory.Instance.Float(b, dim as nat, floatEngines(Factory.EngineDistance(b)));
    }
    h := new Handle(instance);
  }

  /** `annoy_load`: 1 exactly when there is an instance and its engine accepts
      the file, 0 otherwise; without an instance nothing is called. */
  method Load(h: Handle, filename: string, prefault: bool) returns (r: int32)
    requires h.Valid()
    modifies if h.ptr != null then h.ptr.Footprint() else {}
    ensures r == 0 || r == 1
    ensures r == 1 <==> h.ptr != null && old(h.ptr.LoadVerdict(filename, prefault))
    ensures h.ptr != null ==> h.ptr.Received(Engine.Load(filename, prefault), Engine.Load(filename, prefault))
  {
    if h.ptr == null {
      return 0;
    }
    var ok := h.ptr.Load(filename, prefault);
    if !ok {
      return 0;
    }
    return 1;
  }

  /** `annoy_get_n_items`: the engine's count, or -1 exactly when there is no
      instance. */
  method GetNItems(h: Handle) returns (r: int32)
    requires h.Valid()
    ensures r == -1 <==> h.ptr == null
    ensures h.ptr != null ==> r == h.ptr.ItemCount()
  {
    if h.ptr != null {
      r := h.ptr.GetNItems();
      return;
    }
    return -1;
  }

  /** `annoy_get_n_trees`: the engine's count, or -1 exactly when there is no
      instance. */
  method GetNTrees(h: Handle) returns (r: int32)
    requires h.Valid()
    ensures r == -1 <==> h.ptr == null
    ensures h.ptr != null ==> r == h.ptr.TreeCount()
  {
    if h.ptr != null {
      r := h.ptr.GetNTrees();
      return;
    }
    return -1;
  }

  /** `annoy_get_item`: fills the first `dim` entries of `v` with the item's
      external vector; without an instance `v` is left as it was. */
  method GetItem(h: Handle, item: int32, v: array<real>)
    requires h.Valid()
    requires h.ptr != null ==> v.Length >= h.ptr.dim
    modifies v
    ensures h.ptr == null ==> v[..] == old(v[..])
    ensures h.ptr != null ==> v[..h.ptr.dim] == h.ptr.ItemVector(item) && v[h.ptr.dim..] == old(v[h.ptr.dim..])
  {
    if h.ptr != null {
      h.ptr.GetItem(item, v);
    }
  }

  /** `annoy_get_nns_by_item`: the neighbours are gathered into fresh vectors
      and copied into the caller's buffers, which must have room for `n` of
      them; entries past the neighbours found, and both buffers when there
      is no instance, are left as they were. */
  method GetNnsByItem(h: Handle, item: int32, n: nat, searchK: int32, result: array<int32>, distances: array<real>)
    requires h.Valid()
    requires h.ptr != null ==> result.Length >= n && distances.Length >= n
    modifies result, distances
    ensures h.ptr == null ==> result[..] == old(result[..]) && distances[..] == old(distances[..])
    ensures h.ptr != null ==>
      var found := old(h.ptr.Neighbours(item, n, searchK));
      && result[..|found.0|] == found.0 && result[|found.0|..] == old(result[|found.0|..])
      && distances[..|found.1|] == found.1 && distances[|found.1|..] == old(distances[|found.1|..])
  {
    if h.ptr != null {
      ghost var found := h.ptr.Neighbours(item, n, searchK);
      var tmpResult := new Vec<int32>();
      var tmpDistances := new Vec<real>();
      h.ptr.GetNnsByItem(item, n, searchK, tmpResult, tmpDistances);
      var ids, ds := tmpResult.elems, tmpDistances.elems;
      assert ids == found.0 && ds == found.1;
      CopyOut(ids, ds, result, distances);
    }
  }

  /** The copy loop of `annoy_get_nns_by_item`: the first `|ids|` entries of
      both buffers receive the neighbours and their distances, and the rest
      keep their values. */
  method CopyOut(ids: seq<int32>, ds: seq<real>, result: array<int32>, distances: array<real>)
    requires |ds| == |ids| && result.Length >= |ids| && distances.Length >= |ids|
    modifies result, distances
    ensures result[..|ids|] == ids && result[|ids|..] == old(result[|ids|..])
    ensures distances[..|ids|] == ds && distances[|ids|..] == old(distances[|ids|..])
  {
    var i := 0;
    while i < |ids|
      invariant 0 <= i <= |ids|
      invariant result[..i] == ids[..i] && result[i..] == old(result[i..])
      invariant distances[..i] == ds[..i] && distances[i..] == old(distances[i..])
    {
      result[i] := ids[i];
      distances[i] := ds[i];
      i := i + 1;
    }
  }
}
