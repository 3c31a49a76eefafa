/** The per-world registry of placed teleporters (HextechTeleporterState):
    a set of positions, the nearest-teleporter query the recovery compass
    uses, and its NBT persistence through packed longs. */
module TeleporterRegistry {
  import opened Common
  import opened Nbt
  import opened PackedPos

  datatype Registry = Registry(teleporters: set<Pos>)

  /** A registry update and whether markDirty was called. */
  datatype Update = Update(registry: Registry, dirty: bool)

  /** add: the position is registered; the state is dirty only when it was new. */
  function Add(r: Registry, p: Pos): (u: Update)
    ensures p in u.registry.teleporters
    ensures u.registry.teleporters - {p} == r.teleporters - {p}
    ensures u.dirty <==> p !in r.teleporters
  {
    if p in r.teleporters then Update(r, false) else Update(Registry(r.teleporters + {p}), true)
  }

  /** remove: the position is unregistered; dirty only when it was present. */
  function Remove(r: Registry, p: Pos): (u: Update)
    ensures p !in u.registry.teleporters
    ensures u.registry.teleporters + {p} == r.teleporters + {p}
    ensures u.dirty <==> p in r.teleporters
  {
    if p in r.teleporters then Update(Registry(r.teleporters - {p}), true) else Update(r, false)
  }

  lemma AddThenRemove(r: Registry, p: Pos)
    requires p !in r.teleporters
    ensures Remove(Add(r, p).registry, p).registry == r
  {
  }

  lemma AddIdempotent(r: Registry, p: Pos)
    ensures Add(Add(r, p).registry, p) == Update(Add(r, p).registry, false)
  {
  }

  /** order[j] is at least as close to `from` as every element of order, and
      strictly closer than every element before it. */
  predicate FirstNearestAt(order: seq<Pos>, from: Pos, j: int) {
    && 0 <= j < |order|
    && (forall k :: 0 <= k < |order| ==> SquaredDistance(order[j], from) <= SquaredDistance(order[k], from))
    && (forall k :: 0 <= k < j ==> SquaredDistance(order[j], from) < SquaredDistance(order[k], from))
  }

  /** findNearest over the set in its iteration order: a candidate replaces
      the best only when strictly closer, so the first of several equally
      near positions wins; null when the registry is empty. */
  method FindNearest(r: Registry, order: seq<Pos>, from: Pos) returns (best: Option<Pos>)
    requires NoDup(order) && Elems(order) == r.teleporters
    ensures best.None? <==> r.teleporters == {}
    ensures best.Some? ==> best.value in r.teleporters
    ensures best.Some? ==> forall q :: q in r.teleporters ==> SquaredDistance(best.value, from) <= SquaredDistance(q, from)
    ensures best.Some? ==> exists j :: FirstNearestAt(order, from, j) && order[j] == best.value
  {
    best := None;
    var bestDist := 0;
    var bestIdx := 0;
    var i := 0;
    while i < |order|
      invariant 0 <= i <= |order|
      invariant best.None? <==> i == 0
      invariant best.Some? ==> 0 <= bestIdx < i && order[bestIdx] == best.value
      invariant best.Some? ==> bestDist == SquaredDistance(best.value, from)
      invariant best.Some? ==> forall k :: 0 <= k < i ==> bestDist <= SquaredDistance(order[k], from)
      invariant best.Some? ==> forall k :: 0 <= k < bestIdx ==> bestDist < SquaredDistance(order[k], from)
    {
      var d := SquaredDistance(order[i], from);
      if best.None? || d < bestDist {
        best := Some(order[i]);
        bestDist := d;
        bestIdx := i;
      }
      i := i + 1;
    }
    if best.Some? {
      assert FirstNearestAt(order, from, bestIdx);
      assert order[bestIdx] in Elems(order);
      forall q | q in r.teleporters
        ensures SquaredDistance(best.value, from) <= SquaredDistance(q, from)
      {
        var k :| 0 <= k < |order| && order[k] == q;
      }
    } else {
      assert Elems(order) == {};
    }
  }

  /* ---------------- persistence ---------------- */

  function EntryTag(p: Pos): Tag {
    CompoundTag(map["pos" := LongTag(AsLong(p))])
  }

  /** writeNbt: one {pos: long} compound per teleporter, in iteration order. */
  function WriteNbt(r: Registry, order: seq<Pos>, nbt: Compound): (out: Compound)
    requires NoDup(order) && Elems(order) == r.teleporters
    ensures out.Keys == nbt.Keys + {"positions"}
    ensures forall k :: k in nbt && k != "positions" ==> out[k] == nbt[k]
    ensures out["positions"].ListTag? && |out["positions"].items| == |order| == |r.teleporters|
    ensures forall i :: 0 <= i < |order| ==> out["positions"].items[i] == EntryTag(order[i])
  {
    NoDupCard(order);
    nbt["positions" := ListTag(seq(|order|, i requires 0 <= i < |order| => EntryTag(order[i])))]
  }

  /** fromNbt: every listed position, decoded with fromLong. */
  function FromNbt(nbt: Compound): (r: Registry)
    ensures forall p :: p in r.teleporters ==>
      exists i :: 0 <= i < |GetList(nbt, "positions", CompoundType)| &&
        p == FromLong(GetLong(CompoundAt(GetList(nbt, "positions", CompoundType), i), "pos"))
  {
    var list := GetList(nbt, "positions", CompoundType);
    Registry(set i | 0 <= i < |list| :: FromLong(GetLong(CompoundAt(list, i), "pos")))
  }

  /** Loading what writeNbt wrote gives back the same set, for positions
      that a packed long can hold. */
  lemma NbtRoundTrip(r: Registry, order: seq<Pos>, nbt: Compound)
    requires NoDup(order) && Elems(order) == r.teleporters
    requires forall p :: p in r.teleporters ==> Packable(p)
    ensures FromNbt(WriteNbt(r, order, nbt)) == r
  {
    var list := GetList(WriteNbt(r, order, nbt), "positions", CompoundType);
    assert |list| == |order|;
    forall i | 0 <= i < |order|
      ensures FromLong(GetLong(CompoundAt(list, i), "pos")) == order[i]
    {
      assert CompoundAt(list, i) == EntryTag(order[i]).entries;
      PackRoundTrip(order[i]);
    }
    var back := FromNbt(WriteNbt(r, order, nbt)).teleporters;
    forall p | p in r.teleporters ensures p in back {
      var i :| 0 <= i < |order| && order[i] == p;
    }
  }
}
