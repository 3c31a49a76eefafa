/** The per-world list of cable connectors (CableConnectorLightningState):
    packed positions in insertion order without repeats, a snapshot for the
    lightning scan, and its NBT persistence as a list of longs. */
module ConnectorRegistry {
  import opened Common
  import opened Nbt
  import opened PackedPos

  datatype Connectors = Connectors(positions: seq<int>)

  datatype Update = Update(state: Connectors, dirty: bool)

  /** What add and remove keep: no repeats, and every entry a 64-bit long. */
  predicate Valid(s: Connectors) {
    NoDup(s.positions) && forall i :: 0 <= i < |s.positions| ==> IsInt64(s.positions[i])
  }

  /** add: appends the packed position unless it is already listed. */
  function Add(s: Connectors, p: Pos): (u: Update)
    ensures AsLong(p) in u.state.positions
    ensures u.dirty <==> AsLong(p) !in s.positions
    ensures !u.dirty ==> u.state == s
    ensures u.dirty ==> u.state.positions == s.positions + [AsLong(p)]
    ensures Valid(s) ==> Valid(u.state)
  {
    var l := AsLong(p);
    if l in s.positions then Update(s, false)
    else
      Update(Connectors(s.positions + [l]), true)
  }

  /** The first index holding l. */
  function FirstIndex(ps: seq<int>, l: int): (i: nat)
    requires l in ps
    ensures i < |ps| && ps[i] == l && l !in ps[..i]
  {
    if ps[0] == l then 0
    else
      var j := FirstIndex(ps[1..], l);
      assert ps[..j + 1] == [ps[0]] + ps[1..][..j];
      j + 1
  }

  /** remove(Object): drops the first occurrence of the packed position. */
  function Remove(s: Connectors, p: Pos): (u: Update)
    ensures u.dirty <==> AsLong(p) in s.positions
    ensures !u.dirty ==> u.state == s
    ensures u.dirty ==> |u.state.positions| == |s.positions| - 1
    ensures u.dirty ==> multiset(u.state.positions) == multiset(s.positions) - multiset{AsLong(p)}
    ensures u.dirty ==> exists i :: 0 <= i < |s.positions| && s.positions[i] == AsLong(p) &&
                                    AsLong(p) !in s.positions[..i] &&
                                    u.state.positions == s.positions[..i] + s.positions[i + 1..]
  {
    var l := AsLong(p);
    if l !in s.positions then Update(s, false)
    else
      var i := FirstIndex(s.positions, l);
      assert s.positions == s.positions[..i] + [l] + s.positions[i + 1..];
      Update(Connectors(s.positions[..i] + s.positions[i + 1..]), true)
  }

  /** Removing keeps the list valid, and afterwards the position is gone. */
  lemma RemoveKeepsValid(s: Connectors, p: Pos)
    requires Valid(s)
    ensures Valid(Remove(s, p).state)
    ensures AsLong(p) !in Remove(s, p).state.positions
  {
    var l := AsLong(p);
    if l in s.positions {
      var i := FirstIndex(s.positions, l);
      var ps := Remove(s, p).state.positions;
      assert ps == s.positions[..i] + s.positions[i + 1..];
      forall a | 0 <= a < |ps|
        ensures ps[a] == s.positions[if a < i then a else a + 1]
      {
      }
      forall a, b | 0 <= a < b < |ps| ensures ps[a] != ps[b] {
        assert ps[a] == s.positions[if a < i then a else a + 1];
        assert ps[b] == s.positions[if b < i then b else b + 1];
      }
      forall a | 0 <= a < |ps| ensures ps[a] != l {
        assert ps[a] == s.positions[if a < i then a else a + 1];
      }
    }
  }

  /** A connector placed and then broken leaves the list as it was. */
  lemma AddThenRemove(s: Connectors, p: Pos)
    requires Valid(s) && AsLong(p) !in s.positions
    ensures Remove(Add(s, p).state, p).state == s
  {
    var t := Add(s, p).state.positions;
    assert FirstIndex(t, AsLong(p)) == |s.positions|;
    assert t[..|s.positions|] == s.positions;
  }

  /** snapshot: the unpacked positions, in list order. */
  function Snapshot(s: Connectors): (out: seq<Pos>)
    ensures |out| == |s.positions|
  {
    seq(|s.positions|, i requires 0 <= i < |s.positions| => FromLong(s.positions[i]))
  }

  /** The snapshot lists exactly the registered positions a packed long can hold. */
  lemma SnapshotHasAdded(s: Connectors, p: Pos)
    requires Packable(p)
    ensures p in Snapshot(Add(s, p).state)
    ensures AsLong(p) !in s.positions ==> Snapshot(Add(s, p).state) == Snapshot(s) + [p]
  {
    var t := Add(s, p).state.positions;
    var i :| 0 <= i < |t| && t[i] == AsLong(p);
    PackRoundTrip(p);
    assert Snapshot(Add(s, p).state)[i] == p;
  }

  /* ---------------- persistence ---------------- */

  /** writeNbt: "Positions" as a list of longs, in list order. */
  function WriteNbt(s: Connectors, nbt: Compound): (out: Compound)
    ensures out.Keys == nbt.Keys + {"Positions"}
    ensures forall k :: k in nbt && k != "Positions" ==> out[k] == nbt[k]
    ensures out["Positions"].ListTag? && |out["Positions"].items| == |s.positions|
    ensures forall i :: 0 <= i < |s.positions| ==> out["Positions"].items[i] == LongTag(s.positions[i])
  {
    nbt["Positions" := ListTag(seq(|s.positions|, i requires 0 <= i < |s.positions| => LongTag(s.positions[i])))]
  }

  /** A list tag as Minecraft builds it: every element of one type. */
  predicate Homogeneous(items: seq<Tag>) {
    forall i :: 0 <= i < |items| ==> TypeId(items[i]) == TypeId(items[0])
  }

  /** fromNbt: every element read as a long, in order (an NbtList holds one
      element type, so a long list holds only longs). */
  function FromNbt(nbt: Compound): (s: Connectors)
    requires Homogeneous(GetList(nbt, "Positions", LongType))
    ensures |s.positions| == |GetList(nbt, "Positions", LongType)|
  {
    var list := GetList(nbt, "Positions", LongType);
    Connectors(seq(|list|, i requires 0 <= i < |list| => list[i].l))
  }

  lemma NbtRoundTrip(s: Connectors, nbt: Compound)
    ensures Homogeneous(GetList(WriteNbt(s, nbt), "Positions", LongType))
    ensures FromNbt(WriteNbt(s, nbt)) == s
  {
    var list := GetList(WriteNbt(s, nbt), "Positions", LongType);
    assert list == seq(|s.positions|, i requires 0 <= i < |s.positions| => LongTag(s.positions[i]));
  }
}
