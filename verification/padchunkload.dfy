/** The landing pads' chunk-forcing reference counts (PadChunkLoadState): one
    count per chunk, keyed by the chunk's packed 64-bit key; a chunk is kept
    forced while its count is positive, and the positive counts persist. */
module PadChunkLoad {
  import opened Common
  import opened Nbt

  datatype ChunkPos = ChunkPos(x: int, z: int)

  const Two32 := 0x1_0000_0000

  predicate IsChunk(c: ChunkPos) {
    IsInt32(c.x) && IsInt32(c.z)
  }

  /** toKey: x in the high 32 bits, z's low 32 bits below. The low half of
      x << 32 is zero, so the source's XOR is this sum. */
  function ToKey(c: ChunkPos): (k: int)
    requires IsChunk(c)
    ensures IsInt64(k)
  {
    c.x * Two32 + c.z % Two32
  }

  /** fromKey: (int)(k >> 32) and (int)(k & 0xffffffff). */
  function FromKey(k: int): (c: ChunkPos)
    ensures IsChunk(c)
  {
    ChunkPos(ToInt32(k / Two32), ToInt32(k % Two32))
  }

  lemma KeyRoundTrip(c: ChunkPos)
    requires IsChunk(c)
    ensures FromKey(ToKey(c)) == c
  {
    var k := ToKey(c);
    assert k / Two32 == c.x;
    assert k % Two32 == c.z % Two32;
  }

  lemma FromKeyRoundTrip(k: int)
    requires IsInt64(k)
    ensures ToKey(FromKey(k)) == k
  {
    var hi := k / Two32;
    var lo := k % Two32;
    assert IsInt32(hi);
    assert ToInt32(lo) % Two32 == lo;
  }

  /** Distinct chunks get distinct keys, and distinct 64-bit keys distinct
      chunks. */
  lemma KeysInjective(c: ChunkPos, d: ChunkPos, k: int, l: int)
    requires IsChunk(c) && IsChunk(d) && IsInt64(k) && IsInt64(l)
    ensures ToKey(c) == ToKey(d) ==> c == d
    ensures FromKey(k) == FromKey(l) ==> k == l
  {
    KeyRoundTrip(c);
    KeyRoundTrip(d);
    FromKeyRoundTrip(k);
    FromKeyRoundTrip(l);
  }

  /** counts, and the chunks these calls have asked the world to force (the
      setChunkForced side effect). */
  datatype LoadState = LoadState(counts: map<int, int>, forced: set<ChunkPos>)

  const Empty := LoadState(map[], {})

  function ForcedFor(counts: map<int, int>): set<ChunkPos> {
    set k | k in counts :: FromKey(k)
  }

  /** Every stored count is positive, every key is a 64-bit key, and exactly
      the chunks with a count are forced. */
  predicate Inv(s: LoadState) {
    && (forall k :: k in s.counts ==> s.counts[k] > 0 && IsInt64(k))
    && s.forced == ForcedFor(s.counts)
  }

  function CountOf(s: LoadState, c: ChunkPos): int
    requires IsChunk(c)
  {
    var k := ToKey(c);
    if k in s.counts then s.counts[k] else 0
  }

  /** increment: one more pad in chunk c; the chunk is forced. */
  function Increment(s: LoadState, c: ChunkPos): (r: LoadState)
    requires IsChunk(c)
    ensures CountOf(r, c) == CountOf(s, c) + 1
    ensures c in r.forced
    ensures forall k :: k != ToKey(c) ==> (k in r.counts <==> k in s.counts) && (k in r.counts ==> r.counts[k] == s.counts[k])
  {
    var k := ToKey(c);
    LoadState(s.counts[k := CountOf(s, c) + 1], s.forced + {c})
  }

  /** decrement: one pad fewer, never below zero; at zero the entry is dropped
      and the chunk released, even when it had no entry at all. */
  function Decrement(s: LoadState, c: ChunkPos): (r: LoadState)
    requires IsChunk(c)
    ensures CountOf(r, c) == if CountOf(s, c) > 0 then CountOf(s, c) - 1 else 0
    ensures CountOf(s, c) <= 1 ==> ToKey(c) !in r.counts && c !in r.forced
    ensures CountOf(s, c) > 1 ==> r.forced == s.forced
    ensures forall k :: k != ToKey(c) ==> (k in r.counts <==> k in s.counts) && (k in r.counts ==> r.counts[k] == s.counts[k])
  {
    var k := ToKey(c);
    var next := if CountOf(s, c) - 1 > 0 then CountOf(s, c) - 1 else 0;
    if next == 0 then LoadState(s.counts - {k}, s.forced - {c})
    else LoadState(s.counts[k := next], s.forced)
  }

  lemma IncrementKeepsInv(s: LoadState, c: ChunkPos)
    requires Inv(s) && IsChunk(c)
    ensures Inv(Increment(s, c))
  {
    var r := Increment(s, c);
    KeyRoundTrip(c);
    assert r.counts.Keys == s.counts.Keys + {ToKey(c)};
  }

  lemma DecrementKeepsInv(s: LoadState, c: ChunkPos)
    requires Inv(s) && IsChunk(c)
    ensures Inv(Decrement(s, c))
  {
    var r := Decrement(s, c);
    var k := ToKey(c);
    KeyRoundTrip(c);
    if CountOf(s, c) <= 1 {
      forall d | d in ForcedFor(r.counts)
        ensures d in s.forced - {c}
      {
        var l :| l in r.counts && FromKey(l) == d;
        KeysInjective(c, c, l, k);
      }
      forall d | d in s.forced - {c}
        ensures d in ForcedFor(r.counts)
      {
        var l :| l in s.counts && FromKey(l) == d;
        assert l in r.counts;
      }
    }
  }

  /** A pad placed and then broken leaves the state as it was. */
  lemma IncrementThenDecrement(s: LoadState, c: ChunkPos)
    requires Inv(s) && IsChunk(c)
    ensures Decrement(Increment(s, c), c) == s
  {
    var k := ToKey(c);
    KeyRoundTrip(c);
    var r := Decrement(Increment(s, c), c);
    if k in s.counts {
      assert r.counts == s.counts;
      assert c in s.forced;
    } else {
      assert r.counts == s.counts;
      assert c !in s.forced by {
        if c in s.forced {
          var l :| l in s.counts && FromKey(l) == c;
          KeysInjective(c, c, l, k);
        }
      }
    }
  }

  /* ---------------- persistence ---------------- */

  function EntryTag(k: int, count: int): Tag {
    CompoundTag(map["key" := LongTag(k), "count" := IntTag(count)])
  }

  /** The entries writeNbt emits for the keys in iteration order: positive
      counts only. */
  function Entries(counts: map<int, int>, order: seq<int>): (ts: seq<Tag>)
    requires forall i :: 0 <= i < |order| ==> order[i] in counts
    ensures forall i :: 0 <= i < |ts| ==> ts[i].CompoundTag?
  {
    if |order| == 0 then []
    else
      var k := order[|order| - 1];
      Entries(counts, order[..|order| - 1]) + (if counts[k] > 0 then [EntryTag(k, counts[k])] else [])
  }

  /** writeNbt; order is the map's iteration order, a permutation of its keys. */
  function WriteNbt(s: LoadState, order: seq<int>, nbt: Compound): (out: Compound)
    requires NoDup(order) && Elems(order) == s.counts.Keys
    ensures out.Keys == nbt.Keys + {"entries"}
    ensures forall k :: k in nbt && k != "entries" ==> out[k] == nbt[k]
    ensures out["entries"] == ListTag(Entries(s.counts, order))
  {
    nbt["entries" := ListTag(Entries(s.counts, order))]
  }

  /** One entry of fromNbt's loop: a positive count is stored and its chunk
      forced again. */
  function LoadEntry(acc: LoadState, e: Compound): LoadState {
    var k := GetLong(e, "key");
    var cnt := GetInt(e, "count");
    if cnt > 0 then LoadState(acc.counts[k := cnt], acc.forced + {FromKey(k)}) else acc
  }

  lemma ForcedForUpdate(counts: map<int, int>, k: int, v: int)
    ensures ForcedFor(counts[k := v]) == ForcedFor(counts) + {FromKey(k)}
  {
    forall d | d in ForcedFor(counts[k := v]) ensures d in ForcedFor(counts) + {FromKey(k)} {
      var l :| l in counts[k := v] && FromKey(l) == d;
      if l != k {
        assert l in counts;
      }
    }
  }

  /** Loading keeps only positive counts, and forces exactly the chunks
      that have one. */
  function LoadAll(items: seq<Tag>): (r: LoadState)
    ensures forall k :: k in r.counts ==> r.counts[k] > 0
    ensures r.forced == ForcedFor(r.counts)
  {
    if |items| == 0 then Empty
    else
      var acc := LoadAll(items[..|items| - 1]);
      var e := CompoundAt(items, |items| - 1);
      ForcedForUpdate(acc.counts, GetLong(e, "key"), GetInt(e, "count"));
      LoadEntry(acc, e)
  }

  /** fromNbt: what it loads has only positive counts and forces exactly
      the chunks with a count. */
  function FromNbt(nbt: Compound): (s: LoadState)
    ensures forall k :: k in s.counts ==> s.counts[k] > 0
    ensures s.forced == ForcedFor(s.counts)
  {
    LoadAll(GetList(nbt, "entries", CompoundType))
  }

  function Restrict(counts: map<int, int>, ks: set<int>): map<int, int> {
    map k | k in counts && k in ks :: counts[k]
  }

  lemma LoadEntryTag(acc: LoadState, k: int, count: int)
    requires count > 0 && IsInt32(count)
    ensures LoadEntry(acc, EntryTag(k, count).entries) ==
      LoadState(acc.counts[k := count], acc.forced + {FromKey(k)})
  {
    var e := EntryTag(k, count).entries;
    assert GetLong(e, "key") == k;
    assert GetInt(e, "count") == count;
  }

  lemma RestrictStep(counts: map<int, int>, order: seq<int>)
    requires |order| > 0 && order[|order| - 1] in counts
    ensures var k := order[|order| - 1];
      var prev := Restrict(counts, Elems(order[..|order| - 1]));
      && Restrict(counts, Elems(order)) == prev[k := counts[k]]
      && ForcedFor(prev[k := counts[k]]) == ForcedFor(prev) + {FromKey(k)}
  {
    var init := order[..|order| - 1];
    assert Elems(order) == Elems(init) + {order[|order| - 1]} by {
      assert order == init + [order[|order| - 1]];
    }
  }

  lemma {:induction false} LoadEntries(counts: map<int, int>, order: seq<int>)
    requires forall i :: 0 <= i < |order| ==> order[i] in counts
    requires forall k :: k in counts ==> counts[k] > 0 && IsInt32(counts[k])
    ensures LoadAll(Entries(counts, order)) ==
      LoadState(Restrict(counts, Elems(order)), ForcedFor(Restrict(counts, Elems(order))))
  {
    if |order| > 0 {
      var init := order[..|order| - 1];
      var k := order[|order| - 1];
      LoadEntries(counts, init);
      var a := Entries(counts, init);
      var t := Entries(counts, order);
      assert t == a + [EntryTag(k, counts[k])];
      assert t[..|t| - 1] == a;
      assert CompoundAt(t, |t| - 1) == EntryTag(k, counts[k]).entries;
      LoadEntryTag(LoadAll(a), k, counts[k]);
      RestrictStep(counts, order);
    } else {
      assert Restrict(counts, Elems(order)) == map[];
    }
  }

  /** Loading what writeNbt wrote restores the counts and forces again
      exactly the chunks that had a count. */
  lemma NbtRoundTrip(s: LoadState, order: seq<int>, nbt: Compound)
    requires Inv(s)
    requires forall k :: k in s.counts ==> IsInt32(s.counts[k])
    requires NoDup(order) && Elems(order) == s.counts.Keys
    ensures FromNbt(WriteNbt(s, order, nbt)) == s
  {
    LoadEntries(s.counts, order);
    var es := Entries(s.counts, order);
    assert GetList(WriteNbt(s, order, nbt), "entries", CompoundType) == es;
    assert Restrict(s.counts, Elems(order)) == s.counts;
  }
}
