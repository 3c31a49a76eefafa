/** The teleporter's edge-trigger memory (INSIDE_MEMORY): for each teleporter
    position, the groups currently known to be inside its trigger column.
    A group must be marked as having left before the same teleporter can
    queue it again. */
module EdgeMemory {
  import opened Common

  type Memory = map<Pos, set<Uuid>>

  /** The representation invariant markLeftColumn keeps: no position maps to
      an empty set (the key is dropped instead). */
  predicate NoEmptySets(m: Memory) {
    forall p :: p in m ==> m[p] != {}
  }

  /** isMarkedInside. */
  predicate IsMarkedInside(m: Memory, p: Pos, g: Uuid) {
    p in m && g in m[p]
  }

  /** markEntered: adds g to the set of p, creating it when absent. */
  function MarkEntered(m: Memory, p: Pos, g: Uuid): (r: Memory)
    ensures IsMarkedInside(r, p, g)
    ensures forall q, h :: (q != p || h != g) ==> (IsMarkedInside(r, q, h) <==> IsMarkedInside(m, q, h))
    ensures r.Keys == m.Keys + {p}
    ensures NoEmptySets(m) ==> NoEmptySets(r)
  {
    m[p := (if p in m then m[p] else {}) + {g}]
  }

  /** markLeftColumn: removes g from the set of p and drops p once its set is
      empty; nothing happens when p has no set. */
  function MarkLeft(m: Memory, p: Pos, g: Uuid): (r: Memory)
    ensures !IsMarkedInside(r, p, g)
    ensures forall q, h :: (q != p || h != g) ==> (IsMarkedInside(r, q, h) <==> IsMarkedInside(m, q, h))
    ensures r.Keys <= m.Keys
    ensures p in m && m[p] <= {g} ==> p !in r
    ensures NoEmptySets(m) ==> NoEmptySets(r)
  {
    if p in m then
      var rest := m[p] - {g};
      if rest == {} then
        assert forall h :: h in m[p] ==> h == g by {
          forall h | h in m[p] ensures h == g { assert h !in rest; }
        }
        m - {p}
      else m[p := rest]
    else m
  }

  /** INSIDE_MEMORY.remove(pos) on an unpowered tick: forgets every group at p. */
  function ClearPosition(m: Memory, p: Pos): (r: Memory)
    ensures p !in r
    ensures forall h :: !IsMarkedInside(r, p, h)
    ensures forall q, h :: q != p ==> (IsMarkedInside(r, q, h) <==> IsMarkedInside(m, q, h))
    ensures NoEmptySets(m) ==> NoEmptySets(r)
  {
    m - {p}
  }

  /** Marks left, at p, every group not in present; every other mark stays. */
  function KeepOnly(m: Memory, p: Pos, present: set<Uuid>): (r: Memory)
    ensures forall h :: IsMarkedInside(r, p, h) <==> IsMarkedInside(m, p, h) && h in present
    ensures forall q, h :: q != p ==> (IsMarkedInside(r, q, h) <==> IsMarkedInside(m, q, h))
    ensures NoEmptySets(m) ==> NoEmptySets(r)
  {
    if p !in m then m
    else
      var kept := m[p] * present;
      if kept == {} then
        assert forall h :: h in m[p] && h in present ==> h in kept;
        m - {p}
      else m[p := kept]
  }

  lemma NonEmptyHasMember(s: set<Uuid>)
    requires s != {}
    ensures exists h :: h in s
  {
    if forall h :: h !in s {
      assert false;
    }
  }

  /** Two memories that keep the invariant are equal exactly when they mark
      the same groups at the same positions. */
  lemma MarksDetermineMemory(m1: Memory, m2: Memory)
    requires NoEmptySets(m1) && NoEmptySets(m2)
    requires forall q, h :: IsMarkedInside(m1, q, h) <==> IsMarkedInside(m2, q, h)
    ensures m1 == m2
  {
    forall q | q in m1
      ensures q in m2 && m1[q] == m2[q]
    {
      NonEmptyHasMember(m1[q]);
      var h :| h in m1[q];
      assert IsMarkedInside(m1, q, h);
      assert m1[q] == m2[q] by {
        forall x ensures x in m1[q] <==> x in m2[q] {
          assert IsMarkedInside(m1, q, x) <==> IsMarkedInside(m2, q, x);
        }
      }
    }
    forall q | q in m2
      ensures q in m1
    {
      NonEmptyHasMember(m2[q]);
      var h :| h in m2[q];
      assert IsMarkedInside(m2, q, h);
    }
  }

  /** Entering and then leaving the same column restores the memory when the
      group was not inside before. */
  lemma EnterThenLeave(m: Memory, p: Pos, g: Uuid)
    requires NoEmptySets(m)
    requires !IsMarkedInside(m, p, g)
    ensures MarkLeft(MarkEntered(m, p, g), p, g) == m
  {
    MarksDetermineMemory(MarkLeft(MarkEntered(m, p, g), p, g), m);
  }

  /** Marking entered twice is the same as once. */
  lemma MarkEnteredIdempotent(m: Memory, p: Pos, g: Uuid)
    requires NoEmptySets(m)
    ensures MarkEntered(MarkEntered(m, p, g), p, g) == MarkEntered(m, p, g)
  {
    MarksDetermineMemory(MarkEntered(MarkEntered(m, p, g), p, g), MarkEntered(m, p, g));
  }

  /** Marking left twice is the same as once. */
  lemma MarkLeftIdempotent(m: Memory, p: Pos, g: Uuid)
    requires NoEmptySets(m)
    ensures MarkLeft(MarkLeft(m, p, g), p, g) == MarkLeft(m, p, g)
  {
    MarksDetermineMemory(MarkLeft(MarkLeft(m, p, g), p, g), MarkLeft(m, p, g));
  }
}
