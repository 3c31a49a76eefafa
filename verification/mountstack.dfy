/** Entities as the teleporter sees them: position, size, liveness and the
    rider tree (vehicle link and passenger list). Covers getRootVehicle, the
    stack-aware column test (stackIntersectsBox), the mount-stack snapshot
    (collectMountStack plus the parentOf map) and the relocation of a whole
    stack onto a landing pad (teleportMountStack). */
module MountStack {
  import opened Common

  datatype Vec3 = Vec3(x: real, y: real, z: real)

  /** An axis-aligned box with min corner below max corner on each axis. */
  datatype Box = Box(minX: real, minY: real, minZ: real, maxX: real, maxY: real, maxZ: real)

  /** Box.intersects: the open boxes overlap on every axis. */
  predicate Intersects(a: Box, b: Box) {
    && a.minX < b.maxX && a.maxX > b.minX
    && a.minY < b.maxY && a.maxY > b.minY
    && a.minZ < b.maxZ && a.maxZ > b.minZ
  }

  datatype Actor = Actor(
    player: bool,
    alive: bool,
    pos: Vec3,
    velocity: Vec3,
    width: real,
    height: real,
    vehicle: Option<Uuid>,
    passengers: seq<Uuid>)

  /** The entities of the world, by id. */
  type Actors = map<Uuid, Actor>

  /** The entity's bounding box: width centred on x and z, height above the feet. */
  function BoundingBox(a: Actor): Box {
    Box(a.pos.x - a.width / 2.0, a.pos.y, a.pos.z - a.width / 2.0,
        a.pos.x + a.width / 2.0, a.pos.y + a.height, a.pos.z + a.width / 2.0)
  }

  /** triggerColumnBox: the 1x5x1 column from one block above the teleporter. */
  function ColumnBox(p: Pos): (b: Box)
    ensures b.maxX - b.minX == 1.0 && b.maxZ - b.minZ == 1.0 && b.maxY - b.minY == 5.0
    ensures b.minY == (p.y + 1) as real
  {
    Box(p.x as real, (p.y + 1) as real, p.z as real,
        (p.x + 1) as real, (p.y + 1 + 5) as real, (p.z + 1) as real)
  }

  function PassengersOf(w: Actors, id: Uuid): seq<Uuid> {
    if id in w then w[id].passengers else []
  }

  /** Minecraft keeps the two halves of the rider relation in step: whoever
      is in a passenger list has that entity as its vehicle. */
  predicate Consistent(w: Actors) {
    forall p, k :: p in w && 0 <= k < |w[p].passengers| ==>
      w[p].passengers[k] in w && w[w[p].passengers[k]].vehicle == Some(p)
  }

  /* ---------------- getRootVehicle ---------------- */

  /** The vehicle chain from id reaches an entity with no vehicle in at most n steps. */
  predicate ReachesRootWithin(w: Actors, id: Uuid, n: nat)
    decreases n
  {
    if id !in w || w[id].vehicle.None? then true
    else if n == 0 then false
    else ReachesRootWithin(w, w[id].vehicle.value, n - 1)
  }

  predicate IsRoot(w: Actors, id: Uuid) {
    id !in w || w[id].vehicle.None?
  }

  /** getRootVehicle: follow vehicle links to the bottom of the stack; fuel
      bounds the walk. */
  function RootVehicle(w: Actors, id: Uuid, fuel: nat): (r: Uuid)
    ensures IsRoot(w, id) ==> r == id
    ensures ReachesRootWithin(w, id, fuel) ==> IsRoot(w, r)
    decreases fuel
  {
    if id !in w || w[id].vehicle.None? || fuel == 0 then id
    else RootVehicle(w, w[id].vehicle.value, fuel - 1)
  }

  /* ---------------- stack snapshot ---------------- */

  /** A stack member with the parent it was found under (None for the root). */
  datatype Member = Member(id: Uuid, parent: Option<Uuid>)

  function Ids(s: seq<Member>): (ids: seq<Uuid>)
    ensures |ids| == |s|
    ensures forall k :: 0 <= k < |s| ==> ids[k] == s[k].id
  {
    seq(|s|, k requires 0 <= k < |s| => s[k].id)
  }

  /** collectMountStack (pre-order: the entity, then each passenger's stack in
      list order), each member paired with the entity whose passenger list
      held it, which is what the parentOf map records. */
  function CollectFrom(w: Actors, id: Uuid, parent: Option<Uuid>, fuel: nat): (s: seq<Member>)
    ensures |s| >= 1 && s[0] == Member(id, parent)
    ensures forall k :: 1 <= k < |s| ==> s[k].parent.Some?
    decreases fuel, 0
  {
    [Member(id, parent)] + (if fuel == 0 then [] else CollectAll(w, PassengersOf(w, id), id, fuel - 1))
  }

  function CollectAll(w: Actors, ids: seq<Uuid>, parent: Uuid, fuel: nat): (s: seq<Member>)
    ensures forall k :: 0 <= k < |s| ==> s[k].parent.Some?
    decreases fuel, 1, |ids|
  {
    if |ids| == 0 then []
    else CollectFrom(w, ids[0], Some(parent), fuel) + CollectAll(w, ids[1..], parent, fuel)
  }

  /** The snapshot of the stack rooted at root, before anything moves. */
  function Snapshot(w: Actors, root: Uuid): seq<Member> {
    CollectFrom(w, root, None, |w|)
  }

  /** Every member recorded with a parent exists and rides that parent. */
  predicate ParentsAreVehicles(w: Actors, s: seq<Member>) {
    forall k :: 0 <= k < |s| && s[k].parent.Some? ==> s[k].id in w && w[s[k].id].vehicle == s[k].parent
  }

  /** In a consistent world every recorded parent is the member's vehicle at
      snapshot time, and every member exists. */
  lemma {:induction false} CollectFromParents(w: Actors, id: Uuid, parent: Option<Uuid>, fuel: nat)
    requires Consistent(w)
    requires parent.Some? ==> id in w && w[id].vehicle == parent
    ensures ParentsAreVehicles(w, CollectFrom(w, id, parent, fuel))
    decreases fuel, 0
  {
    var s := CollectFrom(w, id, parent, fuel);
    if fuel > 0 {
      var rest := CollectAll(w, PassengersOf(w, id), id, fuel - 1);
      CollectAllParents(w, PassengersOf(w, id), id, fuel - 1);
      assert s == [Member(id, parent)] + rest;
      forall k | 0 <= k < |s| && s[k].parent.Some?
        ensures s[k].id in w && w[s[k].id].vehicle == s[k].parent
      {
        if k > 0 {
          assert s[k] == rest[k - 1];
        }
      }
    } else {
      assert s == [Member(id, parent)];
    }
  }

  lemma {:induction false} CollectAllParents(w: Actors, ids: seq<Uuid>, parent: Uuid, fuel: nat)
    requires Consistent(w)
    requires forall k :: 0 <= k < |ids| ==> ids[k] in w && w[ids[k]].vehicle == Some(parent)
    ensures ParentsAreVehicles(w, CollectAll(w, ids, parent, fuel))
    decreases fuel, 1, |ids|
  {
    if |ids| > 0 {
      var a := CollectFrom(w, ids[0], Some(parent), fuel);
      var b := CollectAll(w, ids[1..], parent, fuel);
      CollectFromParents(w, ids[0], Some(parent), fuel);
      CollectAllParents(w, ids[1..], parent, fuel);
      var s := CollectAll(w, ids, parent, fuel);
      assert s == a + b;
      forall k | 0 <= k < |s| && s[k].parent.Some?
        ensures s[k].id in w && w[s[k].id].vehicle == s[k].parent
      {
        if k < |a| {
          assert s[k] == a[k];
        } else {
          assert s[k] == b[k - |a|];
        }
      }
    }
  }

  /* ---------------- stackIntersectsBox ---------------- */

  predicate Hits(w: Actors, id: Uuid, box: Box) {
    id in w && Intersects(BoundingBox(w[id]), box)
  }

  /** stackIntersectsBox: the entity's own box, else any passenger's stack. */
  predicate StackIntersects(w: Actors, id: Uuid, box: Box, fuel: nat)
    decreases fuel, 0
  {
    Hits(w, id, box) || (fuel > 0 && AnyIntersects(w, PassengersOf(w, id), box, fuel - 1))
  }

  predicate AnyIntersects(w: Actors, ids: seq<Uuid>, box: Box, fuel: nat)
    decreases fuel, 1, |ids|
  {
    |ids| > 0 && (StackIntersects(w, ids[0], box, fuel) || AnyIntersects(w, ids[1..], box, fuel))
  }

  /** Some member of the snapshot s has a box meeting box. */
  predicate SomeHit(w: Actors, s: seq<Member>, box: Box) {
    exists k :: 0 <= k < |s| && Hits(w, s[k].id, box)
  }

  lemma SomeHitConcat(w: Actors, a: seq<Member>, b: seq<Member>, box: Box)
    ensures SomeHit(w, a + b, box) <==> SomeHit(w, a, box) || SomeHit(w, b, box)
  {
    if SomeHit(w, a + b, box) {
      var k :| 0 <= k < |a + b| && Hits(w, (a + b)[k].id, box);
      if k >= |a| {
        assert (a + b)[k] == b[k - |a|];
      } else {
        assert (a + b)[k] == a[k];
      }
    }
    if SomeHit(w, a, box) {
      var k :| 0 <= k < |a| && Hits(w, a[k].id, box);
      assert (a + b)[k] == a[k];
    }
    if SomeHit(w, b, box) {
      var k :| 0 <= k < |b| && Hits(w, b[k].id, box);
      assert (a + b)[|a| + k] == b[k];
    }
  }

  /** The recursive test agrees with "some member of the collected stack
      intersects the box": the two traversals see the same entities. */
  lemma {:induction false} StackIntersectsIsSomeHit(w: Actors, id: Uuid, parent: Option<Uuid>, box: Box, fuel: nat)
    ensures StackIntersects(w, id, box, fuel) <==> SomeHit(w, CollectFrom(w, id, parent, fuel), box)
    decreases fuel, 0
  {
    var s := CollectFrom(w, id, parent, fuel);
    var rest := if fuel == 0 then [] else CollectAll(w, PassengersOf(w, id), id, fuel - 1);
    assert s == [Member(id, parent)] + rest;
    SomeHitConcat(w, [Member(id, parent)], rest, box);
    if fuel > 0 {
      AnyIntersectsIsSomeHit(w, PassengersOf(w, id), id, box, fuel - 1);
    }
  }

  lemma {:induction false} AnyIntersectsIsSomeHit(w: Actors, ids: seq<Uuid>, parent: Uuid, box: Box, fuel: nat)
    ensures AnyIntersects(w, ids, box, fuel) <==> SomeHit(w, CollectAll(w, ids, parent, fuel), box)
    decreases fuel, 1, |ids|
  {
    if |ids| > 0 {
      StackIntersectsIsSomeHit(w, ids[0], Some(parent), box, fuel);
      AnyIntersectsIsSomeHit(w, ids[1..], parent, box, fuel);
      SomeHitConcat(w, CollectFrom(w, ids[0], Some(parent), fuel), CollectAll(w, ids[1..], parent, fuel), box);
    }
  }

  /** stackIntersectsTriggerColumn: the stack of any's root vehicle meets the column. */
  predicate StackInColumn(w: Actors, any: Uuid, p: Pos) {
    StackIntersects(w, RootVehicle(w, any, |w|), ColumnBox(p), |w|)
  }

  /* ---------------- relocation ---------------- */

  function Remove(s: seq<Uuid>, x: Uuid): (r: seq<Uuid>)
    ensures forall y :: y in r <==> y in s && y != x
  {
    if |s| == 0 then [] else if s[0] == x then Remove(s[1..], x) else [s[0]] + Remove(s[1..], x)
  }

  /** stopRiding: clears id's vehicle link and removes it from that vehicle's
      passenger list. */
  function Dismount(w: Actors, id: Uuid): (r: Actors)
    ensures r.Keys == w.Keys
    ensures id in w ==> r[id].vehicle.None? && r[id].pos == w[id].pos
    ensures forall o :: o in w ==> r[o].pos == w[o].pos && r[o].player == w[o].player
    ensures forall o :: o in w && o != id ==> r[o].vehicle == w[o].vehicle
  {
    if id in w && w[id].vehicle.Some? then
      var v := w[id].vehicle.value;
      var w1 := w[id := w[id].(vehicle := None)];
      if v in w1 then w1[v := w1[v].(passengers := Remove(w1[v].passengers, id))] else w1
    else w
  }

  predicate IsPlayer(w: Actors, id: Uuid) {
    id in w && w[id].player
  }

  /** Where addPassenger puts a new rider on the server: a player goes in
      front unless the first passenger is a player already; anyone else goes
      last. */
  predicate GoesFirst(w: Actors, riders: seq<Uuid>, id: Uuid) {
    IsPlayer(w, id) && (|riders| == 0 || !IsPlayer(w, riders[0]))
  }

  /** startRiding(parent, force = true): leaves any current vehicle, then
      rides parent, joining its passenger list as addPassenger does. The
      other passengers keep their order. */
  function StartRiding(w: Actors, id: Uuid, parent: Uuid): (r: Actors)
    requires id in w
    ensures r.Keys == w.Keys
    ensures r[id].vehicle == Some(parent)
    ensures forall o :: o in w ==> r[o].pos == w[o].pos
    ensures forall o :: o in w && o != id ==> r[o].vehicle == w[o].vehicle
    ensures forall o :: o in w && o != parent ==> r[o].passengers == Dismount(w, id)[o].passengers
    ensures parent in w ==>
      var before := PassengersOf(Dismount(w, id), parent);
      var after := PassengersOf(r, parent);
      && |after| == |before| + 1
      && Remove(after, id) == Remove(before, id)
      && (GoesFirst(w, before, id) ==> after[0] == id)
      && (!GoesFirst(w, before, id) ==> after[|after| - 1] == id)
  {
    var w1 := Dismount(w, id);
    var w2 := w1[id := w1[id].(vehicle := Some(parent))];
    if parent in w2 then
      var riders := w2[parent].passengers;
      assert riders == PassengersOf(w1, parent);
      w2[parent := w2[parent].(passengers := AddPassenger(w, riders, id))]
    else w2
  }

  /** addPassenger's new list: one more rider, the others in their order. */
  function AddPassenger(w: Actors, riders: seq<Uuid>, id: Uuid): (joined: seq<Uuid>)
    ensures |joined| == |riders| + 1
    ensures Remove(joined, id) == Remove(riders, id)
    ensures GoesFirst(w, riders, id) ==> joined[0] == id
    ensures !GoesFirst(w, riders, id) ==> joined[|joined| - 1] == id
  {
    assert ([id] + riders)[1..] == riders;
    RemoveAppend(riders, id);
    if GoesFirst(w, riders, id) then [id] + riders else riders + [id]
  }

  lemma {:induction false} RemoveAppend(s: seq<Uuid>, x: Uuid)
    ensures Remove(s + [x], x) == Remove(s, x)
  {
    if |s| > 0 {
      assert (s + [x])[1..] == s[1..] + [x];
      RemoveAppend(s[1..], x);
    } else {
      assert ([] + [x])[1..] == [];
    }
  }

  /** Where stack member i lands: the pad centre, 0.06 blocks higher per index. */
  function Destination(padTop: Pos, i: nat): Vec3 {
    Vec3(padTop.x as real + 0.5, padTop.y as real + 0.06 * i as real, padTop.z as real + 0.5)
  }

  /** Step (1)/(2) for member i: a player is teleported (which dismounts it);
      another entity is repositioned, and the root also loses its velocity. */
  function MoveOne(w: Actors, id: Uuid, i: nat, padTop: Pos): (r: Actors)
    ensures r.Keys == w.Keys
    ensures id in w ==> r[id].pos == Destination(padTop, i)
    ensures id in w && !w[id].player && i == 0 ==> r[id].velocity == Vec3(0.0, 0.0, 0.0)
    ensures forall o :: o in w && o != id ==> r[o].pos == w[o].pos && r[o].vehicle == w[o].vehicle
    ensures forall o :: o in w ==> r[o].player == w[o].player
  {
    if id !in w then w
    else if w[id].player then
      var w1 := Dismount(w, id);
      w1[id := w1[id].(pos := Destination(padTop, i))]
    else if i == 0 then w[id := w[id].(pos := Destination(padTop, i), velocity := Vec3(0.0, 0.0, 0.0))]
    else w[id := w[id].(pos := Destination(padTop, i))]
  }

  /** Moves members i .. |s|-1 in stack order. */
  function MoveFrom(w: Actors, s: seq<Member>, i: nat, padTop: Pos): (r: Actors)
    requires i <= |s|
    ensures r.Keys == w.Keys
    decreases |s| - i
  {
    if i == |s| then w else MoveFrom(MoveOne(w, s[i].id, i, padTop), s, i + 1, padTop)
  }

  /** Step (3) for one member: re-mount to the recorded parent when the
      vehicle link no longer points there. */
  function RelinkOne(w: Actors, m: Member): (r: Actors)
    ensures r.Keys == w.Keys
    ensures m.id in w && m.parent.Some? ==> r[m.id].vehicle == m.parent
    ensures forall o :: o in w ==> r[o].pos == w[o].pos
    ensures forall o :: o in w && o != m.id ==> r[o].vehicle == w[o].vehicle
  {
    if m.parent.Some? && m.id in w && w[m.id].vehicle != m.parent then StartRiding(w, m.id, m.parent.value)
    else w
  }

  function RelinkFrom(w: Actors, s: seq<Member>, i: nat): (r: Actors)
    requires i <= |s|
    ensures r.Keys == w.Keys
    decreases |s| - i
  {
    if i == |s| then w else RelinkFrom(RelinkOne(w, s[i]), s, i + 1)
  }

  /** teleportMountStack: snapshot, move every member, re-link the riders. */
  function Relocate(w: Actors, subject: Uuid, padTop: Pos): (r: Actors)
    ensures r.Keys == w.Keys
  {
    var root := RootVehicle(w, subject, |w|);
    var s := Snapshot(w, root);
    RelinkFrom(MoveFrom(w, s, 0, padTop), s, 1)
  }

  /* ---------------- relocation properties ---------------- */

  lemma {:induction false} MoveFromPositions(w: Actors, s: seq<Member>, i: nat, padTop: Pos)
    requires i <= |s|
    requires NoDup(Ids(s))
    ensures var r := MoveFrom(w, s, i, padTop);
      forall k :: i <= k < |s| && s[k].id in w ==> r[s[k].id].pos == Destination(padTop, k)
    decreases |s| - i
  {
    if i < |s| {
      var w1 := MoveOne(w, s[i].id, i, padTop);
      MoveFromPositions(w1, s, i + 1, padTop);
      if s[i].id in w {
        forall k | i + 1 <= k < |s| ensures s[k].id != s[i].id {
          assert Ids(s)[k] == s[k].id && Ids(s)[i] == s[i].id;
        }
        MoveFromKeeps(w1, s, i + 1, padTop, s[i].id);
      }
    }
  }

  /** Moving later members leaves an actor that is not among them alone. */
  lemma {:induction false} MoveFromKeeps(w: Actors, s: seq<Member>, i: nat, padTop: Pos, o: Uuid)
    requires i <= |s|
    requires o in w
    requires forall k :: i <= k < |s| ==> s[k].id != o
    ensures MoveFrom(w, s, i, padTop)[o] .pos == w[o].pos
    ensures MoveFrom(w, s, i, padTop)[o].vehicle == w[o].vehicle
    decreases |s| - i
  {
    if i < |s| {
      MoveFromKeeps(MoveOne(w, s[i].id, i, padTop), s, i + 1, padTop, o);
    }
  }

  lemma {:induction false} RelinkFromKeepsPositions(w: Actors, s: seq<Member>, i: nat)
    requires i <= |s|
    ensures forall o :: o in w ==> RelinkFrom(w, s, i)[o].pos == w[o].pos
    decreases |s| - i
  {
    if i < |s| {
      RelinkFromKeepsPositions(RelinkOne(w, s[i]), s, i + 1);
    }
  }

  lemma {:induction false} RelinkFromKeepsOthers(w: Actors, s: seq<Member>, i: nat, o: Uuid)
    requires i <= |s|
    requires o in w
    requires forall k :: i <= k < |s| ==> s[k].id != o
    ensures RelinkFrom(w, s, i)[o].vehicle == w[o].vehicle
    decreases |s| - i
  {
    if i < |s| {
      RelinkFromKeepsOthers(RelinkOne(w, s[i]), s, i + 1, o);
    }
  }

  lemma {:induction false} RelinkFromVehicles(w: Actors, s: seq<Member>, i: nat)
    requires i <= |s|
    requires NoDup(Ids(s))
    ensures var r := RelinkFrom(w, s, i);
      forall k :: i <= k < |s| && s[k].id in w && s[k].parent.Some? ==> r[s[k].id].vehicle == s[k].parent
    decreases |s| - i
  {
    if i < |s| {
      var w1 := RelinkOne(w, s[i]);
      RelinkFromVehicles(w1, s, i + 1);
      if s[i].id in w {
        forall k | i + 1 <= k < |s| ensures s[k].id != s[i].id {
          assert Ids(s)[k] == s[k].id && Ids(s)[i] == s[i].id;
        }
        RelinkFromKeepsOthers(w1, s, i + 1, s[i].id);
      }
    }
  }

  /** The snapshot of a consistent world never lists an entity twice when
      the rider relation is a tree; this is what the relocation relies on. */
  predicate TreeShaped(w: Actors, root: Uuid) {
    NoDup(Ids(Snapshot(w, root)))
  }

  /** After teleportMountStack every member of the stack stands at its slot
      above the pad, in stack order. */
  lemma RelocatePositions(w: Actors, subject: Uuid, padTop: Pos)
    requires TreeShaped(w, RootVehicle(w, subject, |w|))
    ensures var s := Snapshot(w, RootVehicle(w, subject, |w|));
      var r := Relocate(w, subject, padTop);
      forall k :: 0 <= k < |s| && s[k].id in w ==> r[s[k].id].pos == Destination(padTop, k)
  {
    var s := Snapshot(w, RootVehicle(w, subject, |w|));
    var m := MoveFrom(w, s, 0, padTop);
    MoveFromPositions(w, s, 0, padTop);
    RelinkFromKeepsPositions(m, s, 1);
  }

  /** Every rider of the stack is back on the vehicle it had before. */
  lemma RelocateRestoresRiders(w: Actors, subject: Uuid, padTop: Pos)
    requires Consistent(w)
    requires TreeShaped(w, RootVehicle(w, subject, |w|))
    ensures var s := Snapshot(w, RootVehicle(w, subject, |w|));
      var r := Relocate(w, subject, padTop);
      forall k :: 1 <= k < |s| ==> s[k].id in w && r[s[k].id].vehicle == w[s[k].id].vehicle
  {
    var root := RootVehicle(w, subject, |w|);
    var s := Snapshot(w, root);
    var m := MoveFrom(w, s, 0, padTop);
    RelinkFromVehicles(m, s, 1);
    CollectFromParents(w, root, None, |w|);
  }

  /** Entities outside the stack neither move nor change vehicle. */
  lemma RelocateLeavesOthers(w: Actors, subject: Uuid, padTop: Pos, o: Uuid)
    requires o in w
    requires o !in Ids(Snapshot(w, RootVehicle(w, subject, |w|)))
    ensures Relocate(w, subject, padTop)[o].pos == w[o].pos
    ensures Relocate(w, subject, padTop)[o].vehicle == w[o].vehicle
  {
    var s := Snapshot(w, RootVehicle(w, subject, |w|));
    var m := MoveFrom(w, s, 0, padTop);
    forall k | 0 <= k < |s| ensures s[k].id != o {
      assert Ids(s)[k] == s[k].id;
    }
    MoveFromKeeps(w, s, 0, padTop, o);
    RelinkFromKeepsPositions(m, s, 1);
    RelinkFromKeepsOthers(m, s, 1, o);
  }
}
