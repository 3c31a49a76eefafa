/** The Hextech spire turret (HextechSpireBlock): a per-spire shot record
    driven once per tick through three ring stages and a beam stage, gated
    by a cooldown, redstone power and a level derived from the reachable
    diamond mesh; target choice and the immunity rules for owners and
    holders of a bound spire mark. */
module Spire {
  import opened Common
  import opened Nbt
  import opened MountStack
  import Connectivity

  const Level1Start := 10
  const Level2Start := 20
  const Level3Start := 30
  const CooldownTicks := 100
  const TickStep := 2
  /** DURATION_LARGE, DURATION_MEDIUM and DURATION_SMALL are all 10. */
  const RingDuration := 10
  const ImpactDelay := 20
  const BeamStage := 3

  /** ShotData without its visual fields (from, to, scale). */
  datatype ShotData = ShotData(target: Option<Uuid>, level: int, stage: int, timer: int, cooldown: int)

  /** What ShotData.get creates for a spire seen the first time. */
  const NewShot := ShotData(None, 0, 0, 0, 0)

  /** active(): a target is recorded. */
  predicate Active(d: ShotData) {
    d.target.Some?
  }

  /** computeLevel: the level for a mesh count. */
  function ComputeLevel(meshes: int): (l: int)
    ensures 0 <= l <= 3
    ensures l == 0 <==> meshes < Level1Start
    ensures l == 1 <==> Level1Start <= meshes < Level2Start
    ensures l == 2 <==> Level2Start <= meshes < Level3Start
    ensures l == 3 <==> Level3Start <= meshes
  {
    if meshes >= Level3Start then 3
    else if meshes >= Level2Start then 2
    else if meshes >= Level1Start then 1
    else 0
  }

  lemma ComputeLevelMonotone(a: int, b: int)
    requires a <= b
    ensures ComputeLevel(a) <= ComputeLevel(b)
  {
  }

  /** reset(): forget the target and rewind the stage machine; the level and
      the cooldown are kept. */
  function Reset(d: ShotData): (r: ShotData)
    ensures !Active(r) && r.stage == 0 && r.timer == 0
    ensures r.cooldown == d.cooldown && r.level == d.level
  {
    d.(target := None, stage := 0, timer := 0)
  }

  /** start(): record a target at the given level from stage 0, timer 0. */
  function Start(d: ShotData, t: Uuid, level: int): (r: ShotData)
    ensures Active(r) && r.target == Some(t)
    ensures r.stage == 0 && r.timer == 0 && r.level == level
    ensures r.cooldown == d.cooldown
  {
    d.(target := Some(t), level := level, stage := 0, timer := 0)
  }

  /** stepStage: add 2 to the timer; leave stage `expected` once its duration
      is reached, rewinding the timer. */
  function StepStage(d: ShotData, expected: int, duration: int): (r: ShotData)
    ensures r.target == d.target && r.level == d.level && r.cooldown == d.cooldown
    ensures d.stage == expected && d.timer + TickStep >= duration ==> r.stage == d.stage + 1 && r.timer == 0
    ensures !(d.stage == expected && d.timer + TickStep >= duration) ==>
      r.stage == d.stage && r.timer == d.timer + TickStep
  {
    var d1 := d.(timer := d.timer + TickStep);
    if d1.stage == expected && d1.timer >= duration then d1.(stage := d1.stage + 1, timer := 0) else d1
  }

  /* ---------------- immunity ---------------- */

  /** An inventory slot as the immunity test sees it. */
  datatype Stack = Stack(isSpireMark: bool, nbt: Option<Compound>)

  /** A living entity near the spire. */
  datatype Creature = Creature(
    living: bool,
    alive: bool,
    player: bool,
    creative: bool,
    spectator: bool,
    pos: Vec3,
    inventory: seq<Stack>)

  /** A mark stack bound to the spire at p: a "SpireBind" entry whose x, y
      and z read back as p's coordinates (a non-compound entry reads as
      zeros). */
  predicate BoundTo(s: Stack, p: Pos) {
    && s.isSpireMark
    && s.nbt.Some?
    && "SpireBind" in s.nbt.value
    && var b := GetCompound(s.nbt.value, "SpireBind");
       GetInt(b, "x") == p.x && GetInt(b, "y") == p.y && GetInt(b, "z") == p.z
  }

  /** isImmune: only players; the recorded owner of the spire, or a player
      carrying a mark bound to exactly this spire. */
  predicate IsImmune(owner: map<Pos, Uuid>, spire: Pos, id: Uuid, c: Creature) {
    && c.player
    && ((spire in owner && owner[spire] == id) ||
        exists i :: 0 <= i < |c.inventory| && BoundTo(c.inventory[i], spire))
  }

  /** bindMark: writes the spire's position under "SpireBind", keeping the
      stack's other tags. */
  function BindMark(s: Stack, p: Pos): (r: Stack)
    ensures r.isSpireMark == s.isSpireMark && r.nbt.Some?
  {
    var tag := if s.nbt.Some? then s.nbt.value else map[];
    s.(nbt := Some(tag["SpireBind" := CompoundTag(map["x" := IntTag(p.x), "y" := IntTag(p.y), "z" := IntTag(p.z)])]))
  }

  /** A player carrying a mark just bound to a spire is immune to that spire
      and to no other spire through that mark. */
  lemma BindMarkMakesImmune(owner: map<Pos, Uuid>, p: Pos, q: Pos, id: Uuid, c: Creature, i: nat)
    requires c.player && i < |c.inventory| && c.inventory[i].isSpireMark
    requires IsInt32(p.x) && IsInt32(p.y) && IsInt32(p.z)
    ensures IsImmune(owner, p, id, c.(inventory := c.inventory[i := BindMark(c.inventory[i], p)]))
    ensures q != p ==> !BoundTo(BindMark(c.inventory[i], p), q)
  {
    var c' := c.(inventory := c.inventory[i := BindMark(c.inventory[i], p)]);
    assert BoundTo(c'.inventory[i], p);
  }

  /* ---------------- ownership ---------------- */

  /** onPlaced: a player placing the spire becomes its owner. */
  function Placed(owner: map<Pos, Uuid>, pos: Pos, placer: Option<Uuid>): (r: map<Pos, Uuid>)
    ensures placer.Some? ==> pos in r && r[pos] == placer.value
    ensures placer.None? ==> r == owner
    ensures forall q :: q != pos ==> (q in r <==> q in owner) && (q in r ==> r[q] == owner[q])
  {
    if placer.Some? then owner[pos := placer.value] else owner
  }

  /** onStateReplaced: the owner is forgotten when the block becomes another
      block. */
  function Replaced(owner: map<Pos, Uuid>, pos: Pos, sameBlock: bool): (r: map<Pos, Uuid>)
    ensures !sameBlock ==> pos !in r
    ensures sameBlock ==> r == owner
    ensures forall q :: q != pos ==> (q in r <==> q in owner) && (q in r ==> r[q] == owner[q])
  {
    if sameBlock then owner else owner - {pos}
  }

  /** onUse with a spire mark in hand: the mark is bound to this spire and
      the user becomes the owner. */
  function UseMark(owner: map<Pos, Uuid>, pos: Pos, user: Uuid, held: Stack): (r: (map<Pos, Uuid>, Stack))
    requires held.isSpireMark
    ensures pos in r.0 && r.0[pos] == user
    ensures r.1.isSpireMark && r.1.nbt.Some? && "SpireBind" in r.1.nbt.value
  {
    (owner[pos := user], BindMark(held, pos))
  }

  /** After binding a mark the user is immune to that spire, as its owner,
      even without the mark. */
  lemma UseMarkMakesOwnerImmune(owner: map<Pos, Uuid>, pos: Pos, user: Uuid, held: Stack, c: Creature)
    requires held.isSpireMark && c.player
    ensures IsImmune(UseMark(owner, pos, user, held).0, pos, user, c)
  {
  }

  /** Removing the block forgets the owner: only a bound mark still gives
      immunity there. */
  lemma ReplacedDropsOwnerImmunity(owner: map<Pos, Uuid>, pos: Pos, id: Uuid, c: Creature)
    ensures IsImmune(Replaced(owner, pos, false), pos, id, c) <==>
      c.player && exists i :: 0 <= i < |c.inventory| && BoundTo(c.inventory[i], pos)
  {
  }

  /** Non-players are never immune; the owner always is. */
  lemma ImmunityRules(owner: map<Pos, Uuid>, spire: Pos, id: Uuid, c: Creature)
    ensures !c.player ==> !IsImmune(owner, spire, id, c)
    ensures c.player && spire in owner && owner[spire] == id ==> IsImmune(owner, spire, id, c)
    ensures c.player && (spire !in owner || owner[spire] != id) ==>
      (IsImmune(owner, spire, id, c) <==> exists i :: 0 <= i < |c.inventory| && BoundTo(c.inventory[i], spire))
  {
  }

  /* ---------------- targeting ---------------- */

  /** What a spire tick reads: blocks, power, the owners, the creatures and,
      per spire, the creatures its 32-block search box returns, in order. */
  datatype SpireWorld = SpireWorld(
    grid: Connectivity.Grid,
    powered: Pos -> bool,
    owner: map<Pos, Uuid>,
    creatures: map<Uuid, Creature>,
    nearby: Pos -> seq<Uuid>)

  /** centerTop: the middle of the spire's top face. */
  function CenterTop(p: Pos): Vec3 {
    Vec3(p.x as real + 0.5, p.y as real + 1.0, p.z as real + 0.5)
  }

  function SquaredDistanceTo(a: Vec3, b: Vec3): real {
    (a.x - b.x) * (a.x - b.x) + (a.y - b.y) * (a.y - b.y) + (a.z - b.z) * (a.z - b.z)
  }

  /** findTarget's filter: alive, not immune, and not a creative or
      spectating player. */
  predicate Eligible(w: SpireWorld, spire: Pos, id: Uuid) {
    && id in w.creatures
    && var c := w.creatures[id];
       && c.living && c.alive
       && !IsImmune(w.owner, spire, id, c)
       && (c.player ==> !c.creative && !c.spectator)
  }

  function Dist(w: SpireWorld, spire: Pos, id: Uuid): real
    requires id in w.creatures
  {
    SquaredDistanceTo(w.creatures[id].pos, CenterTop(spire))
  }

  /** The eligible candidate nearest to the spire's top; the earliest one
      wins a tie, as Stream.min does. */
  function Nearest(w: SpireWorld, spire: Pos, ids: seq<Uuid>): (r: Option<Uuid>)
    ensures r.Some? ==> r.value in ids && Eligible(w, spire, r.value)
    ensures r.None? <==> forall k :: 0 <= k < |ids| ==> !Eligible(w, spire, ids[k])
    ensures r.Some? ==> forall k :: 0 <= k < |ids| && Eligible(w, spire, ids[k]) ==>
      Dist(w, spire, r.value) <= Dist(w, spire, ids[k])
  {
    if |ids| == 0 then None
    else
      var rest := Nearest(w, spire, ids[1..]);
      if !Eligible(w, spire, ids[0]) then
        assert forall k :: 1 <= k < |ids| ==> ids[k] == ids[1..][k - 1];
        rest
      else if rest.None? || Dist(w, spire, ids[0]) <= Dist(w, spire, rest.value) then
        assert forall k :: 1 <= k < |ids| ==> ids[k] == ids[1..][k - 1];
        Some(ids[0])
      else
        assert forall k :: 1 <= k < |ids| ==> ids[k] == ids[1..][k - 1];
        rest
  }

  /** ids[j] is an eligible candidate and every eligible candidate before it
      is strictly farther away. */
  predicate FirstMinimumAt(w: SpireWorld, spire: Pos, ids: seq<Uuid>, j: int) {
    && 0 <= j < |ids|
    && Eligible(w, spire, ids[j])
    && forall k :: 0 <= k < j && Eligible(w, spire, ids[k]) ==>
         Dist(w, spire, ids[k]) > Dist(w, spire, ids[j])
  }

  /** Ties go to the earliest candidate: every eligible candidate before the
      chosen one is strictly farther away. */
  lemma {:induction false} NearestIsFirstMinimum(w: SpireWorld, spire: Pos, ids: seq<Uuid>)
    requires Nearest(w, spire, ids).Some?
    ensures exists j :: FirstMinimumAt(w, spire, ids, j) && ids[j] == Nearest(w, spire, ids).value
  {
    var r := Nearest(w, spire, ids).value;
    if r == ids[0] && Eligible(w, spire, ids[0]) {
      assert ids[0] == r;
    } else {
      var rest := Nearest(w, spire, ids[1..]);
      NearestIsFirstMinimum(w, spire, ids[1..]);
      var j :| FirstMinimumAt(w, spire, ids[1..], j) && ids[1..][j] == rest.value;
      assert ids[j + 1] == r;
      forall k | 0 <= k < j + 1 && Eligible(w, spire, ids[k])
        ensures Dist(w, spire, ids[k]) > Dist(w, spire, ids[j + 1])
      {
        if k > 0 {
          assert ids[k] == ids[1..][k - 1];
        }
      }
    }
  }

  /** findTarget. */
  function FindTarget(w: SpireWorld, spire: Pos): (t: Option<Uuid>)
    ensures t.None? <==> forall k :: 0 <= k < |w.nearby(spire)| ==> !Eligible(w, spire, w.nearby(spire)[k])
    ensures t.Some? ==> exists j :: FirstMinimumAt(w, spire, w.nearby(spire), j) && w.nearby(spire)[j] == t.value
  {
    var r := Nearest(w, spire, w.nearby(spire));
    if r.Some? then NearestIsFirstMinimum(w, spire, w.nearby(spire)); r else r
  }

  /** resolveTarget + the liveness and immunity test: the recorded target
      still exists as a living, alive, non-immune entity. */
  predicate TargetValid(w: SpireWorld, spire: Pos, id: Uuid) {
    && id in w.creatures
    && w.creatures[id].living
    && w.creatures[id].alive
    && !IsImmune(w.owner, spire, id, w.creatures[id])
  }

  /* ---------------- the tick ---------------- */

  /** The beam part of a tick once the target is known valid: ring stages
      step, the beam stage fires at the impact delay, charges the cooldown
      and resets. Returns the new record and whether the impact fired. */
  datatype Advance = Advance(data: ShotData, fired: bool)

  function AdvanceShot(d: ShotData): (r: Advance)
    ensures r.fired <==> d.stage !in {0, 1, 2} && d.timer + TickStep >= ImpactDelay
    ensures r.fired ==> r.data == Reset(d).(cooldown := CooldownTicks)
    ensures !r.fired ==> r.data.target == d.target && r.data.level == d.level && r.data.cooldown == d.cooldown
  {
    if d.stage == 0 then Advance(StepStage(d, 0, RingDuration), false)
    else if d.stage == 1 then Advance(StepStage(d, 1, RingDuration), false)
    else if d.stage == 2 then Advance(StepStage(d, 2, RingDuration), false)
    else
      var d1 := d.(timer := d.timer + TickStep);
      if d1.timer >= ImpactDelay then Advance(Reset(d1.(cooldown := CooldownTicks)), true)
      else Advance(d1, false)
  }

  datatype SpireStep =
    | CoolingDown      // only the cooldown went down
    | Disabled         // unpowered or level 0: reset
    | Acquired         // idle and a target was found (or none: unchanged)
    | Dropped          // the target vanished, died or became immune: reset
    | Stepped(fired: bool)

  datatype SpireTickResult = SpireTickResult(data: ShotData, step: SpireStep)

  /** scheduledTick for one spire. */
  function SpireTick(w: SpireWorld, pos: Pos, d: ShotData): (r: SpireTickResult)
    ensures d.cooldown > 0 ==> r.step == CoolingDown && r.data == d.(cooldown := d.cooldown - 1)
    ensures r.step == Disabled <==>
      d.cooldown <= 0 &&
      (!w.powered(pos) || ComputeLevel(Connectivity.SpireMeshCount(w.grid, pos)) == 0)
    ensures r.step == Disabled ==> r.data == Reset(d)
    ensures r.step == Dropped ==> r.data == Reset(d)
    ensures r.step == Acquired ==> !Active(d)
    ensures r.step == Acquired && Active(r.data) ==>
      r.data.stage == 0 && r.data.timer == 0 && 1 <= r.data.level <= 3
    ensures r.step.Stepped? ==> Active(d) && TargetValid(w, pos, d.target.value)
    ensures r.step == Acquired <==>
      d.cooldown <= 0 && w.powered(pos) && ComputeLevel(Connectivity.SpireMeshCount(w.grid, pos)) > 0 && !Active(d)
    ensures r.step == Acquired ==> (Active(r.data) <==> FindTarget(w, pos).Some?)
    ensures r.step == Acquired && !Active(r.data) ==> r.data == d
    ensures r.step == Acquired && Active(r.data) ==>
      r.data.target == FindTarget(w, pos) &&
      r.data.level == ComputeLevel(Connectivity.SpireMeshCount(w.grid, pos)) &&
      r.data.cooldown == d.cooldown
    ensures d.cooldown <= 0 && w.powered(pos) && ComputeLevel(Connectivity.SpireMeshCount(w.grid, pos)) > 0 && Active(d) ==>
      (r.step == Dropped <==> !TargetValid(w, pos, d.target.value)) &&
      (r.step.Stepped? <==> TargetValid(w, pos, d.target.value))
    ensures r.step.Stepped? ==> r.data == AdvanceShot(d).data && r.step.fired == AdvanceShot(d).fired
  {
    if d.cooldown > 0 then SpireTickResult(d.(cooldown := d.cooldown - 1), CoolingDown)
    else
      var level := ComputeLevel(Connectivity.SpireMeshCount(w.grid, pos));
      if !w.powered(pos) || level == 0 then SpireTickResult(Reset(d), Disabled)
      else if !Active(d) then
        match FindTarget(w, pos)
        case None => SpireTickResult(d, Acquired)
        case Some(t) => SpireTickResult(Start(d, t, level), Acquired)
      else if !TargetValid(w, pos, d.target.value) then SpireTickResult(Reset(d), Dropped)
      else
        var a := AdvanceShot(d);
        SpireTickResult(a.data, Stepped(a.fired))
  }

  /** ShotData.MAP with get's create-on-first-use. */
  function ShotAt(m: map<Pos, ShotData>, p: Pos): ShotData {
    if p in m then m[p] else NewShot
  }

  function TickAt(w: SpireWorld, m: map<Pos, ShotData>, pos: Pos): (r: map<Pos, ShotData>)
    ensures pos in r && forall q :: q in m && q != pos ==> q in r && r[q] == m[q]
  {
    m[pos := SpireTick(w, pos, ShotAt(m, pos)).data]
  }

  /* ---------------- tick properties ---------------- */

  /** Between ticks: stage in 0..3, an even timer below the stage's
      duration, a cooldown in 0..100, and an active shot has a level 1..3. */
  predicate ShotOk(d: ShotData) {
    && 0 <= d.stage <= BeamStage
    && 0 <= d.timer && d.timer % 2 == 0
    && d.timer < (if d.stage < BeamStage then RingDuration else ImpactDelay)
    && 0 <= d.cooldown <= CooldownTicks
    && (Active(d) ==> 1 <= d.level <= 3)
  }

  /** Advancing an active shot keeps the between-ticks invariant. */
  lemma AdvanceShotKeepsShotOk(d: ShotData)
    requires ShotOk(d) && Active(d)
    ensures ShotOk(AdvanceShot(d).data)
  {
  }

  lemma SpireTickKeepsShotOk(w: SpireWorld, pos: Pos, d: ShotData)
    requires ShotOk(d)
    ensures ShotOk(SpireTick(w, pos, d).data)
  {
    var r := SpireTick(w, pos, d);
    if r.step.Stepped? {
      AdvanceShotKeepsShotOk(d);
      assert r.data == AdvanceShot(d).data;
    }
  }

  /** The stage never goes down while the shot continues, and moves up by at
      most one per tick. */
  lemma AdvanceShotMonotone(d: ShotData)
    requires ShotOk(d) && Active(d)
    ensures var r := AdvanceShot(d);
      !r.fired ==> d.stage <= r.data.stage <= d.stage + 1 && Active(r.data)
  {
  }

  /** The impact fires only from the beam stage once the timer reaches 20;
      afterwards the cooldown is 100 and the shot is reset. */
  lemma ImpactRule(w: SpireWorld, pos: Pos, d: ShotData)
    requires ShotOk(d)
    ensures var r := SpireTick(w, pos, d);
      r.step == Stepped(true) ==>
        && d.stage == BeamStage && d.timer + TickStep >= ImpactDelay
        && r.data.cooldown == CooldownTicks && !Active(r.data)
        && r.data.stage == 0 && r.data.timer == 0
  {
  }

  /** Drives a valid shot n ticks, stopping at the impact. */
  function Run(d: ShotData, n: nat): Advance
    decreases n
  {
    if n == 0 then Advance(d, false)
    else
      var a := AdvanceShot(d);
      if a.fired then a else Run(a.data, n - 1)
  }

  lemma {:induction false} RunAdd(d: ShotData, a: nat, b: nat)
    requires !Run(d, a).fired
    ensures Run(d, a + b) == Run(Run(d, a).data, b)
    decreases a
  {
    if a > 0 {
      RunAdd(AdvanceShot(d).data, a - 1, b);
    }
  }

  lemma RingTakesFiveTicks(d: ShotData)
    requires 0 <= d.stage < BeamStage && d.timer == 0
    ensures !Run(d, 5).fired && Run(d, 5).data == d.(stage := d.stage + 1, timer := 0)
  {
    var d4 := d.(timer := 8);
    assert Run(d4, 1) == Advance(d.(stage := d.stage + 1, timer := 0), false);
    assert Run(d.(timer := 6), 2) == Run(d4, 1);
    assert Run(d.(timer := 4), 3) == Run(d.(timer := 6), 2);
    assert Run(d.(timer := 2), 4) == Run(d.(timer := 4), 3);
  }

  lemma BeamTakesTenTicks(d: ShotData)
    requires d.stage == BeamStage && d.timer == 0
    ensures !Run(d, 9).fired && Run(d, 10).fired
  {
  }

  /** A freshly started shot whose target stays valid hits on its 25th tick. */
  lemma ShotFiresOnTick25(d: ShotData, t: Uuid, level: int)
    ensures !Run(Start(d, t, level), 24).fired
    ensures Run(Start(d, t, level), 25).fired
  {
    var s0 := Start(d, t, level);
    RingTakesFiveTicks(s0);
    var s1 := Run(s0, 5).data;
    RingTakesFiveTicks(s1);
    var s2 := Run(s1, 5).data;
    RingTakesFiveTicks(s2);
    var s3 := Run(s2, 5).data;
    BeamTakesTenTicks(s3);
    RunAdd(s0, 5, 5);
    RunAdd(s0, 10, 5);
    RunAdd(s0, 15, 9);
    RunAdd(s0, 15, 10);
  }
}
