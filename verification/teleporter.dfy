/** The Hextech teleporter engine (HextechTeleporterBlock): edge-triggered
    queueing of entity groups into a per-teleporter FIFO of pending
    transports, the four-stage timer that drives the head of that FIFO, and
    the commit that relocates the group's mount stack and charges a global
    cooldown. A group is identified by the id of its root vehicle. */
module Teleporter {
  import opened Common
  import opened EdgeMemory
  import opened MountStack
  import Connectivity

  const RangePerMesh := 10
  /** Timer added per driven tick (VISUAL_TICK_INTERVAL). */
  const TickStep := 2
  /** DURATION_LARGE, DURATION_MEDIUM and DURATION_SMALL are all 10. */
  const RingDuration := 10
  const TeleportDelay := 20
  const PostTeleportCooldown := 100
  /** The beam/commit stage. */
  const BeamStage := 3

  /** PendingEffect, reduced to what the engine decides on: the group (the
      root's id, also used to find the root again each tick), the target pad,
      the stage and timer, and the stages whose cue flag (sndLarge,
      sndMedium, sndSmall, sndBeam) has been set. */
  datatype Effect = Effect(group: Uuid, target: Pos, stage: nat, timer: nat, cued: set<nat>)

  /** A freshly queued transport. */
  function NewEffect(g: Uuid, target: Pos): Effect {
    Effect(g, target, 0, 0, {})
  }

  /** The engine's static maps: PENDING, IN_PROGRESS_GROUPS,
      COOLDOWN_UNTIL_TICK and INSIDE_MEMORY. */
  datatype Engine = Engine(
    pending: map<Pos, seq<Effect>>,
    inProgress: set<Uuid>,
    cooldownUntil: map<Uuid, int>,
    inside: Memory)

  const Empty := Engine(map[], {}, map[], map[])

  /** What the engine reads from the world: blocks, redstone power, which
      chunks are loaded, the entities, and the Overworld game time. */
  datatype World = World(
    grid: Connectivity.Grid,
    powered: Pos -> bool,
    chunkLoaded: Pos -> bool,
    actors: Actors,
    now: int)

  predicate IsLandingPad(w: World, p: Pos) {
    w.grid(p).LandingPad?
  }

  function Queue(pd: map<Pos, seq<Effect>>, p: Pos): seq<Effect> {
    if p in pd then pd[p] else []
  }

  /* ---------------- the stage machine ---------------- */

  /** The invariant of a queued effect between ticks: a stage in 0..3, an even
      timer below the stage's duration, and cue flags only for stages reached. */
  predicate EffectOk(f: Effect) {
    && f.stage <= BeamStage
    && f.timer % 2 == 0
    && f.timer < (if f.stage < BeamStage then RingDuration else TeleportDelay)
    && (forall s :: s in f.cued ==> s <= f.stage)
  }

  datatype Step = Continue(next: Effect) | Commit(last: Effect)

  /** One driven tick of the head: set the current stage's cue flag, add 2 to
      the timer, then move to the next ring stage once a ring's duration is
      reached, or commit once the beam stage reaches the teleport delay. */
  function StepEffect(f: Effect): (r: Step)
    ensures r.Continue? ==> r.next.group == f.group && r.next.target == f.target
    ensures r.Commit? <==> f.stage == BeamStage && f.timer + TickStep >= TeleportDelay
  {
    var cued := if f.stage <= BeamStage then f.cued + {f.stage} else f.cued;
    var timer := f.timer + TickStep;
    var g := f.(cued := cued, timer := timer);
    if f.stage < BeamStage then
      if timer >= RingDuration then Continue(g.(stage := f.stage + 1, timer := 0)) else Continue(g)
    else if f.stage == BeamStage then
      if timer >= TeleportDelay then Commit(g) else Continue(g)
    else Continue(g)
  }

  /** The stage never decreases and grows by at most one, stays in 0..3, the
      cue flags only get set, and the current stage's flag is set. */
  lemma StepEffectMonotone(f: Effect)
    requires EffectOk(f)
    ensures StepEffect(f).Continue? ==> EffectOk(StepEffect(f).next)
    ensures StepEffect(f).Continue? ==>
      f.stage <= StepEffect(f).next.stage <= f.stage + 1
    ensures StepEffect(f).Continue? ==> f.cued + {f.stage} <= StepEffect(f).next.cued
    ensures StepEffect(f).Continue? && StepEffect(f).next.stage == f.stage ==>
      StepEffect(f).next.timer == f.timer + TickStep
    ensures StepEffect(f).Continue? && StepEffect(f).next.stage != f.stage ==>
      f.stage < BeamStage && f.timer + TickStep >= RingDuration && StepEffect(f).next.timer == 0
  {
  }

  /** Drives an effect n ticks, stopping early at a commit. */
  function Drive(f: Effect, n: nat): Step
    decreases n
  {
    if n == 0 then Continue(f)
    else match StepEffect(f)
      case Commit(l) => Commit(l)
      case Continue(g) => Drive(g, n - 1)
  }

  lemma {:induction false} DriveAdd(f: Effect, a: nat, b: nat)
    requires Drive(f, a).Continue?
    ensures Drive(f, a + b) == Drive(Drive(f, a).next, b)
    decreases a
  {
    if a > 0 {
      DriveAdd(StepEffect(f).next, a - 1, b);
    }
  }

  /** Five ticks take a ring stage from timer 0 to the next stage at timer 0. */
  lemma RingStageTakesFiveTicks(f: Effect)
    requires f.stage < BeamStage && f.timer == 0
    ensures Drive(f, 5).Continue?
    ensures Drive(f, 5).next.stage == f.stage + 1 && Drive(f, 5).next.timer == 0
    ensures Drive(f, 5).next.group == f.group && Drive(f, 5).next.target == f.target
  {
  }

  /** The beam stage commits on its tenth tick and not before. */
  lemma BeamStageTakesTenTicks(f: Effect)
    requires f.stage == BeamStage && f.timer == 0
    ensures Drive(f, 9).Continue?
    ensures Drive(f, 10).Commit?
  {
  }

  /** A freshly queued transport that is never cancelled commits on its 25th
      driven tick: three ring stages of five ticks, then ten beam ticks. */
  lemma FreshEffectCommitsAfter25Ticks(g: Uuid, target: Pos)
    ensures Drive(NewEffect(g, target), 24).Continue?
    ensures Drive(NewEffect(g, target), 25).Commit?
  {
    var f0 := NewEffect(g, target);
    RingStageTakesFiveTicks(f0);
    var f1 := Drive(f0, 5).next;
    RingStageTakesFiveTicks(f1);
    var f2 := Drive(f1, 5).next;
    RingStageTakesFiveTicks(f2);
    var f3 := Drive(f2, 5).next;
    BeamStageTakesTenTicks(f3);
    DriveAdd(f0, 5, 5);
    DriveAdd(f0, 10, 5);
    DriveAdd(f0, 15, 9);
    DriveAdd(f0, 15, 10);
  }

  /* ---------------- queue invariants ---------------- */

  /** Group g sits at index i of the queue of teleporter p. */
  predicate Holds(pd: map<Pos, seq<Effect>>, g: Uuid, p: Pos, i: int) {
    p in pd && 0 <= i < |pd[p]| && pd[p][i].group == g
  }

  ghost predicate HasEntry(pd: map<Pos, seq<Effect>>, g: Uuid) {
    exists p, i :: Holds(pd, g, p, i)
  }

  /** No group has two pending entries, in one queue or across teleporters. */
  ghost predicate UniqueGroups(pd: map<Pos, seq<Effect>>) {
    forall g, p, i, q, j :: Holds(pd, g, p, i) && Holds(pd, g, q, j) ==> p == q && i == j
  }

  /** IN_PROGRESS_GROUPS is exactly the set of groups with a pending entry. */
  ghost predicate InProgressExact(e: Engine) {
    forall g :: g in e.inProgress <==> HasEntry(e.pending, g)
  }

  predicate EffectsOk(pd: map<Pos, seq<Effect>>) {
    forall p, i :: p in pd && 0 <= i < |pd[p]| ==> EffectOk(pd[p][i])
  }

  ghost predicate Inv(e: Engine) {
    && UniqueGroups(e.pending)
    && InProgressExact(e)
    && EffectsOk(e.pending)
    && NoEmptySets(e.inside)
  }

  lemma EmptyInv()
    ensures Inv(Empty)
  {
  }

  function Push(pd: map<Pos, seq<Effect>>, p: Pos, f: Effect): (r: map<Pos, seq<Effect>>)
    ensures r.Keys == pd.Keys + {p}
    ensures r[p] == Queue(pd, p) + [f]
    ensures forall q :: q in pd && q != p ==> r[q] == pd[q]
  {
    pd[p := Queue(pd, p) + [f]]
  }

  function Pop(pd: map<Pos, seq<Effect>>, p: Pos): (r: map<Pos, seq<Effect>>)
    requires p in pd && |pd[p]| > 0
    ensures r.Keys == pd.Keys
    ensures r[p] == pd[p][1..]
    ensures forall q :: q in pd && q != p ==> r[q] == pd[q]
  {
    pd[p := pd[p][1..]]
  }

  function ReplaceHead(pd: map<Pos, seq<Effect>>, p: Pos, f: Effect): (r: map<Pos, seq<Effect>>)
    requires p in pd && |pd[p]| > 0
    ensures r.Keys == pd.Keys
    ensures r[p] == [f] + pd[p][1..]
    ensures forall q :: q in pd && q != p ==> r[q] == pd[q]
  {
    pd[p := [f] + pd[p][1..]]
  }

  lemma PushHolds(pd: map<Pos, seq<Effect>>, p: Pos, f: Effect, g: Uuid, q: Pos, i: int)
    ensures Holds(Push(pd, p, f), g, q, i) <==>
      Holds(pd, g, q, i) || (q == p && i == |Queue(pd, p)| && g == f.group)
  {
    if q == p && 0 <= i < |Queue(pd, p)| {
      assert Push(pd, p, f)[p][i] == Queue(pd, p)[i];
    }
  }

  lemma PopHolds(pd: map<Pos, seq<Effect>>, p: Pos, g: Uuid, q: Pos, i: int)
    requires p in pd && |pd[p]| > 0
    ensures Holds(Pop(pd, p), g, q, i) <==>
      (q != p && Holds(pd, g, q, i)) || (q == p && i >= 0 && Holds(pd, g, p, i + 1))
  {
  }

  lemma ReplaceHeadHolds(pd: map<Pos, seq<Effect>>, p: Pos, f: Effect, g: Uuid, q: Pos, i: int)
    requires p in pd && |pd[p]| > 0 && f.group == pd[p][0].group
    ensures Holds(ReplaceHead(pd, p, f), g, q, i) <==> Holds(pd, g, q, i)
  {
    if q == p && 0 < i < |pd[p]| {
      assert ReplaceHead(pd, p, f)[p][i] == pd[p][i];
    }
  }

  /** Queueing a group that has no entry keeps the queue invariants and adds
      exactly that group to the in-progress set. */
  lemma PushKeepsGroups(e: Engine, p: Pos, f: Effect)
    requires UniqueGroups(e.pending) && InProgressExact(e)
    requires f.group !in e.inProgress
    ensures UniqueGroups(Push(e.pending, p, f))
    ensures InProgressExact(e.(pending := Push(e.pending, p, f), inProgress := e.inProgress + {f.group}))
  {
    var pd := Push(e.pending, p, f);
    forall g, q, i, q', j | Holds(pd, g, q, i) && Holds(pd, g, q', j)
      ensures q == q' && i == j
    {
      PushHolds(e.pending, p, f, g, q, i);
      PushHolds(e.pending, p, f, g, q', j);
    }
    forall g
      ensures g in e.inProgress + {f.group} <==> HasEntry(pd, g)
    {
      if g == f.group {
        PushHolds(e.pending, p, f, g, p, |Queue(e.pending, p)|);
      } else if HasEntry(pd, g) {
        var q, i :| Holds(pd, g, q, i);
        PushHolds(e.pending, p, f, g, q, i);
      } else if HasEntry(e.pending, g) {
        var q, i :| Holds(e.pending, g, q, i);
        PushHolds(e.pending, p, f, g, q, i);
      }
    }
  }

  /** Removing the head of a queue together with its group keeps the queue
      invariants. */
  lemma PopKeepsGroups(e: Engine, p: Pos)
    requires UniqueGroups(e.pending) && InProgressExact(e)
    requires p in e.pending && |e.pending[p]| > 0
    ensures UniqueGroups(Pop(e.pending, p))
    ensures InProgressExact(e.(pending := Pop(e.pending, p), inProgress := e.inProgress - {e.pending[p][0].group}))
  {
    var pd := Pop(e.pending, p);
    var h := e.pending[p][0].group;
    forall g, q, i, q', j | Holds(pd, g, q, i) && Holds(pd, g, q', j)
      ensures q == q' && i == j
    {
      PopHolds(e.pending, p, g, q, i);
      PopHolds(e.pending, p, g, q', j);
    }
    forall g
      ensures g in e.inProgress - {h} <==> HasEntry(pd, g)
    {
      if HasEntry(pd, g) {
        var q, i :| Holds(pd, g, q, i);
        PopHolds(e.pending, p, g, q, i);
        if g == h {
          assert Holds(e.pending, h, p, 0);
        }
      } else if g in e.inProgress && g != h {
        var q, i :| Holds(e.pending, g, q, i);
        if q == p {
          assert i != 0;
          PopHolds(e.pending, p, g, p, i - 1);
        } else {
          PopHolds(e.pending, p, g, q, i);
        }
      }
    }
  }

  lemma ReplaceHeadKeepsGroups(e: Engine, p: Pos, f: Effect)
    requires UniqueGroups(e.pending) && InProgressExact(e)
    requires p in e.pending && |e.pending[p]| > 0 && f.group == e.pending[p][0].group
    ensures UniqueGroups(ReplaceHead(e.pending, p, f))
    ensures InProgressExact(e.(pending := ReplaceHead(e.pending, p, f)))
  {
    var pd := ReplaceHead(e.pending, p, f);
    forall g, q, i, q', j | Holds(pd, g, q, i) && Holds(pd, g, q', j)
      ensures q == q' && i == j
    {
      ReplaceHeadHolds(e.pending, p, f, g, q, i);
      ReplaceHeadHolds(e.pending, p, f, g, q', j);
    }
    forall g
      ensures g in e.inProgress <==> HasEntry(pd, g)
    {
      if HasEntry(pd, g) {
        var q, i :| Holds(pd, g, q, i);
        ReplaceHeadHolds(e.pending, p, f, g, q, i);
      } else if HasEntry(e.pending, g) {
        var q, i :| Holds(e.pending, g, q, i);
        ReplaceHeadHolds(e.pending, p, f, g, q, i);
      }
    }
  }

  /* ---------------- tryQueueTeleport ---------------- */

  /** Why an attempt to queue ended where it did. */
  datatype Outcome =
    | LeftColumn      // the stack is not in the column: marked left
    | AlreadyInside   // edge memory says the group never left: ignored
    | CoolingDown     // global cooldown still running
    | Busy            // the group already has a pending transport
    | Unpowered       // no redstone power: nothing is marked
    | NoMesh          // no diamond mesh reachable
    | NoTarget        // no terminal, or it selects nothing
    | OutOfRange      // Manhattan distance above mesh count x 10
    | ChunkNotLoaded  // destination chunk not loaded (a forced load is requested)
    | NoLandingPad    // no landing pad at the target
    | Queued          // a transport was appended to this teleporter's queue

  datatype Attempt = Attempt(engine: Engine, outcome: Outcome)

  /** The group of an entity: the id of its root vehicle. */
  function GroupOf(w: World, entity: Uuid): Uuid {
    RootVehicle(w.actors, entity, |w.actors|)
  }

  /** The outcomes that mark the group as inside without queueing. */
  predicate MarksWithoutQueueing(o: Outcome) {
    o in {CoolingDown, Busy, NoMesh, NoTarget, OutOfRange, ChunkNotLoaded, NoLandingPad}
  }

  function Entered(e: Engine, pos: Pos, g: Uuid, o: Outcome): Attempt {
    Attempt(e.(inside := MarkEntered(e.inside, pos, g)), o)
  }

  datatype Verdict = Reject(why: Outcome) | Accept(target: Pos)

  /** The destination checks of tryQueueTeleport, in order: some mesh, a
      selected pad, within mesh count x 10 blocks (Manhattan), its chunk
      loaded, and a landing pad there. */
  function Validate(w: World, pos: Pos): (v: Verdict)
    ensures v.Reject? ==> v.why in {NoMesh, NoTarget, OutOfRange, ChunkNotLoaded, NoLandingPad}
  {
    var mesh := Connectivity.TeleporterMeshCount(w.grid, pos);
    if mesh <= 0 then Reject(NoMesh)
    else match Connectivity.TerminalPadViaConnectors(w.grid, pos)
      case None => Reject(NoTarget)
      case Some(target) =>
        if Manhattan(target, pos) > mesh * RangePerMesh then Reject(OutOfRange)
        else if !w.chunkLoaded(target) then Reject(ChunkNotLoaded)
        else if !IsLandingPad(w, target) then Reject(NoLandingPad)
        else Accept(target)
  }

  /** A destination is accepted exactly when all five checks pass. */
  lemma ValidateAcceptsIff(w: World, pos: Pos, target: Pos)
    ensures Validate(w, pos) == Accept(target) <==>
      var mesh := Connectivity.TeleporterMeshCount(w.grid, pos);
      && mesh > 0
      && Connectivity.TerminalPadViaConnectors(w.grid, pos) == Some(target)
      && Manhattan(target, pos) <= mesh * RangePerMesh
      && w.chunkLoaded(target)
      && IsLandingPad(w, target)
  {
  }

  /** tryQueueTeleport for one entity seen in (or stepping on) teleporter pos. */
  function TryQueue(w: World, e: Engine, pos: Pos, entity: Uuid): (a: Attempt)
    ensures a.engine.cooldownUntil == e.cooldownUntil
    ensures a.outcome == LeftColumn <==> !StackInColumn(w.actors, entity, pos)
    ensures a.outcome == LeftColumn ==>
      a.engine == e.(inside := MarkLeft(e.inside, pos, GroupOf(w, entity)))
    ensures a.outcome == AlreadyInside <==>
      StackInColumn(w.actors, entity, pos) && IsMarkedInside(e.inside, pos, GroupOf(w, entity))
    ensures a.outcome in {AlreadyInside, Unpowered} ==> a.engine == e
    ensures NoEmptySets(e.inside) ==> NoEmptySets(a.engine.inside)
  {
    var g := GroupOf(w, entity);
    if !StackInColumn(w.actors, entity, pos) then
      Attempt(e.(inside := MarkLeft(e.inside, pos, g)), LeftColumn)
    else if IsMarkedInside(e.inside, pos, g) then Attempt(e, AlreadyInside)
    else if g in e.cooldownUntil && w.now < e.cooldownUntil[g] then Entered(e, pos, g, CoolingDown)
    else if g in e.inProgress then Entered(e, pos, g, Busy)
    else if !w.powered(pos) then Attempt(e, Unpowered)
    else match Validate(w, pos)
      case Reject(o) => Entered(e, pos, g, o)
      case Accept(target) =>
        Attempt(Engine(Push(e.pending, pos, NewEffect(g, target)), e.inProgress + {g},
                       e.cooldownUntil, MarkEntered(e.inside, pos, g)), Queued)
  }

  /** The failures after the edge test: cooldown, busy group, no mesh, no
      target, out of range, unloaded chunk and missing pad mark the group as
      inside without queueing anything; a missing redstone signal returns
      without marking. */
  lemma TryQueueFailures(w: World, e: Engine, pos: Pos, entity: Uuid)
    ensures var a := TryQueue(w, e, pos, entity);
      MarksWithoutQueueing(a.outcome) ==>
        a.engine == e.(inside := MarkEntered(e.inside, pos, GroupOf(w, entity)))
    ensures var a := TryQueue(w, e, pos, entity);
      a.outcome == CoolingDown ==>
        GroupOf(w, entity) in e.cooldownUntil && w.now < e.cooldownUntil[GroupOf(w, entity)]
    ensures TryQueue(w, e, pos, entity).outcome == Busy ==> GroupOf(w, entity) in e.inProgress
    ensures var a := TryQueue(w, e, pos, entity);
      a.outcome == Unpowered <==>
        && StackInColumn(w.actors, entity, pos)
        && !IsMarkedInside(e.inside, pos, GroupOf(w, entity))
        && !(GroupOf(w, entity) in e.cooldownUntil && w.now < e.cooldownUntil[GroupOf(w, entity)])
        && GroupOf(w, entity) !in e.inProgress
        && !w.powered(pos)
  {
  }

  /** The validation a queued transport passed: in the column, not marked
      inside, off cooldown, not busy, powered, some mesh, a selected pad
      within mesh x 10 blocks, its chunk loaded and a landing pad there. */
  predicate Admissible(w: World, e: Engine, pos: Pos, entity: Uuid, target: Pos) {
    var g := GroupOf(w, entity);
    && StackInColumn(w.actors, entity, pos)
    && !IsMarkedInside(e.inside, pos, g)
    && !(g in e.cooldownUntil && w.now < e.cooldownUntil[g])
    && g !in e.inProgress
    && w.powered(pos)
    && Validate(w, pos) == Accept(target)
  }

  /** A transport is queued exactly when every check passes; it is appended
      at the tail of this teleporter's queue as a fresh stage-0 effect, the
      group becomes in progress and is marked inside, and no other queue
      changes. */
  lemma TryQueueQueuesIffAdmissible(w: World, e: Engine, pos: Pos, entity: Uuid)
    ensures TryQueue(w, e, pos, entity).outcome == Queued <==>
      exists target :: Admissible(w, e, pos, entity, target)
    ensures forall target :: Admissible(w, e, pos, entity, target) ==>
      var r := TryQueue(w, e, pos, entity).engine;
      var g := GroupOf(w, entity);
      && r.pending == Push(e.pending, pos, NewEffect(g, target))
      && r.inProgress == e.inProgress + {g}
      && r.inside == MarkEntered(e.inside, pos, g)
  {
    var v := Validate(w, pos);
    if TryQueue(w, e, pos, entity).outcome == Queued {
      assert Admissible(w, e, pos, entity, v.target);
    }
  }

  /** Any outcome other than Queued leaves every queue and the in-progress
      set as they were. */
  lemma TryQueueNoEntryUnlessQueued(w: World, e: Engine, pos: Pos, entity: Uuid)
    ensures TryQueue(w, e, pos, entity).outcome != Queued ==>
      TryQueue(w, e, pos, entity).engine.pending == e.pending &&
      TryQueue(w, e, pos, entity).engine.inProgress == e.inProgress
  {
  }

  lemma PushKeepsEffectsOk(pd: map<Pos, seq<Effect>>, p: Pos, f: Effect)
    requires EffectsOk(pd) && EffectOk(f)
    ensures EffectsOk(Push(pd, p, f))
  {
    var r := Push(pd, p, f);
    forall q, i | q in r && 0 <= i < |r[q]| ensures EffectOk(r[q][i]) {
      if q != p || i < |Queue(pd, p)| {
        assert r[q][i] == pd[q][i];
      }
    }
  }

  lemma TryQueueKeepsInv(w: World, e: Engine, pos: Pos, entity: Uuid)
    requires Inv(e)
    ensures Inv(TryQueue(w, e, pos, entity).engine)
  {
    var a := TryQueue(w, e, pos, entity);
    if a.outcome == Queued {
      TryQueueQueuesIffAdmissible(w, e, pos, entity);
      var target :| Admissible(w, e, pos, entity, target);
      var f := NewEffect(GroupOf(w, entity), target);
      PushKeepsGroups(e, pos, f);
      PushKeepsEffectsOk(e.pending, pos, f);
    } else {
      TryQueueNoEntryUnlessQueued(w, e, pos, entity);
    }
  }

  /* ---------------- scheduledTick ---------------- */

  /** What happened to the head of this teleporter's queue. */
  datatype HeadOutcome =
    | Idle                      // no queue, or an empty one
    | RootGone                  // root missing or dead: cancelled at any stage
    | LeftBeforeBeam            // stack left the column before the beam stage: cancelled
    | Advanced                  // head stepped, still pending
    | Committed(relocated: bool) // beam finished; relocated only onto a landing pad

  datatype TickResult = TickResult(engine: Engine, actors: Actors, drive: HeadOutcome)

  /** getRoot: the current root vehicle of the entity with this id, or none
      when no such entity exists. */
  function ResolveRoot(w: World, id: Uuid): (r: Option<Uuid>)
    ensures r.Some? ==> id in w.actors
  {
    if id in w.actors then Some(RootVehicle(w.actors, id, |w.actors|)) else None
  }

  /** Pops the head: the group leaves the in-progress set and is marked left. */
  function Finish(e: Engine, pos: Pos): (r: Engine)
    requires pos in e.pending && |e.pending[pos]| > 0
    ensures r.pending.Keys == e.pending.Keys && r.pending[pos] == e.pending[pos][1..]
    ensures forall q :: q in e.pending && q != pos ==> r.pending[q] == e.pending[q]
    ensures r.inProgress == e.inProgress - {e.pending[pos][0].group}
    ensures r.cooldownUntil == e.cooldownUntil
    ensures !IsMarkedInside(r.inside, pos, e.pending[pos][0].group)
    ensures forall q, h :: (q != pos || h != e.pending[pos][0].group) ==>
      (IsMarkedInside(r.inside, q, h) <==> IsMarkedInside(e.inside, q, h))
  {
    var g := e.pending[pos][0].group;
    Engine(Pop(e.pending, pos), e.inProgress - {g}, e.cooldownUntil, MarkLeft(e.inside, pos, g))
  }

  /** The group at the head of the queue at pos, if there is one. */
  predicate IsHead(pd: map<Pos, seq<Effect>>, pos: Pos, h: Uuid) {
    pos in pd && |pd[pos]| > 0 && pd[pos][0].group == h
  }

  /** Part (2) of scheduledTick: drive the head of the queue at pos. */
  function DriveHead(w: World, e: Engine, pos: Pos): (r: TickResult)
    ensures r.drive in {Idle, Advanced} ==> r.actors == w.actors && r.engine.inside == e.inside
    ensures r.drive == Idle <==> pos !in e.pending || |e.pending[pos]| == 0
    ensures forall q, h :: IsMarkedInside(r.engine.inside, q, h) ==> IsMarkedInside(e.inside, q, h)
    ensures forall q, h :: IsMarkedInside(e.inside, q, h) && !(q == pos && IsHead(e.pending, pos, h)) ==>
      IsMarkedInside(r.engine.inside, q, h)
  {
    if pos !in e.pending || |e.pending[pos]| == 0 then TickResult(e, w.actors, Idle)
    else
      var cur := e.pending[pos][0];
      var root := ResolveRoot(w, cur.group);
      if root.None? || root.value !in w.actors || !w.actors[root.value].alive then
        TickResult(Finish(e, pos), w.actors, RootGone)
      else if cur.stage < BeamStage && !StackInColumn(w.actors, root.value, pos) then
        TickResult(Finish(e, pos), w.actors, LeftBeforeBeam)
      else match StepEffect(cur)
        case Continue(next) =>
          TickResult(e.(pending := ReplaceHead(e.pending, pos, next)), w.actors, Advanced)
        case Commit(_) =>
          var pad := IsLandingPad(w, cur.target);
          var actors := if pad then Relocate(w.actors, root.value, Up(cur.target)) else w.actors;
          var charged := e.(cooldownUntil := e.cooldownUntil[cur.group := w.now + PostTeleportCooldown]);
          TickResult(Finish(charged, pos), actors, Committed(pad))
  }

  /** Part (1) when powered: tryQueueTeleport for each entity the column box
      returns, in the order given. Only the queue at pos can grow, and only
      at its tail; cooldowns and the marks of other teleporters are kept. */
  function QueueAll(w: World, e: Engine, pos: Pos, column: seq<Uuid>): (r: Engine)
    ensures r.cooldownUntil == e.cooldownUntil
    ensures Queue(e.pending, pos) <= Queue(r.pending, pos)
    ensures forall q :: q != pos ==> Queue(r.pending, q) == Queue(e.pending, q)
    ensures e.inProgress <= r.inProgress
    ensures forall q, h :: q != pos ==> (IsMarkedInside(r.inside, q, h) <==> IsMarkedInside(e.inside, q, h))
    ensures NoEmptySets(e.inside) ==> NoEmptySets(r.inside)
    decreases |column|
  {
    if |column| == 0 then e
    else
      TryQueueStep(w, e, pos, column[0]);
      QueueAll(w, TryQueue(w, e, pos, column[0]).engine, pos, column[1..])
  }

  /** One attempt as QueueAll sees it: the queue at pos only grows at its
      tail, the others stay, and marks elsewhere are kept. */
  lemma TryQueueStep(w: World, e: Engine, pos: Pos, entity: Uuid)
    ensures var r := TryQueue(w, e, pos, entity).engine;
      && Queue(e.pending, pos) <= Queue(r.pending, pos)
      && (forall q :: q != pos ==> Queue(r.pending, q) == Queue(e.pending, q))
      && e.inProgress <= r.inProgress
      && (forall q, h :: q != pos ==> (IsMarkedInside(r.inside, q, h) <==> IsMarkedInside(e.inside, q, h)))
  {
    var a := TryQueue(w, e, pos, entity);
    if a.outcome == Queued {
      TryQueueQueuesIffAdmissible(w, e, pos, entity);
    } else {
      TryQueueNoEntryUnlessQueued(w, e, pos, entity);
      TryQueueFailures(w, e, pos, entity);
    }
  }

  /** What getOtherEntities over the trigger column returns: entities whose
      boxes meet the column, so the stack of every listed entity is in it. */
  predicate ColumnScan(w: World, pos: Pos, column: seq<Uuid>) {
    forall k :: 0 <= k < |column| ==> StackInColumn(w.actors, column[k], pos)
  }

  /** The groups of the entities a column scan returned. */
  function Seen(w: World, column: seq<Uuid>): set<Uuid> {
    set k | 0 <= k < |column| :: GroupOf(w, column[k])
  }

  /** The queue at pos holds no entry of group h. */
  predicate NoEntryAt(pd: map<Pos, seq<Effect>>, pos: Pos, h: Uuid) {
    forall i :: 0 <= i < |Queue(pd, pos)| ==> Queue(pd, pos)[i].group != h
  }

  /** scheduledTick as the source writes it; column lists the entities whose
      boxes meet the trigger column. When unpowered the memory of pos is
      cleared instead, but the queue is still driven. */
  function ScheduledTickAsWritten(w: World, e: Engine, pos: Pos, column: seq<Uuid>): (r: TickResult)
    ensures !w.powered(pos) ==> forall h :: !IsMarkedInside(r.engine.inside, pos, h)
    ensures forall q, h :: q != pos && IsMarkedInside(r.engine.inside, q, h) ==> IsMarkedInside(e.inside, q, h)
  {
    var e1 := if w.powered(pos) then QueueAll(w, e, pos, column)
              else e.(inside := ClearPosition(e.inside, pos));
    DriveHead(w, e1, pos)
  }

  /** scheduledTick with the exit edge the trigger is meant to have: on a
      powered tick every group the column scan no longer sees is marked as
      having left, so it is queued again when it returns. */
  function ScheduledTick(w: World, e: Engine, pos: Pos, column: seq<Uuid>): (r: TickResult)
    ensures !w.powered(pos) ==> forall h :: !IsMarkedInside(r.engine.inside, pos, h)
    ensures w.powered(pos) ==> forall h :: IsMarkedInside(r.engine.inside, pos, h) ==> h in Seen(w, column)
    ensures forall q, h :: q != pos && IsMarkedInside(r.engine.inside, q, h) ==> IsMarkedInside(e.inside, q, h)
  {
    var e1 := if w.powered(pos) then QueueAll(w, e, pos, column)
              else e.(inside := ClearPosition(e.inside, pos));
    var e2 := if w.powered(pos) then e1.(inside := KeepOnly(e1.inside, pos, Seen(w, column))) else e1;
    DriveHead(w, e2, pos)
  }

  /* ---------------- tick properties ---------------- */

  lemma FinishKeepsInv(e: Engine, pos: Pos)
    requires Inv(e)
    requires pos in e.pending && |e.pending[pos]| > 0
    ensures Inv(Finish(e, pos))
  {
    PopKeepsGroups(e, pos);
    var pd := Pop(e.pending, pos);
    forall p, i | p in pd && 0 <= i < |pd[p]| ensures EffectOk(pd[p][i]) {
      if p == pos {
        assert pd[p][i] == e.pending[p][i + 1];
      }
    }
  }

  lemma DriveHeadKeepsInv(w: World, e: Engine, pos: Pos)
    requires Inv(e)
    ensures Inv(DriveHead(w, e, pos).engine)
  {
    if pos in e.pending && |e.pending[pos]| > 0 {
      var cur := e.pending[pos][0];
      FinishKeepsInv(e, pos);
      FinishKeepsInv(e.(cooldownUntil := e.cooldownUntil[cur.group := w.now + PostTeleportCooldown]), pos);
      assert EffectOk(cur);
      StepEffectMonotone(cur);
      if StepEffect(cur).Continue? {
        var next := StepEffect(cur).next;
        ReplaceHeadKeepsGroups(e, pos, next);
        var pd := ReplaceHead(e.pending, pos, next);
        forall p, i | p in pd && 0 <= i < |pd[p]| ensures EffectOk(pd[p][i]) {
          if p == pos && i > 0 {
            assert pd[p][i] == e.pending[p][i];
          }
        }
      }
    }
  }

  lemma {:induction false} QueueAllKeepsInv(w: World, e: Engine, pos: Pos, column: seq<Uuid>)
    requires Inv(e)
    ensures Inv(QueueAll(w, e, pos, column))
    decreases |column|
  {
    if |column| > 0 {
      TryQueueKeepsInv(w, e, pos, column[0]);
      QueueAllKeepsInv(w, TryQueue(w, e, pos, column[0]).engine, pos, column[1..]);
    }
  }

  /** Every tick keeps the engine invariant: no group is pending twice, the
      in-progress set is exactly the pending groups, every pending effect is
      in a valid stage, and the edge memory holds no empty set. */
  lemma ScheduledTickKeepsInv(w: World, e: Engine, pos: Pos, column: seq<Uuid>)
    requires Inv(e)
    ensures Inv(ScheduledTick(w, e, pos, column).engine)
  {
    if w.powered(pos) {
      QueueAllKeepsInv(w, e, pos, column);
      var e1 := QueueAll(w, e, pos, column);
      DriveHeadKeepsInv(w, e1.(inside := KeepOnly(e1.inside, pos, Seen(w, column))), pos);
    } else {
      DriveHeadKeepsInv(w, e.(inside := ClearPosition(e.inside, pos)), pos);
    }
  }

  /** Only the head of the queue is touched: it is popped, replaced by its
      stepped self, or left alone; the entries behind it and every other
      queue are unchanged. */
  lemma DriveHeadIsFifo(w: World, e: Engine, pos: Pos)
    ensures var r := DriveHead(w, e, pos).engine;
      r.pending.Keys == e.pending.Keys &&
      (forall q :: q in e.pending && q != pos ==> r.pending[q] == e.pending[q])
    ensures var r := DriveHead(w, e, pos);
      pos in e.pending && |e.pending[pos]| > 0 ==>
        && (r.drive == Advanced ==> r.engine.pending[pos] == [StepEffect(e.pending[pos][0]).next] + e.pending[pos][1..])
        && (r.drive != Advanced ==> r.engine.pending[pos] == e.pending[pos][1..])
  {
  }

  /** Cancellation: a missing or dead root pops the head at any stage; leaving
      the column pops it only before the beam stage; neither writes the
      cooldown map; both release the group and mark it left. */
  lemma CancellationRules(w: World, e: Engine, pos: Pos)
    requires pos in e.pending && |e.pending[pos]| > 0
    ensures var r := DriveHead(w, e, pos);
      var g := e.pending[pos][0].group;
      r.drive in {RootGone, LeftBeforeBeam} ==>
        && r.engine.cooldownUntil == e.cooldownUntil
        && r.engine.inProgress == e.inProgress - {g}
        && r.engine.inside == MarkLeft(e.inside, pos, g)
        && r.actors == w.actors
    ensures DriveHead(w, e, pos).drive == LeftBeforeBeam ==> e.pending[pos][0].stage < BeamStage
    ensures DriveHead(w, e, pos).drive == RootGone <==>
      var g := e.pending[pos][0].group;
      var root := RootVehicle(w.actors, g, |w.actors|);
      g !in w.actors || root !in w.actors || !w.actors[root].alive
  {
  }

  /** Commit: the cooldown becomes now + 100 whether or not the pad is still
      there; the stack is relocated above the pad only when it is; the head is
      popped, and the group released and marked left. */
  lemma CommitRules(w: World, e: Engine, pos: Pos)
    requires pos in e.pending && |e.pending[pos]| > 0
    ensures var r := DriveHead(w, e, pos);
      var cur := e.pending[pos][0];
      r.drive.Committed? ==>
        && cur.stage == BeamStage && cur.timer + TickStep >= TeleportDelay
        && r.engine.cooldownUntil == e.cooldownUntil[cur.group := w.now + PostTeleportCooldown]
        && r.drive.relocated == IsLandingPad(w, cur.target)
        && (!r.drive.relocated ==> r.actors == w.actors)
        && (r.drive.relocated ==>
              r.actors == Relocate(w.actors, RootVehicle(w.actors, cur.group, |w.actors|), Up(cur.target)))
        && r.engine.inProgress == e.inProgress - {cur.group}
        && r.engine.inside == MarkLeft(e.inside, pos, cur.group)
  {
  }

  /** The tick as the source writes it keeps the same invariant: the missing
      exit edge only leaves marks in place, which the invariant does not
      constrain. */
  lemma ScheduledTickAsWrittenKeepsInv(w: World, e: Engine, pos: Pos, column: seq<Uuid>)
    requires Inv(e)
    ensures Inv(ScheduledTickAsWritten(w, e, pos, column).engine)
  {
    if w.powered(pos) {
      QueueAllKeepsInv(w, e, pos, column);
      DriveHeadKeepsInv(w, QueueAll(w, e, pos, column), pos);
    } else {
      DriveHeadKeepsInv(w, e.(inside := ClearPosition(e.inside, pos)), pos);
    }
  }

  /** The edge trigger: a group already marked inside a teleporter's column
      is ignored by every attempt there while it stays marked, however often
      it is seen. */
  lemma {:induction false} MarkedInsideIgnored(w: World, e: Engine, pos: Pos, column: seq<Uuid>)
    requires forall k :: 0 <= k < |column| ==>
      StackInColumn(w.actors, column[k], pos) && IsMarkedInside(e.inside, pos, GroupOf(w, column[k]))
    ensures QueueAll(w, e, pos, column) == e
    decreases |column|
  {
    if |column| > 0 {
      MarkedInsideIgnored(w, e, pos, column[1..]);
    }
  }

  /** An unpowered tick forgets every group at this teleporter and queues
      nothing: the queue at pos can only shrink, the others stay as they were,
      and no group becomes in progress. The exit edge plays no part when
      unpowered, so this holds for the tick as written as well. */
  lemma UnpoweredTickClearsMemory(w: World, e: Engine, pos: Pos, column: seq<Uuid>)
    requires !w.powered(pos)
    ensures ScheduledTickAsWritten(w, e, pos, column) == ScheduledTick(w, e, pos, column)
    ensures forall g :: !IsMarkedInside(ScheduledTick(w, e, pos, column).engine.inside, pos, g)
    ensures var r := ScheduledTick(w, e, pos, column).engine;
      && |Queue(r.pending, pos)| <= |Queue(e.pending, pos)|
      && (forall q :: q != pos ==> Queue(r.pending, q) == Queue(e.pending, q))
      && r.inProgress <= e.inProgress
  {
    DriveHeadIsFifo(w, e.(inside := ClearPosition(e.inside, pos)), pos);
  }

  /* ---------------- the missing exit edge ---------------- */

  /** One attempt for an entity in the column: marks at pos are only added,
      and an entry is appended only for a group that was not marked. */
  lemma TryQueueInColumn(w: World, e: Engine, pos: Pos, entity: Uuid)
    requires StackInColumn(w.actors, entity, pos)
    ensures var r := TryQueue(w, e, pos, entity).engine;
      forall h :: IsMarkedInside(e.inside, pos, h) ==> IsMarkedInside(r.inside, pos, h)
    ensures var r := TryQueue(w, e, pos, entity).engine;
      forall h :: IsMarkedInside(e.inside, pos, h) && NoEntryAt(e.pending, pos, h) ==> NoEntryAt(r.pending, pos, h)
  {
    var a := TryQueue(w, e, pos, entity);
    var g := GroupOf(w, entity);
    if a.outcome == Queued {
      TryQueueQueuesIffAdmissible(w, e, pos, entity);
      var target :| Admissible(w, e, pos, entity, target);
      var q := Queue(a.engine.pending, pos);
      assert q == Queue(e.pending, pos) + [NewEffect(g, target)];
      forall h | IsMarkedInside(e.inside, pos, h) && NoEntryAt(e.pending, pos, h)
        ensures NoEntryAt(a.engine.pending, pos, h)
      {
        assert h != g;
      }
    } else if a.outcome in {AlreadyInside, Unpowered} {
    } else {
      TryQueueNoEntryUnlessQueued(w, e, pos, entity);
      TryQueueFailures(w, e, pos, entity);
      assert MarksWithoutQueueing(a.outcome);
    }
  }

  /** Over a whole column scan the same holds: nothing at pos is marked left,
      and a marked group with no entry gets none. */
  lemma {:induction false} QueueAllInColumn(w: World, e: Engine, pos: Pos, column: seq<Uuid>)
    requires ColumnScan(w, pos, column)
    ensures var r := QueueAll(w, e, pos, column);
      forall h :: IsMarkedInside(e.inside, pos, h) ==> IsMarkedInside(r.inside, pos, h)
    ensures var r := QueueAll(w, e, pos, column);
      forall h :: IsMarkedInside(e.inside, pos, h) && NoEntryAt(e.pending, pos, h) ==> NoEntryAt(r.pending, pos, h)
    decreases |column|
  {
    if |column| > 0 {
      TryQueueInColumn(w, e, pos, column[0]);
      QueueAllInColumn(w, TryQueue(w, e, pos, column[0]).engine, pos, column[1..]);
    }
  }

  /** As written, a group marked inside a powered teleporter that has nothing
      queued there stays marked through the tick, whoever the scan finds: the
      scan only returns entities in the column, so the left-column branch of
      tryQueueTeleport never runs for it. */
  lemma MarkPersistsWhilePowered(w: World, e: Engine, pos: Pos, column: seq<Uuid>, g: Uuid)
    requires w.powered(pos) && ColumnScan(w, pos, column)
    requires IsMarkedInside(e.inside, pos, g) && NoEntryAt(e.pending, pos, g)
    ensures IsMarkedInside(ScheduledTickAsWritten(w, e, pos, column).engine.inside, pos, g)
    ensures NoEntryAt(QueueAll(w, e, pos, column).pending, pos, g)
  {
    QueueAllInColumn(w, e, pos, column);
  }

  /** The two ticks side by side on a scan that finds nobody: as written the
      group stays ignored; with the exit edge it is forgotten. */
  lemma EmptyScanContrast(w: World, e: Engine, pos: Pos, g: Uuid)
    requires w.powered(pos)
    requires IsMarkedInside(e.inside, pos, g) && NoEntryAt(e.pending, pos, g)
    ensures IsMarkedInside(ScheduledTickAsWritten(w, e, pos, []).engine.inside, pos, g)
    ensures !IsMarkedInside(ScheduledTick(w, e, pos, []).engine.inside, pos, g)
  {
    MarkPersistsWhilePowered(w, e, pos, [], g);
  }

  /** With the exit edge, a group that was not in the column on a powered
      tick is no longer ignored: when one of its entities is next in the
      column, tryQueueTeleport goes past the edge test. */
  lemma ReturnAfterLeavingIsNotIgnored(w: World, e: Engine, pos: Pos, column: seq<Uuid>,
                                       w2: World, entity: Uuid)
    requires w.powered(pos) && GroupOf(w2, entity) !in Seen(w, column)
    requires StackInColumn(w2.actors, entity, pos)
    ensures TryQueue(w2, ScheduledTick(w, e, pos, column).engine, pos, entity).outcome != AlreadyInside
    ensures TryQueue(w2, ScheduledTick(w, e, pos, column).engine, pos, entity).outcome != LeftColumn
  {
  }
}
