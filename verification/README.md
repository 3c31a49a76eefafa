# Anomaly core in Dafny

This project models the game logic of the Anomaly Minecraft mod. It covers:

- The Hextech teleporter engine:
  - edge-triggered queueing of mount stacks;
  - the per-teleporter FIFO of pending transports and their ring/beam stage machine;
  - the global in-progress set and the cooldowns;
  - the bounded breadth-first scans over cable connectors that count diamond meshes and find the terminal;
  - relocation of a whole rider stack onto the landing pad.
- The teleporter terminal's destination list and its screen's selection window.
- The linker item that binds a landing pad and links it to a terminal.
- The Hextech spire turret: its level, immunity, targeting and shot stage machine.
- The per-world persistent states:
  - reference-counted chunk forcing for landing pads;
  - the teleporter registry;
  - the cable-connector list.
- The Runeforged Crown's low-health trigger latch and cooldown bar.
- The Totem of Forcefield's consumption order.
- The Runeforged armor material and Slaughter enchantment tables.

The world is never simulated. Blocks, redstone power, loaded chunks, entities and the game time are parameters of each operation. Every operation is a pure function, or a method for the loops, over immutable datatypes. Java `null` is `Option.None`, a `HashMap`/`HashSet` iteration order is an explicit `order` parameter, and NBT is a small tag tree whose getters return Minecraft's defaults for missing or mistyped keys.

Module map (one module per source class, plus shared vocabulary):

| module | models |
|---|---|
| `Common`, `Nbt` | positions, null, Java int/long ranges, `String.isBlank`, the NBT tag tree |
| `PackedPos` | `BlockPos.asLong`/`fromLong`, following Minecraft's 26/12/26-bit layout (that class is not part of this model's source) |
| `Connectivity` | the mesh-count and terminal-search scans of the teleporter and the spire |
| `EdgeMemory`, `MountStack`, `Teleporter` | `HextechTeleporterBlock` |
| `Terminal`, `TerminalScreen` | `TeleporterTerminalBlockEntity`, the selection arithmetic of `TeleporterTerminalScreen` |
| `Linker` | `TeleporterLinkerItem` |
| `Spire` | `HextechSpireBlock` |
| `PadChunkLoad`, `TeleporterRegistry`, `ConnectorRegistry` | `PadChunkLoadState`, `HextechTeleporterState`, `CableConnectorLightningState` |
| `Crown`, `Totem`, `ArmorMaterial`, `Slaughter` | `RuneforgedCrownItem`, `TotemOfForcefieldItem`, `CustomArmorMaterials`, `SlaughterEnchantment` |

## Model

| member | source | states |
|---|---|---|
| Common.DefaultPadName | src/main/java/net/pufferfish/anomaly/block/TeleporterTerminalBlockEntity.java:126 | the fallback entry name "Pad x y z" is never blank |
| Common.IsBlank | src/main/java/net/pufferfish/anomaly/block/TeleporterTerminalBlockEntity.java:121 | String.isBlank: every character is Java whitespace |
| Common.NatToStringValue | src/main/java/net/pufferfish/anomaly/block/TeleporterTerminalBlockEntity.java:126 | the decimal digits used in a pad name read back as the number written |
| PackedPos.AsLong | src/main/java/net/pufferfish/anomaly/world/HextechTeleporterState.java:53 | a packed position is a signed 64-bit long |
| PackedPos.FromLong | src/main/java/net/pufferfish/anomaly/world/HextechTeleporterState.java:65 | unpacking any long yields a position within the packable range |
| PackedPos.PackRoundTrip | src/main/java/net/pufferfish/anomaly/world/HextechTeleporterState.java:48-68 | unpacking a packed position gives the position back whenever its coordinates fit the 26/12/26-bit fields |
| PackedPos.AsLongInjective | src/main/java/net/pufferfish/anomaly/lightning/CableConnectorLightningState.java:27-33 | distinct packable positions get distinct longs, so the connector list's "already present" test is exact |
| Connectivity.Neighbours | src/main/java/net/pufferfish/anomaly/block/HextechTeleporterBlock.java:418-419 | the six neighbours are visited in `Direction.values()` order |
| Connectivity.NewCellsAdmitted | src/main/java/net/pufferfish/anomaly/block/HextechTeleporterBlock.java:418-423 | an expansion enqueues only connectors or meshes (terminals or connectors for the terminal search) |
| Connectivity.NewCellsFresh | src/main/java/net/pufferfish/anomaly/block/HextechTeleporterBlock.java:418-423 | an expansion enqueues only cells never enqueued before, each once |
| Connectivity.NewCellsCover | src/main/java/net/pufferfish/anomaly/block/HextechTeleporterBlock.java:418-423 | after an expansion every admitted neighbour has been enqueued |
| Connectivity.ExpandAdmitted | src/main/java/net/pufferfish/anomaly/block/HextechTeleporterBlock.java:414-424 | dequeuing and expanding keeps every enqueued cell admitted |
| Connectivity.ExpandNoDup | src/main/java/net/pufferfish/anomaly/block/HextechTeleporterBlock.java:414-424 | dequeuing and expanding never enqueues a cell twice |
| Connectivity.ExpandClosed | src/main/java/net/pufferfish/anomaly/block/HextechTeleporterBlock.java:414-424 | after expanding, every dequeued cell has had its admitted neighbours enqueued |
| Connectivity.SeedIsNewCells | src/main/java/net/pufferfish/anomaly/block/HextechTeleporterBlock.java:406-410 | the initial fill, which skips the visited check, equals a checked expansion of the origin |
| Connectivity.StartInv | src/main/java/net/pufferfish/anomaly/block/HextechTeleporterBlock.java:403-410 | the seeded scan is duplicate-free and admitted, has dequeued nothing and holds every admitted neighbour of the origin |
| Connectivity.CountLoopAdmitted | src/main/java/net/pufferfish/anomaly/block/HextechTeleporterBlock.java:411-426 | the counting loop keeps the queue admitted, only appends, dequeues at most 8192 cells and stops only when drained or at the cap |
| Connectivity.CountLoopNoDup | src/main/java/net/pufferfish/anomaly/block/HextechTeleporterBlock.java:411-426 | the counting loop never enqueues a cell twice |
| Connectivity.CountLoopClosed | src/main/java/net/pufferfish/anomaly/block/HextechTeleporterBlock.java:411-426 | every admitted neighbour of a dequeued cell ends up enqueued |
| Connectivity.CountLoopCount | src/main/java/net/pufferfish/anomaly/block/HextechTeleporterBlock.java:411-426 | the returned count is the number of meshes among the dequeued cells |
| Connectivity.CountMeshAtMost | src/main/java/net/pufferfish/anomaly/block/HextechTeleporterBlock.java:411-426 | the count never exceeds the number of cells dequeued |
| Connectivity.MeshScanSpec | src/main/java/net/pufferfish/anomaly/block/HextechTeleporterBlock.java:403-427 | both mesh scans stay within 8192 cells, enqueue each cell once, count exactly the dequeued meshes and enqueue every admitted cell next to a dequeued one |
| Connectivity.ExpandTestIrrelevant | src/main/java/net/pufferfish/anomaly/block/HextechTeleporterBlock.java:417 | the teleporter's extra "connector or mesh" test before expanding never fails |
| Connectivity.TeleporterAndSpireCountsAgree | src/main/java/net/pufferfish/anomaly/block/HextechSpireBlock.java:337-369 | the spire's scan and the teleporter's scan compute the same count |
| Connectivity.DrainedScanContainsPath | src/main/java/net/pufferfish/anomaly/block/HextechTeleporterBlock.java:403-427 | a drained, closed scan contains every admitted path from the origin |
| Connectivity.MeshCountCoversComponent | src/main/java/net/pufferfish/anomaly/block/HextechTeleporterBlock.java:403-427 | below the cap the scan enqueues exactly the cells reachable from the teleporter through connectors and meshes, each once, and the count is the number of meshes among them |
| Connectivity.DrainedScanHasReached | src/main/java/net/pufferfish/anomaly/block/HextechTeleporterBlock.java:403-427 | a drained scan closed under expansion holds every cell reachable from the origin |
| Connectivity.CountLoopReached | src/main/java/net/pufferfish/anomaly/block/HextechTeleporterBlock.java:411-426 | every cell the counting loop enqueues is reachable from the origin through admitted cells |
| Connectivity.MeshScanMeaning | src/main/java/net/pufferfish/anomaly/block/HextechTeleporterBlock.java:403-427 | the count is at most 8192, counts only reachable meshes, and below the cap counts every reachable one |
| Connectivity.TeleporterMeshCount | src/main/java/net/pufferfish/anomaly/block/HextechTeleporterBlock.java:403-427 | countDiamondMeshViaConnectors counts distinct meshes reachable through connectors and meshes, all of them when the scan drains |
| Connectivity.SpireMeshCount | src/main/java/net/pufferfish/anomaly/block/HextechSpireBlock.java:337-369 | the spire's own scan returns the teleporter's count |
| Connectivity.TerminalLoopAdmitted | src/main/java/net/pufferfish/anomaly/block/HextechTeleporterBlock.java:429-457 | the terminal search keeps the queue admitted and only appends |
| Connectivity.TerminalLoopStops | src/main/java/net/pufferfish/anomaly/block/HextechTeleporterBlock.java:429-457 | the terminal search stops without a hit only when drained or at the cap, and a hit is the terminal dequeued last |
| Connectivity.TerminalLoopNoDup | src/main/java/net/pufferfish/anomaly/block/HextechTeleporterBlock.java:429-457 | the terminal search never enqueues a cell twice |
| Connectivity.TerminalLoopClosed | src/main/java/net/pufferfish/anomaly/block/HextechTeleporterBlock.java:429-457 | without a hit, every admitted neighbour of a dequeued cell is enqueued |
| Connectivity.TerminalLoopFirst | src/main/java/net/pufferfish/anomaly/block/HextechTeleporterBlock.java:429-457 | no cell dequeued before the hit is a terminal |
| Connectivity.TerminalSearchSpec | src/main/java/net/pufferfish/anomaly/block/HextechTeleporterBlock.java:429-457 | the hit is a terminal reachable through connectors only and the first one dequeued; with no hit and a drained queue, no terminal is reachable |
| Connectivity.TerminalLoopReached | src/main/java/net/pufferfish/anomaly/block/HextechTeleporterBlock.java:429-457 | every cell the terminal search enqueues is reachable from the teleporter through connectors |
| Connectivity.TerminalSearchHit | src/main/java/net/pufferfish/anomaly/block/HextechTeleporterBlock.java:429-457 | a hit is the cell dequeued last, a terminal, and reachable through connectors |
| Connectivity.TerminalPadViaConnectors | src/main/java/net/pufferfish/anomaly/block/HextechTeleporterBlock.java:429-457 | a destination exists only through a reachable terminal and is that terminal's selected pad |
| EdgeMemory.MarkEntered | src/main/java/net/pufferfish/anomaly/block/HextechTeleporterBlock.java:647-649 | marks exactly (pos, group) inside, creating the position's set when absent |
| EdgeMemory.MarkLeft | src/main/java/net/pufferfish/anomaly/block/HextechTeleporterBlock.java:651-657 | unmarks exactly (pos, group) and drops the position once its set is empty |
| EdgeMemory.ClearPosition | src/main/java/net/pufferfish/anomaly/block/HextechTeleporterBlock.java:194-197 | an unpowered tick forgets every group at that position and nothing else |
| EdgeMemory.KeepOnly | src/main/java/net/pufferfish/anomaly/block/HextechTeleporterBlock.java:279 | marks every group not seen at that teleporter as having left; every other mark stays |
| EdgeMemory.MarksDetermineMemory | src/main/java/net/pufferfish/anomaly/block/HextechTeleporterBlock.java:642-657 | with no empty sets kept, the memory is determined by which (pos, group) pairs are marked |
| EdgeMemory.EnterThenLeave | src/main/java/net/pufferfish/anomaly/block/HextechTeleporterBlock.java:647-657 | entering then leaving restores the memory |
| EdgeMemory.MarkEnteredIdempotent | src/main/java/net/pufferfish/anomaly/block/HextechTeleporterBlock.java:647-649 | marking entered twice is marking once |
| EdgeMemory.MarkLeftIdempotent | src/main/java/net/pufferfish/anomaly/block/HextechTeleporterBlock.java:651-657 | marking left twice is marking once |
| MountStack.ColumnBox | src/main/java/net/pufferfish/anomaly/block/HextechTeleporterBlock.java:340-344 | the trigger column is the 1x5x1 block column starting one block above the teleporter |
| MountStack.RootVehicle | src/main/java/net/pufferfish/anomaly/block/HextechTeleporterBlock.java:576-582 | following vehicle links reaches an entity that rides nothing |
| MountStack.CollectFrom | src/main/java/net/pufferfish/anomaly/block/HextechTeleporterBlock.java:584-587 | the stack lists the entity first, then each passenger's stack in list order |
| MountStack.CollectFromParents | src/main/java/net/pufferfish/anomaly/block/HextechTeleporterBlock.java:595-607 | in a consistent world every recorded parent is the member's vehicle at snapshot time |
| MountStack.StackInColumn | src/main/java/net/pufferfish/anomaly/block/HextechTeleporterBlock.java:347-351 | the stack of the root vehicle meets the trigger column exactly when some member of its snapshot does |
| MountStack.StackIntersectsIsSomeHit | src/main/java/net/pufferfish/anomaly/block/HextechTeleporterBlock.java:353-357 | the recursive box test holds exactly when some member of the collected stack meets the box |
| MountStack.AnyIntersectsIsSomeHit | src/main/java/net/pufferfish/anomaly/block/HextechTeleporterBlock.java:353-357 | the same for a passenger list |
| MountStack.Dismount | src/main/java/net/pufferfish/anomaly/block/HextechTeleporterBlock.java:609-611 | a teleported player leaves its vehicle's passenger list and rides nothing |
| MountStack.StartRiding | src/main/java/net/pufferfish/anomaly/block/HextechTeleporterBlock.java:629-634 | forced riding leaves the old vehicle and joins the new one; the other riders keep their order, a player goes in front unless the first rider is a player, anyone else goes last |
| MountStack.AddPassenger | src/main/java/net/pufferfish/anomaly/block/HextechTeleporterBlock.java:629-634 | the new list has one more rider, the player in front or the entity last, and the others in order |
| MountStack.MoveOne | src/main/java/net/pufferfish/anomaly/block/HextechTeleporterBlock.java:609-625 | member i lands at the pad centre 0.06·i higher; the root also loses its velocity |
| MountStack.MoveFromPositions | src/main/java/net/pufferfish/anomaly/block/HextechTeleporterBlock.java:617-625 | after the move loop every member stands at its slot |
| MountStack.MoveFromKeeps | src/main/java/net/pufferfish/anomaly/block/HextechTeleporterBlock.java:617-625 | the move loop leaves entities outside the stack alone |
| MountStack.RelinkFromVehicles | src/main/java/net/pufferfish/anomaly/block/HextechTeleporterBlock.java:628-635 | after the re-mount loop every passenger rides its recorded parent |
| MountStack.RelinkFromKeepsPositions | src/main/java/net/pufferfish/anomaly/block/HextechTeleporterBlock.java:628-635 | re-mounting moves no one |
| MountStack.RelinkFromKeepsOthers | src/main/java/net/pufferfish/anomaly/block/HextechTeleporterBlock.java:628-635 | re-mounting leaves entities outside the stack alone |
| MountStack.Relocate | src/main/java/net/pufferfish/anomaly/block/HextechTeleporterBlock.java:589-638 | teleportMountStack creates and removes no entity; where each one ends up is stated by the three lemmas below |
| MountStack.RelocatePositions | src/main/java/net/pufferfish/anomaly/block/HextechTeleporterBlock.java:589-638 | after teleportMountStack every stack member stands at its slot above the pad |
| MountStack.RelocateRestoresRiders | src/main/java/net/pufferfish/anomaly/block/HextechTeleporterBlock.java:589-638 | every rider is back on the vehicle it had before the teleport |
| MountStack.RelocateLeavesOthers | src/main/java/net/pufferfish/anomaly/block/HextechTeleporterBlock.java:589-638 | entities outside the stack neither move nor change vehicle |
| Teleporter.StepEffect | src/main/java/net/pufferfish/anomaly/block/HextechTeleporterBlock.java:231-246 | a driven tick sets the stage's cue flag, adds 2 to the timer, moves on after a ring's 10 ticks, and commits at 20 in the beam stage |
| Teleporter.StepEffectMonotone | src/main/java/net/pufferfish/anomaly/block/HextechTeleporterBlock.java:231-246 | the stage never decreases, grows by at most one and stays in 0..3; cue flags are only ever set |
| Teleporter.DriveAdd | src/main/java/net/pufferfish/anomaly/block/HextechTeleporterBlock.java:242-263 | driving a+b ticks is driving a then b |
| Teleporter.RingStageTakesFiveTicks | src/main/java/net/pufferfish/anomaly/block/HextechTeleporterBlock.java:242-245 | a ring stage lasts exactly five driven ticks |
| Teleporter.BeamStageTakesTenTicks | src/main/java/net/pufferfish/anomaly/block/HextechTeleporterBlock.java:247-248 | the beam commits on its tenth driven tick and not before |
| Teleporter.FreshEffectCommitsAfter25Ticks | src/main/java/net/pufferfish/anomaly/block/HextechTeleporterBlock.java:242-263 | an uncancelled transport commits on its 25th driven tick |
| Teleporter.EmptyInv | src/main/java/net/pufferfish/anomaly/block/HextechTeleporterBlock.java:71-79 | the empty engine satisfies the queue invariant |
| Teleporter.Push | src/main/java/net/pufferfish/anomaly/block/HextechTeleporterBlock.java:328-333 | a push appends at the tail of that teleporter's queue only |
| Teleporter.Pop | src/main/java/net/pufferfish/anomaly/block/HextechTeleporterBlock.java:209 | a pop removes the head of that queue only |
| Teleporter.ReplaceHead | src/main/java/net/pufferfish/anomaly/block/HextechTeleporterBlock.java:231-246 | the head is updated in place; the rest of the queue is untouched |
| Teleporter.PushKeepsGroups | src/main/java/net/pufferfish/anomaly/block/HextechTeleporterBlock.java:328-330 | queueing a group with no entry keeps every group pending at most once and adds exactly it to the in-progress set |
| Teleporter.PopKeepsGroups | src/main/java/net/pufferfish/anomaly/block/HextechTeleporterBlock.java:209-210 | popping the head together with its group keeps the in-progress set equal to the pending groups |
| Teleporter.ReplaceHeadKeepsGroups | src/main/java/net/pufferfish/anomaly/block/HextechTeleporterBlock.java:231-246 | updating the head in place keeps the group invariants |
| Teleporter.Validate | src/main/java/net/pufferfish/anomaly/block/HextechTeleporterBlock.java:292-318 | destination checks in source order: mesh count, selected pad, range mesh·10, loaded chunk, landing pad |
| Teleporter.ValidateAcceptsIff | src/main/java/net/pufferfish/anomaly/block/HextechTeleporterBlock.java:292-318 | a destination is accepted exactly when all five checks pass |
| Teleporter.TryQueue | src/main/java/net/pufferfish/anomaly/block/HextechTeleporterBlock.java:273-336 | the edge test, cooldown, busy, power and destination checks in source order, each with its state effect |
| Teleporter.TryQueueFailures | src/main/java/net/pufferfish/anomaly/block/HextechTeleporterBlock.java:285-319 | cooldown, busy group, no mesh, no target, out of range, unloaded chunk and missing pad mark the group entered and queue nothing; unpowered marks nothing |
| Teleporter.TryQueueQueuesIffAdmissible | src/main/java/net/pufferfish/anomaly/block/HextechTeleporterBlock.java:273-336 | a transport is queued exactly when every check passes, as a fresh stage-0 entry at the tail, with its group in progress and marked inside |
| Teleporter.TryQueueNoEntryUnlessQueued | src/main/java/net/pufferfish/anomaly/block/HextechTeleporterBlock.java:273-336 | every other outcome leaves the queues and the in-progress set unchanged |
| Teleporter.PushKeepsEffectsOk | src/main/java/net/pufferfish/anomaly/block/HextechTeleporterBlock.java:328-333 | a freshly queued effect satisfies the effect invariant |
| Teleporter.TryQueueKeepsInv | src/main/java/net/pufferfish/anomaly/block/HextechTeleporterBlock.java:273-336 | tryQueueTeleport keeps the engine invariant |
| Teleporter.ResolveRoot | src/main/java/net/pufferfish/anomaly/block/HextechTeleporterBlock.java:576-582 | getRoot returns the root vehicle of an existing entity, or null |
| Teleporter.DriveHead | src/main/java/net/pufferfish/anomaly/block/HextechTeleporterBlock.java:200-264 | the head is cancelled, stepped or committed as scheduledTick's second part decides; idle exactly on an empty queue; only the head group's mark at this teleporter can go |
| Teleporter.Finish | src/main/java/net/pufferfish/anomaly/block/HextechTeleporterBlock.java:209-211 | the head is popped and the other queues kept, its group released and marked left there, and only that mark changes |
| Teleporter.FinishKeepsInv | src/main/java/net/pufferfish/anomaly/block/HextechTeleporterBlock.java:209-211 | popping and releasing the group keeps the engine invariant |
| Teleporter.DriveHeadKeepsInv | src/main/java/net/pufferfish/anomaly/block/HextechTeleporterBlock.java:200-264 | driving the head keeps the engine invariant |
| Teleporter.QueueAll | src/main/java/net/pufferfish/anomaly/block/HextechTeleporterBlock.java:188-193 | scanning the column only appends to this teleporter's queue, keeps the other queues, cooldowns and other teleporters' marks, and never releases a group |
| Teleporter.TryQueueStep | src/main/java/net/pufferfish/anomaly/block/HextechTeleporterBlock.java:273-336 | one attempt only appends at this teleporter and keeps everything QueueAll promises |
| Teleporter.QueueAllKeepsInv | src/main/java/net/pufferfish/anomaly/block/HextechTeleporterBlock.java:188-193 | queueing every entity in the column keeps the engine invariant |
| Teleporter.ScheduledTickAsWritten | src/main/java/net/pufferfish/anomaly/block/HextechTeleporterBlock.java:184-265 | as written: an unpowered tick forgets this teleporter's marks; marks elsewhere only go |
| Teleporter.ScheduledTick | src/main/java/net/pufferfish/anomaly/block/HextechTeleporterBlock.java:184-265 | corrected: after a powered tick only groups the column scan saw are marked inside; an unpowered one forgets them all |
| Teleporter.ScheduledTickKeepsInv | src/main/java/net/pufferfish/anomaly/block/HextechTeleporterBlock.java:184-265 | a whole corrected tick keeps each group pending at most once, the in-progress set equal to the pending groups and every effect well-formed |
| Teleporter.ScheduledTickAsWrittenKeepsInv | src/main/java/net/pufferfish/anomaly/block/HextechTeleporterBlock.java:184-265 | a whole tick as written keeps the same invariant: each group pending at most once, in-progress equal to the pending groups, every effect well-formed |
| Teleporter.DriveHeadIsFifo | src/main/java/net/pufferfish/anomaly/block/HextechTeleporterBlock.java:200-264 | only the head is popped, replaced or left alone; entries behind it and other teleporters' queues are untouched |
| Teleporter.CancellationRules | src/main/java/net/pufferfish/anomaly/block/HextechTeleporterBlock.java:207-227 | a missing or dead root pops the head at any stage; leaving the column pops it only before the beam; neither sets a cooldown |
| Teleporter.CommitRules | src/main/java/net/pufferfish/anomaly/block/HextechTeleporterBlock.java:247-263 | a commit sets cooldown now+100 whether or not the pad remains, relocates only onto a present pad, and pops the head |
| Teleporter.MarkedInsideIgnored | src/main/java/net/pufferfish/anomaly/block/HextechTeleporterBlock.java:282 | a group marked inside is ignored at that teleporter by every attempt while it stays marked |
| Teleporter.UnpoweredTickClearsMemory | src/main/java/net/pufferfish/anomaly/block/HextechTeleporterBlock.java:194-197 | an unpowered tick is the same as written and corrected; it clears that teleporter's edge memory and queues nothing: its queue can only shrink, the others stay and no group becomes in progress |
| Teleporter.TryQueueInColumn | src/main/java/net/pufferfish/anomaly/block/HextechTeleporterBlock.java:273-336 | for an entity in the column, an attempt only adds marks and queues only a group that was not marked |
| Teleporter.QueueAllInColumn | src/main/java/net/pufferfish/anomaly/block/HextechTeleporterBlock.java:188-193 | a column scan never marks a group left, and gives no entry to a marked group that had none |
| Teleporter.MarkPersistsWhilePowered | src/main/java/net/pufferfish/anomaly/block/HextechTeleporterBlock.java:186-197 | as written, a marked group with nothing queued stays marked through any powered tick, whether or not the scan sees it |
| Teleporter.EmptyScanContrast | src/main/java/net/pufferfish/anomaly/block/HextechTeleporterBlock.java:186-197 | on a scan that finds nobody the group stays ignored as written, and is forgotten with the exit edge |
| Teleporter.ReturnAfterLeavingIsNotIgnored | src/main/java/net/pufferfish/anomaly/block/HextechTeleporterBlock.java:279-282 | with the exit edge, a group absent on a powered tick passes the edge test when it returns |
| Terminal.Positions | src/main/java/net/pufferfish/anomaly/block/TeleporterTerminalBlockEntity.java:27-33 | the positions of the entries, in list order |
| Terminal.IndexOf | src/main/java/net/pufferfish/anomaly/block/TeleporterTerminalBlockEntity.java:157-161 | the first index holding the position, or -1 exactly when it is absent |
| Terminal.SelectedPad | src/main/java/net/pufferfish/anomaly/block/TeleporterTerminalBlockEntity.java:109-112 | a pad exactly when the selection is in range, and then one of the listed positions |
| Terminal.SelectThenSelected | src/main/java/net/pufferfish/anomaly/block/TeleporterTerminalBlockEntity.java:109-146 | selecting an entry makes its position the selected pad, -1 clears it, and an ignored index keeps it |
| Terminal.SelectPad | src/main/java/net/pufferfish/anomaly/block/TeleporterTerminalBlockEntity.java:141-146 | accepts -1..size-1 and ignores anything else |
| Terminal.AddPad | src/main/java/net/pufferfish/anomaly/block/TeleporterTerminalBlockEntity.java:115-130 | no-op at 128 entries; an existing position is renamed (unless the name is blank) and selected; a new one is appended with the fallback name and selected only if nothing was |
| Terminal.RemovePad | src/main/java/net/pufferfish/anomaly/block/TeleporterTerminalBlockEntity.java:132-139 | drops that entry only and clamps the selection into the shorter list |
| Terminal.RenamePad | src/main/java/net/pufferfish/anomaly/block/TeleporterTerminalBlockEntity.java:148-155 | renames only the entry at the index; the name is never blank |
| Terminal.AddPadKeepsValid | src/main/java/net/pufferfish/anomaly/block/TeleporterTerminalBlockEntity.java:115-130 | adding keeps the list bounded by 128, duplicate-free and its selection in range |
| Terminal.RemovePadKeepsValid | src/main/java/net/pufferfish/anomaly/block/TeleporterTerminalBlockEntity.java:132-139 | removing keeps the list valid |
| Terminal.SelectAndRenameKeepValid | src/main/java/net/pufferfish/anomaly/block/TeleporterTerminalBlockEntity.java:141-155 | selecting and renaming keep the list valid |
| Terminal.AddPadThenIndexOf | src/main/java/net/pufferfish/anomaly/block/TeleporterTerminalBlockEntity.java:115-130 | an added position can be found afterwards, and an existing one ends up selected |
| Terminal.AddPadIdempotentOnPositions | src/main/java/net/pufferfish/anomaly/block/TeleporterTerminalBlockEntity.java:118-124 | adding the same position twice never creates a second entry |
| Terminal.PadTags | src/main/java/net/pufferfish/anomaly/block/TeleporterTerminalBlockEntity.java:45-53 | one compound per entry, in list order |
| Terminal.WriteNbt | src/main/java/net/pufferfish/anomaly/block/TeleporterTerminalBlockEntity.java:43-57 | adds "pads" with one element per entry and "selected", keeping the compound's other keys |
| Terminal.ReadPad | src/main/java/net/pufferfish/anomaly/block/TeleporterTerminalBlockEntity.java:62-66 | an entry's coordinates, and "" as its name when no string name is stored |
| Terminal.ReadNbt | src/main/java/net/pufferfish/anomaly/block/TeleporterTerminalBlockEntity.java:59-73 | one entry per listed compound |
| Terminal.NbtRoundTrip | src/main/java/net/pufferfish/anomaly/block/TeleporterTerminalBlockEntity.java:43-73 | reading what writeNbt wrote restores the entries, in order, and the selection |
| TerminalScreen.ResolveSelectedIndex | src/main/java/net/pufferfish/anomaly/screen/TeleporterTerminalScreen.java:125-128 | the absolute selected index is the window top plus the local row, or -1 |
| TerminalScreen.ApplyLocalSelection | src/main/java/net/pufferfish/anomaly/screen/TeleporterTerminalScreen.java:130-143 | a valid index ends up visible and selected in a window clamped to the list; an invalid one clears the selection |
| TerminalScreen.ApplyKeepsVisibleWindow | src/main/java/net/pufferfish/anomaly/screen/TeleporterTerminalScreen.java:130-143 | selecting a visible entry does not scroll |
| TerminalScreen.SnapSelectionIntoView | src/main/java/net/pufferfish/anomaly/screen/TeleporterTerminalScreen.java:146-155 | a valid selection ends up visible in a window clamped to the list; an invalid one clears it |
| TerminalScreen.SnapIsApply | src/main/java/net/pufferfish/anomaly/screen/TeleporterTerminalScreen.java:146-155 | snapSelectionIntoView and applyLocalSelection agree on every input |
| TerminalScreen.OnDelete | src/main/java/net/pufferfish/anomaly/screen/TeleporterTerminalScreen.java:98-121 | a delete is sent exactly when an entry is selected; the new selection is that index, or the one before when it was last, or -1 when the list empties |
| TerminalScreen.DeleteSelectsNeighbour | src/main/java/net/pufferfish/anomaly/screen/TeleporterTerminalScreen.java:98-121 | after the server applies the two packets, the entry that followed the removed one is selected (the previous one when the last entry went) |
| TerminalScreen.ScrollTop | src/main/java/net/pufferfish/anomaly/screen/TeleporterTerminalScreen.java:188-189 | one notch moves the window one row, clamped to the list |
| TerminalScreen.MouseScrolledAsWritten | src/main/java/net/pufferfish/anomaly/screen/TeleporterTerminalScreen.java:179-196 | scrolling as written keeps the screen within the list |
| TerminalScreen.ScrollMovesSelection | src/main/java/net/pufferfish/anomaly/screen/TeleporterTerminalScreen.java:188-192 | with ten entries and entry 2 selected, one notch down selects entry 3 |
| TerminalScreen.ScrollAsWrittenKeepsRow | src/main/java/net/pufferfish/anomaly/screen/TeleporterTerminalScreen.java:179-196 | as written, the selected row never changes, so the selected entry shifts by the scroll distance |
| TerminalScreen.MouseScrolled | src/main/java/net/pufferfish/anomaly/screen/TeleporterTerminalScreen.java:179-196 | corrected: the selected entry stays selected while visible and is pulled to the nearest edge row once it scrolls out |
| TerminalScreen.MouseScrolledKeepsWindow | src/main/java/net/pufferfish/anomaly/screen/TeleporterTerminalScreen.java:179-196 | the corrected scroll keeps the screen within the list |
| TerminalScreen.MouseScrolledKeepsEntry | src/main/java/net/pufferfish/anomaly/screen/TeleporterTerminalScreen.java:188-192 | on the example above the corrected scroll keeps entry 2 selected |
| Linker.BindTo | src/main/java/net/pufferfish/anomaly/item/TeleporterLinkerItem.java:87-95 | writes "Bound" = {x, y, z, dim}, keeping the stack's other keys |
| Linker.ReadBound | src/main/java/net/pufferfish/anomaly/item/TeleporterLinkerItem.java:97-105 | a binding is read exactly when "Bound" is a compound holding x, y, z and dim |
| Linker.BindThenRead | src/main/java/net/pufferfish/anomaly/item/TeleporterLinkerItem.java:87-105 | reading back a binding gives the pad and dimension written |
| Linker.LinkPad | src/main/java/net/pufferfish/anomaly/item/TeleporterLinkerItem.java:64-69 | the terminal gains the pad under its fallback name and selects it when present |
| Linker.LinkPadSelects | src/main/java/net/pufferfish/anomaly/item/TeleporterLinkerItem.java:64-69 | linking keeps the terminal valid and, with room or the pad already listed, leaves exactly that pad selected |
| Linker.UseOnBlock | src/main/java/net/pufferfish/anomaly/item/TeleporterLinkerItem.java:32-78 | a pad click binds; a sneak click on a terminal links a same-dimension binding; everything else passes |
| Linker.BindThenLinkSelects | src/main/java/net/pufferfish/anomaly/item/TeleporterLinkerItem.java:32-78 | binding at a pad then sneak-clicking a terminal in that dimension selects the pad there |
| Linker.OtherDimensionLeavesTerminal | src/main/java/net/pufferfish/anomaly/item/TeleporterLinkerItem.java:59-63 | a binding from another dimension never changes the terminal |
| Spire.ComputeLevel | src/main/java/net/pufferfish/anomaly/block/HextechSpireBlock.java:371-376 | level 3 from 30 meshes, 2 from 20, 1 from 10, else 0 |
| Spire.ComputeLevelMonotone | src/main/java/net/pufferfish/anomaly/block/HextechSpireBlock.java:371-376 | more meshes never lower the level |
| Spire.Reset | src/main/java/net/pufferfish/anomaly/block/HextechSpireBlock.java:411-415 | the target is forgotten and the stage machine rewound; level and cooldown are kept |
| Spire.Start | src/main/java/net/pufferfish/anomaly/block/HextechSpireBlock.java:396-404 | the target is recorded at the level, from stage 0 and timer 0 |
| Spire.StepStage | src/main/java/net/pufferfish/anomaly/block/HextechSpireBlock.java:525-531 | adds 2 to the timer and leaves the stage once its duration is reached |
| Spire.BindMark | src/main/java/net/pufferfish/anomaly/block/HextechSpireBlock.java:126-133 | writes the spire's position under "SpireBind", keeping the stack's other tags |
| Spire.BindMarkMakesImmune | src/main/java/net/pufferfish/anomaly/block/HextechSpireBlock.java:243-270 | a player carrying a freshly bound mark is immune to that spire and, through it, to no other |
| Spire.Placed | src/main/java/net/pufferfish/anomaly/block/HextechSpireBlock.java:80-87 | a player placing the spire becomes its owner |
| Spire.Replaced | src/main/java/net/pufferfish/anomaly/block/HextechSpireBlock.java:89-96 | the owner is forgotten when the block becomes another block |
| Spire.UseMark | src/main/java/net/pufferfish/anomaly/block/HextechSpireBlock.java:104-112 | using a mark binds it and makes the user the owner |
| Spire.UseMarkMakesOwnerImmune | src/main/java/net/pufferfish/anomaly/block/HextechSpireBlock.java:104-112 | afterwards the user is immune to that spire even without the mark |
| Spire.ReplacedDropsOwnerImmunity | src/main/java/net/pufferfish/anomaly/block/HextechSpireBlock.java:89-96 | after removal only a bound mark still gives immunity there |
| Spire.ImmunityRules | src/main/java/net/pufferfish/anomaly/block/HextechSpireBlock.java:243-270 | non-players are never immune; the owner always is |
| Spire.IsImmune | src/main/java/net/pufferfish/anomaly/block/HextechSpireBlock.java:243-270 | players only: the spire's owner, or one carrying a mark bound to exactly this spire |
| Spire.Nearest | src/main/java/net/pufferfish/anomaly/block/HextechSpireBlock.java:224-240 | the chosen candidate is eligible and no eligible candidate is nearer; none exactly when no candidate is eligible |
| Spire.NearestIsFirstMinimum | src/main/java/net/pufferfish/anomaly/block/HextechSpireBlock.java:224-240 | ties go to the earliest candidate |
| Spire.FindTarget | src/main/java/net/pufferfish/anomaly/block/HextechSpireBlock.java:224-240 | no target exactly when no nearby creature is eligible; otherwise the first of the nearest eligible ones |
| Spire.TargetValid | src/main/java/net/pufferfish/anomaly/block/HextechSpireBlock.java:180-184 | the recorded target still exists, is living and alive, and is not immune |
| Spire.AdvanceShot | src/main/java/net/pufferfish/anomaly/block/HextechSpireBlock.java:188-219 | the impact fires exactly in the beam stage at timer 20, then the cooldown is 100 and the shot resets |
| Spire.SpireTick | src/main/java/net/pufferfish/anomaly/block/HextechSpireBlock.java:150-220 | a cooldown only counts down; unpowered or level 0 resets; an idle shot acquires FindTarget's first nearest eligible creature at the computed level from stage 0, or stays unchanged when there is none; an active shot is dropped exactly when its target is no longer valid and otherwise advances as AdvanceShot does |
| Spire.TickAt | src/main/java/net/pufferfish/anomaly/block/HextechSpireBlock.java:150-220 | a tick at one spire changes only that spire's record |
| Spire.SpireTickKeepsShotOk | src/main/java/net/pufferfish/anomaly/block/HextechSpireBlock.java:150-220 | a tick keeps stage 0..3, an even timer below the stage's duration, cooldown 0..100 and an active level 1..3 |
| Spire.AdvanceShotKeepsShotOk | src/main/java/net/pufferfish/anomaly/block/HextechSpireBlock.java:188-219 | advancing an active shot keeps the between-ticks invariant |
| Spire.AdvanceShotMonotone | src/main/java/net/pufferfish/anomaly/block/HextechSpireBlock.java:188-207 | the stage never goes down while the shot continues and rises by at most one |
| Spire.ImpactRule | src/main/java/net/pufferfish/anomaly/block/HextechSpireBlock.java:210-219 | the impact fires only from the beam stage at 20 and leaves cooldown 100 and a reset shot |
| Spire.RunAdd | src/main/java/net/pufferfish/anomaly/block/HextechSpireBlock.java:188-219 | running a+b ticks is running a then b |
| Spire.RingTakesFiveTicks | src/main/java/net/pufferfish/anomaly/block/HextechSpireBlock.java:188-207 | a ring stage lasts exactly five ticks |
| Spire.BeamTakesTenTicks | src/main/java/net/pufferfish/anomaly/block/HextechSpireBlock.java:210-219 | the beam fires on its tenth tick and not before |
| Spire.ShotFiresOnTick25 | src/main/java/net/pufferfish/anomaly/block/HextechSpireBlock.java:167-219 | a freshly started shot on a valid target hits on its 25th tick |
| PadChunkLoad.ToKey | src/main/java/net/pufferfish/anomaly/world/PadChunkLoadState.java:87-89 | the key of a chunk is a signed 64-bit long |
| PadChunkLoad.FromKey | src/main/java/net/pufferfish/anomaly/world/PadChunkLoadState.java:91-95 | any key decodes to two Java ints |
| PadChunkLoad.KeyRoundTrip | src/main/java/net/pufferfish/anomaly/world/PadChunkLoadState.java:87-95 | decoding a chunk's key gives the chunk back |
| PadChunkLoad.FromKeyRoundTrip | src/main/java/net/pufferfish/anomaly/world/PadChunkLoadState.java:87-95 | encoding a decoded 64-bit key gives the key back |
| PadChunkLoad.KeysInjective | src/main/java/net/pufferfish/anomaly/world/PadChunkLoadState.java:87-95 | distinct chunks have distinct keys and distinct keys distinct chunks |
| PadChunkLoad.Increment | src/main/java/net/pufferfish/anomaly/world/PadChunkLoadState.java:66-72 | the chunk's count rises by one and the chunk is forced; other counts are unchanged |
| PadChunkLoad.Decrement | src/main/java/net/pufferfish/anomaly/world/PadChunkLoadState.java:74-85 | the count falls by one, never below zero; at zero the entry goes and the chunk is released |
| PadChunkLoad.IncrementKeepsInv | src/main/java/net/pufferfish/anomaly/world/PadChunkLoadState.java:66-72 | counts stay positive and exactly the counted chunks stay forced |
| PadChunkLoad.DecrementKeepsInv | src/main/java/net/pufferfish/anomaly/world/PadChunkLoadState.java:74-85 | the same for decrement |
| PadChunkLoad.IncrementThenDecrement | src/main/java/net/pufferfish/anomaly/world/PadChunkLoadState.java:66-85 | placing then breaking a pad restores the state |
| PadChunkLoad.Entries | src/main/java/net/pufferfish/anomaly/world/PadChunkLoadState.java:53-64 | only positive counts are written, in iteration order |
| PadChunkLoad.WriteNbt | src/main/java/net/pufferfish/anomaly/world/PadChunkLoadState.java:53-64 | adds "entries", keeping the compound's other keys |
| PadChunkLoad.LoadAll | src/main/java/net/pufferfish/anomaly/world/PadChunkLoadState.java:36-50 | loading keeps only positive counts and forces exactly the chunks with one |
| PadChunkLoad.FromNbt | src/main/java/net/pufferfish/anomaly/world/PadChunkLoadState.java:36-50 | whatever is stored, the loaded state has positive counts and forces exactly the counted chunks |
| PadChunkLoad.LoadEntries | src/main/java/net/pufferfish/anomaly/world/PadChunkLoadState.java:36-50 | loading the written entries stores each positive count and forces its chunk |
| PadChunkLoad.NbtRoundTrip | src/main/java/net/pufferfish/anomaly/world/PadChunkLoadState.java:36-64 | loading what writeNbt wrote restores the counts and forces exactly the counted chunks |
| TeleporterRegistry.Add | src/main/java/net/pufferfish/anomaly/world/HextechTeleporterState.java:26-28 | the position is registered, nothing else changes, and the state is dirty exactly when it was new |
| TeleporterRegistry.Remove | src/main/java/net/pufferfish/anomaly/world/HextechTeleporterState.java:30-32 | the position is unregistered, nothing else changes, and dirty exactly when it was present |
| TeleporterRegistry.AddThenRemove | src/main/java/net/pufferfish/anomaly/world/HextechTeleporterState.java:26-32 | adding then removing a new position restores the registry |
| TeleporterRegistry.AddIdempotent | src/main/java/net/pufferfish/anomaly/world/HextechTeleporterState.java:26-28 | adding twice is adding once, and the second add is not dirty |
| TeleporterRegistry.FindNearest | src/main/java/net/pufferfish/anomaly/world/HextechTeleporterState.java:34-46 | null exactly when empty; otherwise a registered position no farther than any other, the first such in iteration order |
| TeleporterRegistry.WriteNbt | src/main/java/net/pufferfish/anomaly/world/HextechTeleporterState.java:48-58 | one {pos} compound per registered teleporter, in iteration order, keeping the compound's other keys |
| TeleporterRegistry.FromNbt | src/main/java/net/pufferfish/anomaly/world/HextechTeleporterState.java:60-68 | every loaded position decodes one listed entry |
| TeleporterRegistry.NbtRoundTrip | src/main/java/net/pufferfish/anomaly/world/HextechTeleporterState.java:48-68 | loading what writeNbt wrote restores the set |
| ConnectorRegistry.Add | src/main/java/net/pufferfish/anomaly/lightning/CableConnectorLightningState.java:27-33 | appends the packed position exactly when absent, dirty exactly then, and keeps the list duplicate-free |
| ConnectorRegistry.Remove | src/main/java/net/pufferfish/anomaly/lightning/CableConnectorLightningState.java:35-39 | removes the first occurrence exactly when present; the other entries keep their order |
| ConnectorRegistry.RemoveKeepsValid | src/main/java/net/pufferfish/anomaly/lightning/CableConnectorLightningState.java:35-39 | removal keeps the list duplicate-free and the position is gone |
| ConnectorRegistry.AddThenRemove | src/main/java/net/pufferfish/anomaly/lightning/CableConnectorLightningState.java:27-39 | placing then breaking a connector restores the list |
| ConnectorRegistry.Snapshot | src/main/java/net/pufferfish/anomaly/lightning/CableConnectorLightningState.java:41-45 | one unpacked position per listed long |
| ConnectorRegistry.SnapshotHasAdded | src/main/java/net/pufferfish/anomaly/lightning/CableConnectorLightningState.java:27-45 | an added connector shows up in the snapshot, appended at the end when new |
| ConnectorRegistry.WriteNbt | src/main/java/net/pufferfish/anomaly/lightning/CableConnectorLightningState.java:47-53 | "Positions" holds one long per entry, in list order, and the other keys are kept |
| ConnectorRegistry.FromNbt | src/main/java/net/pufferfish/anomaly/lightning/CableConnectorLightningState.java:55-62 | one long per listed element |
| ConnectorRegistry.NbtRoundTrip | src/main/java/net/pufferfish/anomaly/lightning/CableConnectorLightningState.java:47-62 | loading what writeNbt wrote restores the list in order |
| Crown.TickBossbar | src/main/java/net/pufferfish/anomaly/item/RuneforgedCrownItem.java:323-349 | no bar, no change; an end of 0 or less hides the bar; otherwise the bar shows (end-now)/800 as an exact real, and once that reaches 0 the end is cleared and the bar hidden |
| Crown.StartBossbar | src/main/java/net/pufferfish/anomaly/item/RuneforgedCrownItem.java:293-321 | a bar exists afterwards; during a cooldown it is visible with the remaining share, as an exact real |
| Crown.RemoveBossbar | src/main/java/net/pufferfish/anomaly/item/RuneforgedCrownItem.java:351-361 | taking the crown off hides the bar and changes no trigger state |
| Crown.InventoryTick | src/main/java/net/pufferfish/anomaly/item/RuneforgedCrownItem.java:87-131 | a blast fires exactly when worn at health ≤ 8 with the latch armed and at least 800 ticks since the last; health above 8 re-arms; every low tick consumes the episode |
| Crown.BlastsSpaced | src/main/java/net/pufferfish/anomaly/item/RuneforgedCrownItem.java:115-126 | over any run of ticks, successive blasts are at least 800 ticks apart |
| Crown.OneBlastPerEpisode | src/main/java/net/pufferfish/anomaly/item/RuneforgedCrownItem.java:102-112 | once the latch is consumed, no blast happens until a tick above the threshold re-arms it |
| Crown.CooldownExpires | src/main/java/net/pufferfish/anomaly/item/RuneforgedCrownItem.java:338-348 | once the cooldown end has passed, the next worn tick clears it and hides the bar |
| Totem.Priority | src/main/java/net/pufferfish/anomaly/item/TotemOfForcefieldItem.java:79-101 | slots are tried offhand, main hand, then 0 upwards |
| Totem.TakeOne | src/main/java/net/pufferfish/anomaly/item/TotemOfForcefieldItem.java:80-83 | decrement(1) lowers that stack by one and leaves every other slot alone |
| Totem.ConsumeOne | src/main/java/net/pufferfish/anomaly/item/TotemOfForcefieldItem.java:78-103 | takes one from the first matching slot in priority order; with no match it returns false and changes nothing |
| Totem.AllowDeath | src/main/java/net/pufferfish/anomaly/item/TotemOfForcefieldItem.java:36-43 | death goes ahead exactly when no totem is held; otherwise exactly one totem is consumed |
| Totem.Held | src/main/java/net/pufferfish/anomaly/item/TotemOfForcefieldItem.java:78-103 | the player holds no totem exactly when no slot matches |
| Totem.HeldTakeOne | src/main/java/net/pufferfish/anomaly/item/TotemOfForcefieldItem.java:78-103 | taking from a matching slot lowers the totems held by exactly one |
| ArmorMaterial.Idx | src/main/java/net/pufferfish/anomaly/item/CustomArmorMaterials.java:38-45 | every type maps into the 4-entry protection table |
| ArmorMaterial.IdxBijective | src/main/java/net/pufferfish/anomaly/item/CustomArmorMaterials.java:38-45 | idx is a bijection between the four types and 0..3 |
| ArmorMaterial.Durability | src/main/java/net/pufferfish/anomaly/item/CustomArmorMaterials.java:48-60 | durability is a multiple of 7 between 77 and 112 |
| ArmorMaterial.DurabilityTable | src/main/java/net/pufferfish/anomaly/item/CustomArmorMaterials.java:48-60 | boots 91, leggings 105, chestplate 112, helmet 77 |
| ArmorMaterial.Protection | src/main/java/net/pufferfish/anomaly/item/CustomArmorMaterials.java:62-65 | 2 for the helmet and 0 for every other piece |
| Slaughter.MinPower | src/main/java/net/pufferfish/anomaly/enchantment/SlaughterEnchantment.java:18-20 | the minimum power is a Java int |
| Slaughter.MaxPower | src/main/java/net/pufferfish/anomaly/enchantment/SlaughterEnchantment.java:23-25 | the maximum power is a Java int |
| Slaughter.PowerWindow | src/main/java/net/pufferfish/anomaly/enchantment/SlaughterEnchantment.java:18-25 | without wrap-around the window starts at 5+(level-1)·10 and is 20 wide |
| Slaughter.MinPowerIncreasing | src/main/java/net/pufferfish/anomaly/enchantment/SlaughterEnchantment.java:18-20 | higher levels need strictly more power |
| Slaughter.OnlyLevel | src/main/java/net/pufferfish/anomaly/enchantment/SlaughterEnchantment.java:18-30 | the maximum level is 1, with power 5 to 25 |
| Slaughter.WindowWrapsAtHugeLevels | src/main/java/net/pufferfish/anomaly/enchantment/SlaughterEnchantment.java:18-25 | far past the maximum level the 32-bit maximum wraps below the minimum |

## Left out

- Particles, rings, beams, sounds, status messages and night vision are left out: they are visual, audible or textual and decide nothing.
- The crown's blast damage and knockback falloff, the totem's knockback, its potion effects and its teleport to spawn are left out: they are floating-point physics and engine calls.
- Entity positions, boxes, the landing slots (pad centre plus 0.06 per member), the spire's squared distances and the crown's boss-bar share (remaining ticks over 800, a float division) are computed exactly over the reals. Java's double rounding is not modelled, including tie-breaking between distances that are equal only after rounding.
- Crown.TickBossbar: the bar share is stated as the exact quotient (end-now)/800, not as the rounded float Java computes.
- Crown.StartBossbar: the same exact quotient stands in for Java's float share.
- Block-tick scheduling is left out: each tick is a call to the tick function.
- Redstone power, chunk loading, entity queries and the Overworld time are oracle parameters.
- `PENDING_FORCES` and the chunk-forcing calls themselves are left out. `PadChunkLoad` records which chunks have been asked to be forced, as a set.
- `MountStack.RootVehicle`, `MountStack.CollectFrom`: walk the rider tree with a fuel bound (the number of entities plus one), so a vehicle cycle is not modelled; Minecraft never builds one.
- `MountStack.StartRiding`: assumes the forced `startRiding` succeeds. Minecraft refuses it when the vehicle will not take passengers or already rides the entity, and the snapshot of a rider tree asks for neither.
- `MountStack.RelocateRestoresRiders`: assumes the rider relation is a tree (`TreeShaped`). The source's identity map relies on the same assumption.
- `Teleporter.ScheduledTick`: takes the column scan as a list of entity ids. Its result is stated for any list; the source only ever passes entities whose boxes meet the column (`ColumnScan`).
- The engine's maps are keyed by block position without the dimension, as in the source.
- `ConcurrentHashMap` semantics are modelled sequentially.
- Network packets, screen rendering, `mouseClicked` hit-testing, key handling and the screen handler are left out. The terminal's server-side methods are modelled directly.
- The pad name and index parsing of the packet handlers is left out, because that code only forwards to the terminal methods.
- `PadChunkLoad.Increment`: does not model 32-bit wrap-around of a count, because it would take 2^31 pads in one chunk.
- `ConnectorRegistry.FromNbt`: requires every element of the list to have one type, as every `NbtList` Minecraft builds does.
- `Crown.InventoryTick`: its claim about the bar after a blast assumes a non-negative game time, which world time always is.
- `Crown.RemoveBossbar`: assumes the wearer is the bar's only viewer, so removing them hides it. A bar is keyed by the stack, so only its wearer ever sees it.
- `Slaughter.PowerWindow`, `Slaughter.MinPowerIncreasing`: hold only away from 32-bit wrap-around. `WindowWrapsAtHugeLevels` shows the wrap for levels the game never asks for.
- The armor material's repair ingredient and equip sound are left out: they are registry objects. Toughness (2.0) and knockback resistance (1.0) are constants without contracts.
- Registries, item groups, mixins, the wrench damage hook and the thin block wrappers are left out: they only call the modelled state classes.
- The randomised lightning strike is left out.

## Findings

| source | as written | input that shows it | evidently intended | confidence | as-written member | corrected member |
|---|---|---|---|---|---|---|
| src/main/java/net/pufferfish/anomaly/screen/TeleporterTerminalScreen.java:188-192 | `mouseScrolled` reads the selected absolute index after it has moved the window. The clamp then sees the row it already has and never changes it, so the selection slides to another entry on every notch. | 10 entries, window at the top, entry 2 selected; one notch down selects entry 3 | keep the same entry selected while it is visible, and clamp it to an edge row otherwise | not executed; the next render may reapply the server's selection | TerminalScreen.ScrollMovesSelection | TerminalScreen.MouseScrolled |
| src/main/java/net/pufferfish/anomaly/block/HextechTeleporterBlock.java:186-197 | `scheduledTick` only calls `tryQueueTeleport` for entities `getOtherEntities` finds in the trigger column, so the left-column branch at 279 never runs. A group whose attempt failed any check at 285-319 stays marked inside for as long as the teleporter stays powered. | powered teleporter with no mesh: a player steps in (marked, no mesh), walks away, meshes are added, and the player steps back in: ignored until power is cut | a group that is no longer in the column is marked as having left, so it is queued again when it returns | not executed | Teleporter.MarkPersistsWhilePowered | Teleporter.ScheduledTick |
