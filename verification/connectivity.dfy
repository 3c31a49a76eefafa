/** The bounded breadth-first scans over cable connectors, diamond meshes and
    terminals: the mesh count that fixes a teleporter's range (and a spire's
    level), and the search for the first reachable terminal. */
module Connectivity {
  import opened Common
  import Terminal

  /** What a block position holds, as far as the scans and the engine care. */
  datatype Cell =
    | Connector
    | DiamondMesh
    | TerminalBlock(terminal: Terminal.TerminalState)
    | LandingPad
    | Other

  /** The world's blocks, read-only for the duration of a scan. */
  type Grid = Pos -> Cell

  /** The cap on dequeued cells (MAX_MESH_SCAN, and the literal 8192). */
  const MaxScan := 8192

  /** Which neighbours a scan enqueues: connectors and meshes for the mesh
      count, connectors and terminals for the terminal search. */
  datatype Admit = MeshAdmit | TerminalAdmit

  predicate Admits(a: Admit, c: Cell) {
    if a == MeshAdmit then c.Connector? || c.DiamondMesh? else c.Connector? || c.TerminalBlock?
  }

  /** Which dequeued cells the mesh count expands: the teleporter tests for
      connector-or-mesh first, the spire expands every dequeued cell. */
  datatype Expansion = ExpandMeshOrConnector | ExpandAlways

  predicate Expands(e: Expansion, c: Cell) {
    e == ExpandAlways || c.Connector? || c.DiamondMesh?
  }

  /** The neighbour of p in the d-th direction of Direction.values(). */
  function Neighbour(p: Pos, d: nat): Pos
    requires d < 6
  {
    Offset(p, Directions[d])
  }

  /** The scan's FIFO queue, written as the array behind it: order lists every
      cell ever enqueued, in enqueue order; the first head of them have been
      dequeued and the rest are still queued. head is also the source's
      safety counter, which counts dequeues. The source's visited set is
      always exactly the set of cells ever enqueued, so membership in order
      stands for it. */
  datatype Scan = Scan(order: seq<Pos>, head: nat)

  predicate QueueEmpty(s: Scan) {
    s.head >= |s.order|
  }

  /** The cells dequeued so far, in order. */
  function Dequeued(s: Scan): seq<Pos>
    requires s.head <= |s.order|
  {
    s.order[..s.head]
  }

  predicate AllAdmitted(g: Grid, admit: Admit, xs: seq<Pos>) {
    forall i :: 0 <= i < |xs| ==> Admits(admit, g(xs[i]))
  }

  /** The head lies within the cells enqueued, and every one of them was
      admitted. */
  predicate Admitted(g: Grid, admit: Admit, s: Scan) {
    s.head <= |s.order| && AllAdmitted(g, admit, s.order)
  }

  /** What every scan state satisfies: no cell was ever enqueued twice and
      every one of them was admitted. */
  predicate ScanInv(g: Grid, admit: Admit, s: Scan) {
    Admitted(g, admit, s) && NoDup(s.order)
  }

  /** The d-th neighbour of the i-th enqueued cell, when admitted, has been
      enqueued too. */
  predicate NeighbourSeen(g: Grid, admit: Admit, xs: seq<Pos>, i: int, d: int) {
    && 0 <= i < |xs| && 0 <= d < 6
    && (Admits(admit, g(Neighbour(xs[i], d))) ==> Neighbour(xs[i], d) in xs)
  }

  /** Every admitted neighbour of a dequeued cell has been seen. */
  predicate Closed(g: Grid, admit: Admit, s: Scan) {
    forall i, d :: 0 <= i < s.head && 0 <= d < 6 ==> NeighbourSeen(g, admit, s.order, i, d)
  }

  /** The six neighbours of p in the order of Direction.values(). */
  function Neighbours(p: Pos): (ns: seq<Pos>)
    ensures |ns| == 6 && forall d :: 0 <= d < 6 ==> ns[d] == Neighbour(p, d)
  {
    [Neighbour(p, 0), Neighbour(p, 1), Neighbour(p, 2), Neighbour(p, 3), Neighbour(p, 4), Neighbour(p, 5)]
  }

  /** The candidates, in order, that an expansion adds to the queue: each one
      not seen yet (the cells added before it count as seen) and admitted. */
  function NewCells(g: Grid, admit: Admit, seen: seq<Pos>, cands: seq<Pos>): seq<Pos>
    decreases |cands|
  {
    if |cands| == 0 then []
    else
      var n := cands[0];
      if n !in seen && Admits(admit, g(n)) then [n] + NewCells(g, admit, seen + [n], cands[1..])
      else NewCells(g, admit, seen, cands[1..])
  }

  /** Dequeue the head of the queue and append the neighbours it adds. */
  function Expand(g: Grid, admit: Admit, s: Scan): Scan
    requires !QueueEmpty(s)
  {
    Scan(s.order + NewCells(g, admit, s.order, Neighbours(s.order[s.head])), s.head + 1)
  }

  /** The initial fill keeps the admitted candidates in order; the source does
      not consult the visited set here. */
  function SeedCells(g: Grid, admit: Admit, cands: seq<Pos>): seq<Pos>
    decreases |cands|
  {
    if |cands| == 0 then []
    else (if Admits(admit, g(cands[0])) then [cands[0]] else []) + SeedCells(g, admit, cands[1..])
  }

  function Start(g: Grid, admit: Admit, origin: Pos): Scan {
    Scan(SeedCells(g, admit, Neighbours(origin)), 0)
  }

  /** Number of diamond-mesh cells in a sequence of positions. */
  function CountMesh(g: Grid, ds: seq<Pos>): nat {
    if |ds| == 0 then 0
    else CountMesh(g, ds[..|ds| - 1]) + (if g(ds[|ds| - 1]).DiamondMesh? then 1 else 0)
  }

  datatype CountResult = CountResult(count: nat, scan: Scan)

  /** The scan after one round of the counting loop: the head dequeued and,
      when expand admits it, expanded. */
  function CountNext(g: Grid, expand: Expansion, s: Scan): Scan
    requires !QueueEmpty(s)
  {
    if Expands(expand, g(s.order[s.head])) then Expand(g, MeshAdmit, s) else s.(head := s.head + 1)
  }

  /** The counting loop: while the queue is non-empty and fewer than MaxScan
      cells have been dequeued, dequeue one, count it if it is a mesh, and
      expand it when expand holds for it. */
  function CountLoop(g: Grid, expand: Expansion, s: Scan, count: nat): CountResult
    decreases MaxScan - s.head
  {
    if QueueEmpty(s) || s.head >= MaxScan then CountResult(count, s)
    else
      var cur := s.order[s.head];
      var count' := if g(cur).DiamondMesh? then count + 1 else count;
      CountLoop(g, expand, CountNext(g, expand, s), count')
  }

  /** countDiamondMeshViaConnectors as the teleporter writes it: a dequeued
      cell is expanded only if it is a connector or a mesh. */
  function TeleporterMeshScan(g: Grid, origin: Pos): CountResult {
    CountLoop(g, ExpandMeshOrConnector, Start(g, MeshAdmit, origin), 0)
  }

  /** countDiamondMeshViaConnectors as the spire writes it: every dequeued
      cell is expanded. */
  function SpireMeshScan(g: Grid, origin: Pos): CountResult {
    CountLoop(g, ExpandAlways, Start(g, MeshAdmit, origin), 0)
  }

  /** The teleporter's mesh count: distinct meshes reachable from the origin
      through connectors and meshes, at most MaxScan of them, and all of them
      when the scan drains its queue. */
  function TeleporterMeshCount(g: Grid, origin: Pos): (n: nat)
    ensures n <= MaxScan
    ensures var r := TeleporterMeshScan(g, origin);
      && r.scan.head <= |r.scan.order|
      && n == |MeshesIn(g, Dequeued(r.scan))|
      && (forall x :: x in MeshesIn(g, Dequeued(r.scan)) ==> Reached(g, MeshAdmit, origin, x))
      && (QueueEmpty(r.scan) ==> forall x :: g(x).DiamondMesh? && Reached(g, MeshAdmit, origin, x) ==> x in MeshesIn(g, Dequeued(r.scan)))
  {
    MeshScanMeaning(g, origin);
    TeleporterMeshScan(g, origin).count
  }

  /** The spire's mesh count is the teleporter's: the extra test the
      teleporter makes before expanding never fails. */
  function SpireMeshCount(g: Grid, origin: Pos): (n: nat)
    ensures n == TeleporterMeshCount(g, origin)
  {
    StartInv(g, MeshAdmit, origin);
    ExpandTestIrrelevant(g, Start(g, MeshAdmit, origin), 0);
    SpireMeshScan(g, origin).count
  }

  datatype TerminalResult = TerminalResult(hit: Option<Pos>, scan: Scan)

  /** The terminal search loop: stops at the first dequeued terminal; only
      connectors are expanded. */
  function TerminalLoop(g: Grid, s: Scan): TerminalResult
    decreases MaxScan - s.head
  {
    if QueueEmpty(s) || s.head >= MaxScan then TerminalResult(None, s)
    else
      var cur := s.order[s.head];
      var s' := s.(head := s.head + 1);
      if g(cur).TerminalBlock? then TerminalResult(Some(cur), s')
      else TerminalLoop(g, TerminalNext(g, s))
  }

  function TerminalSearch(g: Grid, origin: Pos): TerminalResult {
    TerminalLoop(g, Start(g, TerminalAdmit, origin))
  }

  /** getTerminalPadViaConnectors: the selected pad of the first terminal
      found, or null when none is found (or that terminal selects nothing). */
  function TerminalPadViaConnectors(g: Grid, origin: Pos): (pad: Option<Pos>)
    ensures var r := TerminalSearch(g, origin);
      pad.Some? ==>
        && r.hit.Some?
        && g(r.hit.value).TerminalBlock?
        && Terminal.SelectedPad(g(r.hit.value).terminal) == pad
        && Reached(g, TerminalAdmit, origin, r.hit.value)
    ensures var r := TerminalSearch(g, origin);
      r.hit.Some? && g(r.hit.value).TerminalBlock? ==> pad == Terminal.SelectedPad(g(r.hit.value).terminal)
  {
    var r := TerminalSearch(g, origin);
    TerminalSearchHit(g, origin);
    if r.hit.None? then None
    else match g(r.hit.value)
      case TerminalBlock(t) => Terminal.SelectedPad(t)
      case _ => None
  }


  /* ---------------- one step ---------------- */

  lemma NoDupPrefix(xs: seq<Pos>, n: nat)
    requires NoDup(xs) && n <= |xs|
    ensures NoDup(xs[..n])
  {
    assert forall i :: 0 <= i < n ==> xs[..n][i] == xs[i];
  }

  lemma PrefixMember(a: seq<Pos>, b: seq<Pos>, x: Pos)
    requires a <= b && x in a
    ensures x in b
  {
    var j :| 0 <= j < |a| && a[j] == x;
    assert b[j] == x;
  }

  lemma PrefixTrans(a: seq<Pos>, b: seq<Pos>, c: seq<Pos>)
    requires a <= b && b <= c
    ensures a <= c
  {
    assert forall j :: 0 <= j < |a| ==> a[j] == b[j] == c[j];
  }

  lemma AppendNoDup(xs: seq<Pos>, n: Pos)
    requires NoDup(xs) && n !in xs
    ensures NoDup(xs + [n])
  {
    var ys := xs + [n];
    forall i, j | 0 <= i < j < |ys|
      ensures ys[i] != ys[j]
    {
      if j == |xs| {
        assert ys[i] == xs[i];
      }
    }
  }

  lemma AllAdmittedConcat(g: Grid, admit: Admit, xs: seq<Pos>, ys: seq<Pos>)
    requires AllAdmitted(g, admit, xs) && AllAdmitted(g, admit, ys)
    ensures AllAdmitted(g, admit, xs + ys)
  {
    forall k | 0 <= k < |xs + ys|
      ensures Admits(admit, g((xs + ys)[k]))
    {
      if k < |xs| {
        assert (xs + ys)[k] == xs[k];
      } else {
        assert (xs + ys)[k] == ys[k - |xs|];
      }
    }
  }

  /** Every cell an expansion adds is admitted. */
  lemma {:induction false} NewCellsAdmitted(g: Grid, admit: Admit, seen: seq<Pos>, cands: seq<Pos>)
    ensures AllAdmitted(g, admit, NewCells(g, admit, seen, cands))
    decreases |cands|
  {
    if |cands| > 0 {
      var n := cands[0];
      if n !in seen && Admits(admit, g(n)) {
        NewCellsAdmitted(g, admit, seen + [n], cands[1..]);
        AllAdmittedConcat(g, admit, [n], NewCells(g, admit, seen + [n], cands[1..]));
      } else {
        NewCellsAdmitted(g, admit, seen, cands[1..]);
      }
    }
  }

  /** An expansion adds only cells not seen before, each once. */
  lemma {:induction false} NewCellsFresh(g: Grid, admit: Admit, seen: seq<Pos>, cands: seq<Pos>)
    requires NoDup(seen)
    ensures NoDup(seen + NewCells(g, admit, seen, cands))
    decreases |cands|
  {
    if |cands| > 0 {
      var n := cands[0];
      if n !in seen && Admits(admit, g(n)) {
        AppendNoDup(seen, n);
        NewCellsFresh(g, admit, seen + [n], cands[1..]);
        assert seen + NewCells(g, admit, seen, cands) == (seen + [n]) + NewCells(g, admit, seen + [n], cands[1..]);
      } else {
        NewCellsFresh(g, admit, seen, cands[1..]);
      }
    }
  }

  /** After an expansion every admitted candidate has been seen. */
  lemma {:induction false} NewCellsCover(g: Grid, admit: Admit, seen: seq<Pos>, cands: seq<Pos>)
    ensures forall k :: 0 <= k < |cands| && Admits(admit, g(cands[k])) ==>
      cands[k] in seen + NewCells(g, admit, seen, cands)
    decreases |cands|
  {
    if |cands| > 0 {
      var n := cands[0];
      var all := seen + NewCells(g, admit, seen, cands);
      var rest := cands[1..];
      if n !in seen && Admits(admit, g(n)) {
        NewCellsCover(g, admit, seen + [n], rest);
        assert all == (seen + [n]) + NewCells(g, admit, seen + [n], rest);
        assert all[|seen|] == n;
      } else {
        NewCellsCover(g, admit, seen, rest);
        assert all == seen + NewCells(g, admit, seen, rest);
        if n in seen {
          var j :| 0 <= j < |seen| && seen[j] == n;
          assert all[j] == n;
        }
      }
      forall k | 1 <= k < |cands| && Admits(admit, g(cands[k]))
        ensures cands[k] in all
      {
        assert cands[k] == rest[k - 1];
      }
    }
  }

  /** Expanding the head keeps every enqueued cell admitted. */
  lemma ExpandAdmitted(g: Grid, admit: Admit, s: Scan)
    requires Admitted(g, admit, s) && !QueueEmpty(s)
    ensures Admitted(g, admit, Expand(g, admit, s))
  {
    var cands := Neighbours(s.order[s.head]);
    NewCellsAdmitted(g, admit, s.order, cands);
    AllAdmittedConcat(g, admit, s.order, NewCells(g, admit, s.order, cands));
  }

  /** Expanding the head never enqueues a cell twice. */
  lemma ExpandNoDup(g: Grid, admit: Admit, s: Scan)
    requires NoDup(s.order) && !QueueEmpty(s)
    ensures NoDup(Expand(g, admit, s).order)
  {
    NewCellsFresh(g, admit, s.order, Neighbours(s.order[s.head]));
  }

  /** Expanding the head closes it: afterwards every dequeued cell has had
      its admitted neighbours enqueued. */
  lemma ExpandClosed(g: Grid, admit: Admit, s: Scan)
    requires Closed(g, admit, s) && !QueueEmpty(s)
    ensures Closed(g, admit, Expand(g, admit, s))
  {
    var e := Expand(g, admit, s);
    var cands := Neighbours(s.order[s.head]);
    NewCellsCover(g, admit, s.order, cands);
    forall i, d | 0 <= i < e.head && 0 <= d < 6
      ensures NeighbourSeen(g, admit, e.order, i, d)
    {
      assert e.order[i] == s.order[i];
      if i < s.head {
        if Admits(admit, g(Neighbour(s.order[i], d))) {
          assert NeighbourSeen(g, admit, s.order, i, d);
          PrefixMember(s.order, e.order, Neighbour(s.order[i], d));
        }
      } else {
        assert cands[d] == Neighbour(s.order[i], d);
      }
    }
  }

  /** The seed fill is what an expansion would add to an empty queue when the
      candidates are distinct, so the skipped visited check never matters. */
  lemma {:induction false} SeedIsNewCells(g: Grid, admit: Admit, seen: seq<Pos>, cands: seq<Pos>)
    requires NoDup(cands)
    requires forall q :: q in seen ==> q !in cands
    ensures SeedCells(g, admit, cands) == NewCells(g, admit, seen, cands)
    decreases |cands|
  {
    if |cands| > 0 {
      var n := cands[0];
      assert n !in seen;
      var rest := cands[1..];
      assert NoDup(rest) by {
        forall i, j | 0 <= i < j < |rest|
          ensures rest[i] != rest[j]
        {
          assert rest[i] == cands[i + 1] && rest[j] == cands[j + 1];
        }
      }
      if Admits(admit, g(n)) {
        SeedIsNewCells(g, admit, seen + [n], rest);
      } else {
        SeedIsNewCells(g, admit, seen, rest);
      }
    }
  }

  /** The seeded scan satisfies the invariant, has dequeued nothing, and has
      enqueued every admitted neighbour of the origin. */
  lemma StartInv(g: Grid, admit: Admit, origin: Pos)
    ensures ScanInv(g, admit, Start(g, admit, origin))
    ensures Start(g, admit, origin).head == 0
    ensures forall d :: 0 <= d < 6 && Admits(admit, g(Neighbour(origin, d))) ==>
      Neighbour(origin, d) in Start(g, admit, origin).order
  {
    var cands := Neighbours(origin);
    NeighboursDistinct(origin);
    assert NoDup(cands);
    SeedIsNewCells(g, admit, [], cands);
    NewCellsAdmitted(g, admit, [], cands);
    NewCellsFresh(g, admit, [], cands);
    NewCellsCover(g, admit, [], cands);
    assert [] + NewCells(g, admit, [], cands) == NewCells(g, admit, [], cands);
  }

  /* ---------------- the mesh count ---------------- */

  /** The counting loop keeps every enqueued cell admitted, stays within the
      budget, only appends, and stops only on an empty queue or an exhausted
      budget. */
  lemma {:induction false} CountLoopAdmitted(g: Grid, expand: Expansion, s: Scan, count: nat)
    requires Admitted(g, MeshAdmit, s) && s.head <= MaxScan
    ensures Admitted(g, MeshAdmit, CountLoop(g, expand, s, count).scan)
    ensures s.order <= CountLoop(g, expand, s, count).scan.order
    ensures var r := CountLoop(g, expand, s, count);
      r.scan.head <= MaxScan && (QueueEmpty(r.scan) || r.scan.head == MaxScan)
    decreases MaxScan - s.head
  {
    if !QueueEmpty(s) && s.head < MaxScan {
      var e := CountNext(g, expand, s);
      if Expands(expand, g(s.order[s.head])) {
        ExpandAdmitted(g, MeshAdmit, s);
      }
      CountLoopAdmitted(g, expand, e, if g(s.order[s.head]).DiamondMesh? then count + 1 else count);
      PrefixTrans(s.order, e.order, CountLoop(g, expand, s, count).scan.order);
    }
  }

  /** The counting loop never enqueues a cell twice. */
  lemma {:induction false} CountLoopNoDup(g: Grid, expand: Expansion, s: Scan, count: nat)
    requires NoDup(s.order)
    ensures NoDup(CountLoop(g, expand, s, count).scan.order)
    decreases MaxScan - s.head
  {
    if !QueueEmpty(s) && s.head < MaxScan {
      if Expands(expand, g(s.order[s.head])) {
        ExpandNoDup(g, MeshAdmit, s);
      }
      CountLoopNoDup(g, expand, CountNext(g, expand, s), if g(s.order[s.head]).DiamondMesh? then count + 1 else count);
    }
  }

  /** The counting loop expands every cell it dequeues: every admitted
      neighbour of a dequeued cell ends up enqueued. */
  lemma {:induction false} CountLoopClosed(g: Grid, expand: Expansion, s: Scan, count: nat)
    requires Admitted(g, MeshAdmit, s) && Closed(g, MeshAdmit, s)
    ensures Closed(g, MeshAdmit, CountLoop(g, expand, s, count).scan)
    decreases MaxScan - s.head
  {
    if !QueueEmpty(s) && s.head < MaxScan {
      assert Admits(MeshAdmit, g(s.order[s.head]));
      ExpandAdmitted(g, MeshAdmit, s);
      ExpandClosed(g, MeshAdmit, s);
      CountLoopClosed(g, expand, Expand(g, MeshAdmit, s), if g(s.order[s.head]).DiamondMesh? then count + 1 else count);
    }
  }

  /** The running count is the number of meshes among the dequeued cells. */
  lemma {:induction false} CountLoopCount(g: Grid, expand: Expansion, s: Scan, count: nat)
    requires s.head <= |s.order| && count == CountMesh(g, Dequeued(s))
    ensures var r := CountLoop(g, expand, s, count);
      r.scan.head <= |r.scan.order| && r.count == CountMesh(g, Dequeued(r.scan))
    decreases MaxScan - s.head
  {
    if !QueueEmpty(s) && s.head < MaxScan {
      var e := CountNext(g, expand, s);
      var count' := if g(s.order[s.head]).DiamondMesh? then count + 1 else count;
      assert e.head == s.head + 1 && s.order <= e.order;
      assert Dequeued(e) == s.order[..s.head + 1];
      assert Dequeued(e)[..s.head] == Dequeued(s);
      CountLoopCount(g, expand, e, count');
    }
  }

  lemma {:induction false} CountMeshAtMost(g: Grid, ds: seq<Pos>)
    ensures CountMesh(g, ds) <= |ds|
  {
    if |ds| > 0 {
      CountMeshAtMost(g, ds[..|ds| - 1]);
    }
  }

  /** Both mesh scans dequeue at most MaxScan cells, never enqueue a cell twice,
      enqueue only connectors and meshes, count exactly the dequeued meshes,
      and have enqueued every connector or mesh next to the origin or to a
      dequeued cell. */
  lemma MeshScanSpec(g: Grid, origin: Pos, expand: Expansion)
    ensures ScanInv(g, MeshAdmit, CountLoop(g, expand, Start(g, MeshAdmit, origin), 0).scan)
    ensures Closed(g, MeshAdmit, CountLoop(g, expand, Start(g, MeshAdmit, origin), 0).scan)
    ensures var r := CountLoop(g, expand, Start(g, MeshAdmit, origin), 0);
      && r.scan.head <= MaxScan
      && r.count == CountMesh(g, Dequeued(r.scan))
      && r.count <= MaxScan
      && (QueueEmpty(r.scan) || r.scan.head == MaxScan)
    ensures var r := CountLoop(g, expand, Start(g, MeshAdmit, origin), 0);
      forall d :: 0 <= d < 6 && Admits(MeshAdmit, g(Neighbour(origin, d))) ==> Neighbour(origin, d) in r.scan.order
  {
    StartInv(g, MeshAdmit, origin);
    var s := Start(g, MeshAdmit, origin);
    assert Dequeued(s) == [];
    CountLoopAdmitted(g, expand, s, 0);
    CountLoopNoDup(g, expand, s, 0);
    CountLoopClosed(g, expand, s, 0);
    CountLoopCount(g, expand, s, 0);
    var r := CountLoop(g, expand, s, 0);
    CountMeshAtMost(g, Dequeued(r.scan));
    forall d | 0 <= d < 6 && Admits(MeshAdmit, g(Neighbour(origin, d)))
      ensures Neighbour(origin, d) in r.scan.order
    {
      PrefixMember(s.order, r.scan.order, Neighbour(origin, d));
    }
  }

  /** The teleporter's extra "is connector or mesh" test before expanding is
      always true, since only such cells are ever enqueued: its loop and the
      spire's compute the same thing. */
  lemma {:induction false} ExpandTestIrrelevant(g: Grid, s: Scan, count: nat)
    requires Admitted(g, MeshAdmit, s)
    ensures CountLoop(g, ExpandMeshOrConnector, s, count) == CountLoop(g, ExpandAlways, s, count)
    decreases MaxScan - s.head
  {
    if !QueueEmpty(s) && s.head < MaxScan {
      assert Admits(MeshAdmit, g(s.order[s.head]));
      assert CountNext(g, ExpandMeshOrConnector, s) == CountNext(g, ExpandAlways, s);
      ExpandAdmitted(g, MeshAdmit, s);
      ExpandTestIrrelevant(g, Expand(g, MeshAdmit, s), if g(s.order[s.head]).DiamondMesh? then count + 1 else count);
    }
  }

  lemma TeleporterAndSpireCountsAgree(g: Grid, origin: Pos)
    ensures TeleporterMeshCount(g, origin) == SpireMeshCount(g, origin)
  {
    StartInv(g, MeshAdmit, origin);
    ExpandTestIrrelevant(g, Start(g, MeshAdmit, origin), 0);
  }

  /* ---------------- reference: the connected component ---------------- */

  /** A chain of admitted cells that starts next to origin and moves one face
      at a time. */
  predicate AdmittedPath(g: Grid, admit: Admit, origin: Pos, path: seq<Pos>) {
    && |path| > 0
    && Adjacent(origin, path[0])
    && (forall k :: 0 <= k < |path| ==> Admits(admit, g(path[k])))
    && (forall k :: 0 <= k < |path| - 1 ==> Adjacent(path[k], path[k + 1]))
  }

  /** b shares a face with a. */
  predicate Adjacent(a: Pos, b: Pos) {
    b in Neighbours(a)
  }

  /** A drained, closed scan that has enqueued the origin's admitted
      neighbours contains every admitted path from the origin. */
  lemma {:induction false} DrainedScanContainsPath(g: Grid, admit: Admit, origin: Pos, s: Scan, path: seq<Pos>, k: nat)
    requires Closed(g, admit, s) && |s.order| <= s.head
    requires forall d :: 0 <= d < 6 && Admits(admit, g(Neighbour(origin, d))) ==> Neighbour(origin, d) in s.order
    requires AdmittedPath(g, admit, origin, path)
    requires k < |path|
    ensures path[k] in s.order
  {
    if k > 0 {
      DrainedScanContainsPath(g, admit, origin, s, path, k - 1);
      var i :| 0 <= i < |s.order| && s.order[i] == path[k - 1];
      var d :| 0 <= d < 6 && Neighbours(path[k - 1])[d] == path[k];
      assert NeighbourSeen(g, admit, s.order, i, d);
    }
  }

  /** A drained, closed scan that has enqueued the origin's admitted
      neighbours contains every cell reached from the origin. */
  lemma DrainedScanHasReached(g: Grid, admit: Admit, origin: Pos, s: Scan)
    requires Closed(g, admit, s) && |s.order| <= s.head
    requires forall d :: 0 <= d < 6 && Admits(admit, g(Neighbour(origin, d))) ==> Neighbour(origin, d) in s.order
    ensures forall x :: Reached(g, admit, origin, x) ==> x in s.order
  {
    forall x | Reached(g, admit, origin, x)
      ensures x in s.order
    {
      var path :| ScanPath(g, admit, origin, path) && path[|path| - 1] == x;
      DrainedScanContainsPath(g, admit, origin, s, path, |path| - 1);
    }
  }

  /** The cells a scan expands once dequeued: connectors and meshes for the
      mesh count, connectors only for the terminal search. */
  predicate Inner(admit: Admit, c: Cell) {
    if admit == MeshAdmit then c.Connector? || c.DiamondMesh? else c.Connector?
  }

  /** An admitted path from the origin along which a scan can travel: every
      cell before the last is one the scan expands. For the mesh count this
      is any admitted path. */
  ghost predicate ScanPath(g: Grid, admit: Admit, origin: Pos, path: seq<Pos>) {
    && AdmittedPath(g, admit, origin, path)
    && forall k :: 0 <= k < |path| - 1 ==> Inner(admit, g(path[k]))
  }

  /** x is the last cell of some scan path from the origin. */
  ghost predicate Reached(g: Grid, admit: Admit, origin: Pos, x: Pos) {
    exists path :: ScanPath(g, admit, origin, path) && path[|path| - 1] == x
  }

  ghost predicate AllReached(g: Grid, admit: Admit, origin: Pos, xs: seq<Pos>) {
    forall i :: 0 <= i < |xs| ==> Reached(g, admit, origin, xs[i])
  }

  lemma AllReachedConcat(g: Grid, admit: Admit, origin: Pos, xs: seq<Pos>, ys: seq<Pos>)
    requires AllReached(g, admit, origin, xs) && AllReached(g, admit, origin, ys)
    ensures AllReached(g, admit, origin, xs + ys)
  {
    forall k | 0 <= k < |xs + ys|
      ensures Reached(g, admit, origin, (xs + ys)[k])
    {
      if k < |xs| {
        assert (xs + ys)[k] == xs[k];
      } else {
        assert (xs + ys)[k] == ys[k - |xs|];
      }
    }
  }

  /** A scan path ending in a cell the scan expands extends to any admitted
      neighbour of that cell. */
  lemma ExtendPath(g: Grid, admit: Admit, origin: Pos, path: seq<Pos>, n: Pos)
    requires ScanPath(g, admit, origin, path) && Inner(admit, g(path[|path| - 1]))
    requires Adjacent(path[|path| - 1], n) && Admits(admit, g(n))
    ensures Reached(g, admit, origin, n)
  {
    var q := path + [n];
    assert q[0] == path[0];
    forall k | 0 <= k < |q|
      ensures Admits(admit, g(q[k]))
    {
      if k < |path| {
        assert q[k] == path[k];
      }
    }
    forall k | 0 <= k < |q| - 1
      ensures Adjacent(q[k], q[k + 1]) && Inner(admit, g(q[k]))
    {
      assert q[k] == path[k];
      if k < |path| - 1 {
        assert q[k + 1] == path[k + 1];
      }
    }
    assert ScanPath(g, admit, origin, q);
    assert q[|q| - 1] == n;
  }

  /** Every cell an expansion of a reached, expandable cell adds is reached. */
  lemma {:induction false} NewCellsReached(g: Grid, admit: Admit, origin: Pos, p: Pos, seen: seq<Pos>, cands: seq<Pos>)
    requires Reached(g, admit, origin, p) && Inner(admit, g(p))
    requires forall k :: 0 <= k < |cands| ==> Adjacent(p, cands[k])
    ensures AllReached(g, admit, origin, NewCells(g, admit, seen, cands))
    decreases |cands|
  {
    if |cands| > 0 {
      var n := cands[0];
      var rest := cands[1..];
      assert forall k :: 0 <= k < |rest| ==> rest[k] == cands[k + 1];
      if n !in seen && Admits(admit, g(n)) {
        NewCellsReached(g, admit, origin, p, seen + [n], rest);
        var path :| ScanPath(g, admit, origin, path) && path[|path| - 1] == p;
        ExtendPath(g, admit, origin, path, n);
        AllReachedConcat(g, admit, origin, [n], NewCells(g, admit, seen + [n], rest));
      } else {
        NewCellsReached(g, admit, origin, p, seen, rest);
      }
    }
  }

  /** Expanding a reached head that the scan expands adds only reached cells. */
  lemma ExpandReached(g: Grid, admit: Admit, origin: Pos, s: Scan)
    requires !QueueEmpty(s) && AllReached(g, admit, origin, s.order)
    requires Inner(admit, g(s.order[s.head]))
    ensures AllReached(g, admit, origin, Expand(g, admit, s).order)
  {
    var p := s.order[s.head];
    var cands := Neighbours(p);
    assert forall k :: 0 <= k < |cands| ==> Adjacent(p, cands[k]);
    NewCellsReached(g, admit, origin, p, s.order, cands);
    AllReachedConcat(g, admit, origin, s.order, NewCells(g, admit, s.order, cands));
  }

  /** Every seeded cell is an admitted neighbour of the origin, so reached. */
  lemma {:induction false} SeedReached(g: Grid, admit: Admit, origin: Pos, cands: seq<Pos>)
    requires forall k :: 0 <= k < |cands| ==> Adjacent(origin, cands[k])
    ensures AllReached(g, admit, origin, SeedCells(g, admit, cands))
    decreases |cands|
  {
    if |cands| > 0 {
      var rest := cands[1..];
      assert forall k :: 0 <= k < |rest| ==> rest[k] == cands[k + 1];
      SeedReached(g, admit, origin, rest);
      if Admits(admit, g(cands[0])) {
        var path := [cands[0]];
        assert ScanPath(g, admit, origin, path);
        AllReachedConcat(g, admit, origin, [cands[0]], SeedCells(g, admit, rest));
      }
    }
  }

  lemma StartReached(g: Grid, admit: Admit, origin: Pos)
    ensures AllReached(g, admit, origin, Start(g, admit, origin).order)
  {
    var cands := Neighbours(origin);
    assert forall k :: 0 <= k < |cands| ==> Adjacent(origin, cands[k]);
    SeedReached(g, admit, origin, cands);
  }

  /** The counting loop enqueues only cells reached from the origin. */
  lemma {:induction false} CountLoopReached(g: Grid, expand: Expansion, origin: Pos, s: Scan, count: nat)
    requires Admitted(g, MeshAdmit, s) && AllReached(g, MeshAdmit, origin, s.order)
    ensures AllReached(g, MeshAdmit, origin, CountLoop(g, expand, s, count).scan.order)
    decreases MaxScan - s.head
  {
    if !QueueEmpty(s) && s.head < MaxScan {
      assert Admits(MeshAdmit, g(s.order[s.head]));
      if Expands(expand, g(s.order[s.head])) {
        ExpandAdmitted(g, MeshAdmit, s);
        ExpandReached(g, MeshAdmit, origin, s);
      }
      CountLoopReached(g, expand, origin, CountNext(g, expand, s), if g(s.order[s.head]).DiamondMesh? then count + 1 else count);
    }
  }

  /** The meshes among a list of positions. */
  function MeshesIn(g: Grid, xs: seq<Pos>): set<Pos> {
    set x | x in xs && g(x).DiamondMesh?
  }

  /** Without repeats, CountMesh counts distinct meshes. */
  lemma {:induction false} CountMeshIsCard(g: Grid, xs: seq<Pos>)
    requires NoDup(xs)
    ensures CountMesh(g, xs) == |MeshesIn(g, xs)|
  {
    if |xs| == 0 {
      assert MeshesIn(g, xs) == {};
    } else {
      var ys := xs[..|xs| - 1];
      var z := xs[|xs| - 1];
      assert xs == ys + [z];
      assert NoDup(ys) by {
        forall i, j | 0 <= i < j < |ys| ensures ys[i] != ys[j] {
          assert ys[i] == xs[i] && ys[j] == xs[j];
        }
      }
      assert z !in ys by {
        forall i | 0 <= i < |ys| ensures ys[i] != z {
          assert ys[i] == xs[i];
        }
      }
      CountMeshIsCard(g, ys);
      if g(z).DiamondMesh? {
        assert MeshesIn(g, xs) == MeshesIn(g, ys) + {z};
      } else {
        assert MeshesIn(g, xs) == MeshesIn(g, ys);
      }
    }
  }

  /** The teleporter's mesh scan enqueues only cells reachable from the
      origin through connectors and meshes. Once it drains its queue within
      the budget it has dequeued exactly those cells, each once, and its
      count is the number of distinct meshes among them. */
  lemma MeshCountCoversComponent(g: Grid, origin: Pos)
    ensures var r := TeleporterMeshScan(g, origin);
      AllReached(g, MeshAdmit, origin, r.scan.order)
    ensures var r := TeleporterMeshScan(g, origin);
      QueueEmpty(r.scan) ==>
        && r.scan.head == |r.scan.order|
        && NoDup(r.scan.order)
        && (forall x :: x in r.scan.order <==> Reached(g, MeshAdmit, origin, x))
        && r.count == |MeshesIn(g, r.scan.order)|
  {
    MeshScanSpec(g, origin, ExpandMeshOrConnector);
    StartInv(g, MeshAdmit, origin);
    StartReached(g, MeshAdmit, origin);
    CountLoopReached(g, ExpandMeshOrConnector, origin, Start(g, MeshAdmit, origin), 0);
    var r := TeleporterMeshScan(g, origin);
    if QueueEmpty(r.scan) {
      assert Dequeued(r.scan) == r.scan.order;
      CountMeshIsCard(g, r.scan.order);
      DrainedScanHasReached(g, MeshAdmit, origin, r.scan);
      forall x | x in r.scan.order
        ensures Reached(g, MeshAdmit, origin, x)
      {
        var i :| 0 <= i < |r.scan.order| && r.scan.order[i] == x;
      }
    }
  }

  /** What the teleporter's count means: the number of distinct meshes it
      dequeued, each reachable from the origin, and every reachable mesh
      once the queue drains. */
  lemma MeshScanMeaning(g: Grid, origin: Pos)
    ensures var r := TeleporterMeshScan(g, origin);
      && r.count <= MaxScan
      && r.scan.head <= |r.scan.order|
      && r.count == |MeshesIn(g, Dequeued(r.scan))|
      && (forall x :: x in MeshesIn(g, Dequeued(r.scan)) ==> Reached(g, MeshAdmit, origin, x))
      && (QueueEmpty(r.scan) ==> forall x :: g(x).DiamondMesh? && Reached(g, MeshAdmit, origin, x) ==> x in MeshesIn(g, Dequeued(r.scan)))
  {
    var r := TeleporterMeshScan(g, origin);
    MeshScanSpec(g, origin, ExpandMeshOrConnector);
    MeshCountCoversComponent(g, origin);
    NoDupPrefix(r.scan.order, r.scan.head);
    CountMeshIsCard(g, Dequeued(r.scan));
    forall x | x in MeshesIn(g, Dequeued(r.scan))
      ensures Reached(g, MeshAdmit, origin, x)
    {
      var i :| 0 <= i < r.scan.head && r.scan.order[i] == x;
    }
    if QueueEmpty(r.scan) {
      assert Dequeued(r.scan) == r.scan.order;
    }
  }

  /* ---------------- the terminal search ---------------- */

  /** The scan after one round of the terminal search that did not hit. */
  function TerminalNext(g: Grid, s: Scan): Scan
    requires !QueueEmpty(s)
  {
    if g(s.order[s.head]).Connector? then Expand(g, TerminalAdmit, s) else s.(head := s.head + 1)
  }

  /** No dequeued cell before index k is a terminal. */
  predicate NoTerminalBefore(g: Grid, ds: seq<Pos>, k: int) {
    forall i :: 0 <= i < k && i < |ds| ==> !g(ds[i]).TerminalBlock?
  }

  /** The terminal search keeps every enqueued cell admitted and only
      appends to the queue. */
  lemma {:induction false} TerminalLoopAdmitted(g: Grid, s: Scan)
    requires Admitted(g, TerminalAdmit, s)
    ensures Admitted(g, TerminalAdmit, TerminalLoop(g, s).scan)
    ensures s.order <= TerminalLoop(g, s).scan.order
    decreases MaxScan - s.head
  {
    if !QueueEmpty(s) && s.head < MaxScan && !g(s.order[s.head]).TerminalBlock? {
      assert Admits(TerminalAdmit, g(s.order[s.head]));
      ExpandAdmitted(g, TerminalAdmit, s);
      assert TerminalLoop(g, s) == TerminalLoop(g, TerminalNext(g, s));
      TerminalLoopAdmitted(g, TerminalNext(g, s));
      PrefixTrans(s.order, TerminalNext(g, s).order, TerminalLoop(g, s).scan.order);
    }
  }

  /** The terminal search stays within the budget, stops without a hit only
      on an empty queue or an exhausted budget, and a hit is the terminal it
      dequeued last. */
  lemma {:induction false} TerminalLoopStops(g: Grid, s: Scan)
    requires s.head <= |s.order| && s.head <= MaxScan
    ensures TerminalLoop(g, s).scan.head <= MaxScan
    ensures var r := TerminalLoop(g, s);
      r.hit.None? ==> QueueEmpty(r.scan) || r.scan.head == MaxScan
    ensures var r := TerminalLoop(g, s);
      r.hit.Some? ==>
        && 0 < r.scan.head <= |r.scan.order|
        && r.hit.value == r.scan.order[r.scan.head - 1]
        && g(r.hit.value).TerminalBlock?
    decreases MaxScan - s.head
  {
    if !QueueEmpty(s) && s.head < MaxScan && !g(s.order[s.head]).TerminalBlock? {
      assert TerminalLoop(g, s) == TerminalLoop(g, TerminalNext(g, s));
      TerminalLoopStops(g, TerminalNext(g, s));
    }
  }

  /** The terminal search never enqueues a cell twice. */
  lemma {:induction false} TerminalLoopNoDup(g: Grid, s: Scan)
    requires NoDup(s.order)
    ensures NoDup(TerminalLoop(g, s).scan.order)
    decreases MaxScan - s.head
  {
    if !QueueEmpty(s) && s.head < MaxScan && !g(s.order[s.head]).TerminalBlock? {
      if g(s.order[s.head]).Connector? {
        ExpandNoDup(g, TerminalAdmit, s);
      }
      assert TerminalLoop(g, s) == TerminalLoop(g, TerminalNext(g, s));
      TerminalLoopNoDup(g, TerminalNext(g, s));
    }
  }

  /** Without a hit, every admitted neighbour of a dequeued cell ends up
      enqueued. */
  lemma {:induction false} TerminalLoopClosed(g: Grid, s: Scan)
    requires Admitted(g, TerminalAdmit, s) && Closed(g, TerminalAdmit, s)
    ensures TerminalLoop(g, s).hit.None? ==> Closed(g, TerminalAdmit, TerminalLoop(g, s).scan)
    decreases MaxScan - s.head
  {
    if !QueueEmpty(s) && s.head < MaxScan && !g(s.order[s.head]).TerminalBlock? {
      assert Admits(TerminalAdmit, g(s.order[s.head]));
      ExpandAdmitted(g, TerminalAdmit, s);
      ExpandClosed(g, TerminalAdmit, s);
      assert TerminalLoop(g, s) == TerminalLoop(g, Expand(g, TerminalAdmit, s));
      TerminalLoopClosed(g, Expand(g, TerminalAdmit, s));
    }
  }

  /** The search stops at the first terminal: no cell dequeued before the hit
      (or at all, without one) is a terminal. */
  lemma {:induction false} TerminalLoopFirst(g: Grid, s: Scan)
    requires NoTerminalBefore(g, s.order, s.head)
    ensures var r := TerminalLoop(g, s);
      NoTerminalBefore(g, r.scan.order, if r.hit.Some? then r.scan.head - 1 else r.scan.head)
    decreases MaxScan - s.head
  {
    if !QueueEmpty(s) && s.head < MaxScan && !g(s.order[s.head]).TerminalBlock? {
      var e := TerminalNext(g, s);
      assert e.head == s.head + 1 && s.order <= e.order;
      forall i | 0 <= i < e.head
        ensures !g(e.order[i]).TerminalBlock?
      {
        assert e.order[i] == s.order[i];
      }
      TerminalLoopFirst(g, e);
    }
  }

  /** The terminal search enqueues only cells reached from the origin
      through connectors. */
  lemma {:induction false} TerminalLoopReached(g: Grid, origin: Pos, s: Scan)
    requires s.head <= |s.order| && AllReached(g, TerminalAdmit, origin, s.order)
    ensures AllReached(g, TerminalAdmit, origin, TerminalLoop(g, s).scan.order)
    decreases MaxScan - s.head
  {
    if !QueueEmpty(s) && s.head < MaxScan && !g(s.order[s.head]).TerminalBlock? {
      if g(s.order[s.head]).Connector? {
        ExpandReached(g, TerminalAdmit, origin, s);
      }
      assert TerminalLoop(g, s) == TerminalLoop(g, TerminalNext(g, s));
      TerminalLoopReached(g, origin, TerminalNext(g, s));
    }
  }

  /** A hit of the terminal search is a terminal it dequeued last, at the
      end of a path of connectors from the origin. */
  lemma TerminalSearchHit(g: Grid, origin: Pos)
    ensures var r := TerminalSearch(g, origin);
      r.hit.Some? ==>
        && 0 < r.scan.head <= |r.scan.order|
        && r.hit.value == r.scan.order[r.scan.head - 1]
        && g(r.hit.value).TerminalBlock?
        && Reached(g, TerminalAdmit, origin, r.hit.value)
  {
    var s := Start(g, TerminalAdmit, origin);
    StartInv(g, TerminalAdmit, origin);
    StartReached(g, TerminalAdmit, origin);
    TerminalLoopStops(g, s);
    TerminalLoopReached(g, origin, s);
  }

  /** The search dequeues terminals only at its hit: every cell it dequeued
      before that terminal is a connector; the hit ends a path of connectors
      from the origin; and when it finds nothing with the queue drained, no
      terminal is reachable through connectors. */
  lemma TerminalSearchSpec(g: Grid, origin: Pos, path: seq<Pos>)
    ensures ScanInv(g, TerminalAdmit, TerminalSearch(g, origin).scan)
    ensures TerminalSearch(g, origin).scan.head <= MaxScan
    ensures var r := TerminalSearch(g, origin);
      r.hit.Some? ==>
        && 0 < r.scan.head <= |r.scan.order|
        && r.hit.value == r.scan.order[r.scan.head - 1]
        && g(r.hit.value).TerminalBlock?
        && Reached(g, TerminalAdmit, origin, r.hit.value)
        && forall i :: 0 <= i < r.scan.head - 1 ==> g(r.scan.order[i]).Connector?
    ensures var r := TerminalSearch(g, origin);
      r.hit.None? && QueueEmpty(r.scan) && AdmittedPath(g, TerminalAdmit, origin, path) ==>
        forall k :: 0 <= k < |path| ==> g(path[k]).Connector?
  {
    StartInv(g, TerminalAdmit, origin);
    var s := Start(g, TerminalAdmit, origin);
    TerminalLoopAdmitted(g, s);
    TerminalLoopStops(g, s);
    TerminalLoopNoDup(g, s);
    TerminalLoopClosed(g, s);
    TerminalLoopFirst(g, s);
    TerminalSearchHit(g, origin);
    var r := TerminalSearch(g, origin);
    if r.hit.Some? {
      forall i | 0 <= i < r.scan.head - 1
        ensures g(r.scan.order[i]).Connector?
      {
        assert Admits(TerminalAdmit, g(r.scan.order[i]));
      }
    }
    if r.hit.None? && QueueEmpty(r.scan) && AdmittedPath(g, TerminalAdmit, origin, path) {
      forall k | 0 <= k < |path|
        ensures g(path[k]).Connector?
      {
        PrefixMember(s.order, r.scan.order, path[0]);
        DrainedScanContainsPath(g, TerminalAdmit, origin, r.scan, path, k);
        var i :| 0 <= i < |r.scan.order| && r.scan.order[i] == path[k];
        assert Admits(TerminalAdmit, g(r.scan.order[i]));
      }
    }
  }
}
