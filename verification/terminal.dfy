/** The teleporter terminal's destination list (TeleporterTerminalBlockEntity):
    a list of named landing-pad positions of bounded length with a selection
    index, its editing operations and its NBT persistence. */
module Terminal {
  import opened Common
  import opened Nbt

  const MaxPads := 128

  datatype PadEntry = PadEntry(pos: Pos, name: string)

  /** pads in list order; selected is -1 when nothing is selected. */
  datatype TerminalState = TerminalState(pads: seq<PadEntry>, selected: int)

  /** A freshly placed terminal. */
  const Fresh := TerminalState([], -1)

  function Positions(pads: seq<PadEntry>): (ps: seq<Pos>)
    ensures |ps| == |pads|
    ensures forall i :: 0 <= i < |pads| ==> ps[i] == pads[i].pos
  {
    seq(|pads|, i requires 0 <= i < |pads| => pads[i].pos)
  }

  /** The invariant the editing operations keep: bounded, duplicate-free by
      position, and the selection is -1 or a valid index. */
  predicate Valid(t: TerminalState) {
    && |t.pads| <= MaxPads
    && NoDup(Positions(t.pads))
    && -1 <= t.selected < |t.pads|
  }

  function IndexFrom(pads: seq<PadEntry>, p: Pos, i: nat): (r: int)
    requires i <= |pads|
    ensures r == -1 || i <= r < |pads|
    ensures r >= 0 ==> pads[r].pos == p && forall j :: i <= j < r ==> pads[j].pos != p
    ensures r == -1 ==> forall j :: i <= j < |pads| ==> pads[j].pos != p
    decreases |pads| - i
  {
    if i == |pads| then -1 else if pads[i].pos == p then i else IndexFrom(pads, p, i + 1)
  }

  /** indexOf: the first index holding position p, or -1. */
  function IndexOf(t: TerminalState, p: Pos): (r: int)
    ensures -1 <= r < |t.pads|
    ensures r >= 0 ==> t.pads[r].pos == p && forall j :: 0 <= j < r ==> t.pads[j].pos != p
    ensures r == -1 <==> forall j :: 0 <= j < |t.pads| ==> t.pads[j].pos != p
  {
    IndexFrom(t.pads, p, 0)
  }

  /** getSelectedPad: the selected position, or null when the selection is out of range. */
  function SelectedPad(t: TerminalState): (r: Option<Pos>)
    ensures r.None? <==> !(0 <= t.selected < |t.pads|)
    ensures r.Some? ==> r.value in Positions(t.pads)
  {
    if 0 <= t.selected < |t.pads| then Some(t.pads[t.selected].pos) else None
  }

  /** Selecting an entry makes its position the selected pad; selecting -1
      clears it; an index out of range keeps the old selected pad. */
  lemma SelectThenSelected(t: TerminalState, idx: int)
    ensures 0 <= idx < |t.pads| ==> SelectedPad(SelectPad(t, idx)) == Some(t.pads[idx].pos)
    ensures idx == -1 ==> SelectedPad(SelectPad(t, idx)) == None
    ensures !(-1 <= idx < |t.pads|) ==> SelectedPad(SelectPad(t, idx)) == SelectedPad(t)
  {
  }

  /** selectPad: accepts -1 .. size-1 and ignores anything else. */
  function SelectPad(t: TerminalState, idx: int): (r: TerminalState)
    ensures r.pads == t.pads
    ensures -1 <= idx < |t.pads| ==> r.selected == idx
    ensures !(-1 <= idx < |t.pads|) ==> r == t
  {
    if -1 <= idx < |t.pads| then t.(selected := idx) else t
  }

  /** addPad: no-op once 128 entries are held; an existing position is
      renamed (only to a non-blank name) and selected; a new position is
      appended, named "Pad x y z" when the name is blank, and becomes the
      selection only if nothing was selected. */
  function AddPad(t: TerminalState, p: Pos, name: Option<string>): (r: TerminalState)
    ensures |t.pads| >= MaxPads ==> r == t
    ensures |t.pads| < MaxPads && IndexOf(t, p) >= 0 ==>
      && |r.pads| == |t.pads|
      && Positions(r.pads) == Positions(t.pads)
      && r.selected == IndexOf(t, p)
      && (forall j :: 0 <= j < |t.pads| && j != IndexOf(t, p) ==> r.pads[j] == t.pads[j])
      && r.pads[IndexOf(t, p)].name == (if NameMissing(name) then t.pads[IndexOf(t, p)].name else name.value)
    ensures |t.pads| < MaxPads && IndexOf(t, p) < 0 ==>
      && r.pads == t.pads + [PadEntry(p, if NameMissing(name) then DefaultPadName(p) else name.value)]
      && r.selected == (if t.selected == -1 then 0 else t.selected)
  {
    if |t.pads| >= MaxPads then t
    else
      var existing := IndexOf(t, p);
      if existing >= 0 then
        var renamed :=
          if !NameMissing(name) then t.pads[existing := PadEntry(p, name.value)] else t.pads;
        SelectPad(t.(pads := renamed), existing)
      else
        var nn := if NameMissing(name) then DefaultPadName(p) else name.value;
        TerminalState(t.pads + [PadEntry(p, nn)], if t.selected == -1 then 0 else t.selected)
  }

  /** removePad: ignores an out-of-range index; otherwise drops that entry and
      pulls the selection back into range (-1 once the list is empty). */
  function RemovePad(t: TerminalState, idx: int): (r: TerminalState)
    ensures !(0 <= idx < |t.pads|) ==> r == t
    ensures 0 <= idx < |t.pads| ==>
      && r.pads == t.pads[..idx] + t.pads[idx + 1..]
      && (|r.pads| == 0 ==> r.selected == -1)
      && (|r.pads| > 0 && t.selected >= |r.pads| ==> r.selected == |r.pads| - 1)
      && (|r.pads| > 0 && t.selected < |r.pads| ==> r.selected == t.selected)
  {
    if 0 <= idx < |t.pads| then
      var pads := t.pads[..idx] + t.pads[idx + 1..];
      var sel :=
        if |pads| == 0 then -1
        else if t.selected >= |pads| then |pads| - 1
        else t.selected;
      TerminalState(pads, sel)
    else t
  }

  /** renamePad: a blank or null name becomes "Pad x y z"; only in range. */
  function RenamePad(t: TerminalState, idx: int, name: Option<string>): (r: TerminalState)
    ensures !(0 <= idx < |t.pads|) ==> r == t
    ensures |r.pads| == |t.pads| && r.selected == t.selected
    ensures Positions(r.pads) == Positions(t.pads)
    ensures forall j :: 0 <= j < |t.pads| && j != idx ==> r.pads[j] == t.pads[j]
    ensures 0 <= idx < |t.pads| ==> !IsBlank(r.pads[idx].name)
    ensures 0 <= idx < |t.pads| && !NameMissing(name) ==> r.pads[idx].name == name.value
  {
    if 0 <= idx < |t.pads| then
      var p := t.pads[idx].pos;
      var nn := if NameMissing(name) then DefaultPadName(p) else name.value;
      t.(pads := t.pads[idx := PadEntry(p, nn)])
    else t
  }

  /* ---------------- invariant preservation ---------------- */

  lemma AddPadKeepsValid(t: TerminalState, p: Pos, name: Option<string>)
    requires Valid(t)
    ensures Valid(AddPad(t, p, name))
  {
    var r := AddPad(t, p, name);
    if |t.pads| < MaxPads && IndexOf(t, p) < 0 {
      assert Positions(r.pads) == Positions(t.pads) + [p];
    }
  }

  lemma RemovePadKeepsValid(t: TerminalState, idx: int)
    requires Valid(t)
    ensures Valid(RemovePad(t, idx))
  {
    if 0 <= idx < |t.pads| {
      var r := RemovePad(t, idx);
      var ps, rs := Positions(t.pads), Positions(r.pads);
      forall i, j | 0 <= i < j < |rs|
        ensures rs[i] != rs[j]
      {
        var i' := if i < idx then i else i + 1;
        var j' := if j < idx then j else j + 1;
        assert rs[i] == ps[i'] && rs[j] == ps[j'];
      }
    }
  }

  lemma SelectAndRenameKeepValid(t: TerminalState, idx: int, name: Option<string>)
    requires Valid(t)
    ensures Valid(SelectPad(t, idx))
    ensures Valid(RenamePad(t, idx, name))
  {
  }

  /** Adding a position (when there is room) makes it findable and selected
      only when it was already present or nothing was selected. */
  lemma AddPadThenIndexOf(t: TerminalState, p: Pos, name: Option<string>)
    requires Valid(t)
    requires |t.pads| < MaxPads || IndexOf(t, p) >= 0
    ensures IndexOf(AddPad(t, p, name), p) >= 0
    ensures |t.pads| < MaxPads && IndexOf(t, p) >= 0 ==> SelectedPad(AddPad(t, p, name)) == Some(p)
  {
    var r := AddPad(t, p, name);
    if |t.pads| < MaxPads && IndexOf(t, p) < 0 {
      assert r.pads[|t.pads|].pos == p;
    }
  }

  /** Adding never creates a second entry for the same position. */
  lemma AddPadIdempotentOnPositions(t: TerminalState, p: Pos, n1: Option<string>, n2: Option<string>)
    requires Valid(t)
    ensures Positions(AddPad(AddPad(t, p, n1), p, n2).pads) == Positions(AddPad(t, p, n1).pads)
  {
    AddPadKeepsValid(t, p, n1);
    if |t.pads| < MaxPads || IndexOf(t, p) >= 0 {
      AddPadThenIndexOf(t, p, n1);
    }
  }

  /* ---------------- persistence ---------------- */

  function PadTag(e: PadEntry): Tag {
    CompoundTag(map["x" := IntTag(e.pos.x), "y" := IntTag(e.pos.y), "z" := IntTag(e.pos.z),
                    "name" := StringTag(e.name)])
  }

  function PadTags(pads: seq<PadEntry>): (ts: seq<Tag>)
    ensures |ts| == |pads|
    ensures forall i :: 0 <= i < |pads| ==> ts[i] == PadTag(pads[i])
  {
    seq(|pads|, i requires 0 <= i < |pads| => PadTag(pads[i]))
  }

  /** writeNbt: adds "pads" (one compound per entry) and "selected" to nbt. */
  function WriteNbt(t: TerminalState, nbt: Compound): (out: Compound)
    ensures out.Keys == nbt.Keys + {"pads", "selected"}
    ensures forall k :: k in nbt && k !in {"pads", "selected"} ==> out[k] == nbt[k]
    ensures out["selected"] == IntTag(t.selected)
    ensures out["pads"].ListTag? && |out["pads"].items| == |t.pads|
  {
    nbt["pads" := ListTag(PadTags(t.pads))]["selected" := IntTag(t.selected)]
  }

  /** One entry of readNbt: its coordinates, and its name or "" when the
      tag has no string name. */
  function ReadPad(tag: Compound): (e: PadEntry)
    ensures e.pos == Pos(GetInt(tag, "x"), GetInt(tag, "y"), GetInt(tag, "z"))
    ensures !ContainsType(tag, "name", StringType) ==> e.name == ""
    ensures ContainsType(tag, "name", StringType) ==> e.name == GetString(tag, "name")
  {
    var name := if ContainsType(tag, "name", StringType) then GetString(tag, "name") else "";
    PadEntry(Pos(GetInt(tag, "x"), GetInt(tag, "y"), GetInt(tag, "z")), name)
  }

  /** readNbt: rebuilds the list from "pads" and the selection from "selected". */
  function ReadNbt(nbt: Compound): (t: TerminalState)
    ensures |t.pads| == |GetList(nbt, "pads", CompoundType)|
  {
    var list := GetList(nbt, "pads", CompoundType);
    TerminalState(seq(|list|, i requires 0 <= i < |list| => ReadPad(CompoundAt(list, i))),
                  GetInt(nbt, "selected"))
  }

  /** Every coordinate and the selection fit in a Java int. */
  predicate Storable(t: TerminalState) {
    && IsInt32(t.selected)
    && forall i :: 0 <= i < |t.pads| ==>
         IsInt32(t.pads[i].pos.x) && IsInt32(t.pads[i].pos.y) && IsInt32(t.pads[i].pos.z)
  }

  /** Reading back what writeNbt wrote restores positions in order, names and selection. */
  lemma NbtRoundTrip(t: TerminalState, nbt: Compound)
    requires Storable(t)
    ensures ReadNbt(WriteNbt(t, nbt)) == t
  {
    var w := WriteNbt(t, nbt);
    var list := GetList(w, "pads", CompoundType);
    assert list == PadTags(t.pads);
    var r := ReadNbt(w);
    forall i | 0 <= i < |t.pads|
      ensures r.pads[i] == t.pads[i]
    {
      assert CompoundAt(list, i) == PadTag(t.pads[i]).entries;
    }
  }
}
