/** The teleporter linker item (TeleporterLinkerItem): clicking a landing pad
    stores the pad's position and dimension in the item's NBT; sneak-clicking
    a terminal in the same dimension adds that pad to the terminal's list and
    selects it. */
module Linker {
  import opened Common
  import opened Nbt
  import Terminal

  /** The record readBound returns. */
  datatype Bound = Bound(pos: Pos, dim: string)

  /** bindTo: writes "Bound" = {x, y, z, dim} into the stack's tag (created
      when absent), keeping its other keys. */
  function BindTo(nbt: Option<Compound>, p: Pos, dim: string): (r: Compound)
    ensures ContainsType(r, "Bound", CompoundType)
    ensures forall k :: k in r && k != "Bound" ==> nbt.Some? && k in nbt.value && r[k] == nbt.value[k]
  {
    var tag := if nbt.Some? then nbt.value else map[];
    tag["Bound" := CompoundTag(map["x" := IntTag(p.x), "y" := IntTag(p.y), "z" := IntTag(p.z),
                                   "dim" := StringTag(dim)])]
  }

  /** readBound: null unless the tag holds a "Bound" compound that has all of
      x, y, z and dim (of any type; the typed getters then default). */
  function ReadBound(nbt: Option<Compound>): (r: Option<Bound>)
    ensures r.Some? <==>
      && nbt.Some?
      && ContainsType(nbt.value, "Bound", CompoundType)
      && var b := nbt.value["Bound"].entries;
         "x" in b && "y" in b && "z" in b && "dim" in b
    ensures r.Some? ==> var b := nbt.value["Bound"].entries;
      r.value == Bound(Pos(GetInt(b, "x"), GetInt(b, "y"), GetInt(b, "z")), GetString(b, "dim"))
  {
    if nbt.None? || !ContainsType(nbt.value, "Bound", CompoundType) then None
    else
      var b := GetCompound(nbt.value, "Bound");
      if "x" !in b || "y" !in b || "z" !in b || "dim" !in b then None
      else Some(Bound(Pos(GetInt(b, "x"), GetInt(b, "y"), GetInt(b, "z")), GetString(b, "dim")))
  }

  /** Reading back a binding gives the pad and dimension written, whatever
      the stack held before. */
  lemma BindThenRead(nbt: Option<Compound>, p: Pos, dim: string)
    requires IsInt32(p.x) && IsInt32(p.y) && IsInt32(p.z)
    ensures ReadBound(Some(BindTo(nbt, p, dim))) == Some(Bound(p, dim))
  {
  }

  /** The block under the cursor, with the terminal's block entity when there
      is one. */
  datatype Clicked = LandingPadBlock | TerminalBlock(entity: Option<Terminal.TerminalState>) | OtherBlock

  datatype Action = Pass | Success

  /** Why a click ended where it did. */
  datatype LinkOutcome = Bound_ | NoBinding | OtherDimension | NoBlockEntity | Linked | Ignored

  datatype UseResult = UseResult(action: Action, nbt: Option<Compound>, terminal: Option<Terminal.TerminalState>, outcome: LinkOutcome)

  /** The terminal update of a successful link: addPad with the default name,
      then selectPad(indexOf(pos)) when the position is present. */
  function LinkPad(t: Terminal.TerminalState, p: Pos): (r: Terminal.TerminalState)
    ensures |t.pads| >= Terminal.MaxPads && Terminal.IndexOf(t, p) < 0 ==> r == t
  {
    var added := Terminal.AddPad(t, p, Some(DefaultPadName(p)));
    var idx := Terminal.IndexOf(added, p);
    if idx >= 0 then Terminal.SelectPad(added, idx) else added
  }

  /** A link keeps the terminal valid and, when the terminal has room or
      already lists the pad, leaves exactly that pad selected; with room, the
      entry is renamed "Pad x y z" even when it already had another name. */
  lemma LinkPadSelects(t: Terminal.TerminalState, p: Pos)
    requires Terminal.Valid(t)
    ensures Terminal.Valid(LinkPad(t, p))
    ensures |t.pads| < Terminal.MaxPads || Terminal.IndexOf(t, p) >= 0 ==>
      Terminal.SelectedPad(LinkPad(t, p)) == Some(p)
    ensures |t.pads| < Terminal.MaxPads ==>
      LinkPad(t, p).pads[LinkPad(t, p).selected] == Terminal.PadEntry(p, DefaultPadName(p))
  {
    var name := Some(DefaultPadName(p));
    Terminal.AddPadKeepsValid(t, p, name);
    if |t.pads| < Terminal.MaxPads || Terminal.IndexOf(t, p) >= 0 {
      Terminal.AddPadThenIndexOf(t, p, name);
      var added := Terminal.AddPad(t, p, name);
      var idx := Terminal.IndexOf(added, p);
      assert !NameMissing(name);
      if Terminal.IndexOf(t, p) < 0 {
        assert added.pads[|t.pads|].pos == p;
        assert idx == |t.pads| by {
          assert Terminal.Positions(added.pads)[idx] == p;
          assert Terminal.Positions(added.pads)[|t.pads|] == p;
        }
      } else {
        var j := Terminal.IndexOf(t, p);
        assert added.pads[j].pos == p;
        assert idx == j by {
          assert Terminal.Positions(added.pads)[idx] == p;
          assert Terminal.Positions(added.pads)[j] == p;
        }
      }
    }
  }

  /** useOnBlock on the server. sneaking is None when there is no player. */
  function UseOnBlock(clicked: Clicked, sneaking: Option<bool>, hereDim: string, here: Pos,
                      nbt: Option<Compound>): (r: UseResult)
    ensures clicked.LandingPadBlock? ==> r.action == Success && r.nbt == Some(BindTo(nbt, here, hereDim))
    ensures r.action == Pass <==> !clicked.LandingPadBlock? && !(clicked.TerminalBlock? && sneaking == Some(true))
    ensures r.action == Pass ==> r.nbt == nbt && r.terminal.None?
    ensures !clicked.LandingPadBlock? ==> r.nbt == nbt
    ensures r.outcome == Linked <==>
      && clicked.TerminalBlock? && clicked.entity.Some? && sneaking == Some(true)
      && ReadBound(nbt).Some? && ReadBound(nbt).value.dim == hereDim
    ensures r.outcome == Linked ==> r.terminal == Some(LinkPad(clicked.entity.value, ReadBound(nbt).value.pos))
    ensures r.outcome != Linked ==> r.terminal.None?
  {
    if clicked.LandingPadBlock? then UseResult(Success, Some(BindTo(nbt, here, hereDim)), None, Bound_)
    else if clicked.TerminalBlock? && sneaking == Some(true) then
      var bound := ReadBound(nbt);
      if bound.None? then UseResult(Success, nbt, None, NoBinding)
      else if bound.value.dim != hereDim then UseResult(Success, nbt, None, OtherDimension)
      else if clicked.entity.None? then UseResult(Success, nbt, None, NoBlockEntity)
      else UseResult(Success, nbt, Some(LinkPad(clicked.entity.value, bound.value.pos)), Linked)
    else UseResult(Pass, nbt, None, Ignored)
  }

  /** Binding at a pad and then sneak-clicking a terminal in the same
      dimension leaves that pad selected on the terminal, as long as the
      terminal has room or already lists it. */
  lemma BindThenLinkSelects(nbt: Option<Compound>, pad: Pos, dim: string, term: Pos,
                            t: Terminal.TerminalState)
    requires IsInt32(pad.x) && IsInt32(pad.y) && IsInt32(pad.z)
    requires Terminal.Valid(t)
    requires |t.pads| < Terminal.MaxPads || Terminal.IndexOf(t, pad) >= 0
    ensures var bound := UseOnBlock(LandingPadBlock, Some(false), dim, pad, nbt);
      var r := UseOnBlock(TerminalBlock(Some(t)), Some(true), dim, term, bound.nbt);
      && r.outcome == Linked
      && r.terminal.Some?
      && Terminal.Valid(r.terminal.value)
      && Terminal.SelectedPad(r.terminal.value) == Some(pad)
  {
    BindThenRead(nbt, pad, dim);
    LinkPadSelects(t, pad);
  }

  /** A binding from another dimension never changes the terminal. */
  lemma OtherDimensionLeavesTerminal(nbt: Option<Compound>, pad: Pos, dim: string, here: string,
                                     term: Pos, t: Terminal.TerminalState)
    requires IsInt32(pad.x) && IsInt32(pad.y) && IsInt32(pad.z)
    requires dim != here
    ensures var bound := UseOnBlock(LandingPadBlock, Some(false), dim, pad, nbt);
      var r := UseOnBlock(TerminalBlock(Some(t)), Some(true), here, term, bound.nbt);
      r.outcome == OtherDimension && r.action == Success && r.terminal.None?
  {
    BindThenRead(nbt, pad, dim);
  }
}
