/** The selection arithmetic of the terminal screen (TeleporterTerminalScreen):
    a six-row window over the pad list, described by the absolute index of
    its top row and the selected row inside it. n is always the size of the
    pad list the screen last received. */
module TerminalScreen {
  import opened Common
  import Terminal

  const RowsVisible := 6

  /** listIndexTop and selectedLocal (-1 when no row is selected). */
  datatype Screen = Screen(top: int, local: int)

  const Opened := Screen(0, -1)

  function Max(a: int, b: int): int { if a >= b then a else b }
  function Min(a: int, b: int): int { if a <= b then a else b }

  /** The largest top row that still fills the window. */
  function MaxTop(n: int): int { Max(0, n - RowsVisible) }

  /** The states the helpers keep: a window starting within 0..MaxTop(n)
      and either no selected row or a selected row that is a real entry. */
  predicate Window(s: Screen, n: int) {
    && 0 <= s.top <= MaxTop(n)
    && (s.local == -1 || (0 <= s.local < RowsVisible && s.top + s.local < n))
  }

  /** resolveSelectedIndex: the absolute index of the selected row, or -1. */
  function ResolveSelectedIndex(s: Screen): (i: int)
    ensures s.local < 0 ==> i == -1
    ensures s.local >= 0 ==> i - s.top == s.local
  {
    if s.local < 0 then -1 else s.top + s.local
  }

  /** applyLocalSelection: scroll just far enough that absIdx is visible,
      clamp the window into the list, and select absIdx's row; an invalid
      index clears the selection and rewinds the window. */
  function ApplyLocalSelection(s: Screen, n: int, absIdx: int): (r: Screen)
    ensures !(0 <= absIdx < n) ==> r == Opened
    ensures 0 <= absIdx < n ==>
      && 0 <= r.top <= MaxTop(n)
      && r.top <= absIdx < r.top + RowsVisible
      && ResolveSelectedIndex(r) == absIdx
    ensures Window(r, n)
  {
    if n == 0 || absIdx < 0 || absIdx >= n then Opened
    else
      var t1 := if absIdx < s.top then absIdx else s.top;
      var t2 := if absIdx >= t1 + RowsVisible then absIdx - (RowsVisible - 1) else t1;
      var top := Max(0, Min(MaxTop(n), t2));
      Screen(top, absIdx - top)
  }

  /** A selection already in view does not move the window. */
  lemma ApplyKeepsVisibleWindow(s: Screen, n: int, absIdx: int)
    requires 0 <= s.top <= MaxTop(n)
    requires s.top <= absIdx < s.top + RowsVisible && absIdx < n
    ensures ApplyLocalSelection(s, n, absIdx) == Screen(s.top, absIdx - s.top)
  {
  }

  /** snapSelectionIntoView: the same window rule for the server's selected
      index. */
  function SnapSelectionIntoView(s: Screen, n: int, sel: int): (r: Screen)
    ensures !(0 <= sel < n) ==> r == Opened
    ensures 0 <= sel < n ==>
      && 0 <= r.top <= MaxTop(n)
      && r.top <= sel < r.top + RowsVisible
      && ResolveSelectedIndex(r) == sel
  {
    if sel < 0 || sel >= n then Opened
    else
      var maxTop := MaxTop(n);
      var t1 := if sel < s.top then sel else s.top;
      var t2 := if sel >= t1 + RowsVisible then sel - (RowsVisible - 1) else t1;
      var top := Max(0, Min(maxTop, t2));
      Screen(top, sel - top)
  }

  /** The two helpers are written separately but agree everywhere. */
  lemma SnapIsApply(s: Screen, n: int, sel: int)
    ensures SnapSelectionIntoView(s, n, sel) == ApplyLocalSelection(s, n, sel)
  {
  }

  /** What a delete click sends to the server. */
  datatype Delete = Delete(screen: Screen, removed: int, selected: int)

  /** onDelete: nothing happens on an empty list or without a valid
      selection; otherwise the selected index is removed and the new
      selection is the same index, or the previous one when the last entry
      went. The local window is recomputed against the list as it was. */
  function OnDelete(s: Screen, n: int): (r: Option<Delete>)
    ensures r.Some? <==> n > 0 && 0 <= ResolveSelectedIndex(s) < n
    ensures r.Some? ==> var idx := ResolveSelectedIndex(s);
      && r.value.removed == idx
      && r.value.selected == Min(idx, n - 2)
      && (r.value.selected == -1 <==> n == 1)
      && r.value.screen == ApplyLocalSelection(s, n, Min(idx, n - 2))
  {
    if n == 0 then None
    else
      var idx := ResolveSelectedIndex(s);
      if idx < 0 || idx >= n then None
      else
        var newIdx := Min(idx, n - 1 - 1);
        Some(Delete(ApplyLocalSelection(s, n, newIdx), idx, if newIdx < 0 then -1 else newIdx))
  }

  /** The server, applying the two packets of a delete to a valid terminal,
      ends up selecting the entry that followed the removed one, or the one
      before it when the removed entry was last. */
  lemma DeleteSelectsNeighbour(s: Screen, t: Terminal.TerminalState)
    requires Terminal.Valid(t)
    requires OnDelete(s, |t.pads|).Some?
    ensures var d := OnDelete(s, |t.pads|).value;
      var after := Terminal.SelectPad(Terminal.RemovePad(t, d.removed), d.selected);
      && |after.pads| == |t.pads| - 1
      && after.selected == d.selected
      && (d.removed < |t.pads| - 1 ==> Terminal.SelectedPad(after) == Some(t.pads[d.removed + 1].pos))
      && (0 < d.removed == |t.pads| - 1 ==> Terminal.SelectedPad(after) == Some(t.pads[d.removed - 1].pos))
  {
    var d := OnDelete(s, |t.pads|).value;
    var removed := Terminal.RemovePad(t, d.removed);
    assert removed.pads == t.pads[..d.removed] + t.pads[d.removed + 1..];
    if d.removed < |t.pads| - 1 {
      assert removed.pads[d.removed] == t.pads[d.removed + 1];
    }
    if 0 < d.removed == |t.pads| - 1 {
      assert removed.pads[d.removed - 1] == t.pads[d.removed - 1];
    }
  }

  /* ---------------- scrolling ---------------- */

  /** One wheel notch moves the window one row down (amount < 0) or up,
      clamped to 0..MaxTop(n). */
  function ScrollTop(s: Screen, n: int, down: bool): (top: int)
    ensures 0 <= top <= MaxTop(n)
    ensures s.top + 1 <= MaxTop(n) && 0 <= s.top && down ==> top == s.top + 1
    ensures 1 <= s.top <= MaxTop(n) && !down ==> top == s.top - 1
  {
    Max(0, Min(MaxTop(n), s.top + (if down then 1 else -1)))
  }

  /** mouseScrolled over the list, as written: the selected index is read
      after the window has moved, so the clamp sees the same row it set and
      the selection follows the window. */
  function MouseScrolledAsWritten(s: Screen, n: int, down: bool): (r: Screen)
    ensures r.top == ScrollTop(s, n, down)
    ensures Window(s, n) ==> Window(r, n)
  {
    var s1 := s.(top := ScrollTop(s, n, down));
    var abs := ResolveSelectedIndex(s1);
    if abs >= 0 then s1.(local := Max(0, Min(RowsVisible - 1, abs - s1.top))) else s1
  }

  /** The clamp never changes the selected row: with ten entries, entry 2
      selected and the window at the top, one notch down selects entry 3. */
  lemma ScrollMovesSelection()
    ensures ResolveSelectedIndex(Screen(0, 2)) == 2
    ensures MouseScrolledAsWritten(Screen(0, 2), 10, true) == Screen(1, 2)
    ensures ResolveSelectedIndex(MouseScrolledAsWritten(Screen(0, 2), 10, true)) == 3
  {
  }

  /** As written, scrolling with a row selected keeps that row and so shifts
      the selected index by exactly the distance the window moved. */
  lemma ScrollAsWrittenKeepsRow(s: Screen, n: int, down: bool)
    requires Window(s, n) && s.local >= 0
    ensures MouseScrolledAsWritten(s, n, down).local == s.local
    ensures ResolveSelectedIndex(MouseScrolledAsWritten(s, n, down)) - ResolveSelectedIndex(s) ==
      ScrollTop(s, n, down) - s.top
  {
  }

  /** mouseScrolled with the selected index read before the window moves:
      the selected entry stays selected while it is visible, and the
      selection is pulled to the nearest edge row once it scrolls out. */
  function MouseScrolled(s: Screen, n: int, down: bool): (r: Screen)
    ensures r.top == ScrollTop(s, n, down)
    ensures ResolveSelectedIndex(s) < 0 ==> r.local == s.local
    ensures ResolveSelectedIndex(s) >= 0 ==> 0 <= r.local < RowsVisible
    ensures 0 <= ResolveSelectedIndex(s) && r.top <= ResolveSelectedIndex(s) < r.top + RowsVisible ==>
      ResolveSelectedIndex(r) == ResolveSelectedIndex(s)
    ensures 0 <= ResolveSelectedIndex(s) < r.top ==> r.local == 0
    ensures 0 <= ResolveSelectedIndex(s) && ResolveSelectedIndex(s) >= r.top + RowsVisible ==>
      r.local == RowsVisible - 1
  {
    var abs := ResolveSelectedIndex(s);
    var top := ScrollTop(s, n, down);
    if abs >= 0 then Screen(top, Max(0, Min(RowsVisible - 1, abs - top))) else s.(top := top)
  }

  /** The corrected scroll keeps the screen consistent with the list. */
  lemma MouseScrolledKeepsWindow(s: Screen, n: int, down: bool)
    requires Window(s, n)
    ensures Window(MouseScrolled(s, n, down), n)
  {
  }

  /** In the example above the corrected scroll keeps entry 2 selected. */
  lemma MouseScrolledKeepsEntry()
    ensures ResolveSelectedIndex(MouseScrolled(Screen(0, 2), 10, true)) == 2
  {
  }
}
