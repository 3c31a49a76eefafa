/** The Runeforged Crown's trigger latch and cooldown bar
    (RuneforgedCrownItem.inventoryTick and tickBossbar): a blast fires when
    the wearer's health first drops to 8 or below in a low-health episode,
    at most once every 800 ticks, and a boss bar shows the remaining
    cooldown. */
module Crown {
  import opened Common

  const TriggerHealth: real := 8.0
  const CooldownTicks := 800

  /** The boss bar this crown's stack refers to, as its one wearer sees it. */
  datatype Bar = Bar(visible: bool, viewing: bool, percent: real)

  /** The stack's NBT fields (a missing key reads as 0 or false) and its
      boss bar, None when the stack has no bar id or the bar is not in the
      bar table. */
  datatype CrownState = CrownState(lastBlast: int, wasBelow: bool, cooldownEnd: int, bar: Option<Bar>)

  const NewCrown := CrownState(0, false, 0, None)

  /** tickBossbar: with no bar nothing happens; an end of 0 or less hides the
      bar; otherwise the bar shows the remaining share of the cooldown, and
      once nothing remains the end is cleared and the bar hidden. */
  function TickBossbar(s: CrownState, now: int): (r: CrownState)
    ensures r.lastBlast == s.lastBlast && r.wasBelow == s.wasBelow
    ensures s.bar.None? ==> r == s
    ensures r.bar.Some? <==> s.bar.Some?
    ensures s.bar.Some? && s.cooldownEnd <= 0 ==> r.cooldownEnd == s.cooldownEnd && !r.bar.value.visible
    ensures s.bar.Some? && 0 < s.cooldownEnd <= now ==> r.cooldownEnd == 0 && !r.bar.value.visible && r.bar.value.percent == 0.0
    ensures s.bar.Some? && 0 < s.cooldownEnd && now < s.cooldownEnd ==>
      r.cooldownEnd == s.cooldownEnd && r.bar.value.viewing && r.bar.value.visible == s.bar.value.visible &&
      r.bar.value.percent == (s.cooldownEnd - now) as real / CooldownTicks as real
  {
    if s.bar.None? then s
    else
      var b := s.bar.value;
      var end := s.cooldownEnd;
      if end <= 0 then s.(bar := Some(b.(viewing := false, visible := false)))
      else
        var remaining := if end - now > 0 then end - now else 0;
        var b1 := b.(percent := remaining as real / CooldownTicks as real, viewing := true);
        if remaining == 0 then s.(cooldownEnd := 0, bar := Some(b1.(viewing := false, visible := false)))
        else s.(bar := Some(b1))
  }

  /** startBossbar: the bar is created when missing, shown, then ticked. */
  function StartBossbar(s: CrownState, now: int): (r: CrownState)
    ensures r.bar.Some?
    ensures r.lastBlast == s.lastBlast && r.wasBelow == s.wasBelow
    ensures 0 < s.cooldownEnd && now < s.cooldownEnd ==>
      r.bar.value.visible && r.bar.value.percent == (s.cooldownEnd - now) as real / CooldownTicks as real
  {
    var b := if s.bar.Some? then s.bar.value.(viewing := true, visible := true) else Bar(true, true, 1.0);
    TickBossbar(s.(bar := Some(b)), now)
  }

  /** removeBossbar when the crown is not worn: the wearer stops seeing the
      bar, which is then hidden. */
  function RemoveBossbar(s: CrownState): (r: CrownState)
    ensures r.lastBlast == s.lastBlast && r.wasBelow == s.wasBelow && r.cooldownEnd == s.cooldownEnd
    ensures r.bar.Some? ==> !r.bar.value.visible && !r.bar.value.viewing
  {
    if s.bar.None? then s else s.(bar := Some(s.bar.value.(viewing := false, visible := false)))
  }

  /** One inventory tick on the server: the new state and whether the blast
      fired. */
  datatype TickResult = TickResult(state: CrownState, blast: bool)

  /** inventoryTick on the server: taking the crown off only hides the bar;
      while worn, health above the threshold re-arms the latch, an armed
      latch at low health fires unless the last blast is under 800 ticks
      old, and either way the episode is then consumed. */
  function InventoryTick(s: CrownState, worn: bool, health: real, now: int): (r: TickResult)
    ensures !worn ==> !r.blast
    ensures !worn ==> r.state.lastBlast == s.lastBlast && r.state.wasBelow == s.wasBelow && r.state.cooldownEnd == s.cooldownEnd
    ensures worn && health > TriggerHealth ==> !r.blast && !r.state.wasBelow && r.state.lastBlast == s.lastBlast
    ensures worn && health <= TriggerHealth && s.wasBelow ==> !r.blast && r.state.wasBelow && r.state.lastBlast == s.lastBlast
    ensures worn && health <= TriggerHealth && !s.wasBelow && now - s.lastBlast < CooldownTicks ==>
      !r.blast && r.state.wasBelow && r.state.lastBlast == s.lastBlast
    ensures r.blast <==> worn && health <= TriggerHealth && !s.wasBelow && now - s.lastBlast >= CooldownTicks
    ensures r.blast ==> r.state.lastBlast == now && r.state.wasBelow && r.state.cooldownEnd == now + CooldownTicks
    ensures r.blast && now >= 0 ==> r.state.bar.Some? && r.state.bar.value.visible && r.state.bar.value.percent == 1.0
  {
    if !worn then TickResult(RemoveBossbar(s), false)
    else
      var s1 := TickBossbar(s, now);
      if health > TriggerHealth then TickResult(s1.(wasBelow := false), false)
      else if s1.wasBelow then TickResult(s1, false)
      else if now - s1.lastBlast < CooldownTicks then TickResult(s1.(wasBelow := true), false)
      else
        var s2 := s1.(lastBlast := now, wasBelow := true, cooldownEnd := now + CooldownTicks);
        assert (s2.cooldownEnd - now) as real / CooldownTicks as real == 1.0;
        TickResult(StartBossbar(s2, now), true)
  }

  /* ---------------- runs of ticks ---------------- */

  datatype Input = Input(worn: bool, health: real, now: int)

  /** The state after a run of ticks and the times at which blasts fired. */
  datatype Trace = Trace(state: CrownState, blasts: seq<int>)

  function Run(s: CrownState, ins: seq<Input>): Trace
    decreases |ins|
  {
    if |ins| == 0 then Trace(s, [])
    else
      var t := InventoryTick(s, ins[0].worn, ins[0].health, ins[0].now);
      var rest := Run(t.state, ins[1..]);
      Trace(rest.state, (if t.blast then [ins[0].now] else []) + rest.blasts)
  }

  /** Blasts are at least 800 ticks after the previous blast, the first one
      800 after the blast the state remembers. */
  lemma {:induction false} BlastsSpaced(s: CrownState, ins: seq<Input>)
    ensures var bs := Run(s, ins).blasts;
      && (|bs| > 0 ==> bs[0] >= s.lastBlast + CooldownTicks)
      && (forall i :: 0 <= i < |bs| - 1 ==> bs[i + 1] >= bs[i] + CooldownTicks)
      && Run(s, ins).state.lastBlast == (if |bs| > 0 then bs[|bs| - 1] else s.lastBlast)
    decreases |ins|
  {
    if |ins| > 0 {
      var t := InventoryTick(s, ins[0].worn, ins[0].health, ins[0].now);
      BlastsSpaced(t.state, ins[1..]);
      var rest := Run(t.state, ins[1..]).blasts;
      var bs := Run(s, ins).blasts;
      if t.blast {
        assert bs == [ins[0].now] + rest;
        forall i | 0 <= i < |bs| - 1
          ensures bs[i + 1] >= bs[i] + CooldownTicks
        {
          if i > 0 {
            assert bs[i] == rest[i - 1] && bs[i + 1] == rest[i];
          }
        }
      } else {
        assert bs == rest;
      }
    }
  }

  /** A tick that re-arms the latch: the crown is worn above the threshold. */
  predicate Rearms(x: Input) {
    x.worn && x.health > TriggerHealth
  }

  /** Once an episode has fired (or been consumed), no blast happens until
      a tick above the threshold re-arms the crown. */
  lemma {:induction false} OneBlastPerEpisode(s: CrownState, ins: seq<Input>)
    requires s.wasBelow
    requires forall i :: 0 <= i < |ins| ==> !Rearms(ins[i])
    ensures Run(s, ins).blasts == []
    ensures Run(s, ins).state.wasBelow
    decreases |ins|
  {
    if |ins| > 0 {
      var t := InventoryTick(s, ins[0].worn, ins[0].health, ins[0].now);
      assert !Rearms(ins[0]);
      OneBlastPerEpisode(t.state, ins[1..]);
    }
  }

  /** Once the cooldown end has passed, the next worn tick clears it and
      hides the bar. */
  lemma CooldownExpires(s: CrownState, health: real, now: int)
    requires s.bar.Some? && 0 < s.cooldownEnd <= now
    requires health > TriggerHealth || s.wasBelow || now - s.lastBlast < CooldownTicks
    ensures var r := InventoryTick(s, true, health, now).state;
      r.cooldownEnd == 0 && r.bar.Some? && !r.bar.value.visible
  {
  }
}
