/** The Slaughter enchantment's power window (SlaughterEnchantment): the
    enchanting power range in which each level can be rolled, computed in
    Java's wrapping 32-bit int arithmetic. */
module Slaughter {
  import opened Common
  import opened Nbt

  const MaxLevel := 1

  /** getMinPower: 5 + (level - 1) * 10. Each Java step wraps at 32 bits,
      and wrapping after every step is the same as wrapping the exact
      result once. */
  function MinPower(level: int): (p: int)
    requires IsInt32(level)
    ensures IsInt32(p)
  {
    ToInt32(5 + (level - 1) * 10)
  }

  /** getMaxPower: the minimum plus 20, again wrapping. */
  function MaxPower(level: int): (p: int)
    requires IsInt32(level)
    ensures IsInt32(p)
  {
    ToInt32(MinPower(level) + 20)
  }

  /** Levels for which neither power wraps. */
  predicate NoWrap(level: int) {
    -0x8000_0000 <= 5 + (level - 1) * 10 && 25 + (level - 1) * 10 < 0x8000_0000
  }

  /** Away from wrap-around, the window starts at 5 + (level - 1) * 10 and
      is 20 wide. */
  lemma PowerWindow(level: int)
    requires NoWrap(level)
    ensures IsInt32(level)
    ensures MinPower(level) == 5 + (level - 1) * 10
    ensures MaxPower(level) - MinPower(level) == 20
  {
  }

  /** Higher levels need strictly more power. */
  lemma MinPowerIncreasing(a: int, b: int)
    requires NoWrap(a) && NoWrap(b) && a < b
    ensures IsInt32(a) && IsInt32(b)
    ensures MinPower(a) < MinPower(b)
  {
    PowerWindow(a);
    PowerWindow(b);
  }

  /** The only level the enchantment has: power 5 to 25. */
  lemma OnlyLevel()
    ensures MaxLevel == 1
    ensures MinPower(MaxLevel) == 5 && MaxPower(MaxLevel) == 25
  {
  }

  /** Far past the maximum level the window wraps: at level 214748365 the
      maximum power is negative, below the minimum. */
  lemma WindowWrapsAtHugeLevels()
    ensures MinPower(214748365) == 2147483645
    ensures MaxPower(214748365) < MinPower(214748365)
  {
  }
}
