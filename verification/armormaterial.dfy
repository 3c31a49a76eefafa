/** The Runeforged armor material (CustomArmorMaterials.RUNEFORGED): a
    gold-like table of durability, protection and enchantability per armor
    piece. */
module ArmorMaterial {
  datatype ArmorType = Boots | Leggings | Chestplate | Helmet

  const DurabilityMultiplier := 7
  /** Protection indexed by Idx: boots, leggings, chestplate, helmet. */
  const ProtectionByType: seq<int> := [0, 0, 0, 2]
  const Enchantability := 25
  const Toughness: real := 2.0
  const KnockbackResistance: real := 1.0
  const Name := "anomaly:runeforged"

  /** idx: the position of a type in the protection table. */
  function Idx(t: ArmorType): (i: nat)
    ensures i < |ProtectionByType|
  {
    match t
    case Boots => 0
    case Leggings => 1
    case Chestplate => 2
    case Helmet => 3
  }

  /** The type at a table position: the inverse of Idx. */
  function TypeAt(i: nat): ArmorType
    requires i < 4
  {
    if i == 0 then Boots else if i == 1 then Leggings else if i == 2 then Chestplate else Helmet
  }

  /** Idx is a bijection between the four types and 0..3. */
  lemma IdxBijective(t: ArmorType, u: ArmorType, i: nat)
    ensures Idx(t) == Idx(u) ==> t == u
    ensures TypeAt(Idx(t)) == t
    ensures i < 4 ==> Idx(TypeAt(i)) == i
  {
  }

  /** Vanilla's base durability per piece. */
  function BaseDurability(t: ArmorType): int {
    match t
    case Boots => 13
    case Leggings => 15
    case Chestplate => 16
    case Helmet => 11
  }

  /** getDurability: base times the multiplier, between the helmet's 77
      and the chestplate's 112. */
  function Durability(t: ArmorType): (d: int)
    ensures d % DurabilityMultiplier == 0
    ensures 77 <= d <= 112
  {
    BaseDurability(t) * DurabilityMultiplier
  }

  lemma DurabilityTable()
    ensures Durability(Boots) == 91 && Durability(Leggings) == 105
    ensures Durability(Chestplate) == 112 && Durability(Helmet) == 77
  {
  }

  /** getProtection: only the helmet protects, by 2 points. */
  function Protection(t: ArmorType): (p: int)
    ensures t == Helmet ==> p == 2
    ensures t != Helmet ==> p == 0
  {
    ProtectionByType[Idx(t)]
  }
}
