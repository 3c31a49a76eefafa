/** Minecraft's NBT tag tree, reduced to the tag kinds this mod writes, with
    the typed getters' default-on-mismatch behaviour (a missing or mistyped
    key reads as 0, "" or an empty compound/list). */
module Nbt {
  import opened Common

  datatype Tag =
    | ByteTag(b: int)
    | IntTag(i: int)
    | LongTag(l: int)
    | StringTag(s: string)
    | ListTag(items: seq<Tag>)
    | CompoundTag(entries: map<string, Tag>)

  type Compound = map<string, Tag>

  /* NbtElement type ids */
  const ByteType := 1
  const IntType := 3
  const LongType := 4
  const StringType := 8
  const ListType := 9
  const CompoundType := 10
  /** The wildcard id NbtCompound.contains accepts for "any number". */
  const NumberType := 99

  function TypeId(t: Tag): int {
    match t
    case ByteTag(_) => ByteType
    case IntTag(_) => IntType
    case LongTag(_) => LongType
    case StringTag(_) => StringType
    case ListTag(_) => ListType
    case CompoundTag(_) => CompoundType
  }

  predicate IsNumber(t: Tag) {
    t.ByteTag? || t.IntTag? || t.LongTag?
  }

  /** NbtCompound.contains(key, type). */
  predicate ContainsType(c: Compound, key: string, ty: int) {
    key in c && (TypeId(c[key]) == ty || (ty == NumberType && IsNumber(c[key])))
  }

  /** Java's narrowing of a long to an int (keeps the low 32 bits). */
  function ToInt32(n: int): (r: int)
    ensures IsInt32(r)
    ensures IsInt32(n) ==> r == n
  {
    (n + 0x8000_0000) % 0x1_0000_0000 - 0x8000_0000
  }

  function NumberValue(t: Tag): int
    requires IsNumber(t)
  {
    match t
    case ByteTag(b) => b
    case IntTag(i) => i
    case LongTag(l) => l
  }

  function GetInt(c: Compound, key: string): int {
    if ContainsType(c, key, NumberType) then ToInt32(NumberValue(c[key])) else 0
  }

  function GetLong(c: Compound, key: string): int {
    if ContainsType(c, key, NumberType) then NumberValue(c[key]) else 0
  }

  function GetString(c: Compound, key: string): string {
    if ContainsType(c, key, StringType) then c[key].s else ""
  }

  function GetCompound(c: Compound, key: string): Compound {
    if ContainsType(c, key, CompoundType) then c[key].entries else map[]
  }

  /** NbtCompound.getList(key, type): the list when its held type matches (or
      it is empty), otherwise an empty list. */
  function GetList(c: Compound, key: string, ty: int): seq<Tag> {
    if ContainsType(c, key, ListType)
       && (|c[key].items| == 0 || TypeId(c[key].items[0]) == ty)
    then c[key].items
    else []
  }

  /** NbtList.getCompound(i): the element when it is a compound, else empty. */
  function CompoundAt(items: seq<Tag>, i: int): Compound {
    if 0 <= i < |items| && items[i].CompoundTag? then items[i].entries else map[]
  }

  /** Reading back what putInt wrote gives the value written. */
  lemma IntRoundTrip(c: Compound, key: string, v: int)
    requires IsInt32(v)
    ensures GetInt(c[key := IntTag(v)], key) == v
  {
  }
}
