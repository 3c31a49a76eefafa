/** The Totem of Forcefield's death hook (TotemOfForcefieldItem.initEvents
    and consumeOne): when a player would die, one totem is taken from the
    offhand, else the main hand, else the first inventory slot holding one,
    and death is cancelled exactly when a totem was taken. */
module Totem {
  /** An item stack: an item id and a count. */
  datatype Stack = Stack(item: int, count: nat)

  /** The player's inventory as one slot list; the offhand and the selected
      main-hand slot are two of its slots. */
  datatype Inventory = Inventory(slots: seq<Stack>, offhand: nat, mainhand: nat)

  predicate WellFormed(inv: Inventory) {
    inv.offhand < |inv.slots| && inv.mainhand < |inv.slots|
  }

  /** ItemStack.isOf: an empty stack is air, so it never matches. */
  predicate IsOf(s: Stack, item: int) {
    s.count > 0 && s.item == item
  }

  /** The order in which consumeOne looks at slots: offhand, main hand, then
      every slot from 0 upwards. */
  function Priority(inv: Inventory): (order: seq<nat>)
    ensures |order| == |inv.slots| + 2
    ensures order[0] == inv.offhand && order[1] == inv.mainhand
    ensures forall k :: 2 <= k < |order| ==> order[k] == k - 2
  {
    [inv.offhand, inv.mainhand] + seq(|inv.slots|, i requires 0 <= i < |inv.slots| => i as nat)
  }

  /** The slot consumeOne must take from: the first slot in priority order
      holding the item. */
  predicate FirstMatchAt(inv: Inventory, item: int, k: int)
    requires WellFormed(inv)
  {
    var order := Priority(inv);
    && 0 <= k < |order|
    && IsOf(inv.slots[order[k]], item)
    && forall j :: 0 <= j < k ==> !IsOf(inv.slots[order[j]], item)
  }

  /** ItemStack.decrement(1) on one slot. */
  function TakeOne(slots: seq<Stack>, i: nat): (r: seq<Stack>)
    requires i < |slots| && slots[i].count > 0
    ensures |r| == |slots|
    ensures r[i] == slots[i].(count := slots[i].count - 1)
    ensures forall j :: 0 <= j < |slots| && j != i ==> r[j] == slots[j]
  {
    slots[i := slots[i].(count := slots[i].count - 1)]
  }

  /** consumeOne: the updated inventory and whether a totem was taken. */
  method ConsumeOne(inv: Inventory, item: int) returns (after: Inventory, consumed: bool)
    requires WellFormed(inv)
    ensures after.offhand == inv.offhand && after.mainhand == inv.mainhand
    ensures !consumed <==> forall i :: 0 <= i < |inv.slots| ==> !IsOf(inv.slots[i], item)
    ensures !consumed ==> after == inv
    ensures consumed ==> exists k :: FirstMatchAt(inv, item, k) && after.slots == TakeOne(inv.slots, Priority(inv)[k])
  {
    var order := Priority(inv);
    if IsOf(inv.slots[inv.offhand], item) {
      assert FirstMatchAt(inv, item, 0);
      return inv.(slots := TakeOne(inv.slots, inv.offhand)), true;
    }
    if IsOf(inv.slots[inv.mainhand], item) {
      assert FirstMatchAt(inv, item, 1);
      return inv.(slots := TakeOne(inv.slots, inv.mainhand)), true;
    }
    var i := 0;
    while i < |inv.slots|
      invariant 0 <= i <= |inv.slots|
      invariant forall j :: 0 <= j < i + 2 ==> !IsOf(inv.slots[order[j]], item)
    {
      if IsOf(inv.slots[i], item) {
        assert order[i + 2] == i;
        assert FirstMatchAt(inv, item, i + 2);
        return inv.(slots := TakeOne(inv.slots, i)), true;
      }
      i := i + 1;
    }
    forall j | 0 <= j < |inv.slots|
      ensures !IsOf(inv.slots[j], item)
    {
      assert order[j + 2] == j;
    }
    return inv, false;
  }

  /** ALLOW_DEATH: death goes ahead exactly when no totem was taken; a taken
      totem pops instead. */
  method AllowDeath(inv: Inventory, item: int) returns (after: Inventory, allow: bool)
    requires WellFormed(inv)
    ensures allow <==> forall i :: 0 <= i < |inv.slots| ==> !IsOf(inv.slots[i], item)
    ensures allow ==> after == inv
    ensures Held(after.slots, item) == Held(inv.slots, item) - (if allow then 0 else 1)
  {
    var consumed;
    after, consumed := ConsumeOne(inv, item);
    allow := !consumed;
    if consumed {
      var k :| FirstMatchAt(inv, item, k) && after.slots == TakeOne(inv.slots, Priority(inv)[k]);
      HeldTakeOne(inv.slots, Priority(inv)[k], item);
    }
  }

  /** How many of the item the slots hold in total. */
  function Held(slots: seq<Stack>, item: int): (n: nat)
    ensures n == 0 <==> forall i :: 0 <= i < |slots| ==> !IsOf(slots[i], item)
  {
    if |slots| == 0 then 0
    else (if IsOf(slots[0], item) then slots[0].count else 0) + Held(slots[1..], item)
  }

  /** Taking one from a matching slot lowers the total by exactly one: a
      death consumes one totem, never more. */
  lemma {:induction false} HeldTakeOne(slots: seq<Stack>, i: nat, item: int)
    requires i < |slots| && IsOf(slots[i], item)
    ensures Held(TakeOne(slots, i), item) == Held(slots, item) - 1
    decreases |slots|
  {
    var r := TakeOne(slots, i);
    if i > 0 {
      assert r[1..] == TakeOne(slots[1..], i - 1);
      HeldTakeOne(slots[1..], i - 1, item);
    } else {
      assert r[1..] == slots[1..];
    }
  }
}
