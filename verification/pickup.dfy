/**
 * An item lying in the world (Item/ItemPickup.cs): the player-in-range flag
 * driven by trigger events, and the pickup attempt.
 */
module Pickups {
  import opened Wrappers
  import opened Items
  import opened Slots
  import opened Inventories
  import opened Factory

  const PlayerTag: string := "Player"
  const DefaultQuantity: int := 1

  /** `destroyed` records `Destroy(gameObject)`. */
  datatype Pickup = Pickup(itemType: ItemType, quantity: int, item: Option<Item>, playerInRange: bool, destroyed: bool)

  /** A pickup as placed in a scene: the serialized default quantity is 1, the
      item is not created yet and the player is not in range. */
  function NewPickup(t: ItemType): (p: Pickup)
    ensures p.itemType == t && p.quantity == 1
    ensures p.item.None? && !p.playerInRange && !p.destroyed
  {
    Pickup(t, DefaultQuantity, None, false, false)
  }

  /** `Start`: the item is created by the factory for the pickup's category. */
  function Start(p: Pickup, f: ItemFactory): (r: (Pickup, ItemFactory))
    ensures r.0.item == Some(CreateItem(f, p.itemType).item)
    ensures r.0.(item := p.item) == p
    ensures r.1 == CreateItem(f, p.itemType).factory
  {
    var c := CreateItem(f, p.itemType);
    (p.(item := Some(c.item)), c.factory)
  }

  /** `OnTriggerEnter`: only a collider tagged "Player" sets the flag. */
  function OnTriggerEnter(p: Pickup, tag: string): (r: Pickup)
    ensures r.playerInRange <==> (tag == "Player" || p.playerInRange)
    ensures r.(playerInRange := p.playerInRange) == p
  {
    if tag == PlayerTag then p.(playerInRange := true) else p
  }

  /** `OnTriggerExit`: only a collider tagged "Player" clears the flag. */
  function OnTriggerExit(p: Pickup, tag: string): (r: Pickup)
    ensures r.playerInRange <==> (tag != "Player" && p.playerInRange)
    ensures r.(playerInRange := p.playerInRange) == p
  {
    if tag == PlayerTag then p.(playerInRange := false) else p
  }

  /** Enter followed by exit of the player leaves the player out of range;
      other colliders never change the flag. */
  lemma TriggerRoundTrip(p: Pickup, tag: string)
    ensures tag == "Player" ==> !OnTriggerExit(OnTriggerEnter(p, tag), tag).playerInRange
    ensures tag != "Player" ==> OnTriggerExit(OnTriggerEnter(p, tag), tag) == p
  {
  }

  datatype PickupOutcome = PickupOutcome(pickup: Pickup, inv: Inventory, dropped: seq<Stack>, notes: nat)

  /**
   * `TryPickupItem`, as written: when in range and holding an item, add the
   * whole quantity; destroy the pickup only if the add reported success.
   * On failure the pickup keeps its full quantity although the add has
   * already stored part of it and handed the rest to the ground drop.
   */
  function TryPickupItem(p: Pickup, inv: Inventory): (r: PickupOutcome)
    ensures !(p.playerInRange && p.item.Some?) ==> r == PickupOutcome(p, inv, [], 0)
    ensures p.playerInRange && p.item.Some? ==>
              var a := AddItem(inv, p.item.value, p.quantity);
              && r.inv == a.inv && r.dropped == a.dropped && r.notes == 1
              && (r.pickup.destroyed <==> (a.success || p.destroyed))
    ensures r.pickup.quantity == p.quantity && r.pickup.item == p.item
  {
    if p.playerInRange && p.item.Some? then
      var a := AddItem(inv, p.item.value, p.quantity);
      PickupOutcome(if a.success then p.(destroyed := true) else p, inv := a.inv, dropped := a.dropped, notes := a.notes)
    else
      PickupOutcome(p, inv, [], 0)
  }

  /** The units a pickup still offers: its quantity, while it exists. */
  function Offered(p: Pickup): int
  {
    if p.destroyed || p.item.None? then 0 else p.quantity
  }

  /** The units of a pickup attempt: what the pickup offers, plus what is in
      the inventory, plus what the ground drop turned into new pickups. */
  function WorldUnits(r: PickupOutcome): int
  {
    Offered(r.pickup) + Units(r.inv, AnyItem) + PlacedUnits(r.dropped, AnyItem)
  }

  /** The as-written attempt duplicates items: with one empty slot and a
      pickup of two units of an item that stacks to one and has a prefab, the
      slot takes one unit, the other becomes a new pickup on the ground, and
      the pickup stays with two. */
  lemma TryPickupDuplicates()
    ensures var x := Item(0, "Sword", None, Weapon, 1, Some(0), true, None);
            var p := Pickup(Weapon, 2, Some(x), true, false);
            var r := TryPickupItem(p, [EmptySlot]);
            && r.inv == [Slot(Some(x), 1)] && r.dropped == [Stack(x, 1)]
            && !r.pickup.destroyed && r.pickup.quantity == 2
            && WorldUnits(r) == 4 && WorldUnits(PickupOutcome(p, [EmptySlot], [], 0)) == 2
  {
    var x := Item(0, "Sword", None, Weapon, 1, Some(0), true, None);
    var inv := [EmptySlot];
    assert inv[1..] == [];
    assert RunPass(Stacking, inv, x, 2) == Fill(inv, 2);
    assert SlotAdd(EmptySlot, x, 2) == Admit(Slot(Some(x), 1), 1);
    assert RunPass(Filling, inv, x, 2) == Fill([Slot(Some(x), 1)], 1);
    var a := AddItem(inv, x, 2);
    assert a.inv == [Slot(Some(x), 1)] && a.dropped == [Stack(x, 1)];
    assert Units(a.inv, AnyItem) == 1 by {
      assert a.inv[1..] == [];
    }
    assert PlacedUnits(a.dropped, AnyItem) == 1 by {
      assert a.dropped[1..] == [];
    }
  }

  /**
   * `TryPickupItem` corrected: once the add has run, every unit of the pickup
   * is either stored or handed to the ground drop, so the pickup is
   * destroyed whatever the add reported.
   */
  function TryPickupItemCorrected(p: Pickup, inv: Inventory): (r: PickupOutcome)
    ensures !(p.playerInRange && p.item.Some?) ==> r == PickupOutcome(p, inv, [], 0)
    ensures p.playerInRange && p.item.Some? ==> r.pickup.destroyed && r.notes == 1
  {
    if p.playerInRange && p.item.Some? then
      var a := AddItem(inv, p.item.value, p.quantity);
      PickupOutcome(p.(destroyed := true), a.inv, a.dropped, a.notes)
    else
      PickupOutcome(p, inv, [], 0)
  }

  /** The corrected attempt conserves units: what the pickup offered is now
      in the inventory, in a new pickup, or destroyed by the ground drop for
      want of a prefab; nothing is destroyed when the item has a prefab. */
  lemma TryPickupCorrectedConserves(p: Pickup, inv: Inventory)
    requires p.quantity >= 0 && !p.destroyed
    ensures var r := TryPickupItemCorrected(p, inv);
            WorldUnits(r) + LostUnits(r.dropped, AnyItem) == WorldUnits(PickupOutcome(p, inv, [], 0))
    ensures (p.item.Some? ==> p.item.value.prefab.Some?) ==>
              WorldUnits(TryPickupItemCorrected(p, inv)) == WorldUnits(PickupOutcome(p, inv, [], 0))
  {
    if p.playerInRange && p.item.Some? {
      var a := AddItem(inv, p.item.value, p.quantity);
      AddItemConserves(inv, p.item.value, p.quantity);
      StackUnitsSplit(a.dropped, AnyItem);
      LostUnitsOneItem(a.dropped, p.item.value, AnyItem);
    }
  }
}
