/**
 * Equipment slots and the equipment set (Inventory/EquipmentSlot.cs and
 * Inventory/EquipmentSystem.cs). Each slot is a two-state machine, empty or
 * occupied by one item of the slot's category.
 */
module Equipment {
  import opened Wrappers
  import opened Items

  datatype EquipSlot = EquipSlot(slotType: ItemType, equipped: Option<Item>)

  /** The slot's invariant: whatever it holds has the slot's category. */
  predicate SlotInvariant(s: EquipSlot)
  {
    s.equipped.None? || s.equipped.value.itemType == s.slotType
  }

  /** `new EquipmentSlot(t)`: empty, with category t. */
  function NewEquipSlot(t: ItemType): (s: EquipSlot)
    ensures s.slotType == t && s.equipped.None?
    ensures SlotInvariant(s)
  {
    EquipSlot(t, None)
  }

  datatype SlotEquip = SlotEquip(slot: EquipSlot, ok: bool)

  /** `EquipmentSlot.EquipItem(x)`: succeeds exactly when x has the slot's
      category, and then overwrites the previous occupant, which is not
      handed back; on failure nothing changes. */
  function EquipInSlot(s: EquipSlot, x: Item): (r: SlotEquip)
    ensures r.ok <==> x.itemType == s.slotType
    ensures r.slot.slotType == s.slotType
    ensures r.ok ==> r.slot.equipped == Some(x)
    ensures !r.ok ==> r.slot == s
    ensures SlotInvariant(s) ==> SlotInvariant(r.slot)
  {
    if x.itemType == s.slotType then SlotEquip(s.(equipped := Some(x)), true)
    else SlotEquip(s, false)
  }

  datatype SlotUnequip = SlotUnequip(slot: EquipSlot, removed: Option<Item>)

  /** `EquipmentSlot.UnequipItem()`: hands back the occupant (or nothing)
      and leaves the slot empty, with its category unchanged. */
  function UnequipSlot(s: EquipSlot): (r: SlotUnequip)
    ensures r.removed == s.equipped
    ensures r.slot.equipped.None? && r.slot.slotType == s.slotType
    ensures SlotInvariant(r.slot)
  {
    SlotUnequip(s.(equipped := None), s.equipped)
  }

  /** Slot round trip: after a successful equip, unequipping hands back the
      item just equipped, and a second unequip hands back nothing. */
  lemma SlotRoundTrip(s: EquipSlot, x: Item)
    requires x.itemType == s.slotType
    ensures UnequipSlot(EquipInSlot(s, x).slot).removed == Some(x)
    ensures UnequipSlot(UnequipSlot(EquipInSlot(s, x).slot).slot).removed.None?
  {
  }

  /** The equipment set: one slot per supported category. */
  datatype EquipmentSet = EquipmentSet(slots: map<ItemType, EquipSlot>)

  /** The set holds exactly the Weapon and Armor slots, each keyed by its own
      category and keeping the slot invariant. */
  predicate WellFormed(e: EquipmentSet)
  {
    && e.slots.Keys == {Weapon, Armor}
    && forall t :: t in e.slots ==> e.slots[t].slotType == t && SlotInvariant(e.slots[t])
  }

  /** `new EquipmentSystem()`: an empty Weapon slot and an empty Armor slot. */
  function NewEquipmentSet(): (e: EquipmentSet)
    ensures WellFormed(e)
    ensures forall t :: t in e.slots ==> e.slots[t].equipped.None?
  {
    EquipmentSet(map[Weapon := NewEquipSlot(Weapon), Armor := NewEquipSlot(Armor)])
  }

  /** The category's slot exists and holds an item. */
  predicate Occupied(e: EquipmentSet, t: ItemType)
  {
    t in e.slots && e.slots[t].equipped.Some?
  }

  datatype EquipOutcome = EquipOutcome(equipment: EquipmentSet, ok: bool, notes: nat)

  /** `EquipmentSystem.EquipItem(x)`: delegate to the slot of x's category,
      if there is one; one change notification on success, none otherwise. */
  function EquipItem(e: EquipmentSet, x: Item): (r: EquipOutcome)
    ensures r.ok <==> x.itemType in e.slots && e.slots[x.itemType].slotType == x.itemType
    ensures WellFormed(e) ==> (r.ok <==> x.itemType == Weapon || x.itemType == Armor)
    ensures r.notes == (if r.ok then 1 else 0)
    ensures !r.ok ==> r.equipment == e
    // only the slot of x's category can change
    ensures r.equipment.slots.Keys == e.slots.Keys
    ensures r.ok ==> r.equipment.slots[x.itemType].equipped == Some(x)
    ensures forall t :: t in e.slots && t != x.itemType ==> r.equipment.slots[t] == e.slots[t]
    ensures forall t :: t in e.slots ==> r.equipment.slots[t].slotType == e.slots[t].slotType
    ensures WellFormed(e) ==> WellFormed(r.equipment)
  {
    if x.itemType in e.slots then
      var r := EquipInSlot(e.slots[x.itemType], x);
      if r.ok then EquipOutcome(EquipmentSet(e.slots[x.itemType := r.slot]), true, 1)
      else EquipOutcome(e, false, 0)
    else EquipOutcome(e, false, 0)
  }

  datatype UnequipOutcome = UnequipOutcome(equipment: EquipmentSet, removed: Option<Item>, notes: nat)

  /** `EquipmentSystem.UnequipItem(t)`: hands back the previous occupant of
      t's slot, notifying only when there was one; an unknown category
      gives nothing and changes nothing. */
  function UnequipItem(e: EquipmentSet, t: ItemType): (r: UnequipOutcome)
    ensures t !in e.slots ==> r.removed.None? && r.equipment == e
    ensures t in e.slots ==> r.removed == e.slots[t].equipped && !Occupied(r.equipment, t)
    ensures r.notes == (if r.removed.Some? then 1 else 0)
    ensures r.equipment.slots.Keys == e.slots.Keys
    ensures forall u :: u in e.slots && u != t ==> r.equipment.slots[u] == e.slots[u]
    ensures forall u :: u in e.slots ==> r.equipment.slots[u].slotType == e.slots[u].slotType
    ensures WellFormed(e) ==> WellFormed(r.equipment)
  {
    if t in e.slots then
      var r := UnequipSlot(e.slots[t]);
      UnequipOutcome(EquipmentSet(e.slots[t := r.slot]), r.removed, if r.removed.Some? then 1 else 0)
    else UnequipOutcome(e, None, 0)
  }

  /** `GetEquipmentSlot(t)`: a lookup without side effects; in a well-formed
      set it finds a slot exactly for Weapon and Armor. */
  function GetEquipmentSlot(e: EquipmentSet, t: ItemType): (r: Option<EquipSlot>)
    ensures r.Some? <==> t in e.slots
    ensures r.Some? ==> r.value == e.slots[t]
    ensures WellFormed(e) ==> (r.Some? <==> t == Weapon || t == Armor)
    ensures WellFormed(e) && r.Some? ==> r.value.slotType == t
  {
    if t in e.slots then Some(e.slots[t]) else None
  }

  /** Round trip: a successful equip followed by unequipping its category
      hands back the same item and leaves that slot empty; the other slot
      is as before. */
  lemma EquipUnequipRoundTrip(e: EquipmentSet, x: Item)
    requires EquipItem(e, x).ok
    ensures UnequipItem(EquipItem(e, x).equipment, x.itemType).removed == Some(x)
    ensures !Occupied(UnequipItem(EquipItem(e, x).equipment, x.itemType).equipment, x.itemType)
    ensures forall t :: t in e.slots && t != x.itemType
              ==> UnequipItem(EquipItem(e, x).equipment, x.itemType).equipment.slots[t] == e.slots[t]
  {
  }

  /** Equipping into an occupied slot discards the previous occupant: it is
      neither returned by the call nor anywhere in the set afterwards. */
  lemma EquipOverwrites(e: EquipmentSet, x: Item, y: Item)
    requires WellFormed(e) && x != y
    requires x.itemType == Weapon || x.itemType == Armor
    requires e.slots[x.itemType].equipped == Some(y)
    ensures EquipItem(e, x).ok
    ensures forall t :: t in EquipItem(e, x).equipment.slots ==> EquipItem(e, x).equipment.slots[t].equipped != Some(y)
  {
  }
}
