/**
 * One inventory slot (Inventory/InventorySlot.cs): an optional item and a
 * stack count, plus the unit counting the inventory proofs are stated with.
 */
module Slots {
  import opened Wrappers
  import opened Mathf
  import opened Items

  datatype Slot = Slot(item: Option<Item>, count: int)

  /** The slot a new `InventorySlot()` starts as, and that a slot returns to
      once its count drops to 0. */
  const EmptySlot: Slot := Slot(None, 0)

  function NewSlot(): (s: Slot)
    ensures s.item.None? && s.count == 0
    ensures IsEmpty(s)
  {
    EmptySlot
  }

  /** `IsEmpty`: no item, or a count of 0. */
  predicate IsEmpty(s: Slot)
  {
    s.item.None? || s.count == 0
  }

  /** The slot invariant: it is empty exactly when it has no
      item, and a held stack has between 1 and the item's max stack units. */
  predicate Valid(s: Slot)
  {
    && (s.item.None? <==> s.count == 0)
    && (s.item.Some? ==> 1 <= s.count <= s.item.value.maxStack)
  }

  /** Weaker than `Valid`: no bound on the count, but no negative counts and
      no item with a count of 0. */
  predicate Coherent(s: Slot)
  {
    (s.item.None? <==> s.count == 0) && s.count >= 0
  }

  /** The slot holds an item and its count equals that item's max stack. */
  predicate Full(s: Slot)
  {
    s.item.Some? && s.count == s.item.value.maxStack
  }

  /** The slot can take units of `x`: it is unset, or holds an item with the
      same name (the stack-matching key). */
  predicate Accepts(s: Slot, x: Item)
  {
    s.item.None? || s.item.value.name == x.name
  }

  lemma ValidIsCoherent(s: Slot)
    requires Valid(s)
    ensures Coherent(s)
    ensures IsEmpty(s) <==> s.item.None?
  {
  }

  /** Which items a unit count is taken over. */
  datatype Selector = AnyItem | OfType(t: ItemType) | Named(n: string) | Instance(x: Item)

  predicate Selects(sel: Selector, y: Item)
  {
    match sel
    case AnyItem => true
    case OfType(t) => y.itemType == t
    case Named(n) => y.name == n
    case Instance(x) => y == x
  }

  /** The units a slot holds of the selected items: its count when it holds
      a selected item, otherwise nothing. */
  function SlotUnits(s: Slot, sel: Selector): int
  {
    if s.item.Some? && Selects(sel, s.item.value) then s.count else 0
  }

  /** The outcome of `InventorySlot.AddItem`: the new slot and the number of
      units the call reports as added. */
  datatype Admit = Admit(slot: Slot, added: int)

  /**
   * `InventorySlot.AddItem(x, n)`. An unset slot takes `x` and
   * `Min(n, x.maxStack)` units; a slot whose item has the same name keeps its
   * own item and takes `Min(n, room)` where the room is measured against the
   * stored item's max stack; any other slot takes nothing.
   */
  function SlotAdd(s: Slot, x: Item, n: int): (r: Admit)
    ensures Accepts(s, x) ==> r.added <= n
    ensures !Accepts(s, x) ==> r == Admit(s, 0)
    ensures Accepts(s, x) ==> r.slot.item == (if s.item.None? then Some(x) else s.item)
    // the count grows by exactly the reported amount
    ensures Accepts(s, x) ==> r.slot.count == (if s.item.None? then 0 else s.count) + r.added
    // a slot that takes less than asked is full afterwards
    ensures Accepts(s, x) && r.added < n ==> Full(r.slot)
    // a stack within bounds stays within bounds
    ensures Accepts(s, x) && n >= 0 && (s.item.None? || s.count <= s.item.value.maxStack)
            && (s.item.Some? || x.maxStack >= 0)
            ==> 0 <= r.added && r.slot.count <= r.slot.item.value.maxStack
  {
    if s.item.None? then
      var added := Min(n, x.maxStack);
      Admit(Slot(Some(x), added), added)
    else if s.item.value.name == x.name then
      var added := Min(n, s.item.value.maxStack - s.count);
      Admit(Slot(s.item, s.count + added), added)
    else
      Admit(s, 0)
  }

  /** An empty slot takes a stack within its bounds whole. */
  lemma PlaceEmpty(x: Item, n: int)
    requires 1 <= n <= x.maxStack
    ensures SlotAdd(EmptySlot, x, n) == Admit(Slot(Some(x), n), n)
  {
  }

  /** The outcome of `InventorySlot.RemoveItem`: the new slot and the number
      of units the call reports as removed. */
  datatype Take = Take(slot: Slot, removed: int)

  /**
   * `InventorySlot.RemoveItem(n)`: an unset slot gives nothing; otherwise
   * `Min(n, count)` units leave and the slot is cleared once its count is no
   * longer positive.
   */
  function SlotRemove(s: Slot, n: int): (r: Take)
    ensures s.item.None? ==> r == Take(s, 0)
    ensures s.item.Some? ==> r.removed <= n && r.removed <= s.count
    ensures s.item.Some? ==> r.removed == n || r.removed == s.count
    // what is left is either the same item with the remaining count, or nothing
    ensures s.item.Some? ==>
              || (r.slot == EmptySlot && s.count - r.removed <= 0)
              || (r.slot == Slot(s.item, s.count - r.removed) && r.slot.count > 0)
    ensures s.item.Some? ==> Coherent(r.slot)
  {
    if s.item.None? then Take(s, 0)
    else
      var removed := Min(n, s.count);
      var left := s.count - removed;
      if left <= 0 then Take(EmptySlot, removed) else Take(Slot(s.item, left), removed)
  }

  /** Adding changes the selected units of a slot by the reported amount,
      provided the selector cannot tell the slot's item from `x` whenever the
      two share a name. */
  lemma SlotAddUnits(s: Slot, x: Item, n: int, sel: Selector)
    requires s.item.Some? && s.item.value.name == x.name ==> (Selects(sel, s.item.value) <==> Selects(sel, x))
    ensures SlotUnits(SlotAdd(s, x, n).slot, sel) == SlotUnits(s, sel) + (if Selects(sel, x) then SlotAdd(s, x, n).added else 0)
  {
  }

  /** Removing takes exactly the reported amount off the slot's units. */
  lemma SlotRemoveUnits(s: Slot, n: int, sel: Selector)
    ensures SlotUnits(SlotRemove(s, n).slot, sel)
         == SlotUnits(s, sel) - (if s.item.Some? && Selects(sel, s.item.value) then SlotRemove(s, n).removed else 0)
  {
  }
}
