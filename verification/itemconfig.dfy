/**
 * The item configuration window's two handlers (UI/Inventory/ItemConfigUI.cs):
 * edit the selected catalog entry, refresh the instances built from it, and
 * reorganize that category in the inventory.
 */
module ItemConfig {
  import opened Wrappers
  import opened Mathf
  import opened Items
  import opened Slots
  import opened Inventories
  import opened Equipment
  import opened Pickups
  import opened Spawner

  /** The stackable toggle: turning stacking off also forces a max stack of 1;
      turning it on keeps the max stack. */
  function StackableRule(d: ItemData, value: bool): (r: ItemData)
    ensures r.stackable == value
    ensures !value ==> r.maxStack == 1
    ensures value ==> r.maxStack == d.maxStack
    ensures SameCatalogFields(r, d)
  {
    var s := ConfigureStackable(d, value);
    if !value then ConfigureMaxStackCount(s, 1) else s
  }

  /** The max-stack field: a parsed value is stored raised to at least 1; text
      that does not parse leaves the entry as it was. */
  function MaxStackRule(d: ItemData, parsed: Option<int>): (r: ItemData)
    ensures parsed.None? ==> r == d
    ensures parsed.Some? ==> r.maxStack >= 1
    ensures parsed.Some? && parsed.value >= 1 ==> r.maxStack == parsed.value
    ensures parsed.Some? && parsed.value < 1 ==> r.maxStack == 1
    ensures r.stackable == d.stackable && SameCatalogFields(r, d)
  {
    if parsed.Some? then ConfigureMaxStackCount(d, Max(1, parsed.value)) else d
  }

  /** Instances are shared objects: a tracked instance of the edited category
      that sits in a slot is seen there refreshed. */
  predicate Refreshes(x: Item, tracked: seq<Item>, d: ItemData)
  {
    x in tracked && x.itemType == d.itemType
  }

  function RefreshHeld(inv: Inventory, tracked: seq<Item>, d: ItemData, refresh: (Item, ItemData) -> Item): (r: Inventory)
    ensures |r| == |inv|
    ensures forall i :: 0 <= i < |inv| ==> r[i].count == inv[i].count && (r[i].item.Some? <==> inv[i].item.Some?)
    ensures forall i :: 0 <= i < |inv| && inv[i].item.Some? && Refreshes(inv[i].item.value, tracked, d) ==>
              r[i].item == Some(refresh(inv[i].item.value, d))
    ensures forall i :: 0 <= i < |inv| && !(inv[i].item.Some? && Refreshes(inv[i].item.value, tracked, d)) ==>
              r[i] == inv[i]
  {
    seq(|inv|, i requires 0 <= i < |inv| =>
      if inv[i].item.Some? && Refreshes(inv[i].item.value, tracked, d)
      then Slot(Some(refresh(inv[i].item.value, d)), inv[i].count)
      else inv[i])
  }

  /** The equipment sees the refresh too: an equipped tracked instance of the
      category is refreshed in its slot, and every other slot is unchanged. */
  function RefreshEquipment(e: EquipmentSet, tracked: seq<Item>, d: ItemData, refresh: (Item, ItemData) -> Item): (r: EquipmentSet)
    ensures r.slots.Keys == e.slots.Keys
    ensures forall t :: t in e.slots ==>
              r.slots[t].slotType == e.slots[t].slotType && (r.slots[t].equipped.Some? <==> e.slots[t].equipped.Some?)
    ensures forall t :: t in e.slots && e.slots[t].equipped.Some? && Refreshes(e.slots[t].equipped.value, tracked, d) ==>
              r.slots[t].equipped == Some(refresh(e.slots[t].equipped.value, d))
    ensures forall t :: t in e.slots && !(e.slots[t].equipped.Some? && Refreshes(e.slots[t].equipped.value, tracked, d)) ==>
              r.slots[t] == e.slots[t]
  {
    EquipmentSet(map t | t in e.slots ::
      if e.slots[t].equipped.Some? && Refreshes(e.slots[t].equipped.value, tracked, d)
      then e.slots[t].(equipped := Some(refresh(e.slots[t].equipped.value, d)))
      else e.slots[t])
  }

  /** So do the pickups lying in the world: a pickup holding a tracked
      instance of the category holds it refreshed, with everything else kept. */
  function RefreshWorld(world: seq<Pickup>, tracked: seq<Item>, d: ItemData, refresh: (Item, ItemData) -> Item): (r: seq<Pickup>)
    ensures |r| == |world|
    ensures forall i :: 0 <= i < |world| ==> r[i].(item := world[i].item) == world[i] && (r[i].item.Some? <==> world[i].item.Some?)
    ensures forall i :: 0 <= i < |world| && world[i].item.Some? && Refreshes(world[i].item.value, tracked, d) ==>
              r[i].item == Some(refresh(world[i].item.value, d))
    ensures forall i :: 0 <= i < |world| && !(world[i].item.Some? && Refreshes(world[i].item.value, tracked, d)) ==>
              r[i] == world[i]
  {
    seq(|world|, i requires 0 <= i < |world| =>
      if world[i].item.Some? && Refreshes(world[i].item.value, tracked, d)
      then world[i].(item := Some(refresh(world[i].item.value, d)))
      else world[i])
  }

  /** And so do the spawner's placed pickups, from the scene spawn or an
      earlier ground drop. */
  function RefreshPlaced(placed: seq<Placed>, tracked: seq<Item>, d: ItemData, refresh: (Item, ItemData) -> Item): (r: seq<Placed>)
    ensures |r| == |placed|
    ensures forall i :: 0 <= i < |placed| ==> r[i].(item := placed[i].item) == placed[i]
    ensures forall i :: 0 <= i < |placed| && Refreshes(placed[i].item, tracked, d) ==>
              r[i].item == refresh(placed[i].item, d)
    ensures forall i :: 0 <= i < |placed| && !Refreshes(placed[i].item, tracked, d) ==> r[i] == placed[i]
  {
    seq(|placed|, i requires 0 <= i < |placed| =>
      if Refreshes(placed[i].item, tracked, d) then placed[i].(item := refresh(placed[i].item, d)) else placed[i])
  }

  /** And so do the stacks already handed to the ground drop. */
  function RefreshStacks(stacks: seq<Stack>, tracked: seq<Item>, d: ItemData, refresh: (Item, ItemData) -> Item): (r: seq<Stack>)
    ensures |r| == |stacks|
    ensures forall i :: 0 <= i < |stacks| ==> r[i].count == stacks[i].count
    ensures forall i :: 0 <= i < |stacks| && Refreshes(stacks[i].item, tracked, d) ==>
              r[i].item == refresh(stacks[i].item, d)
    ensures forall i :: 0 <= i < |stacks| && !Refreshes(stacks[i].item, tracked, d) ==> r[i] == stacks[i]
  {
    seq(|stacks|, i requires 0 <= i < |stacks| =>
      if Refreshes(stacks[i].item, tracked, d) then Stack(refresh(stacks[i].item, d), stacks[i].count) else stacks[i])
  }

  /** Every holder of an instance besides the inventory: the equipment, the
      pickups in the world, the spawner's placed pickups and the stacks handed
      to the ground drop. */
  datatype Holders = Holders(equip: EquipmentSet, world: seq<Pickup>, placed: seq<Placed>, ground: seq<Stack>)

  datatype ConfigOutcome = ConfigOutcome(data: Option<ItemData>, tracked: seq<Item>, inv: Inventory, holders: Holders,
                                         dropped: seq<Stack>, notes: nat)

  /** What both handlers do after editing the entry: `UpdateItems`, then
      `ReorganizeInventory` for the entry's category. The tracked list is
      refreshed, and so is every other holder of a tracked instance (slots,
      equipment, pickups in the world, placed pickups, ground stacks), since
      they share the object; the inventory keeps its size, one notification
      fires per re-added stack plus the final one, only items of the edited
      category overflow, and no unit is lost: each is still stored or handed
      to the ground drop. */
  function ApplyConfig(d: ItemData, tracked: seq<Item>, inv: Inventory, h: Holders,
                       refresh: (Item, ItemData) -> Item): (r: ConfigOutcome)
    ensures r.data == Some(d)
    ensures r.tracked == UpdateItems(tracked, d, refresh)
    ensures r.holders.equip == RefreshEquipment(h.equip, tracked, d, refresh)
    ensures r.holders.world == RefreshWorld(h.world, tracked, d, refresh)
    ensures r.holders.placed == RefreshPlaced(h.placed, tracked, d, refresh)
    ensures r.holders.ground == RefreshStacks(h.ground, tracked, d, refresh)
    ensures |r.inv| == |inv|
    ensures r.notes >= 1
    // one notification per non-empty slot of the category, plus the final one
    ensures KeepsKind(refresh) ==> r.notes == PulledCount(inv, d.itemType) + 1
    ensures forall k :: 0 <= k < |r.dropped| ==> r.dropped[k].item.itemType == d.itemType
    ensures NonNegative(inv) ==> Units(r.inv, AnyItem) + StackUnits(r.dropped, AnyItem) == Units(inv, AnyItem)
    // a held stack of another category is untouched unless a held item of
    // the edited category carries its name
    ensures forall i :: Bystander(inv, d, refresh, i) ==> r.inv[i] == inv[i]
  {
    var held := RefreshHeld(inv, tracked, d, refresh);
    var g := ReorganizeInventory(held, d.itemType);
    ReorganizeDropsCategory(held, d.itemType);
    RefreshReorganizeConserves(d, tracked, inv, refresh);
    RefreshReorganizeKeepsOthers(d, tracked, inv, refresh);
    PullOutCount(held, d.itemType);
    RefreshKeepsPulled(d, tracked, inv, refresh);
    var h' := Holders(RefreshEquipment(h.equip, tracked, d, refresh), RefreshWorld(h.world, tracked, d, refresh),
                      RefreshPlaced(h.placed, tracked, d, refresh), RefreshStacks(h.ground, tracked, d, refresh));
    ConfigOutcome(Some(d), UpdateItems(tracked, d, refresh), g.inv, h', g.dropped, g.notes)
  }

  /** `OnStackableChanged(value)`; `current` is the selected entry, if any. */
  function OnStackableChanged(current: Option<ItemData>, value: bool, tracked: seq<Item>, inv: Inventory,
                              h: Holders, refresh: (Item, ItemData) -> Item): (r: ConfigOutcome)
    ensures current.None? ==> r == ConfigOutcome(None, tracked, inv, h, [], 0)
    ensures current.Some? ==>
              && r.data.Some? && r.data.value.stackable == value
              && (!value ==> r.data.value.maxStack == 1)
              && (value ==> r.data.value.maxStack == current.value.maxStack)
              && SameCatalogFields(r.data.value, current.value)
    ensures current.Some? ==> r == ApplyConfig(StackableRule(current.value, value), tracked, inv, h, refresh)
  {
    if current.None? then ConfigOutcome(None, tracked, inv, h, [], 0)
    else ApplyConfig(StackableRule(current.value, value), tracked, inv, h, refresh)
  }

  /** `OnMaxStackChanged(text)`; `parsed` is the result of parsing the text. */
  function OnMaxStackChanged(current: Option<ItemData>, parsed: Option<int>, tracked: seq<Item>, inv: Inventory,
                             h: Holders, refresh: (Item, ItemData) -> Item): (r: ConfigOutcome)
    ensures current.None? ==> r == ConfigOutcome(None, tracked, inv, h, [], 0)
    ensures current.Some? && parsed.None? ==> r.data == current
    ensures current.Some? && parsed.Some? ==>
              r.data.Some? && r.data.value.maxStack == Max(1, parsed.value) && r.data.value.maxStack >= 1
    ensures current.Some? ==> r == ApplyConfig(MaxStackRule(current.value, parsed), tracked, inv, h, refresh)
  {
    if current.None? then ConfigOutcome(None, tracked, inv, h, [], 0)
    else ApplyConfig(MaxStackRule(current.value, parsed), tracked, inv, h, refresh)
  }

  lemma {:induction false} SameShapeUnits(a: seq<Slot>, b: seq<Slot>)
    requires |a| == |b|
    requires forall i :: 0 <= i < |a| ==> a[i].count == b[i].count && (a[i].item.Some? <==> b[i].item.Some?)
    ensures Units(a, AnyItem) == Units(b, AnyItem)
    decreases |a|
  {
    if |a| > 0 {
      SameShapeUnits(a[1..], b[1..]);
    }
  }

  /** Refreshing and reorganizing lose nothing: what the inventory held is
      afterwards in the inventory or handed to the ground drop. */
  lemma RefreshReorganizeConserves(d: ItemData, tracked: seq<Item>, inv: Inventory, refresh: (Item, ItemData) -> Item)
    ensures NonNegative(inv) ==>
              var g := ReorganizeInventory(RefreshHeld(inv, tracked, d, refresh), d.itemType);
              Units(g.inv, AnyItem) + StackUnits(g.dropped, AnyItem) == Units(inv, AnyItem)
  {
    if NonNegative(inv) {
      var held := RefreshHeld(inv, tracked, d, refresh);
      SameShapeUnits(held, inv);
      ReorganizeUnits(held, d.itemType, AnyItem);
    }
  }

  /** No held item of the edited category carries `y`'s name, before or
      after the refresh. */
  predicate NameFree(inv: Inventory, d: ItemData, refresh: (Item, ItemData) -> Item, y: Item)
  {
    forall k :: 0 <= k < |inv| && inv[k].item.Some? && inv[k].item.value.itemType == d.itemType ==>
      inv[k].item.value.name != y.name && refresh(inv[k].item.value, d).name != y.name
  }

  /** Slot i holds a stack of another category than the edited one, and no
      held item of the edited category carries its name. */
  predicate Bystander(inv: Inventory, d: ItemData, refresh: (Item, ItemData) -> Item, i: int)
  {
    0 <= i < |inv| && !IsEmpty(inv[i]) && inv[i].item.value.itemType != d.itemType
    && NameFree(inv, d, refresh, inv[i].item.value)
  }

  /** Refreshing and reorganizing leave alone every held stack of another
      category whose name no held item of the edited category carries. */
  lemma RefreshReorganizeKeepsOthers(d: ItemData, tracked: seq<Item>, inv: Inventory, refresh: (Item, ItemData) -> Item)
    ensures forall i :: Bystander(inv, d, refresh, i) ==>
              ReorganizeInventory(RefreshHeld(inv, tracked, d, refresh), d.itemType).inv[i] == inv[i]
  {
    var held := RefreshHeld(inv, tracked, d, refresh);
    forall i | Bystander(inv, d, refresh, i)
      ensures ReorganizeInventory(held, d.itemType).inv[i] == inv[i]
    {
      assert held[i] == inv[i];
      forall k | 0 <= k < |held| && PulledOut(held[k], d.itemType)
        ensures held[k].item.value.name != held[i].item.value.name
      {
        if !Refreshes(inv[k].item.value, tracked, d) {
          assert held[k] == inv[k];
        }
      }
      ReorganizeKeepsOthers(held, d.itemType, i);
    }
  }

  /** A refresh that keeps each instance's category leaves the same slots to
      pull out. */
  lemma RefreshKeepsPulled(d: ItemData, tracked: seq<Item>, inv: Inventory, refresh: (Item, ItemData) -> Item)
    ensures KeepsKind(refresh) ==> PulledCount(RefreshHeld(inv, tracked, d, refresh), d.itemType) == PulledCount(inv, d.itemType)
  {
    if KeepsKind(refresh) {
      var held := RefreshHeld(inv, tracked, d, refresh);
      forall i | 0 <= i < |inv|
        ensures PulledOut(held[i], d.itemType) <==> PulledOut(inv[i], d.itemType)
      {
        if inv[i].item.Some? && Refreshes(inv[i].item.value, tracked, d) {
          assert held[i].item.value == refresh(inv[i].item.value, d);
        }
      }
      PulledCountSame(held, inv, d.itemType);
    }
  }

  /** The refresh keeps an instance's identity and category, and adopts a max
      stack of at least 1 from an entry that has one. */
  ghost predicate KeepsKind(refresh: (Item, ItemData) -> Item)
  {
    forall x: Item, d: ItemData ::
      && refresh(x, d).id == x.id && refresh(x, d).itemType == x.itemType
      && (d.maxStack >= 1 ==> refresh(x, d).maxStack >= 1)
  }

  /** A configuration change leaves every slot within its stack bounds, and
      keeps a well-formed equipment set well-formed. */
  lemma ApplyConfigValid(d: ItemData, tracked: seq<Item>, inv: Inventory, h: Holders,
                         refresh: (Item, ItemData) -> Item)
    requires AllValid(inv) && KeepsKind(refresh) && d.maxStack >= 1
    ensures AllValid(ApplyConfig(d, tracked, inv, h, refresh).inv)
    ensures WellFormed(h.equip) ==> WellFormed(ApplyConfig(d, tracked, inv, h, refresh).holders.equip)
  {
    var held := RefreshHeld(inv, tracked, d, refresh);
    assert forall i :: 0 <= i < |held| && held[i].item.Some? ==> held[i].item.value.maxStack >= 1 by {
      forall i | 0 <= i < |held| && held[i].item.Some?
        ensures held[i].item.value.maxStack >= 1
      {
        if Refreshes(inv[i].item.value, tracked, d) {
          assert held[i].item.value == refresh(inv[i].item.value, d);
        }
      }
    }
    ReorganizeRestoresValid(held, d.itemType);
  }

  /** Toggling stacking keeps the inventory within bounds (turning it on needs
      an entry whose max stack is already at least 1). */
  lemma StackableChangeKeepsValid(current: Option<ItemData>, value: bool, tracked: seq<Item>, inv: Inventory,
                                  h: Holders, refresh: (Item, ItemData) -> Item)
    requires AllValid(inv) && KeepsKind(refresh)
    requires current.Some? && value ==> current.value.maxStack >= 1
    ensures AllValid(OnStackableChanged(current, value, tracked, inv, h, refresh).inv)
  {
    if current.Some? {
      ApplyConfigValid(StackableRule(current.value, value), tracked, inv, h, refresh);
    }
  }

  /** The same toggle keeps the equipment well-formed and loses no unit: what
      leaves the inventory is in the dropped stacks. */
  lemma StackableChangeKeepsHolders(current: Option<ItemData>, value: bool, tracked: seq<Item>, inv: Inventory,
                                    h: Holders, refresh: (Item, ItemData) -> Item)
    requires AllValid(inv) && KeepsKind(refresh)
    requires current.Some? && value ==> current.value.maxStack >= 1
    ensures WellFormed(h.equip) ==> WellFormed(OnStackableChanged(current, value, tracked, inv, h, refresh).holders.equip)
    ensures NonNegative(inv) ==>
              var r := OnStackableChanged(current, value, tracked, inv, h, refresh);
              Units(r.inv, AnyItem) + StackUnits(r.dropped, AnyItem) == Units(inv, AnyItem)
  {
    if current.Some? {
      ApplyConfigValid(StackableRule(current.value, value), tracked, inv, h, refresh);
    }
  }

  /** Editing the max stack keeps the inventory within bounds, whatever the
      text parsed to. */
  lemma MaxStackChangeKeepsValid(current: Option<ItemData>, parsed: Option<int>, tracked: seq<Item>, inv: Inventory,
                                 h: Holders, refresh: (Item, ItemData) -> Item)
    requires AllValid(inv) && KeepsKind(refresh)
    requires current.Some? && parsed.None? ==> current.value.maxStack >= 1
    ensures AllValid(OnMaxStackChanged(current, parsed, tracked, inv, h, refresh).inv)
  {
    if current.Some? {
      ApplyConfigValid(MaxStackRule(current.value, parsed), tracked, inv, h, refresh);
    }
  }

  /** The same edit keeps the equipment well-formed and loses no unit: what
      leaves the inventory is in the dropped stacks. */
  lemma MaxStackChangeKeepsHolders(current: Option<ItemData>, parsed: Option<int>, tracked: seq<Item>, inv: Inventory,
                                   h: Holders, refresh: (Item, ItemData) -> Item)
    requires AllValid(inv) && KeepsKind(refresh)
    requires current.Some? && parsed.None? ==> current.value.maxStack >= 1
    ensures WellFormed(h.equip) ==> WellFormed(OnMaxStackChanged(current, parsed, tracked, inv, h, refresh).holders.equip)
    ensures NonNegative(inv) ==>
              var r := OnMaxStackChanged(current, parsed, tracked, inv, h, refresh);
              Units(r.inv, AnyItem) + StackUnits(r.dropped, AnyItem) == Units(inv, AnyItem)
  {
    if current.Some? {
      ApplyConfigValid(MaxStackRule(current.value, parsed), tracked, inv, h, refresh);
    }
  }
}
