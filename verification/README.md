# Inventory, equipment and drag-drop rules of a Unity inventory game, in Dafny

This project models the core of a small Unity inventory system:

- **Inventory.** A fixed row of slots, each holding an optional item instance and a stack count.
  - Adding is two-pass. It first tops up slots holding an item of the same name, then fills empty slots in index order. Whatever still does not fit is handed to the ground drop.
  - Removing matches slots by the identity of the instance.
  - Reorganizing pulls every stack of one category out and adds each back.
- **Equipment.** One Weapon slot and one Armor slot. An equip is guarded by the item's category and overwrites the previous occupant.
- **Catalog and factory.** Catalog entries (`ItemData`) are registered first-wins from a list. The factory builds fresh instances from them.
- **Use dispatch.** An item's optional use strategy runs on use. A potion restores health, clamped to the maximum.
- **Configuration window.** The two handlers edit the stacking rules of an entry and then reorganize the inventory.
- **Drag and drop.** The rules for moving items between the inventory, the equipment and the ground.
- **Small state machines around the engine:**
  - the pickup's range flag;
  - spawn-point selection without replacement;
  - the in-range list with a unique highlight;
  - UI panels and the input-map switch.

Everything is modelled with immutable datatypes and pure functions. An operation returns:

- the new state;
- the values the source returns;
- the stacks handed to the ground drop;
- a count of the change notifications the source fires.

Object identity is an `id` field of `Item`, so comparing two `Item` values is the source's reference comparison. An instance is one shared object in the source, while the model holds a copy of it in every place that refers to it. A configuration change therefore refreshes the copies in the spawner's list, the inventory slots and every other holder (`ItemConfig.Holders`): the equipment, the pickups in the world, the spawner's placed pickups and the stacks handed to the ground drop (`ItemConfig.ApplyConfig`). The one copy it does not reach is the item of an ongoing drag (see "## Left out"). Counts are unbounded `int`s, modelled as written, negative requests included. Theorems that need well-behaved counts say so in their `requires`.

Modules:

| module | file | source |
|---|---|---|
| `Wrappers`, `Mathf` | wrappers.dfy | `Option`, `Mathf.Min`/`Max` |
| `Items` | items.dfy | Item/Item.cs, Item/ItemData.cs, Item/ItemUse/ |
| `Slots` | slots.dfy | Inventory/InventorySlot.cs |
| `Inventories` | inventory.dfy | Inventory/Inventory.cs |
| `Equipment` | equipment.dfy | Inventory/EquipmentSlot.cs, Inventory/EquipmentSystem.cs |
| `Characters` | character.dfy | Character.cs, Item.UseItem, Item/ItemUse/PotionUseData.cs |
| `Factory` | factory.dfy | Item/ItemFactory.cs |
| `Pickups` | pickup.dfy | Item/ItemPickup.cs |
| `Spawner` | spawner.dfy | Item/ItemSpawner.cs |
| `ItemConfig` | itemconfig.dfy | UI/Inventory/ItemConfigUI.cs |
| `DragDrop` | dragdrop.dfy | UI/Inventory/InputSystem/DragDropManager.cs |
| `Interactions` | interactions.dfy | PlayerInteractions.cs |
| `Panels` | panels.dfy | UI/Panel/UIPanel.cs, UI/Panel/PanelManager.cs, UI/PanelSystem/PanelManager.cs |

### Behaviour worth knowing

- **Weapon and armor strategies only write a log line.** They do not equip anything.
- **`Item.UseItem` returns nothing,** yet the right-click handler reads its result as a flag. The model reports "used" exactly when a strategy is bound.
- **`Inventory.AddItem` reports failure whenever units overflow to the ground drop.** It returns `count <= 0`, so a call whose units do not all fit returns false even though every unit was stored or handed on.
- **An inventory item dropped on an equipment slot goes to its own category's slot.** It is equipped there whatever the target slot's category.
- **An equipment item dropped on its own slot goes to the ground drop.** Dropped on the other slot, it is re-equipped in its own slot.
- **The ground drop destroys an item without a prefab** (`ItemSpawner.cs:70-74`). The model keeps every stack handed to the ground drop, and counts as owned (`DragDrop.Held`) only the stacks whose item has a prefab.
- **A successful equip discards the previous occupant** (`EquipmentSlot.cs:25`). The old item is not returned to the inventory.

### Where the sources do not fit together

- **The factory's constructor call is inconsistent with `Item`'s constructor.** The call passes four arguments to a five-parameter constructor, and the spawner reads the instance's prefab. The model copies the prefab and the stackable flag from the entry as well.
- **`Item` does not declare `IsStackable`, `ItemData` or `UpdateFromItemData`.**
  - The stackable flag is an abstract field of `Item`.
  - `UpdateFromItemData` is a function parameter `refresh`.
  - `ItemPickup.Initialize` is modelled as building a placed pickup from the item and the quantity.

## Model

| member | source | states |
|---|---|---|
| Mathf.Min | Assets/_Assets/Scripts/Inventory/InventorySlot.cs:25 | the result is one of the two arguments and no larger than either |
| Mathf.Max | Assets/_Assets/Scripts/UI/Inventory/ItemConfigUI.cs:41 | the result is one of the two arguments and no smaller than either |
| Items.NewPotionUse | Assets/_Assets/Scripts/Item/ItemUse/PotionUseData.cs:9 | the default potion strategy heals 20 |
| Items.NewItem | Assets/_Assets/Scripts/Item/Item.cs:17-24 | every descriptive field is stored as given and no strategy is bound |
| Items.SetUseStrategy | Assets/_Assets/Scripts/Item/Item.cs:26-29 | the strategy is replaced and every descriptive field, identity included, is kept |
| Items.NewItemData | Assets/_Assets/Scripts/Item/ItemData.cs:10-16 | a fresh entry has max stack 1 and is stackable; the other fields are as authored |
| Items.ConfigureStackable | Assets/_Assets/Scripts/Item/ItemData.cs:25-28 | only the stackable flag changes, to the argument |
| Items.ConfigureMaxStackCount | Assets/_Assets/Scripts/Item/ItemData.cs:29-32 | only the max stack changes, to exactly the argument, unclamped |
| Slots.NewSlot | Assets/_Assets/Scripts/Inventory/InventorySlot.cs:9-13 | a new slot has no item and count 0, and is empty and valid |
| Slots.ValidIsCoherent | Assets/_Assets/Scripts/Inventory/InventorySlot.cs:65-68 | for a slot within its bounds, being empty means exactly having no item |
| Slots.SlotAdd | Assets/_Assets/Scripts/Inventory/InventorySlot.cs:19-40 | an unset slot takes the item; a same-name slot keeps its instance; the count grows by exactly the reported amount, never above what was asked; a slot that takes less than asked is full; a different name gives 0 and changes nothing; a stack within bounds stays within bounds |
| Slots.SlotRemove | Assets/_Assets/Scripts/Inventory/InventorySlot.cs:45-60 | an unset slot gives 0 and is unchanged; otherwise the reported amount leaves and a slot left with no positive count is cleared to the empty slot; the result keeps "no item iff count 0" |
| Slots.PlaceEmpty | Assets/_Assets/Scripts/Inventory/InventorySlot.cs:21-28 | an empty slot takes a whole stack within its bounds |
| Slots.SlotAddUnits | Assets/_Assets/Scripts/Inventory/InventorySlot.cs:19-40 | the units a selector counts in the slot grow by exactly the added amount when the item is selected |
| Slots.SlotRemoveUnits | Assets/_Assets/Scripts/Inventory/InventorySlot.cs:45-60 | the units a selector counts in the slot fall by exactly the removed amount when the item is selected |
| Inventories.NewInventory | Assets/_Assets/Scripts/Inventory/Inventory.cs:15-23 | exactly maxSlots slots, all empty |
| Inventories.ForceInventoryUpdate | Assets/_Assets/Scripts/Inventory/Inventory.cs:90-93 | no slot changes and one notification fires |
| Inventories.RunPass | Assets/_Assets/Scripts/Inventory/Inventory.cs:30-38 | one scan of the add keeps the slot count, leaves unvisited slots alone, and only gives the item to unset slots |
| Inventories.AddItem | Assets/_Assets/Scripts/Inventory/Inventory.cs:25-63 | one notification; success exactly when nothing is handed to the ground drop; at most one handed stack, of the added item and a positive count; stacks of other names are untouched (or any stack, for a non-stackable item) |
| Inventories.AddItemUnits | Assets/_Assets/Scripts/Inventory/Inventory.cs:25-58 | units stored plus units handed to the ground drop equal units before plus the request, for any selector that agrees on names |
| Inventories.AddItemConserves | Assets/_Assets/Scripts/Inventory/Inventory.cs:25-58 | conservation of the add, for all units and for the item's name |
| Inventories.AddItemValid | Assets/_Assets/Scripts/Inventory/Inventory.cs:25-58 | adding keeps every slot within 1..max stack with "no item iff count 0" |
| Inventories.AddItemStacksFirst | Assets/_Assets/Scripts/Inventory/Inventory.cs:27-53 | for a stackable item, an empty slot receives units only once every same-name stack is full |
| Inventories.AddItemFailsOnlyWhenFull | Assets/_Assets/Scripts/Inventory/Inventory.cs:41-62 | a failed add leaves no empty slot and no same-name stack below its max |
| Inventories.AddItemFillsInOrder | Assets/_Assets/Scripts/Inventory/Inventory.cs:27-53 | for any item, stackable or not, slots that had no item are filled in index order: a later one changes only when every earlier one is full |
| Inventories.RemovePass | Assets/_Assets/Scripts/Inventory/Inventory.cs:69-78 | the removal scan keeps the slot count and touches only slots holding the identical instance |
| Inventories.RemoveItem | Assets/_Assets/Scripts/Inventory/Inventory.cs:65-83 | one notification; only slots holding the identical instance change, each keeping its item or being cleared |
| Inventories.RemovePassUnits | Assets/_Assets/Scripts/Inventory/Inventory.cs:69-78 | the units a selector counts fall by the removed amount exactly when the instance is selected |
| Inventories.RemovePassExact | Assets/_Assets/Scripts/Inventory/Inventory.cs:69-78 | the scan removes exactly min(request, units of that instance) |
| Inventories.RemoveItemExact | Assets/_Assets/Scripts/Inventory/Inventory.cs:65-83 | the returned amount is min(request, units of that instance held) and the selected units fall by exactly it |
| Inventories.UnitsAtLeast | Assets/_Assets/Scripts/Inventory/Inventory.cs:69-78 | a slot's units never exceed the inventory's |
| Inventories.RemovePassStep | Assets/_Assets/Scripts/Inventory/Inventory.cs:69-78 | the first slot is scanned on its own; the later slots are the scan of the rest with what is still wanted, or untouched once nothing is wanted |
| Inventories.RemovePassInOrder | Assets/_Assets/Scripts/Inventory/Inventory.cs:69-78 | while an earlier slot still holds the instance after the scan, every later slot is left as it was |
| Inventories.RemoveItemInOrder | Assets/_Assets/Scripts/Inventory/Inventory.cs:69-78 | a later slot of the instance loses units only when every earlier slot of it was emptied |
| Inventories.PullOut | Assets/_Assets/Scripts/Inventory/Inventory.cs:99-106 | every non-empty slot of the category is cleared and its stack listed; other slots are untouched |
| Inventories.Reinsert | Assets/_Assets/Scripts/Inventory/Inventory.cs:108-111 | re-adding keeps the slot count and fires one notification per listed stack |
| Inventories.PulledCountSame | Assets/_Assets/Scripts/Inventory/Inventory.cs:99-106 | inventories that agree slot by slot on which slots are taken out take out equally many |
| Inventories.PullOutCount | Assets/_Assets/Scripts/Inventory/Inventory.cs:99-106 | the first loop records exactly one stack per non-empty slot of the category |
| Inventories.ReorganizeInventory | Assets/_Assets/Scripts/Inventory/Inventory.cs:95-114 | the slot count is kept; one notification per re-added stack plus one |
| Inventories.ItemsIn | Assets/_Assets/Scripts/Inventory/Inventory.cs:99-106 | the set of instances the slots hold contains every held item |
| Inventories.PullOutUnits | Assets/_Assets/Scripts/Inventory/Inventory.cs:99-106 | pulling out moves units from the slots to the list without loss |
| Inventories.PullOutWithin | Assets/_Assets/Scripts/Inventory/Inventory.cs:99-106 | the pulled stacks and the slots left behind hold only instances the inventory held, and the stacks have positive counts when no slot count was negative |
| Inventories.ReinsertUnits | Assets/_Assets/Scripts/Inventory/Inventory.cs:108-111 | re-adding moves the listed units into the slots or the ground drop without loss |
| Inventories.ReinsertValid | Assets/_Assets/Scripts/Inventory/Inventory.cs:108-111 | re-adding keeps every slot within its bounds |
| Inventories.ReorganizeUnits | Assets/_Assets/Scripts/Inventory/Inventory.cs:95-114 | units in slots plus units handed to the ground drop equal the units before, for every selector that agrees on names (in particular all units and one category when names do not span categories) |
| Inventories.StackUnitsSplit | Assets/_Assets/Scripts/Item/ItemSpawner.cs:68-74 | every unit handed to the ground drop either becomes a pickup (the item has a prefab) or is destroyed (it has none) |
| Inventories.LostUnitsAppend | Assets/_Assets/Scripts/Item/ItemSpawner.cs:68-74 | the units the ground drop destroys add up over consecutive drops |
| Inventories.LostUnitsOneItem | Assets/_Assets/Scripts/Item/ItemSpawner.cs:68-74 | stacks of one item with a prefab lose nothing to the ground drop; stacks of one item without a prefab lose everything |
| Inventories.LostUnitsExtends | Assets/_Assets/Scripts/Item/ItemSpawner.cs:68-74 | extending the ground drop with stacks of an item that has a prefab destroys nothing more; without a prefab, every added unit is destroyed |
| Inventories.PullOutFrom | Assets/_Assets/Scripts/Inventory/Inventory.cs:99-106 | every listed stack's item is the item of a slot that was taken out |
| Inventories.ReinsertKeeps | Assets/_Assets/Scripts/Inventory/Inventory.cs:108-111 | re-adding never touches a held stack whose name none of the re-added stacks carries |
| Inventories.ReinsertDropsCategory | Assets/_Assets/Scripts/Inventory/Inventory.cs:108-111 | re-adding stacks of one category hands only items of that category to the ground drop |
| Inventories.ReorganizeKeepsOthers | Assets/_Assets/Scripts/Inventory/Inventory.cs:95-114 | a held stack of another category whose name no taken-out stack carries is left exactly as it was |
| Inventories.ReorganizeDropsCategory | Assets/_Assets/Scripts/Inventory/Inventory.cs:95-114 | only items of the reorganized category overflow to the ground drop |
| Inventories.ReorganizeRestoresValid | Assets/_Assets/Scripts/Inventory/Inventory.cs:95-114 | reorganizing a category repairs every stack of it, whatever its count, and leaves all slots within bounds |
| Equipment.NewEquipSlot | Assets/_Assets/Scripts/Inventory/EquipmentSlot.cs:9-13 | a new slot is empty and has the given category |
| Equipment.EquipInSlot | Assets/_Assets/Scripts/Inventory/EquipmentSlot.cs:19-29 | succeeds iff the categories match; success overwrites the occupant; failure changes nothing; the category is kept and the invariant preserved |
| Equipment.UnequipSlot | Assets/_Assets/Scripts/Inventory/EquipmentSlot.cs:34-39 | hands back the occupant and leaves the slot empty with its category |
| Equipment.SlotRoundTrip | Assets/_Assets/Scripts/Inventory/EquipmentSlot.cs:19-39 | equipping a matching item then unequipping returns that item, and a second unequip returns nothing |
| Equipment.NewEquipmentSet | Assets/_Assets/Scripts/Inventory/EquipmentSystem.cs:14-20 | exactly a Weapon and an Armor slot, both empty |
| Equipment.EquipItem | Assets/_Assets/Scripts/Inventory/EquipmentSystem.cs:22-34 | succeeds iff a slot of the item's category exists and accepts it (Weapon or Armor in a well-formed set); one notification exactly on success; only that slot changes; the key set and well-formedness are kept |
| Equipment.UnequipItem | Assets/_Assets/Scripts/Inventory/EquipmentSystem.cs:36-48 | returns the previous occupant and empties the slot; a notification only when there was one; unknown categories return nothing and change nothing |
| Equipment.GetEquipmentSlot | Assets/_Assets/Scripts/Inventory/EquipmentSystem.cs:50-57 | a lookup that finds a slot exactly for the keys, i.e. Weapon and Armor |
| Equipment.EquipUnequipRoundTrip | Assets/_Assets/Scripts/Inventory/EquipmentSystem.cs:22-48 | a successful equip then unequip of that category returns the item, empties the slot and leaves the other slot as before |
| Equipment.EquipOverwrites | Assets/_Assets/Scripts/Inventory/EquipmentSlot.cs:25 | equipping over an occupant succeeds and the occupant is nowhere in the set afterwards |
| Characters.NewCharacter | Assets/_Assets/Scripts/Character.cs:8-9 | health starts at 20, within the maximum of 100 |
| Characters.RestoreHealth | Assets/_Assets/Scripts/Character.cs:61-66 | health becomes health + amount clamped to the maximum: never above it, never above health + amount, equal to one of them, and not lower for a non-negative amount |
| Characters.PotionUseApply | Assets/_Assets/Scripts/Item/ItemUse/PotionUseData.cs:11-16 | the potion hands its heal amount to `RestoreHealth`: health becomes health + heal amount when that is at most 100 and 100 otherwise; a non-negative heal from at most full health never lowers health |
| Characters.ApplyStrategy | Assets/_Assets/Scripts/Item/ItemUse/PotionUseData.cs:11-16 | only the potion strategy acts on the character |
| Characters.UseItem | Assets/_Assets/Scripts/Item/Item.cs:35-45 | with a strategy it is applied once and use is reported; without one the character is unchanged and no use is reported |
| Characters.DefaultPotionHeals | Assets/_Assets/Scripts/Item/ItemUse/PotionUseData.cs:9-13 | a default potion heals by 20 up to the maximum and never lowers health |
| Characters.UpdateModel | Assets/_Assets/Scripts/Character.cs:39-60 | each visual is active exactly when its slot is occupied |
| Characters.VisualsFollowEquipment | Assets/_Assets/Scripts/Character.cs:39-60 | after an equip the visual of the item's category is on, after an unequip it is off, and the other visual is unchanged |
| Factory.BuildRegistry | Assets/_Assets/Scripts/Item/ItemFactory.cs:14-29 | the registry's keys are exactly the categories in the list, and each maps to the first entry of that category |
| Factory.NewItemFactory | Assets/_Assets/Scripts/Item/ItemFactory.cs:14-29 | the factory holds the first-wins registry |
| Factory.CreateItem | Assets/_Assets/Scripts/Item/ItemFactory.cs:34-57 | a fresh id each call; a registered category copies the entry's fields and binds its strategy iff it has one; an unregistered one yields "Generic Item" of category None, max stack 1, with no icon, prefab or strategy |
| Factory.CreateItemFresh | Assets/_Assets/Scripts/Item/ItemFactory.cs:38-56 | two successive creations give distinct instances, even for the same category |
| Pickups.NewPickup | Assets/_Assets/Scripts/Item/ItemPickup.cs:9-13 | quantity 1 by default, no item yet and not in range |
| Pickups.Start | Assets/_Assets/Scripts/Item/ItemPickup.cs:15-19 | the item is the factory's instance for the pickup's category; nothing else changes |
| Pickups.OnTriggerEnter | Assets/_Assets/Scripts/Item/ItemPickup.cs:21-28 | the flag is set exactly by a collider tagged "Player"; nothing else changes |
| Pickups.OnTriggerExit | Assets/_Assets/Scripts/Item/ItemPickup.cs:30-37 | the flag is cleared exactly by a collider tagged "Player"; nothing else changes |
| Pickups.TriggerRoundTrip | Assets/_Assets/Scripts/Item/ItemPickup.cs:21-37 | the player entering then leaving leaves it out of range; other colliders change nothing |
| Pickups.TryPickupItem | Assets/_Assets/Scripts/Item/ItemPickup.cs:42-57 | nothing happens when out of range or without an item; otherwise the whole quantity is added and the pickup is destroyed iff the add succeeded; the quantity never changes |
| Pickups.TryPickupDuplicates | Assets/_Assets/Scripts/Item/ItemPickup.cs:46-55 | a failed pickup of 2 units of an item with a prefab leaves 1 stored, 1 in a new pickup on the ground and the pickup still offering 2 |
| Pickups.TryPickupItemCorrected | Assets/_Assets/Scripts/Item/ItemPickup.cs:42-57 | nothing happens when out of range or without an item; once the add has run the pickup is destroyed |
| Pickups.TryPickupCorrectedConserves | Assets/_Assets/Scripts/Item/ItemPickup.cs:42-57 | what the pickup offered is afterwards in the inventory, in a new pickup, or destroyed by the ground drop for want of a prefab; nothing is destroyed when the item has a prefab |
| Spawner.ChoosePoints | Assets/_Assets/Scripts/Item/ItemSpawner.cs:19-34 | one point per entry until the points run out, so min(entries, points) points, each in range and no point twice |
| Spawner.SpawnItemInScene | Assets/_Assets/Scripts/Item/ItemSpawner.cs:37-65 | the created instance is always tracked; a pickup of the quantity is placed at the point iff the instance has a prefab |
| Spawner.SpawnAll | Assets/_Assets/Scripts/Item/ItemSpawner.cs:21-34 | one tracked instance per chosen point, in addition to the earlier ones, with the factory's registry unchanged; every placed pickup stands on a chosen point, and distinct chosen points give pickups distinct points |
| Spawner.EntryShift | Assets/_Assets/Scripts/Item/ItemSpawner.cs:21-33 | after the first entry is spawned, the remaining entries get the instances and pickups the whole run gives them, one id later |
| Spawner.SpawnAllTracks | Assets/_Assets/Scripts/Item/ItemSpawner.cs:21-33 | entries are spawned in order: the k-th new tracked instance is the one the factory creates for `entries[k]`'s category, with the k-th fresh id |
| Spawner.SpawnAllPlacesEach | Assets/_Assets/Scripts/Item/ItemSpawner.cs:21-33 | every entry whose instance has a prefab gets a pickup of that instance, carrying the entry's quantity, at the entry's chosen point |
| Spawner.ShiftedPickup | Assets/_Assets/Scripts/Item/ItemSpawner.cs:21-33 | a pickup of a later entry is a pickup of the whole run, and its instance is newer than the first entry's |
| Spawner.SpawnAllPlacesOnly | Assets/_Assets/Scripts/Item/ItemSpawner.cs:21-33 | every placed pickup is the pickup of some entry whose instance has a prefab, and pickups come in the order the entries were spawned |
| Spawner.InitializeSpawner | Assets/_Assets/Scripts/Item/ItemSpawner.cs:17-35 | exactly min(entries, points) distinct existing points are chosen and as many instances created and tracked, the k-th for `entries[k]`; each entry whose instance has a prefab gets a pickup of it with its quantity at its point, every pickup is such a pickup, in entry order, and no two pickups share a point |
| Spawner.DropItemOnGround | Assets/_Assets/Scripts/Item/ItemSpawner.cs:68-90 | a pickup of the item and quantity exists iff the item has a prefab |
| Spawner.UpdateItems | Assets/_Assets/Scripts/Item/ItemSpawner.cs:92-101 | exactly the tracked instances of the entry's category are refreshed; the others are unchanged |
| Spawner.UpdateItemsIdempotent | Assets/_Assets/Scripts/Item/ItemSpawner.cs:92-101 | with a stable refresh, applying the same edit twice is the same as once |
| ItemConfig.StackableRule | Assets/_Assets/Scripts/UI/Inventory/ItemConfigUI.cs:24-29 | the flag becomes the toggle; turning stacking off forces max stack 1, turning it on keeps it |
| ItemConfig.MaxStackRule | Assets/_Assets/Scripts/UI/Inventory/ItemConfigUI.cs:39-42 | a parsed value is stored raised to at least 1; unparsable text changes nothing |
| ItemConfig.RefreshHeld | Assets/_Assets/Scripts/Item/ItemSpawner.cs:94-100 | slots holding a tracked instance of the category see it refreshed, with counts and every other slot unchanged |
| ItemConfig.RefreshEquipment | Assets/_Assets/Scripts/Item/ItemSpawner.cs:94-100 | an equipment slot holding a tracked instance of the category holds it refreshed; the slots, their categories and every other slot are unchanged |
| ItemConfig.RefreshWorld | Assets/_Assets/Scripts/Item/ItemSpawner.cs:94-100 | a pickup in the world holding a tracked instance of the category holds it refreshed; its other fields and every other pickup are unchanged |
| ItemConfig.RefreshPlaced | Assets/_Assets/Scripts/Item/ItemSpawner.cs:94-100 | a placed pickup of the spawner holding a tracked instance of the category holds it refreshed; its quantity, its point and every other placed pickup are unchanged |
| ItemConfig.RefreshStacks | Assets/_Assets/Scripts/Item/ItemSpawner.cs:94-100 | a stack handed to the ground drop holding a tracked instance of the category holds it refreshed; every count and every other stack is unchanged |
| ItemConfig.ApplyConfig | Assets/_Assets/Scripts/UI/Inventory/ItemConfigUI.cs:31-32 | the entry becomes the new data; the tracked list, the equipment, the pickups in the world, the placed pickups and the ground stacks see the tracked instances of the category refreshed; the inventory keeps its size; at least one notification fires, and under a refresh that keeps each instance's category exactly one per non-empty slot of the category plus the final one; only items of the edited category overflow; with no negative count, units stored plus units handed to the ground drop equal the units held before; a held stack of another category is left exactly as it was when no held item of the edited category carries its name, before or after the refresh |
| ItemConfig.OnStackableChanged | Assets/_Assets/Scripts/UI/Inventory/ItemConfigUI.cs:20-33 | no selection changes nothing; otherwise the toggle rule is applied and the category is reorganized |
| ItemConfig.OnMaxStackChanged | Assets/_Assets/Scripts/UI/Inventory/ItemConfigUI.cs:35-46 | no selection changes nothing; a parse stores max(1, value), no parse keeps the entry; then the category is reorganized |
| ItemConfig.RefreshKeepsPulled | Assets/_Assets/Scripts/Inventory/Inventory.cs:99-106 | a refresh that keeps each instance's category leaves the same number of slots to take out |
| ItemConfig.SameShapeUnits | Assets/_Assets/Scripts/Item/ItemSpawner.cs:94-100 | refreshing instances does not change how many units are held |
| ItemConfig.RefreshReorganizeConserves | Assets/_Assets/Scripts/UI/Inventory/ItemConfigUI.cs:31-32 | refreshing and reorganizing lose no unit: each is still stored or handed to the ground drop |
| ItemConfig.RefreshReorganizeKeepsOthers | Assets/_Assets/Scripts/UI/Inventory/ItemConfigUI.cs:31-32 | refreshing and reorganizing leave exactly as it was every held stack of another category whose name no held item of the edited category carries, before or after the refresh |
| ItemConfig.ApplyConfigValid | Assets/_Assets/Scripts/UI/Inventory/ItemConfigUI.cs:31-32 | with a max stack of at least 1, a configuration change leaves every slot within its new bounds, and a well-formed equipment set stays well-formed |
| ItemConfig.StackableChangeKeepsValid | Assets/_Assets/Scripts/UI/Inventory/ItemConfigUI.cs:20-33 | the stackable toggle keeps slots within bounds |
| ItemConfig.StackableChangeKeepsHolders | Assets/_Assets/Scripts/UI/Inventory/ItemConfigUI.cs:20-33 | the stackable toggle keeps the equipment well-formed and loses no unit: the inventory's units plus the dropped stacks' units equal the units before |
| ItemConfig.MaxStackChangeKeepsValid | Assets/_Assets/Scripts/UI/Inventory/ItemConfigUI.cs:35-46 | a max-stack edit keeps slots within bounds, whatever the text parsed to |
| ItemConfig.MaxStackChangeKeepsHolders | Assets/_Assets/Scripts/UI/Inventory/ItemConfigUI.cs:35-46 | a max-stack edit keeps the equipment well-formed and loses no unit, whatever the text parsed to |
| DragDrop.AddToInventory | Assets/_Assets/Scripts/UI/Inventory/InputSystem/DragDropManager.cs:157 | the add's overflow joins the ground drop, with one inventory notification |
| DragDrop.ToGround | Assets/_Assets/Scripts/UI/Inventory/InputSystem/DragDropManager.cs:163 | the stack is handed to the ground drop and nothing else changes |
| DragDrop.HeldFollows | Assets/_Assets/Scripts/Item/ItemSpawner.cs:68-74 | while the ground drop only receives an item with a prefab, the units the player owns change exactly as the units accounted for |
| DragDrop.AddToInventoryHeld | Assets/_Assets/Scripts/UI/Inventory/InputSystem/DragDropManager.cs:157 | the units accounted for grow by exactly the amount added; the units the player owns do too when the item has a prefab |
| DragDrop.ToGroundHeld | Assets/_Assets/Scripts/UI/Inventory/InputSystem/DragDropManager.cs:163 | the units accounted for grow by exactly the amount handed over; the units owned grow by it when the item has a prefab and do not change when it has none |
| DragDrop.BeginDrag | Assets/_Assets/Scripts/UI/Inventory/InputSystem/DragDropManager.cs:52-90 | a held inventory slot starts a drag of its item with that origin; an occupied equipment slot starts a drag of its item and is unequipped at once, with one notification; anything else changes nothing |
| DragDrop.StackCount | Assets/_Assets/Scripts/UI/Inventory/InputSystem/DragDropManager.cs:97 | the moved quantity is the origin slot's count, or 1 without an inventory origin |
| DragDrop.RemoveDragged | Assets/_Assets/Scripts/UI/Inventory/InputSystem/DragDropManager.cs:131 | the drop first removes the requested units of the origin slot's instance through the inventory's remove, with one notification, and changes nothing else |
| DragDrop.DropFromInventoryAsWritten | Assets/_Assets/Scripts/UI/Inventory/InputSystem/DragDropManager.cs:129-165 | after the removal: a swap onto another occupied slot leaves exactly one unit of the dragged item in the target (for a max stack of at least 1), gives the origin the target's old stack when the origin is unset, leaves an origin holding another name unchanged, and touches no other slot; an empty target is offered the n units; an accepted equip only changes the equipment; a refused equip re-adds the n units through the inventory's add, overflow to the ground drop; a drop on nothing hands the n units to the ground drop |
| DragDrop.SwapLosesUnits | Assets/_Assets/Scripts/UI/Inventory/InputSystem/DragDropManager.cs:138-144 | swapping 5 swords onto 2 potions yields 2 potions and 1 sword: 7 units become 3 |
| DragDrop.IdentityRemovalLosesStack | Assets/_Assets/Scripts/UI/Inventory/InputSystem/DragDropManager.cs:131-144 | dragging the second of two stacks of one instance onto potions takes the units from the first stack, and the potions vanish |
| DragDrop.DropFromInventory | Assets/_Assets/Scripts/UI/Inventory/InputSystem/DragDropManager.cs:129-165 | an unset origin moves nothing; only the dragged item reaches the ground drop; a swap of two valid stacks exchanges them; an empty valid target receives the whole valid stack and the origin is cleared; a drop onto the origin itself changes no slot; an accepted equip clears the origin; a refused equip re-adds the stack through the inventory's add; a drop on nothing clears the origin and hands its whole stack to the ground drop |
| DragDrop.DropFromInventoryConserves | Assets/_Assets/Scripts/UI/Inventory/InputSystem/DragDropManager.cs:129-165 | for every target except a successful equip, the corrected drop accounts for every unit, and the player keeps every unit when the dragged item has a prefab |
| DragDrop.DropFromInventoryAccounts | Assets/_Assets/Scripts/UI/Inventory/InputSystem/DragDropManager.cs:129-165 | for every target except a successful equip, units in the inventory, equipped and handed to the ground drop are unchanged by the corrected drop |
| DragDrop.DropPrefabLessLoses | Assets/_Assets/Scripts/Item/ItemSpawner.cs:68-74 | dropping a stack of an item without a prefab on nothing destroys it: the player owns exactly its count less |
| DragDrop.EquipDropLoses | Assets/_Assets/Scripts/UI/Inventory/InputSystem/DragDropManager.cs:151-159 | a successful equip drop keeps one unit of the stack and discards the previous occupant |
| DragDrop.DropFromEquipment | Assets/_Assets/Scripts/UI/Inventory/InputSystem/DragDropManager.cs:167-184 | over a slot the item goes to the inventory; over the other equipment slot it is equipped (else added to the inventory); over its own slot or nothing it goes to the ground drop |
| DragDrop.CleanupDragState | Assets/_Assets/Scripts/UI/Inventory/InputSystem/DragDropManager.cs:112-124 | the drag state returns to idle |
| DragDrop.EndDrag | Assets/_Assets/Scripts/UI/Inventory/InputSystem/DragDropManager.cs:92-110 | the drop is dispatched on the origin, inventory first; the state is reset and one more inventory notification fires |
| DragDrop.DragFromInventoryConserves | Assets/_Assets/Scripts/UI/Inventory/InputSystem/DragDropManager.cs:52-110 | a whole drag from an inventory slot accounts for every unit unless it ends in a successful equip, and the player keeps them all when the item has a prefab |
| DragDrop.DragFromEquipmentConserves | Assets/_Assets/Scripts/UI/Inventory/InputSystem/DragDropManager.cs:52-110 | a whole drag from an occupied equipment slot accounts for every unit wherever it ends, and the player keeps them all when the item has a prefab |
| DragDrop.DragFromEquipmentAccounts | Assets/_Assets/Scripts/UI/Inventory/InputSystem/DragDropManager.cs:52-110 | a whole drag from an occupied equipment slot leaves the units accounted for unchanged |
| DragDrop.RightClickAction | Assets/_Assets/Scripts/UI/Inventory/InputSystem/DragDropManager.cs:188-216 | a held slot's item is used and one unit removed only if it was used; an occupied equipment slot is unequipped and its item added back; otherwise nothing changes |
| DragDrop.RightClickConsumesOne | Assets/_Assets/Scripts/UI/Inventory/InputSystem/DragDropManager.cs:192-198 | using a held item consumes exactly one unit of that instance and none of any other |
| DragDrop.RightClickUnequipConserves | Assets/_Assets/Scripts/UI/Inventory/InputSystem/DragDropManager.cs:203-215 | unequipping with a right click accounts for every unit, and the player keeps them all when the item has a prefab |
| DragDrop.OnLeftClickStarted | Assets/_Assets/Scripts/UI/Inventory/InputSystem/DragDropManager.cs:31-34 | a press over a held inventory slot starts dragging its item from that origin and changes nothing in the game; a press over an occupied equipment slot starts dragging its item and unequips it, leaving inventory, ground and character alone; any other press changes nothing |
| DragDrop.OnLeftClickEnded | Assets/_Assets/Scripts/UI/Inventory/InputSystem/DragDropManager.cs:36-40 | a left release is ignored unless dragging, and otherwise ends the drag |
| DragDrop.OnRightClickPerformed | Assets/_Assets/Scripts/UI/Inventory/InputSystem/DragDropManager.cs:42-47 | a right click is ignored while dragging |
| Interactions.HighlightFrom | Assets/_Assets/Scripts/PlayerInteractions.cs:59-63 | without duplicates, from position i on exactly entry 0 is lit; unlisted pickups keep their state |
| Interactions.UpdateHighlight | Assets/_Assets/Scripts/PlayerInteractions.cs:57-64 | without duplicates, exactly the first entry is highlighted; unlisted pickups keep their state |
| Interactions.RemoveFirst | Assets/_Assets/Scripts/PlayerInteractions.cs:52 | the first occurrence is dropped: one shorter, no new entries, everything else kept, no duplicates introduced |
| Interactions.NotifyItemInRange | Assets/_Assets/Scripts/PlayerInteractions.cs:38-45 | a listed pickup changes nothing; an unlisted one is appended after the existing entries |
| Interactions.NotifyItemOutOfRange | Assets/_Assets/Scripts/PlayerInteractions.cs:47-55 | an unlisted pickup changes nothing; a listed one is unhighlighted and removed |
| Interactions.CurrentPickup | Assets/_Assets/Scripts/PlayerInteractions.cs:66-72 | the interact action targets the first entry, and nothing when the list is empty |
| Interactions.InRangeKeepsGood | Assets/_Assets/Scripts/PlayerInteractions.cs:38-45 | appending keeps the list free of duplicates with only its first entry lit |
| Interactions.OutOfRangeKeepsGood | Assets/_Assets/Scripts/PlayerInteractions.cs:47-55 | removing keeps the list free of duplicates with only its first entry lit |
| Interactions.RunKeepsGood | Assets/_Assets/Scripts/PlayerInteractions.cs:38-64 | that invariant holds after any sequence of range events |
| Interactions.InitialRunGood | Assets/_Assets/Scripts/PlayerInteractions.cs:38-72 | from the start, after any events, the interact action targets the highlighted pickup |
| Panels.AwakePanel | Assets/_Assets/Scripts/UI/Panel/UIPanel.cs:13-21 | a panel starts closed and hidden |
| Panels.AwakeManager | Assets/_Assets/Scripts/UI/Panel/PanelManager.cs:15-23 | the manager starts in the "Player" map with the cursor locked |
| Panels.OnPanelOpened | Assets/_Assets/Scripts/UI/PanelSystem/PanelManager.cs:29-38 | the panel joins the open set; the set reaching size 1 switches to "UI" with a free cursor |
| Panels.OnPanelClosed | Assets/_Assets/Scripts/UI/Panel/PanelManager.cs:35-47 | an unrecorded panel changes nothing; removing the last one switches back to "Player" with a locked cursor |
| Panels.OpenPanel | Assets/_Assets/Scripts/UI/Panel/UIPanel.cs:26-34 | a closed panel opens, shows and notifies the manager once; an open one changes nothing |
| Panels.ClosePanel | Assets/_Assets/Scripts/UI/Panel/UIPanel.cs:39-47 | an open panel closes, hides and notifies the manager once; a closed one changes nothing |
| Panels.OpenCloseRestores | Assets/_Assets/Scripts/UI/Panel/UIPanel.cs:26-47 | opening then closing a closed panel restores both it and the manager |
| Panels.AwakeUi | Assets/_Assets/Scripts/UI/Panel/UIPanel.cs:13-21 | a scene's panels all start through `Awake` |
| Panels.Step | Assets/_Assets/Scripts/UI/Panel/UIPanel.cs:26-47 | an open or close request never adds or removes panels |
| Panels.AwakeConsistent | Assets/_Assets/Scripts/UI/Panel/PanelManager.cs:15-23 | the initial scene is consistent |
| Panels.StepConsistent | Assets/_Assets/Scripts/UI/Panel/PanelManager.cs:25-47 | one request keeps the manager's set equal to the open panels, with the map and cursor following it |
| Panels.RunConsistent | Assets/_Assets/Scripts/UI/PanelSystem/PanelManager.cs:29-53 | after any request sequence the "UI" map is active and the cursor free exactly when some panel is open |
| Panels.OpenExists | Assets/_Assets/Scripts/UI/Panel/PanelManager.cs:25-47 | in a consistent scene the map is "UI" exactly when some panel is open |

## Left out

- Rendering and views: the inventory and equipment UIs, the slot views, the health bar and text, and the dragged icon. They only display state.
- Unity plumbing is replaced by abstract inputs:
  - raycasts become the `Target` enumeration;
  - `Random.Range` draws become the caller-supplied `picks`;
  - `Instantiate` and `Destroy` become a placed-pickup record and a `destroyed` flag;
  - transforms and positions are not modelled.
- Event subscription and `Debug.Log`. Notifications are counters.
- Input wiring: both older `UIInputManager` variants, the input-system `UIInputManager`, `ConfigWindowManager`, `PlayerInteractionManager`, the inventory panels' action subscriptions, `OnPointerMoved`, and `GameManager`'s singleton set-up. `Exit.cs` quits the application.
- `ItemUseData`, `WeaponUseData` and `ArmorUseData` only log; they are variants of the use strategy with no effect.
- `Item.UpdateFromItemData` and `ItemPickup.Initialize` are called but not declared in `Item.cs` or `ItemPickup.cs`, so their bodies are not part of this model. The first is the `refresh` parameter; the second builds a placed pickup.
- The factory registry's reference to the edited `ItemData` object. A configuration change returns the new entry and does not rewrite the registry.
- `Spawner.SpawnItemInScene`, `Spawner.DropItemOnGround`: a prefab lacking an `ItemPickup` component only logs an error. The model assumes every prefab carries one.
- `Spawner.SpawnItemInScene`: its guard against a missing instance is not modelled, because the factory always returns one.
- C# `int` overflow. Counts and health are unbounded integers.
- `Factory.CreateItem`: it does not state the generic item's stackable flag (set to true), because `Item.cs` has no stackable field.
- `Pickups.Start`: Unity calling `Start` after `Initialize` on a spawned prefab is not modelled.
- `DragDrop.EndDrag` uses the corrected inventory drop (see Findings). The as-written handler is `DragDrop.DropFromInventoryAsWritten`.
- `DragDrop.DropFromInventory`: a successful equip drop is kept as written. It equips one unit and discards the previous occupant. `DragDrop.EquipDropLoses` states the loss, and the conservation lemmas exclude this case.
- `DragDrop.DropFromInventoryConserves`, `DragDrop.DragFromInventoryConserves`, `DragDrop.DragFromEquipmentConserves`: conservation is stated for all units together, not per instance, because the inventory's add merges stacks by name.
- `DragDrop.DropFromInventoryConserves`, `DragDrop.DragFromInventoryConserves`, `DragDrop.DragFromEquipmentConserves`, `DragDrop.RightClickUnequipConserves`: the player keeps every unit only when the moved item has a prefab. Without one, `DropItemOnGround` destroys what it is handed, and the lemmas then only promise that the units are accounted for (`DragDrop.DropPrefabLessLoses` shows the loss).
- `ItemConfig.ApplyConfig`: it refreshes every holder in `ItemConfig.Holders` but not the dragged item of an ongoing drag, because the drag state belongs to the drag-and-drop manager, which the configuration handlers do not take as input; a drag that spans a configuration edit keeps the item's old fields in the model. The character's visuals depend only on which equipment slots are occupied (`Characters.UpdateModel`), which a refresh does not change.
- `DragDrop.DropFromInventoryAsWritten`: for a swap it does not state the origin's count when the origin already holds the target's name, or the result of dropping a slot onto itself. Both follow from the slot's add as written.
- `DragDrop.DropFromInventory`: for slots that break the slot invariant, the swap and the empty-target cases are not stated.
- `ItemConfig.ApplyConfig`: it does not state the contents of the edited category's own slots, because they depend on the abstract refresh (`ItemConfig.ApplyConfigValid` bounds them). Stacks of other categories are stated unchanged only when no item of the edited category shares their name, because the stacking scan merges by name.
- `Inventories.NewInventory`: its `nat` capacity leaves out the exception that `new List<InventorySlot>(maxSlots)` (`Inventory.cs:18`) throws for a negative capacity. Exceptions are not modelled.
- `DragDrop.BeginDrag`: a press while a drag is in progress is not guarded, as in the source. The model does not exclude it.

## Findings

| source | as written | input that shows it | evidently intended | confidence | as-written member | corrected member |
|---|---|---|---|---|---|---|
| Assets/_Assets/Scripts/UI/Inventory/InputSystem/DragDropManager.cs:142 | a swap puts 1 unit of the dragged item in the target | slots [5 swords, 2 potions], drag slot 0 onto slot 1: the result is [2 potions, 1 sword], so 4 swords vanish | the whole dragged stack moves into the target | high, not executed | DragDrop.SwapLosesUnits | DragDrop.DropFromInventoryConserves |
| Assets/_Assets/Scripts/UI/Inventory/InputSystem/DragDropManager.cs:131 | the dragged units are removed by instance identity over all slots | slots [10 swords, 5 swords, 3 potions], one sword instance, drag slot 1 onto slot 2: slot 0 loses the 5 units, slot 1 still holds swords and refuses the potions, and the 3 potions vanish | the units leave the origin slot, which is then free to take the swapped stack | high, not executed | DragDrop.IdentityRemovalLosesStack | DragDrop.DropFromInventoryConserves |
| Assets/_Assets/Scripts/Item/ItemPickup.cs:46-55 | a pickup whose add reports failure stays with its full quantity, although the add stored part of it and handed the rest to the ground drop | one empty slot, a pickup of 2 units of an item with max stack 1 and a prefab: 1 unit is stored, 1 becomes a new pickup on the ground and the old pickup still offers 2 (4 units from 2) | the pickup is consumed once its units are stored or handed to the ground drop | medium, not executed | Pickups.TryPickupDuplicates | Pickups.TryPickupCorrectedConserves |
