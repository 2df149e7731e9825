/**
 * Moving items between the inventory, the equipment and the ground with the
 * mouse (UI/Inventory/InputSystem/DragDropManager.cs). The pointer's raycast
 * is replaced by an abstract drop target; the dragged icon is not modelled.
 */
module DragDrop {
  import opened Wrappers
  import opened Mathf
  import opened Items
  import opened Slots
  import opened Inventories
  import opened Equipment
  import opened Characters

  /** What the pointer is over: an inventory slot (checked first), an
      equipment slot of some category, or neither. */
  datatype Target = OverSlot(index: nat) | OverEquip(slotType: ItemType) | OverNothing

  /** The manager's fields: the drag flag, the dragged item, the origin
      inventory slot (by index) and the origin equipment category, where
      `Untyped` stands for "none". */
  datatype DragState = DragState(dragging: bool, dragged: Option<Item>, origin: Option<nat>, originEquip: ItemType)

  const Idle := DragState(false, None, None, Untyped)

  /** Everything a drop can touch. `ground` lists the stacks handed to the
      spawner's ground drop; the two counters are the inventory's and the
      equipment's change notifications. */
  datatype Game = Game(inv: Inventory, equip: EquipmentSet, hero: Character, ground: seq<Stack>,
                       invNotes: nat, equipNotes: nat)

  predicate TargetIn(g: Game, target: Target)
  {
    target.OverSlot? ==> target.index < |g.inv|
  }

  predicate OriginIn(g: Game, d: DragState)
  {
    d.origin.Some? ==> d.origin.value < |g.inv|
  }

  function EquippedUnits(e: EquipmentSet, t: ItemType, sel: Selector): int
  {
    if t in e.slots && e.slots[t].equipped.Some? && Selects(sel, e.slots[t].equipped.value) then 1 else 0
  }

  /** The units the player owns: in the inventory, equipped, or lying on the
      ground as pickups. The ground drop creates a pickup only for an item
      with a prefab, so a stack of a prefab-less item is not counted. */
  function Held(g: Game, sel: Selector): int
  {
    Units(g.inv, sel) + EquippedUnits(g.equip, Weapon, sel) + EquippedUnits(g.equip, Armor, sel)
    + PlacedUnits(g.ground, sel)
  }

  /** The units owned or handed to the ground drop, whether or not the drop
      created a pickup for them. */
  function Accounted(g: Game, sel: Selector): int
  {
    Units(g.inv, sel) + EquippedUnits(g.equip, Weapon, sel) + EquippedUnits(g.equip, Armor, sel)
    + StackUnits(g.ground, sel)
  }

  /** Owned units and accounted units move together while the ground drop
      only receives an item that has a prefab. */
  lemma HeldFollows(g: Game, r: Game, x: Item)
    requires ExtendsWith(g.ground, r.ground, x) && x.prefab.Some?
    ensures Held(r, AnyItem) - Held(g, AnyItem) == Accounted(r, AnyItem) - Accounted(g, AnyItem)
  {
    StackUnitsSplit(g.ground, AnyItem);
    StackUnitsSplit(r.ground, AnyItem);
    LostUnitsExtends(g.ground, r.ground, x, AnyItem);
  }

  /** `Inventory.AddItem` on the game: its overflow goes to the ground drop. */
  function AddToInventory(g: Game, x: Item, n: int): (r: Game)
    ensures |r.inv| == |g.inv| && r.equip == g.equip && r.hero == g.hero
    ensures r.invNotes == g.invNotes + 1 && r.equipNotes == g.equipNotes
    ensures r.ground == g.ground + AddItem(g.inv, x, n).dropped
    ensures ExtendsWith(g.ground, r.ground, x)
  {
    var a := AddItem(g.inv, x, n);
    g.(inv := a.inv, ground := g.ground + a.dropped, invNotes := g.invNotes + a.notes)
  }

  /** `ItemSpawner.DropItemOnGround` on the game. */
  function ToGround(g: Game, x: Item, n: int): (r: Game)
    ensures r.ground == g.ground + [Stack(x, n)]
    ensures ExtendsWith(g.ground, r.ground, x)
    ensures r.(ground := g.ground) == g
  {
    g.(ground := g.ground + [Stack(x, n)])
  }

  lemma AddToInventoryHeld(g: Game, x: Item, n: int)
    requires n >= 0
    ensures Accounted(AddToInventory(g, x, n), AnyItem) == Accounted(g, AnyItem) + n
    ensures x.prefab.Some? ==> Held(AddToInventory(g, x, n), AnyItem) == Held(g, AnyItem) + n
  {
    AddItemConserves(g.inv, x, n);
    StackUnitsAppend(g.ground, AddItem(g.inv, x, n).dropped, AnyItem);
    if x.prefab.Some? {
      HeldFollows(g, AddToInventory(g, x, n), x);
    }
  }

  /** Handing units to the ground drop keeps them owned when the item has a
      prefab, and destroys them when it has none. */
  lemma ToGroundHeld(g: Game, x: Item, n: int)
    ensures Accounted(ToGround(g, x, n), AnyItem) == Accounted(g, AnyItem) + n
    ensures x.prefab.Some? ==> Held(ToGround(g, x, n), AnyItem) == Held(g, AnyItem) + n
    ensures x.prefab.None? ==> Held(ToGround(g, x, n), AnyItem) == Held(g, AnyItem)
  {
    var r := ToGround(g, x, n);
    StackUnitsAppend(g.ground, [Stack(x, n)], AnyItem);
    assert [Stack(x, n)][1..] == [];
    StackUnitsSplit(g.ground, AnyItem);
    StackUnitsSplit(r.ground, AnyItem);
    LostUnitsExtends(g.ground, r.ground, x, AnyItem);
  }

  // ---------------------------------------------------------------- begin

  /**
   * `AttemptBeginDrag`: an inventory slot holding an item starts a drag of
   * that item with the slot as origin; otherwise an occupied equipment slot
   * starts a drag of its item and is unequipped at once.
   */
  function BeginDrag(g: Game, d: DragState, target: Target): (r: (Game, DragState))
    requires TargetIn(g, target)
    ensures target.OverSlot? && g.inv[target.index].item.Some? ==>
              && r.0 == g && r.1.dragging && r.1.dragged == g.inv[target.index].item
              && r.1.origin == Some(target.index) && r.1.originEquip == d.originEquip
    ensures target.OverEquip? && Occupied(g.equip, target.slotType) ==>
              && r.1.dragging && r.1.dragged == g.equip.slots[target.slotType].equipped
              && r.1.originEquip == target.slotType && r.1.origin == d.origin
              && !Occupied(r.0.equip, target.slotType)
              && r.0.equipNotes == g.equipNotes + 1 && r.0.(equip := g.equip, equipNotes := g.equipNotes) == g
    ensures (!(target.OverSlot? && g.inv[target.index].item.Some?)
             && !(target.OverEquip? && Occupied(g.equip, target.slotType))) ==> r == (g, d)
  {
    match target
    case OverSlot(i) =>
      if g.inv[i].item.Some? then (g, d.(dragging := true, dragged := g.inv[i].item, origin := Some(i))) else (g, d)
    case OverEquip(t) =>
      var s := GetEquipmentSlot(g.equip, t);
      if s.Some? && s.value.equipped.Some? then
        var u := UnequipItem(g.equip, t);
        (g.(equip := u.equipment, equipNotes := g.equipNotes + u.notes),
         d.(dragging := true, dragged := s.value.equipped, originEquip := t))
      else (g, d)
    case OverNothing => (g, d)
  }

  /** The number of units a drop moves: the origin slot's count at drop time,
      or 1 when the drag did not start in the inventory. */
  function StackCount(g: Game, d: DragState): (n: int)
    requires OriginIn(g, d)
    ensures d.origin.Some? ==> n == g.inv[d.origin.value].count
    ensures d.origin.None? ==> n == 1
  {
    if d.origin.Some? then g.inv[d.origin.value].count else 1
  }

  // ------------------------------------------------- drop from inventory

  /**
   * `HandleDropFromInventory` as written. It first removes n units of the
   * origin slot's item through `Inventory.RemoveItem`, which matches by
   * identity over all slots in index order. A drop on an occupied slot swaps,
   * but places only 1 unit of the dragged item there; the target's old stack
   * is added back to the origin slot, which takes it only if it is unset or
   * holds the same name. A drop on an equipment slot equips the item in its
   * own category's slot (falling back to the inventory); a drop on nothing
   * hands the n units to the ground drop.
   */
  function DropFromInventoryAsWritten(g: Game, o: nat, x: Item, n: int, target: Target): (r: Game)
    requires o < |g.inv| && TargetIn(g, target)
    ensures |r.inv| == |g.inv| && r.hero == g.hero
    // a swap: the target is left with 1 unit of the dragged item, and its old
    // stack is offered to the origin, which takes all of it when unset and
    // refuses it when it holds another name
    ensures target.OverSlot? && o != target.index && !IsEmpty(RemoveDragged(g, o, n).inv[target.index]) ==>
              var before := RemoveDragged(g, o, n).inv;
              var t := before[target.index];
              && (x.maxStack >= 1 ==> r.inv[target.index] == Slot(Some(x), 1))
              && (before[o].item.None? && 1 <= t.count <= t.item.value.maxStack ==> r.inv[o] == t)
              && (before[o].item.Some? && before[o].item.value.name != t.item.value.name ==> r.inv[o] == before[o])
              && (forall k :: 0 <= k < |g.inv| && k != o && k != target.index ==> r.inv[k] == before[k])
              && r.ground == g.ground && r.equip == g.equip
    // an empty target is offered the n units
    ensures target.OverSlot? && IsEmpty(RemoveDragged(g, o, n).inv[target.index]) ==>
              var before := RemoveDragged(g, o, n).inv;
              && r.inv == before[target.index := SlotAdd(before[target.index], x, n).slot]
              && r.ground == g.ground && r.equip == g.equip
    ensures target.OverEquip? && EquipItem(g.equip, x).ok ==>
              && r.equip == EquipItem(g.equip, x).equipment && r.inv == RemoveDragged(g, o, n).inv && r.ground == g.ground
    // a refused equip adds the n units back through the inventory's add
    ensures target.OverEquip? && !EquipItem(g.equip, x).ok ==>
              var a := AddItem(RemoveDragged(g, o, n).inv, x, n);
              && r.inv == a.inv && r.ground == g.ground + a.dropped && r.equip == g.equip
    ensures target.OverNothing? ==>
              && r.inv == RemoveDragged(g, o, n).inv && r.ground == g.ground + [Stack(x, n)] && r.equip == g.equip
  {
    var g1 := RemoveDragged(g, o, n);
    match target
    case OverSlot(j) =>
      var t := g1.inv[j];
      if !IsEmpty(t) then
        var cleared := SlotRemove(t, t.count).slot;
        var inv2 := g1.inv[j := SlotAdd(cleared, x, 1).slot];
        g1.(inv := inv2[o := SlotAdd(inv2[o], t.item.value, t.count).slot])
      else
        g1.(inv := g1.inv[j := SlotAdd(t, x, n).slot])
    case OverEquip(_) =>
      var e := EquipItem(g1.equip, x);
      if e.ok then g1.(equip := e.equipment, equipNotes := g1.equipNotes + e.notes)
      else AddToInventory(g1, x, n)
    case OverNothing => ToGround(g1, x, n)
  }

  /** The first step of the as-written drop: n units of the origin slot's
      item leave through `Inventory.RemoveItem`, which fires one
      notification; nothing else changes. */
  function RemoveDragged(g: Game, o: nat, n: int): (r: Game)
    requires o < |g.inv|
    ensures g.inv[o].item.Some? ==> r.inv == RemoveItem(g.inv, g.inv[o].item.value, n).inv
    ensures g.inv[o].item.None? ==> r.inv == g.inv
    ensures |r.inv| == |g.inv| && r.invNotes == g.invNotes + 1
    ensures r.(inv := g.inv, invNotes := g.invNotes) == g
  {
    if g.inv[o].item.Some? then
      var rm := RemoveItem(g.inv, g.inv[o].item.value, n);
      g.(inv := rm.inv, invNotes := g.invNotes + rm.notes)
    else g.(invNotes := g.invNotes + 1)
  }

  /** The swap loses units: dragging a stack of 5 swords onto a slot with 2
      potions leaves the potions in the origin and a single sword in the
      target; 7 units become 3. */
  lemma SwapLosesUnits()
    ensures var sword := Item(0, "Sword", None, Weapon, 5, None, true, None);
            var potion := Item(1, "Potion", None, Potion, 5, None, true, None);
            var g := Game([Slot(Some(sword), 5), Slot(Some(potion), 2)], NewEquipmentSet(), NewCharacter(), [], 0, 0);
            var r := DropFromInventoryAsWritten(g, 0, sword, 5, OverSlot(1));
            && r.inv == [Slot(Some(potion), 2), Slot(Some(sword), 1)] && r.ground == []
            && Held(g, AnyItem) == 7 && Held(r, AnyItem) == 3
  {
    var sword := Item(0, "Sword", None, Weapon, 5, None, true, None);
    var potion := Item(1, "Potion", None, Potion, 5, None, true, None);
    var inv := [Slot(Some(sword), 5), Slot(Some(potion), 2)];
    var g := Game(inv, NewEquipmentSet(), NewCharacter(), [], 0, 0);
    assert inv[1..][1..] == [];
    assert RemovePass(inv[1..], sword, 0) == Removal(inv[1..], 0);
    assert RemovePass(inv, sword, 5) == Removal([EmptySlot, Slot(Some(potion), 2)], 5);
    var r := DropFromInventoryAsWritten(g, 0, sword, 5, OverSlot(1));
    assert r.inv == [Slot(Some(potion), 2), Slot(Some(sword), 1)];
    assert r.inv[1..][1..] == [];
  }

  /** Removal by identity takes the units from the wrong slot: with 10 and 5
      swords of one instance followed by 3 potions, dragging the 5 onto the
      potions removes the units from the first slot, so the origin still holds
      swords, refuses the potions, and the potions are gone. */
  lemma IdentityRemovalLosesStack()
    ensures var sword := Item(0, "Sword", None, Weapon, 10, None, true, None);
            var potion := Item(1, "Potion", None, Potion, 5, None, true, None);
            var g := Game([Slot(Some(sword), 10), Slot(Some(sword), 5), Slot(Some(potion), 3)],
                          NewEquipmentSet(), NewCharacter(), [], 0, 0);
            var r := DropFromInventoryAsWritten(g, 1, sword, 5, OverSlot(2));
            && r.inv == [Slot(Some(sword), 5), Slot(Some(sword), 5), Slot(Some(sword), 1)] && r.ground == []
            && Held(g, OfType(Potion)) == 3 && Held(r, OfType(Potion)) == 0
  {
    var sword := Item(0, "Sword", None, Weapon, 10, None, true, None);
    var potion := Item(1, "Potion", None, Potion, 5, None, true, None);
    var inv := [Slot(Some(sword), 10), Slot(Some(sword), 5), Slot(Some(potion), 3)];
    var g := Game(inv, NewEquipmentSet(), NewCharacter(), [], 0, 0);
    assert RemovePass(inv, sword, 5) == Removal([Slot(Some(sword), 5), Slot(Some(sword), 5), Slot(Some(potion), 3)], 5);
    var r := DropFromInventoryAsWritten(g, 1, sword, 5, OverSlot(2));
    assert r.inv == [Slot(Some(sword), 5), Slot(Some(sword), 5), Slot(Some(sword), 1)];
    assert inv[1..][1..][1..] == [] && r.inv[1..][1..][1..] == [];
  }

  /**
   * `HandleDropFromInventory` corrected: the stack moved is the origin slot's
   * own item and count, it is taken out of the origin slot itself, and a swap
   * places the whole stack in the target. An unset origin moves nothing.
   */
  function DropFromInventory(g: Game, o: nat, target: Target): (r: Game)
    requires o < |g.inv| && TargetIn(g, target)
    ensures |r.inv| == |g.inv| && r.hero == g.hero
    ensures g.inv[o].item.None? ==> r == g
    // only the dragged item is ever handed to the ground drop
    ensures g.inv[o].item.Some? ==> ExtendsWith(g.ground, r.ground, g.inv[o].item.value)
    ensures g.inv[o].item.Some? && target.OverNothing? ==>
              && r.inv == g.inv[o := EmptySlot] && r.equip == g.equip
              && r.ground == g.ground + [Stack(g.inv[o].item.value, g.inv[o].count)]
    // a swap of two valid stacks exchanges them
    ensures g.inv[o].item.Some? && target.OverSlot? && target.index != o && !IsEmpty(g.inv[target.index])
            && Valid(g.inv[o]) && Valid(g.inv[target.index]) ==>
              && r.inv == g.inv[o := g.inv[target.index]][target.index := g.inv[o]]
              && r.ground == g.ground && r.equip == g.equip
    // an empty target receives the whole valid stack; dropping a slot on
    // itself changes nothing
    ensures g.inv[o].item.Some? && target.OverSlot? && IsEmpty(g.inv[target.index])
            && Valid(g.inv[o]) && Valid(g.inv[target.index]) ==>
              && r.inv == g.inv[o := EmptySlot][target.index := g.inv[o]]
              && r.ground == g.ground && r.equip == g.equip
    ensures target == OverSlot(o) && Valid(g.inv[o]) ==> r.inv == g.inv
    ensures g.inv[o].item.Some? && target.OverEquip? && EquipItem(g.equip, g.inv[o].item.value).ok ==>
              && r.inv == g.inv[o := EmptySlot] && r.ground == g.ground
              && r.equip == EquipItem(g.equip, g.inv[o].item.value).equipment
    // a refused equip adds the stack back through the inventory's add
    ensures g.inv[o].item.Some? && target.OverEquip? && !EquipItem(g.equip, g.inv[o].item.value).ok ==>
              var a := AddItem(g.inv[o := EmptySlot], g.inv[o].item.value, g.inv[o].count);
              && r.inv == a.inv && r.ground == g.ground + a.dropped && r.equip == g.equip
  {
    if g.inv[o].item.None? then g
    else
      var x := g.inv[o].item.value;
      var n := g.inv[o].count;
      var g1 := g.(inv := g.inv[o := SlotRemove(g.inv[o], n).slot], invNotes := g.invNotes + 1);
      match target
      case OverSlot(j) =>
        var t := g1.inv[j];
        if !IsEmpty(t) then
          var cleared := SlotRemove(t, t.count).slot;
          var inv2 := g1.inv[j := SlotAdd(cleared, x, n).slot];
          g1.(inv := inv2[o := SlotAdd(inv2[o], t.item.value, t.count).slot])
        else
          g1.(inv := g1.inv[j := SlotAdd(t, x, n).slot])
      case OverEquip(_) =>
        var e := EquipItem(g1.equip, x);
        if e.ok then g1.(equip := e.equipment, equipNotes := g1.equipNotes + e.notes)
        else AddToInventory(g1, x, n)
      case OverNothing => ToGround(g1, x, n)
  }

  /** The drop target equips the item: the only drop that does not keep
      every unit (one unit is equipped and the previous occupant discarded). */
  predicate EquipsOnDrop(g: Game, x: Item, target: Target)
  {
    target.OverEquip? && EquipItem(g.equip, x).ok
  }

  /** The corrected drop accounts for every unit, for every target except a
      successful equip, and the player keeps them all when the dragged item
      has a prefab. */
  lemma DropFromInventoryConserves(g: Game, o: nat, target: Target)
    requires o < |g.inv| && TargetIn(g, target) && AllValid(g.inv)
    requires g.inv[o].item.Some? ==> !EquipsOnDrop(g, g.inv[o].item.value, target)
    ensures Accounted(DropFromInventory(g, o, target), AnyItem) == Accounted(g, AnyItem)
    ensures (g.inv[o].item.Some? ==> g.inv[o].item.value.prefab.Some?) ==>
              Held(DropFromInventory(g, o, target), AnyItem) == Held(g, AnyItem)
  {
    DropFromInventoryAccounts(g, o, target);
    if g.inv[o].item.Some? && g.inv[o].item.value.prefab.Some? {
      HeldFollows(g, DropFromInventory(g, o, target), g.inv[o].item.value);
    }
  }

  lemma DropFromInventoryAccounts(g: Game, o: nat, target: Target)
    requires o < |g.inv| && TargetIn(g, target) && AllValid(g.inv)
    requires g.inv[o].item.Some? ==> !EquipsOnDrop(g, g.inv[o].item.value, target)
    ensures Accounted(DropFromInventory(g, o, target), AnyItem) == Accounted(g, AnyItem)
  {
    if g.inv[o].item.Some? {
      var x := g.inv[o].item.value;
      var n := g.inv[o].count;
      assert Valid(g.inv[o]);
      assert SlotRemove(g.inv[o], n).slot == EmptySlot;
      var inv1 := g.inv[o := EmptySlot];
      UnitsUpdate(g.inv, o, EmptySlot, AnyItem);
      var g1 := g.(inv := inv1, invNotes := g.invNotes + 1);
      assert Accounted(g1, AnyItem) == Accounted(g, AnyItem) - n;
      match target
      case OverSlot(j) =>
        var t := inv1[j];
        PlaceEmpty(x, n);
        if !IsEmpty(t) {
          assert j != o && t == g.inv[j] && Valid(t);
          var inv2 := inv1[j := Slot(Some(x), n)];
          UnitsUpdate(inv1, j, Slot(Some(x), n), AnyItem);
          assert inv2[o] == EmptySlot;
          PlaceEmpty(t.item.value, t.count);
          UnitsUpdate(inv2, o, t, AnyItem);
        } else {
          UnitsUpdate(inv1, j, Slot(Some(x), n), AnyItem);
        }
      case OverEquip(_) =>
        AddToInventoryHeld(g1, x, n);
      case OverNothing =>
        ToGroundHeld(g1, x, n);
    }
  }

  /** Dropping a stack of a prefab-less item on nothing destroys it: the
      ground drop creates no pickup, so the player owns the whole count less. */
  lemma DropPrefabLessLoses(g: Game, o: nat)
    requires o < |g.inv| && AllValid(g.inv)
    requires g.inv[o].item.Some? && g.inv[o].item.value.prefab.None?
    ensures Held(DropFromInventory(g, o, OverNothing), AnyItem) == Held(g, AnyItem) - g.inv[o].count
  {
    var x := g.inv[o].item.value;
    var g1 := g.(inv := g.inv[o := EmptySlot], invNotes := g.invNotes + 1);
    assert Valid(g.inv[o]);
    UnitsUpdate(g.inv, o, EmptySlot, AnyItem);
    ToGroundHeld(g1, x, g.inv[o].count);
  }

  /** A successful equip drop keeps one unit of the dragged stack and drops
      the previous occupant; the other units are lost. */
  lemma EquipDropLoses(g: Game, o: nat, target: Target)
    requires o < |g.inv| && TargetIn(g, target) && AllValid(g.inv) && WellFormed(g.equip)
    requires g.inv[o].item.Some? && EquipsOnDrop(g, g.inv[o].item.value, target)
    ensures var x := g.inv[o].item.value;
            Held(DropFromInventory(g, o, target), AnyItem)
            == Held(g, AnyItem) - g.inv[o].count + 1 - (if Occupied(g.equip, x.itemType) then 1 else 0)
  {
    var x := g.inv[o].item.value;
    assert Valid(g.inv[o]);
    UnitsUpdate(g.inv, o, EmptySlot, AnyItem);
    assert x.itemType == Weapon || x.itemType == Armor;
  }

  // ------------------------------------------------- drop from equipment

  /**
   * `HandleDropFromEquipment(n)`: over an inventory slot the item is added
   * to the inventory; over an equipment slot of another category it is
   * equipped in its own category's slot (falling back to the inventory);
   * anywhere else, including its own slot, it goes to the ground drop.
   */
  function DropFromEquipment(g: Game, x: Item, n: int, originEquip: ItemType, target: Target): (r: Game)
    ensures ExtendsWith(g.ground, r.ground, x)
    ensures target.OverSlot? ==> r == AddToInventory(g, x, n)
    ensures target.OverEquip? && target.slotType != originEquip && EquipItem(g.equip, x).ok ==>
              r == g.(equip := EquipItem(g.equip, x).equipment, equipNotes := g.equipNotes + 1)
    ensures target.OverEquip? && target.slotType != originEquip && !EquipItem(g.equip, x).ok ==>
              r == AddToInventory(g, x, n)
    ensures target.OverNothing? || (target.OverEquip? && target.slotType == originEquip) ==> r == ToGround(g, x, n)
  {
    match target
    case OverSlot(_) => AddToInventory(g, x, n)
    case OverEquip(t) =>
      if t != originEquip then
        var e := EquipItem(g.equip, x);
        if e.ok then g.(equip := e.equipment, equipNotes := g.equipNotes + e.notes)
        else AddToInventory(g, x, n)
      else ToGround(g, x, n)
    case OverNothing => ToGround(g, x, n)
  }

  // ------------------------------------------------------------ end, cleanup

  /** `CleanupDragState`: back to the idle state. */
  function CleanupDragState(d: DragState): (r: DragState)
    ensures !r.dragging && r.dragged.None? && r.origin.None? && r.originEquip == Untyped
  {
    Idle
  }

  /**
   * `EndDraggingItem`: dispatch on where the drag started (inventory first),
   * clean up, and force one inventory notification. The inventory case uses
   * the corrected handler.
   */
  function EndDrag(g: Game, d: DragState, target: Target): (r: (Game, DragState))
    requires TargetIn(g, target) && OriginIn(g, d)
    ensures r.1 == Idle && |r.0.inv| == |g.inv|
    ensures d.origin.Some? && d.dragged.Some? ==>
              var h := DropFromInventory(g, d.origin.value, target);
              r.0 == h.(invNotes := h.invNotes + 1)
    ensures d.origin.None? && d.originEquip != Untyped && d.dragged.Some? ==>
              var h := DropFromEquipment(g, d.dragged.value, 1, d.originEquip, target);
              r.0 == h.(invNotes := h.invNotes + 1)
    ensures d.dragged.None? || (d.origin.None? && d.originEquip == Untyped) ==> r.0 == g.(invNotes := g.invNotes + 1)
  {
    var n := StackCount(g, d);
    var h := if d.origin.Some? && d.dragged.Some? then DropFromInventory(g, d.origin.value, target)
             else if d.originEquip != Untyped && d.dragged.Some? then DropFromEquipment(g, d.dragged.value, n, d.originEquip, target)
             else g;
    var (forced, notes) := ForceInventoryUpdate(h.inv);
    (h.(inv := forced, invNotes := h.invNotes + notes), CleanupDragState(d))
  }

  /** A whole drag that starts in an inventory slot accounts for every unit,
      unless it ends in a successful equip; the player keeps them all when the
      item has a prefab. */
  lemma DragFromInventoryConserves(g: Game, i: nat, target: Target)
    requires i < |g.inv| && TargetIn(g, target) && AllValid(g.inv) && g.inv[i].item.Some?
    requires !EquipsOnDrop(g, g.inv[i].item.value, target)
    ensures var b := BeginDrag(g, Idle, OverSlot(i));
            Accounted(EndDrag(b.0, b.1, target).0, AnyItem) == Accounted(g, AnyItem)
    ensures var b := BeginDrag(g, Idle, OverSlot(i));
            g.inv[i].item.value.prefab.Some? ==> Held(EndDrag(b.0, b.1, target).0, AnyItem) == Held(g, AnyItem)
  {
    DropFromInventoryConserves(g, i, target);
  }

  /** A whole drag that starts in an occupied equipment slot accounts for
      every unit, wherever it ends; the player keeps them all when the item
      has a prefab. */
  lemma DragFromEquipmentConserves(g: Game, t: ItemType, target: Target)
    requires WellFormed(g.equip) && Occupied(g.equip, t) && TargetIn(g, target)
    ensures var b := BeginDrag(g, Idle, OverEquip(t));
            Accounted(EndDrag(b.0, b.1, target).0, AnyItem) == Accounted(g, AnyItem)
    ensures var b := BeginDrag(g, Idle, OverEquip(t));
            g.equip.slots[t].equipped.value.prefab.Some? ==> Held(EndDrag(b.0, b.1, target).0, AnyItem) == Held(g, AnyItem)
  {
    var x := g.equip.slots[t].equipped.value;
    var b := BeginDrag(g, Idle, OverEquip(t));
    DragFromEquipmentAccounts(g, t, target);
    if x.prefab.Some? {
      HeldFollows(g, EndDrag(b.0, b.1, target).0, x);
    }
  }

  lemma DragFromEquipmentAccounts(g: Game, t: ItemType, target: Target)
    requires WellFormed(g.equip) && Occupied(g.equip, t) && TargetIn(g, target)
    ensures var b := BeginDrag(g, Idle, OverEquip(t));
            Accounted(EndDrag(b.0, b.1, target).0, AnyItem) == Accounted(g, AnyItem)
  {
    var x := g.equip.slots[t].equipped.value;
    var b := BeginDrag(g, Idle, OverEquip(t));
    assert x.itemType == t;
    assert Accounted(b.0, AnyItem) == Accounted(g, AnyItem) - 1;
    match target
    case OverSlot(_) => AddToInventoryHeld(b.0, x, 1);
    case OverEquip(u) =>
      if u != t {
        assert EquipItem(b.0.equip, x).ok;
      } else {
        ToGroundHeld(b.0, x, 1);
      }
    case OverNothing => ToGroundHeld(b.0, x, 1);
  }

  // ------------------------------------------------------------ right click

  /**
   * `AttemptRightClickAction`: on an inventory slot holding an item, use it
   * and, if it was used, remove one unit of that instance; on an occupied
   * equipment slot, unequip it and add the item back to the inventory.
   */
  function RightClickAction(g: Game, target: Target): (r: Game)
    requires TargetIn(g, target)
    ensures |r.inv| == |g.inv|
    ensures target.OverSlot? && g.inv[target.index].item.Some? ==>
              var x := g.inv[target.index].item.value;
              && r.hero == UseItem(x, g.hero).hero && r.equip == g.equip && r.ground == g.ground
              && (x.strategy.Some? ==> r.inv == RemoveItem(g.inv, x, 1).inv && r.invNotes == g.invNotes + 1)
              && (x.strategy.None? ==> r == g)
    ensures target.OverEquip? && Occupied(g.equip, target.slotType) ==>
              var x := g.equip.slots[target.slotType].equipped.value;
              && !Occupied(r.equip, target.slotType) && r.equipNotes == g.equipNotes + 1
              && r.inv == AddItem(g.inv, x, 1).inv && r.hero == g.hero
              && r.ground == g.ground + AddItem(g.inv, x, 1).dropped
    ensures (|| target.OverNothing?
             || (target.OverSlot? && g.inv[target.index].item.None?)
             || (target.OverEquip? && !Occupied(g.equip, target.slotType))) ==> r == g
  {
    match target
    case OverSlot(i) =>
      if g.inv[i].item.Some? then
        var x := g.inv[i].item.value;
        var u := UseItem(x, g.hero);
        var g1 := g.(hero := u.hero);
        if u.used then
          var rm := RemoveItem(g1.inv, x, 1);
          g1.(inv := rm.inv, invNotes := g1.invNotes + rm.notes)
        else g1
      else g
    case OverEquip(t) =>
      var s := GetEquipmentSlot(g.equip, t);
      if s.Some? && s.value.equipped.Some? then
        var u := UnequipItem(g.equip, t);
        var g1 := g.(equip := u.equipment, equipNotes := g.equipNotes + u.notes);
        if u.removed.Some? then AddToInventory(g1, u.removed.value, 1) else g1
      else g
    case OverNothing => g
  }

  /** Using an item held in the inventory consumes exactly one unit of that
      instance and nothing of any other instance. */
  lemma RightClickConsumesOne(g: Game, i: nat, y: Item)
    requires i < |g.inv| && NonNegative(g.inv) && g.inv[i].item.Some? && g.inv[i].count >= 1
    requires g.inv[i].item.value.strategy.Some?
    ensures var x := g.inv[i].item.value;
            var r := RightClickAction(g, OverSlot(i));
            && Units(r.inv, Instance(x)) == Units(g.inv, Instance(x)) - 1
            && (y != x ==> Units(r.inv, Instance(y)) == Units(g.inv, Instance(y)))
  {
    var x := g.inv[i].item.value;
    RemoveItemExact(g.inv, x, 1, Instance(x));
    RemoveItemExact(g.inv, x, 1, Instance(y));
    UnitsAtLeast(g.inv, i, Instance(x));
  }

  /** Unequipping with a right click accounts for every unit, and the player
      keeps them all when the item has a prefab. */
  lemma RightClickUnequipConserves(g: Game, t: ItemType)
    requires WellFormed(g.equip) && Occupied(g.equip, t)
    ensures Accounted(RightClickAction(g, OverEquip(t)), AnyItem) == Accounted(g, AnyItem)
    ensures g.equip.slots[t].equipped.value.prefab.Some? ==>
              Held(RightClickAction(g, OverEquip(t)), AnyItem) == Held(g, AnyItem)
  {
    var u := UnequipItem(g.equip, t);
    var g1 := g.(equip := u.equipment, equipNotes := g.equipNotes + u.notes);
    assert Accounted(g1, AnyItem) == Accounted(g, AnyItem) - 1;
    assert Held(g1, AnyItem) == Held(g, AnyItem) - 1;
    AddToInventoryHeld(g1, u.removed.value, 1);
  }

  // ------------------------------------------------------------ input events

  /** `OnLeftClickStarted`: a press over a held inventory slot starts dragging
      its item and changes nothing in the game; a press over an occupied
      equipment slot starts dragging its item and unequips it; any other press
      changes nothing. */
  function OnLeftClickStarted(g: Game, d: DragState, target: Target): (r: (Game, DragState))
    requires TargetIn(g, target)
    ensures target.OverSlot? && g.inv[target.index].item.Some? ==>
              && r.0 == g && r.1.dragging && r.1.dragged == g.inv[target.index].item
              && r.1.origin == Some(target.index)
    ensures target.OverEquip? && Occupied(g.equip, target.slotType) ==>
              && r.1.dragging && r.1.dragged == g.equip.slots[target.slotType].equipped
              && r.1.originEquip == target.slotType && !Occupied(r.0.equip, target.slotType)
              && r.0.inv == g.inv && r.0.ground == g.ground && r.0.hero == g.hero
    ensures (!(target.OverSlot? && g.inv[target.index].item.Some?)
             && !(target.OverEquip? && Occupied(g.equip, target.slotType))) ==> r == (g, d)
  {
    BeginDrag(g, d, target)
  }

  /** `OnLeftClickEnded`: ignored unless a drag is in progress. */
  function OnLeftClickEnded(g: Game, d: DragState, target: Target): (r: (Game, DragState))
    requires TargetIn(g, target) && OriginIn(g, d)
    ensures !d.dragging ==> r == (g, d)
    ensures d.dragging ==> r == EndDrag(g, d, target) && !r.1.dragging
  {
    if !d.dragging then (g, d) else EndDrag(g, d, target)
  }

  /** `OnRightClickPerformed`: ignored while a drag is in progress. */
  function OnRightClickPerformed(g: Game, d: DragState, target: Target): (r: Game)
    requires TargetIn(g, target)
    ensures d.dragging ==> r == g
    ensures !d.dragging ==> r == RightClickAction(g, target)
  {
    if d.dragging then g else RightClickAction(g, target)
  }
}
