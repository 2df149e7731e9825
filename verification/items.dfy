/**
 * Item categories, item instances, catalog entries (`ItemData`) and use
 * strategies, as declared in Item/Item.cs, Item/ItemData.cs and Item/ItemUse/.
 */
module Items {
  import opened Wrappers

  /** The five item categories. `Untyped` is the source's `ItemType.None`
      (renamed so that it does not clash with `Option.None`). */
  datatype ItemType = Untyped | Weapon | Armor | Potion | Coin

  /** An opaque engine object: a sprite, a prefab or a transform. */
  type Handle = nat

  /** The use behaviour a catalog entry may carry. Only the potion acts on the
      character; the weapon and armor strategies only write a log line. */
  datatype UseStrategy = PotionUse(healAmount: int) | WeaponUse | ArmorUse

  /** The serialized default of `PotionUseData.healAmount`. */
  const DefaultHealAmount: int := 20

  function NewPotionUse(): (s: UseStrategy)
    ensures s.PotionUse? && s.healAmount == 20
  {
    PotionUse(DefaultHealAmount)
  }

  /**
   * An item instance. `id` stands for the object's identity: two instances
   * with equal descriptive fields are still different objects when their ids
   * differ, so comparing whole `Item` values is the source's reference
   * comparison. `stackable` is the `IsStackable` flag the inventory reads; the
   * `Item` class in Item.cs does not declare it, so it is kept as an abstract field.
   */
  datatype Item = Item(
    id: nat,
    name: string,
    icon: Option<Handle>,
    itemType: ItemType,
    maxStack: int,
    prefab: Option<Handle>,
    stackable: bool,
    strategy: Option<UseStrategy>)

  /** The descriptive fields of two items agree (everything but the strategy). */
  predicate SameDescription(a: Item, b: Item)
  {
    && a.id == b.id && a.name == b.name && a.icon == b.icon && a.itemType == b.itemType
    && a.maxStack == b.maxStack && a.prefab == b.prefab && a.stackable == b.stackable
  }

  /** `new Item(name, icon, type, maxStack, prefab)`: the fields are stored as
      given and no strategy is bound yet. */
  function NewItem(id: nat, name: string, icon: Option<Handle>, itemType: ItemType,
                   maxStack: int, prefab: Option<Handle>, stackable: bool): (x: Item)
    ensures x.id == id && x.name == name && x.icon == icon && x.itemType == itemType
    ensures x.maxStack == maxStack && x.prefab == prefab && x.stackable == stackable
    ensures x.strategy.None?
  {
    Item(id, name, icon, itemType, maxStack, prefab, stackable, None)
  }

  /** `SetUseStrategy` replaces the strategy and nothing else. */
  function SetUseStrategy(x: Item, strategy: Option<UseStrategy>): (y: Item)
    ensures y.strategy == strategy
    ensures SameDescription(y, x)
  {
    x.(strategy := strategy)
  }

  /** A catalog entry (`ItemData` ScriptableObject). */
  datatype ItemData = ItemData(
    name: string,
    icon: Option<Handle>,
    itemType: ItemType,
    maxStack: int,
    prefab: Option<Handle>,
    useData: Option<UseStrategy>,
    stackable: bool)

  /** The fields that no `ItemData` method writes agree. */
  predicate SameCatalogFields(a: ItemData, b: ItemData)
  {
    a.name == b.name && a.icon == b.icon && a.itemType == b.itemType
    && a.prefab == b.prefab && a.useData == b.useData
  }

  /** A freshly authored entry: `maxStackCount = 1`, `isStackable = true`. */
  function NewItemData(name: string, icon: Option<Handle>, itemType: ItemType,
                       prefab: Option<Handle>, useData: Option<UseStrategy>): (d: ItemData)
    ensures d.maxStack == 1 && d.stackable
    ensures d.name == name && d.icon == icon && d.itemType == itemType
    ensures d.prefab == prefab && d.useData == useData
  {
    ItemData(name, icon, itemType, 1, prefab, useData, true)
  }

  /** `ConfigureStackable` writes only the stackable flag. */
  function ConfigureStackable(d: ItemData, value: bool): (r: ItemData)
    ensures r.stackable == value
    ensures r.maxStack == d.maxStack
    ensures SameCatalogFields(r, d)
  {
    d.(stackable := value)
  }

  /** `ConfigureMaxStackCount` stores the argument as is (no clamping here)
      and writes nothing else. */
  function ConfigureMaxStackCount(d: ItemData, value: int): (r: ItemData)
    ensures r.maxStack == value
    ensures r.stackable == d.stackable
    ensures SameCatalogFields(r, d)
  {
    d.(maxStack := value)
  }
}
