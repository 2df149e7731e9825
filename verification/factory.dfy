/**
 * The item factory (Item/ItemFactory.cs): a registry from category to
 * catalog entry, built first-wins from a list, and `CreateItem`. Object
 * identity is modelled by a counter of fresh ids.
 */
module Factory {
  import opened Wrappers
  import opened Items

  datatype ItemFactory = ItemFactory(registry: map<ItemType, ItemData>, nextId: nat)

  /** `list[i]` is the first entry of its category in the list. */
  predicate FirstOfType(list: seq<ItemData>, i: int)
    requires 0 <= i < |list|
  {
    forall j :: 0 <= j < i ==> list[j].itemType != list[i].itemType
  }

  /**
   * `Awake`: walk the list and register an entry only when its category has
   * no entry yet (later duplicates are ignored with a warning).
   */
  method BuildRegistry(list: seq<ItemData>) returns (reg: map<ItemType, ItemData>)
    ensures reg.Keys == set i | 0 <= i < |list| :: list[i].itemType
    ensures forall i :: 0 <= i < |list| && FirstOfType(list, i) ==> reg[list[i].itemType] == list[i]
  {
    reg := map[];
    var k := 0;
    while k < |list|
      invariant 0 <= k <= |list|
      invariant reg.Keys == set i | 0 <= i < k :: list[i].itemType
      invariant forall i :: 0 <= i < k && FirstOfType(list, i) ==> list[i].itemType in reg && reg[list[i].itemType] == list[i]
    {
      var data := list[k];
      if data.itemType !in reg {
        assert FirstOfType(list, k);
        reg := reg[data.itemType := data];
      }
      k := k + 1;
    }
  }

  /** The factory after `Awake`, handing out ids from `firstId`. */
  method NewItemFactory(list: seq<ItemData>, firstId: nat) returns (f: ItemFactory)
    ensures f.registry.Keys == set i | 0 <= i < |list| :: list[i].itemType
    ensures forall i :: 0 <= i < |list| && FirstOfType(list, i) ==> f.registry[list[i].itemType] == list[i]
    ensures f.nextId == firstId
  {
    var reg := BuildRegistry(list);
    f := ItemFactory(reg, firstId);
  }

  const GenericItemName: string := "Generic Item"

  datatype Created = Created(item: Item, factory: ItemFactory)

  /**
   * `CreateItem(t)`: a new instance whose fields are copied from the entry
   * registered for t, with that entry's use strategy bound when it has one;
   * for an unregistered t, a "Generic Item" of category None with max stack 1
   * and no icon, prefab or strategy. Every call yields a fresh id.
   */
  function CreateItem(f: ItemFactory, t: ItemType): (r: Created)
    ensures r.item.id == f.nextId
    ensures r.factory.registry == f.registry && r.factory.nextId == f.nextId + 1
    ensures t in f.registry ==>
              var d := f.registry[t];
              && r.item.name == d.name && r.item.icon == d.icon && r.item.itemType == d.itemType
              && r.item.maxStack == d.maxStack && r.item.prefab == d.prefab
              && r.item.stackable == d.stackable && r.item.strategy == d.useData
    ensures t !in f.registry ==>
              && r.item.name == "Generic Item" && r.item.icon.None? && r.item.itemType == Untyped
              && r.item.maxStack == 1 && r.item.prefab.None? && r.item.strategy.None?
  {
    if t in f.registry then
      var d := f.registry[t];
      var x := NewItem(f.nextId, d.name, d.icon, d.itemType, d.maxStack, d.prefab, d.stackable);
      var y := if d.useData.Some? then SetUseStrategy(x, d.useData) else x;
      Created(y, ItemFactory(f.registry, f.nextId + 1))
    else
      Created(NewItem(f.nextId, GenericItemName, None, Untyped, 1, None, true), ItemFactory(f.registry, f.nextId + 1))
  }

  /** Two successive calls never return the same instance, even for the
      same category, so identity-based removal can tell them apart. */
  lemma CreateItemFresh(f: ItemFactory, t: ItemType, u: ItemType)
    ensures CreateItem(f, t).item != CreateItem(CreateItem(f, t).factory, u).item
    ensures CreateItem(CreateItem(f, t).factory, u).item.id > CreateItem(f, t).item.id
  {
  }
}
