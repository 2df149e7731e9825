/**
 * Placing items in the scene (Item/ItemSpawner.cs): choosing distinct spawn
 * points, spawning pickups, the ground drop, and refreshing the tracked
 * instances after a catalog edit.
 */
module Spawner {
  import opened Wrappers
  import opened Mathf
  import opened Items
  import opened Factory

  datatype SpawnEntry = SpawnEntry(itemType: ItemType, quantity: int)

  /** A pickup placed in the world: its item, its quantity and, for a scene
      spawn, the index of the spawn point (a ground drop has none). */
  datatype Placed = Placed(item: Item, quantity: int, point: Option<nat>)

  /** Random draws are supplied by the caller: `picks[k]` is the k-th value
      of `Random.Range(0, count)`, which lies below the number of points
      still available at that draw. */
  predicate DrawsInRange(picks: seq<nat>, pointCount: nat)
  {
    forall k :: 0 <= k < |picks| && k < pointCount ==> picks[k] < pointCount - k
  }

  predicate Distinct(s: seq<nat>)
  {
    forall a, b :: 0 <= a < b < |s| ==> s[a] != s[b]
  }

  /**
   * The point selection of `InitializeSpawner`: one draw per entry from the
   * points not yet used, stopping early once every point is used.
   */
  method ChoosePoints(pointCount: nat, entryCount: nat, picks: seq<nat>) returns (used: seq<nat>)
    requires |picks| >= Min(entryCount, pointCount)
    requires DrawsInRange(picks, pointCount)
    ensures |used| == Min(entryCount, pointCount)
    ensures forall k :: 0 <= k < |used| ==> used[k] < pointCount
    ensures Distinct(used)
  {
    var available: seq<nat> := seq(pointCount, i => i);
    used := [];
    var k := 0;
    while k < entryCount
      invariant k <= entryCount && k <= pointCount
      invariant |used| == k && |available| == pointCount - k
      invariant forall a :: 0 <= a < |available| ==> available[a] < pointCount
      invariant forall a :: 0 <= a < |used| ==> used[a] < pointCount
      invariant Distinct(available) && Distinct(used)
      invariant forall a, b :: 0 <= a < |used| && 0 <= b < |available| ==> used[a] != available[b]
      decreases entryCount - k
    {
      if |available| == 0 {
        break;
      }
      var idx := picks[k];
      var point := available[idx];
      var rest := available[..idx] + available[idx + 1..];
      assert forall b :: 0 <= b < |rest| ==> rest[b] == (if b < idx then available[b] else available[b + 1]);
      used := used + [point];
      available := rest;
      k := k + 1;
    }
  }

  datatype Spawned = Spawned(tracked: seq<Item>, factory: ItemFactory, placed: Option<Placed>)

  /**
   * `SpawnItemInScene`: create the item, track it, and place a pickup at the
   * point when the item has a prefab. The factory always returns an item,
   * so the guard against a missing one never fires.
   */
  function SpawnItemInScene(tracked: seq<Item>, f: ItemFactory, t: ItemType, quantity: int, point: nat): (r: Spawned)
    ensures |r.tracked| == |tracked| + 1 && r.tracked[..|tracked|] == tracked
    ensures r.tracked[|tracked|].id == f.nextId && r.factory == ItemFactory(f.registry, f.nextId + 1)
    ensures r.placed.Some? <==> r.tracked[|tracked|].prefab.Some?
    ensures r.placed.Some? ==> r.placed.value == Placed(r.tracked[|tracked|], quantity, Some(point))
  {
    var c := CreateItem(f, t);
    Spawned(tracked + [c.item], c.factory, if c.item.prefab.Some? then Some(Placed(c.item, quantity, Some(point))) else None)
  }

  datatype Initialized = Initialized(tracked: seq<Item>, factory: ItemFactory, placed: seq<Placed>)

  /** The instance spawned for `entries[k]`: the factory has handed out one
      id for each earlier entry when it creates it for the entry's category. */
  function EntryItem(f: ItemFactory, entries: seq<SpawnEntry>, k: nat): Item
    requires k < |entries|
  {
    CreateItem(ItemFactory(f.registry, f.nextId + k), entries[k].itemType).item
  }

  /** The pickup `entries[k]` gets at point `used[k]`: its instance with the
      entry's quantity. */
  function EntryPickup(f: ItemFactory, entries: seq<SpawnEntry>, used: seq<nat>, k: nat): Placed
    requires k < |entries| && k < |used|
  {
    Placed(EntryItem(f, entries, k), entries[k].quantity, Some(used[k]))
  }

  /** Spawn `entries[k]` at point `used[k]`, in order. */
  function SpawnAll(tracked: seq<Item>, f: ItemFactory, entries: seq<SpawnEntry>, used: seq<nat>): (r: Initialized)
    requires |used| <= |entries|
    ensures |r.tracked| == |tracked| + |used| && r.tracked[..|tracked|] == tracked
    ensures r.factory.registry == f.registry && r.factory.nextId == f.nextId + |used|
    ensures |r.placed| <= |used|
    ensures forall k :: 0 <= k < |r.placed| ==> r.placed[k].point.Some? && r.placed[k].point.value in used
    ensures forall a, b :: 0 <= a < b < |r.placed| && Distinct(used) ==> r.placed[a].point != r.placed[b].point
    decreases |used|
  {
    if |used| == 0 then Initialized(tracked, f, [])
    else
      var s := SpawnItemInScene(tracked, f, entries[0].itemType, entries[0].quantity, used[0]);
      var rest := SpawnAll(s.tracked, s.factory, entries[1..], used[1..]);
      assert rest.tracked[..|tracked|] == tracked by {
        assert rest.tracked[..|tracked|] == rest.tracked[..|s.tracked|][..|tracked|];
      }
      assert forall k :: 0 <= k < |rest.placed| ==> rest.placed[k].point.value in used[1..];
      assert Distinct(used) ==> used[0] !in used[1..];
      Initialized(rest.tracked, rest.factory, (if s.placed.Some? then [s.placed.value] else []) + rest.placed)
  }

  /** The first spawn's factory hands the remaining entries the ids that
      follow, so the rest of the run sees the same instances shifted by one. */
  lemma EntryShift(f: ItemFactory, entries: seq<SpawnEntry>, used: seq<nat>, g: ItemFactory)
    requires 0 < |used| <= |entries|
    requires g == CreateItem(f, entries[0].itemType).factory
    ensures forall k :: 0 <= k < |used| - 1 ==> EntryItem(g, entries[1..], k) == EntryItem(f, entries, k + 1)
    ensures forall k :: 0 <= k < |used| - 1 ==> EntryPickup(g, entries[1..], used[1..], k) == EntryPickup(f, entries, used, k + 1)
  {
    assert g == ItemFactory(f.registry, f.nextId + 1);
  }

  /** Entries are spawned in order: the k-th instance `SpawnAll` adds to the
      tracked list is the one created for `entries[k]`. */
  lemma {:induction false} SpawnAllTracks(tracked: seq<Item>, f: ItemFactory, entries: seq<SpawnEntry>, used: seq<nat>)
    requires |used| <= |entries|
    ensures var r := SpawnAll(tracked, f, entries, used);
            forall k :: 0 <= k < |used| ==> r.tracked[|tracked| + k] == EntryItem(f, entries, k)
    decreases |used|
  {
    if |used| > 0 {
      var s := SpawnItemInScene(tracked, f, entries[0].itemType, entries[0].quantity, used[0]);
      var rest := SpawnAll(s.tracked, s.factory, entries[1..], used[1..]);
      SpawnAllTracks(s.tracked, s.factory, entries[1..], used[1..]);
      EntryShift(f, entries, used, s.factory);
      assert rest.tracked[|tracked|] == EntryItem(f, entries, 0) by {
        assert rest.tracked[..|s.tracked|][|tracked|] == s.tracked[|tracked|];
      }
      forall k | 1 <= k < |used|
        ensures rest.tracked[|tracked| + k] == EntryItem(f, entries, k)
      {
        assert rest.tracked[|s.tracked| + (k - 1)] == EntryItem(s.factory, entries[1..], k - 1);
      }
    }
  }

  /** Every entry whose instance has a prefab gets its pickup: that instance
      with the entry's quantity, at the entry's point. */
  lemma {:induction false} SpawnAllPlacesEach(tracked: seq<Item>, f: ItemFactory, entries: seq<SpawnEntry>, used: seq<nat>)
    requires |used| <= |entries|
    ensures var r := SpawnAll(tracked, f, entries, used);
            forall k :: 0 <= k < |used| && EntryItem(f, entries, k).prefab.Some? ==> EntryPickup(f, entries, used, k) in r.placed
    decreases |used|
  {
    if |used| > 0 {
      var s := SpawnItemInScene(tracked, f, entries[0].itemType, entries[0].quantity, used[0]);
      SpawnAllPlacesEach(s.tracked, s.factory, entries[1..], used[1..]);
      EntryShift(f, entries, used, s.factory);
      var rest := SpawnAll(s.tracked, s.factory, entries[1..], used[1..]);
      forall k | 1 <= k < |used| && EntryItem(f, entries, k).prefab.Some?
        ensures EntryPickup(f, entries, used, k) in rest.placed
      {
        assert EntryItem(s.factory, entries[1..], k - 1).prefab.Some?;
      }
    }
  }

  /** `p` is the pickup of some entry whose instance has a prefab. */
  predicate IsEntryPickup(f: ItemFactory, entries: seq<SpawnEntry>, used: seq<nat>, p: Placed)
    requires |used| <= |entries|
  {
    exists k :: 0 <= k < |used| && EntryItem(f, entries, k).prefab.Some? && p == EntryPickup(f, entries, used, k)
  }

  /** Every pickup in `placed` is the pickup of some entry. */
  predicate OnlyEntryPickups(f: ItemFactory, entries: seq<SpawnEntry>, used: seq<nat>, placed: seq<Placed>)
    requires |used| <= |entries|
  {
    forall j :: 0 <= j < |placed| ==> IsEntryPickup(f, entries, used, placed[j])
  }

  /** Pickups follow the order of their instances' creation. */
  predicate InCreationOrder(placed: seq<Placed>)
  {
    forall a, b :: 0 <= a < b < |placed| ==> placed[a].item.id < placed[b].item.id
  }

  /** A pickup of the remaining entries, spawned after the first, is a pickup
      of the whole run whose instance came after the first one. */
  lemma ShiftedPickup(f: ItemFactory, entries: seq<SpawnEntry>, used: seq<nat>, g: ItemFactory, p: Placed)
    requires 0 < |used| <= |entries|
    requires g == CreateItem(f, entries[0].itemType).factory
    requires IsEntryPickup(g, entries[1..], used[1..], p)
    ensures IsEntryPickup(f, entries, used, p) && p.item.id > f.nextId
  {
    var k :| 0 <= k < |used| - 1 && EntryItem(g, entries[1..], k).prefab.Some?
             && p == EntryPickup(g, entries[1..], used[1..], k);
    EntryShift(f, entries, used, g);
    assert EntryItem(f, entries, k + 1).prefab.Some? && p == EntryPickup(f, entries, used, k + 1);
  }

  /** Every placed pickup is the pickup of some entry whose instance has a
      prefab, and its instance was created after every earlier pickup's. */
  lemma {:induction false} SpawnAllPlacesOnly(tracked: seq<Item>, f: ItemFactory, entries: seq<SpawnEntry>, used: seq<nat>)
    requires |used| <= |entries|
    ensures OnlyEntryPickups(f, entries, used, SpawnAll(tracked, f, entries, used).placed)
    ensures InCreationOrder(SpawnAll(tracked, f, entries, used).placed)
    decreases |used|
  {
    if |used| > 0 {
      var s := SpawnItemInScene(tracked, f, entries[0].itemType, entries[0].quantity, used[0]);
      SpawnAllPlacesOnly(s.tracked, s.factory, entries[1..], used[1..]);
      var rest := SpawnAll(s.tracked, s.factory, entries[1..], used[1..]).placed;
      var head := if s.placed.Some? then [s.placed.value] else [];
      var all := SpawnAll(tracked, f, entries, used).placed;
      assert all == head + rest;
      forall j | 0 <= j < |rest|
        ensures IsEntryPickup(f, entries, used, rest[j]) && rest[j].item.id > f.nextId
      {
        ShiftedPickup(f, entries, used, s.factory, rest[j]);
      }
      if s.placed.Some? {
        assert f == ItemFactory(f.registry, f.nextId + 0);
        assert EntryItem(f, entries, 0).prefab.Some? && all[0] == EntryPickup(f, entries, used, 0);
      }
      forall j | 0 <= j < |all|
        ensures IsEntryPickup(f, entries, used, all[j])
      {
        if j >= |head| {
          assert all[j] == rest[j - |head|];
        }
      }
    }
  }

  /**
   * `InitializeSpawner`: choose a distinct point for each entry while points
   * remain, and spawn the entry there. Exactly `Min(entries, points)` items
   * are created and tracked, the k-th for `entries[k]`; the k-th entry's
   * pickup, when its instance has a prefab, carries the entry's quantity at
   * the k-th chosen point, and no two pickups share a point. The chosen
   * points are returned as `used`.
   */
  method InitializeSpawner(tracked: seq<Item>, f: ItemFactory, entries: seq<SpawnEntry>, pointCount: nat, picks: seq<nat>)
    returns (r: Initialized, used: seq<nat>)
    requires |picks| >= Min(|entries|, pointCount)
    requires DrawsInRange(picks, pointCount)
    ensures |used| == Min(|entries|, pointCount) && Distinct(used)
    ensures forall k :: 0 <= k < |used| ==> used[k] < pointCount
    ensures |r.tracked| == |tracked| + Min(|entries|, pointCount) && r.tracked[..|tracked|] == tracked
    ensures r.factory.registry == f.registry && r.factory.nextId == f.nextId + Min(|entries|, pointCount)
    ensures forall k :: 0 <= k < |used| ==> r.tracked[|tracked| + k] == EntryItem(f, entries, k)
    ensures forall k :: 0 <= k < |used| && EntryItem(f, entries, k).prefab.Some? ==>
              EntryPickup(f, entries, used, k) in r.placed
    ensures OnlyEntryPickups(f, entries, used, r.placed) && InCreationOrder(r.placed)
    ensures forall k :: 0 <= k < |r.placed| ==> r.placed[k].point.Some? && r.placed[k].point.value < pointCount
    ensures forall a, b :: 0 <= a < b < |r.placed| ==> r.placed[a].point != r.placed[b].point
  {
    used := ChoosePoints(pointCount, |entries|, picks);
    r := SpawnAll(tracked, f, entries, used);
    SpawnAllTracks(tracked, f, entries, used);
    SpawnAllPlacesEach(tracked, f, entries, used);
    SpawnAllPlacesOnly(tracked, f, entries, used);
  }

  /** `DropItemOnGround`: a pickup of the item near the player, unless the
      item has no prefab. */
  function DropItemOnGround(x: Item, quantity: int): (r: Option<Placed>)
    ensures r.Some? <==> x.prefab.Some?
    ensures r.Some? ==> r.value.item == x && r.value.quantity == quantity && r.value.point.None?
  {
    if x.prefab.None? then None else Some(Placed(x, quantity, None))
  }

  /**
   * `UpdateItems(d)`: every tracked instance of d's category is refreshed
   * from d; `refresh` stands for `Item.UpdateFromItemData`, whose body is not
   * part of this model.
   */
  function UpdateItems(tracked: seq<Item>, d: ItemData, refresh: (Item, ItemData) -> Item): (r: seq<Item>)
    ensures |r| == |tracked|
    ensures forall i :: 0 <= i < |tracked| ==>
              r[i] == if tracked[i].itemType == d.itemType then refresh(tracked[i], d) else tracked[i]
  {
    seq(|tracked|, i requires 0 <= i < |tracked| =>
      if tracked[i].itemType == d.itemType then refresh(tracked[i], d) else tracked[i])
  }

  /** A refresh that is stable and keeps the category makes `UpdateItems`
      idempotent: applying the same catalog edit twice changes nothing more. */
  lemma UpdateItemsIdempotent(tracked: seq<Item>, d: ItemData, refresh: (Item, ItemData) -> Item)
    requires forall x: Item :: x.itemType == d.itemType ==>
               refresh(x, d).itemType == d.itemType && refresh(refresh(x, d), d) == refresh(x, d)
    ensures UpdateItems(UpdateItems(tracked, d, refresh), d, refresh) == UpdateItems(tracked, d, refresh)
  {
  }
}
