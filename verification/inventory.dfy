/**
 * The inventory (Inventory/Inventory.cs): a fixed sequence of slots with the
 * two-pass add, the identity-based remove and the reorganize step. Change
 * notifications are returned as counts and overflow handed to the ground drop
 * is returned as a list of stacks.
 */
module Inventories {
  import opened Wrappers
  import opened Mathf
  import opened Items
  import opened Slots

  type Inventory = seq<Slot>

  /** An item together with a number of its units: what is handed to the
      ground drop, and what reorganizing pulls out of a slot. */
  datatype Stack = Stack(item: Item, count: int)

  /** `new Inventory(maxSlots)`: exactly `maxSlots` empty slots. A negative
      capacity throws in the source, hence the `nat`. */
  function NewInventory(maxSlots: nat): (inv: Inventory)
    ensures |inv| == maxSlots
    ensures forall i :: 0 <= i < |inv| ==> inv[i] == EmptySlot
  {
    seq(maxSlots, _ => EmptySlot)
  }

  /** `ForceInventoryUpdate`: one notification and no change to any slot. */
  function ForceInventoryUpdate(inv: Inventory): (r: (Inventory, nat))
    ensures r.0 == inv
    ensures r.1 == 1
  {
    (inv, 1)
  }

  // ---------------------------------------------------------------------------
  // Counting units

  /** The units the slots hold of the selected items. */
  function Units(slots: seq<Slot>, sel: Selector): int
    decreases |slots|
  {
    if |slots| == 0 then 0 else SlotUnits(slots[0], sel) + Units(slots[1..], sel)
  }

  /** The units of the selected items in a list of stacks. */
  function StackUnits(stacks: seq<Stack>, sel: Selector): int
    decreases |stacks|
  {
    if |stacks| == 0 then 0
    else (if Selects(sel, stacks[0].item) then stacks[0].count else 0) + StackUnits(stacks[1..], sel)
  }

  /** The units of the selected items in the stacks that the ground drop
      turns into pickups: `ItemSpawner.DropItemOnGround` creates nothing for
      an item without a prefab. */
  function PlacedUnits(stacks: seq<Stack>, sel: Selector): int
    decreases |stacks|
  {
    if |stacks| == 0 then 0
    else (if stacks[0].item.prefab.Some? && Selects(sel, stacks[0].item) then stacks[0].count else 0)
         + PlacedUnits(stacks[1..], sel)
  }

  /** The units of the selected items in the stacks the ground drop destroys. */
  function LostUnits(stacks: seq<Stack>, sel: Selector): int
    decreases |stacks|
  {
    if |stacks| == 0 then 0
    else (if stacks[0].item.prefab.None? && Selects(sel, stacks[0].item) then stacks[0].count else 0)
         + LostUnits(stacks[1..], sel)
  }

  /** `b` is `a` followed by stacks of x only. */
  predicate ExtendsWith(a: seq<Stack>, b: seq<Stack>, x: Item)
  {
    |a| <= |b| && b[..|a|] == a && forall k :: |a| <= k < |b| ==> b[k].item == x
  }

  predicate NonNegative(slots: seq<Slot>)
  {
    forall i :: 0 <= i < |slots| ==> slots[i].count >= 0
  }

  predicate AllValid(slots: seq<Slot>)
  {
    forall i :: 0 <= i < |slots| ==> Valid(slots[i])
  }

  lemma UnitsCons(s: Slot, rest: seq<Slot>, sel: Selector)
    ensures Units([s] + rest, sel) == SlotUnits(s, sel) + Units(rest, sel)
  {
    assert ([s] + rest)[1..] == rest;
  }

  lemma {:induction false} UnitsNonNegative(slots: seq<Slot>, sel: Selector)
    requires NonNegative(slots)
    ensures Units(slots, sel) >= 0
    decreases |slots|
  {
    if |slots| > 0 {
      UnitsNonNegative(slots[1..], sel);
    }
  }

  lemma {:induction false} UnitsUpdate(slots: seq<Slot>, i: nat, s: Slot, sel: Selector)
    requires i < |slots|
    ensures Units(slots[i := s], sel) == Units(slots, sel) - SlotUnits(slots[i], sel) + SlotUnits(s, sel)
    decreases |slots|
  {
    if i > 0 {
      UnitsUpdate(slots[1..], i - 1, s, sel);
      assert slots[i := s][1..] == slots[1..][i - 1 := s];
    }
  }

  lemma {:induction false} StackUnitsAppend(a: seq<Stack>, b: seq<Stack>, sel: Selector)
    ensures StackUnits(a + b, sel) == StackUnits(a, sel) + StackUnits(b, sel)
    decreases |a|
  {
    if |a| == 0 {
      assert a + b == b;
    } else {
      StackUnitsAppend(a[1..], b, sel);
      assert (a + b)[0] == a[0];
      assert (a + b)[1..] == a[1..] + b;
    }
  }

  /** Every unit handed to the ground drop is either placed or destroyed. */
  lemma {:induction false} StackUnitsSplit(stacks: seq<Stack>, sel: Selector)
    ensures StackUnits(stacks, sel) == PlacedUnits(stacks, sel) + LostUnits(stacks, sel)
    decreases |stacks|
  {
    if |stacks| > 0 {
      StackUnitsSplit(stacks[1..], sel);
    }
  }

  lemma {:induction false} LostUnitsAppend(a: seq<Stack>, b: seq<Stack>, sel: Selector)
    ensures LostUnits(a + b, sel) == LostUnits(a, sel) + LostUnits(b, sel)
    decreases |a|
  {
    if |a| == 0 {
      assert a + b == b;
    } else {
      LostUnitsAppend(a[1..], b, sel);
      assert (a + b)[0] == a[0];
      assert (a + b)[1..] == a[1..] + b;
    }
  }

  /** Stacks of one item with a prefab lose nothing; of one item without a
      prefab, they lose everything. */
  lemma {:induction false} LostUnitsOneItem(stacks: seq<Stack>, x: Item, sel: Selector)
    requires forall k :: 0 <= k < |stacks| ==> stacks[k].item == x
    ensures x.prefab.Some? ==> LostUnits(stacks, sel) == 0
    ensures x.prefab.None? ==> LostUnits(stacks, sel) == StackUnits(stacks, sel)
    decreases |stacks|
  {
    if |stacks| > 0 {
      assert forall k :: 0 <= k < |stacks[1..]| ==> stacks[1..][k] == stacks[k + 1];
      LostUnitsOneItem(stacks[1..], x, sel);
    }
  }

  /** Extending the ground drop with stacks of an item that has a prefab
      destroys nothing more. */
  lemma LostUnitsExtends(a: seq<Stack>, b: seq<Stack>, x: Item, sel: Selector)
    requires ExtendsWith(a, b, x)
    ensures x.prefab.Some? ==> LostUnits(b, sel) == LostUnits(a, sel)
    ensures x.prefab.None? ==> LostUnits(b, sel) - LostUnits(a, sel) == StackUnits(b, sel) - StackUnits(a, sel)
  {
    var tail := b[|a|..];
    assert b == a + tail;
    LostUnitsAppend(a, tail, sel);
    StackUnitsAppend(a, tail, sel);
    LostUnitsOneItem(tail, x, sel);
  }

  // ---------------------------------------------------------------------------
  // AddItem

  /** The two scans of `AddItem`: the stacking scan visits slots holding an
      item with the same name, the filling scan visits empty slots. */
  datatype Pass = Stacking | Filling

  predicate Visits(p: Pass, s: Slot, x: Item)
  {
    match p
    case Stacking => s.item.Some? && s.item.value.name == x.name
    case Filling => IsEmpty(s)
  }

  /** The slots after a scan and the units still to place. */
  datatype Fill = Fill(slots: seq<Slot>, left: int)

  /**
   * One `foreach` scan of `AddItem`: each visited slot is offered the units
   * still to place, and the scan stops right after a visit that leaves none.
   */
  function RunPass(p: Pass, slots: seq<Slot>, x: Item, n: int): (r: Fill)
    ensures |r.slots| == |slots|
    // slots the scan does not visit are untouched
    ensures forall i {:trigger r.slots[i]} :: 0 <= i < |slots| && !Visits(p, slots[i], x) ==> r.slots[i] == slots[i]
    // a slot keeps its item, or an unset slot receives x
    ensures forall i {:trigger r.slots[i]} :: 0 <= i < |slots| ==>
              r.slots[i].item == slots[i].item || (slots[i].item.None? && r.slots[i].item == Some(x))
    ensures n >= 0 ==> r.left >= 0
    decreases |slots|
  {
    if |slots| == 0 then Fill([], n)
    else if Visits(p, slots[0], x) then
      var a := SlotAdd(slots[0], x, n);
      var left := n - a.added;
      if left <= 0 then Fill([a.slot] + slots[1..], left)
      else
        var rest := RunPass(p, slots[1..], x, left);
        Fill([a.slot] + rest.slots, rest.left)
    else
      var rest := RunPass(p, slots[1..], x, n);
      Fill([slots[0]] + rest.slots, rest.left)
  }

  /** The result of `AddItem`: the slots, the returned flag, what was handed
      to the ground drop, and the number of change notifications. */
  datatype AddOutcome = AddOutcome(inv: Inventory, success: bool, dropped: seq<Stack>, notes: nat)

  /**
   * `Inventory.AddItem(x, n)`: a stacking scan (only for stackable items),
   * then, if units remain, a filling scan; what still remains goes to the
   * ground drop and the call reports failure.
   */
  function AddItem(inv: Inventory, x: Item, n: int): (r: AddOutcome)
    ensures |r.inv| == |inv|
    ensures r.notes == 1
    ensures r.success <==> r.dropped == []
    ensures |r.dropped| <= 1
    ensures forall k :: 0 <= k < |r.dropped| ==> r.dropped[k].item == x && r.dropped[k].count > 0
    // a held stack of another name (or of any name, for a non-stackable x) is untouched
    ensures forall i :: 0 <= i < |inv| && !IsEmpty(inv[i]) && (!x.stackable || inv[i].item.value.name != x.name)
              ==> r.inv[i] == inv[i]
    ensures forall i :: 0 <= i < |inv| ==>
              r.inv[i].item == inv[i].item || (inv[i].item.None? && r.inv[i].item == Some(x))
  {
    var stacked := if x.stackable then RunPass(Stacking, inv, x, n) else Fill(inv, n);
    if stacked.left > 0 then
      var filled := RunPass(Filling, stacked.slots, x, stacked.left);
      if filled.left > 0 then AddOutcome(filled.slots, false, [Stack(x, filled.left)], 1)
      else AddOutcome(filled.slots, true, [], 1)
    else
      AddOutcome(stacked.slots, true, [], 1)
  }

  /** The selector cannot tell a held item from `x` when the two share a name. */
  predicate RespectsNames(slots: seq<Slot>, sel: Selector, x: Item)
  {
    forall i :: 0 <= i < |slots| && slots[i].item.Some? && slots[i].item.value.name == x.name
      ==> (Selects(sel, slots[i].item.value) <==> Selects(sel, x))
  }

  lemma {:induction false} RunPassUnits(p: Pass, slots: seq<Slot>, x: Item, n: int, sel: Selector)
    requires RespectsNames(slots, sel, x)
    ensures Units(RunPass(p, slots, x, n).slots, sel)
         == Units(slots, sel) + (if Selects(sel, x) then n - RunPass(p, slots, x, n).left else 0)
    decreases |slots|
  {
    if |slots| > 0 {
      assert RespectsNames(slots[1..], sel, x) by {
        forall i | 0 <= i < |slots[1..]| ensures slots[1..][i] == slots[i + 1] { }
      }
      if Visits(p, slots[0], x) {
        var a := SlotAdd(slots[0], x, n);
        SlotAddUnits(slots[0], x, n, sel);
        var left := n - a.added;
        if left <= 0 {
          UnitsCons(a.slot, slots[1..], sel);
        } else {
          RunPassUnits(p, slots[1..], x, left, sel);
          UnitsCons(a.slot, RunPass(p, slots[1..], x, left).slots, sel);
        }
      } else {
        RunPassUnits(p, slots[1..], x, n, sel);
        UnitsCons(slots[0], RunPass(p, slots[1..], x, n).slots, sel);
      }
    }
  }

  /** Conservation: the selected units stored plus those handed to the ground
      drop grow by exactly the requested count when x is selected. */
  lemma AddItemUnits(inv: Inventory, x: Item, n: int, sel: Selector)
    requires n >= 0
    requires RespectsNames(inv, sel, x)
    ensures Units(AddItem(inv, x, n).inv, sel) + StackUnits(AddItem(inv, x, n).dropped, sel)
         == Units(inv, sel) + (if Selects(sel, x) then n else 0)
  {
    var stacked := if x.stackable then RunPass(Stacking, inv, x, n) else Fill(inv, n);
    if x.stackable {
      RunPassUnits(Stacking, inv, x, n, sel);
    }
    if stacked.left > 0 {
      assert RespectsNames(stacked.slots, sel, x);
      RunPassUnits(Filling, stacked.slots, x, stacked.left, sel);
    }
  }

  /** Total conservation, for every selector that does not distinguish items
      by anything but their name. */
  lemma AddItemConserves(inv: Inventory, x: Item, n: int)
    requires n >= 0
    ensures Units(AddItem(inv, x, n).inv, AnyItem) + StackUnits(AddItem(inv, x, n).dropped, AnyItem)
         == Units(inv, AnyItem) + n
    ensures Units(AddItem(inv, x, n).inv, Named(x.name)) + StackUnits(AddItem(inv, x, n).dropped, Named(x.name))
         == Units(inv, Named(x.name)) + n
  {
    AddItemUnits(inv, x, n, AnyItem);
    AddItemUnits(inv, x, n, Named(x.name));
  }

  lemma AllValidCons(s: Slot, rest: seq<Slot>)
    requires Valid(s) && AllValid(rest)
    ensures AllValid([s] + rest)
  {
    assert forall i :: 0 < i < |[s] + rest| ==> ([s] + rest)[i] == rest[i - 1];
  }

  lemma AllValidTail(slots: seq<Slot>)
    requires |slots| > 0 && AllValid(slots)
    ensures Valid(slots[0]) && AllValid(slots[1..])
  {
    assert forall i :: 0 <= i < |slots[1..]| ==> slots[1..][i] == slots[i + 1];
  }

  /** A visited valid slot stays valid when offered a non-negative count
      (a positive one, if it is unset). */
  lemma SlotAddValid(p: Pass, s: Slot, x: Item, n: int)
    requires Valid(s) && Visits(p, s, x)
    requires x.maxStack >= 1 && n >= 0
    requires p.Filling? ==> n > 0
    ensures Valid(SlotAdd(s, x, n).slot)
  {
  }

  lemma {:induction false} RunPassValid(p: Pass, slots: seq<Slot>, x: Item, n: int)
    requires AllValid(slots)
    requires x.maxStack >= 1 && n >= 0
    requires p.Filling? ==> n > 0
    ensures AllValid(RunPass(p, slots, x, n).slots)
    decreases |slots|
  {
    if |slots| > 0 {
      AllValidTail(slots);
      if Visits(p, slots[0], x) {
        var a := SlotAdd(slots[0], x, n);
        SlotAddValid(p, slots[0], x, n);
        var left := n - a.added;
        if left <= 0 {
          AllValidCons(a.slot, slots[1..]);
        } else {
          RunPassValid(p, slots[1..], x, left);
          AllValidCons(a.slot, RunPass(p, slots[1..], x, left).slots);
        }
      } else {
        RunPassValid(p, slots[1..], x, n);
        AllValidCons(slots[0], RunPass(p, slots[1..], x, n).slots);
      }
    }
  }

  /** Bound: with well-formed slots, a non-negative request and an item whose
      max stack is at least 1, no slot ends above its item's max stack and
      the empty-iff-unset invariant is kept. */
  lemma AddItemValid(inv: Inventory, x: Item, n: int)
    requires AllValid(inv)
    requires x.maxStack >= 1 && n >= 0
    ensures AllValid(AddItem(inv, x, n).inv)
  {
    var stacked := if x.stackable then RunPass(Stacking, inv, x, n) else Fill(inv, n);
    if x.stackable {
      RunPassValid(Stacking, inv, x, n);
    }
    if stacked.left > 0 {
      RunPassValid(Filling, stacked.slots, x, stacked.left);
    }
  }

  /** A scan that ends with units left over has filled every visited slot
      that could take x. */
  lemma {:induction false} RunPassExhausts(p: Pass, slots: seq<Slot>, x: Item, n: int)
    requires RunPass(p, slots, x, n).left > 0
    ensures forall i :: 0 <= i < |slots| && Visits(p, slots[i], x) && Accepts(slots[i], x)
              ==> Full(RunPass(p, slots, x, n).slots[i])
    decreases |slots|
  {
    if |slots| > 0 {
      var r := RunPass(p, slots, x, n);
      if Visits(p, slots[0], x) {
        var a := SlotAdd(slots[0], x, n);
        var left := n - a.added;
        if left > 0 {
          var rest := RunPass(p, slots[1..], x, left);
          RunPassExhausts(p, slots[1..], x, left);
          assert r.slots == [a.slot] + rest.slots;
          forall i | 0 <= i < |slots| && Visits(p, slots[i], x) && Accepts(slots[i], x)
            ensures Full(r.slots[i])
          {
            if i > 0 {
              assert slots[1..][i - 1] == slots[i];
            }
          }
        }
      } else {
        var rest := RunPass(p, slots[1..], x, n);
        RunPassExhausts(p, slots[1..], x, n);
        assert r.slots == [slots[0]] + rest.slots;
        forall i | 0 <= i < |slots| && Visits(p, slots[i], x) && Accepts(slots[i], x)
          ensures Full(r.slots[i])
        {
          assert slots[1..][i - 1] == slots[i];
        }
      }
    }
  }

  /** Index order: a scan only changes slot j once every earlier visited slot
      that could take x has been filled. */
  lemma {:induction false} RunPassInOrder(p: Pass, slots: seq<Slot>, x: Item, n: int, i: nat, j: nat)
    requires i < j < |slots|
    requires Visits(p, slots[i], x) && Accepts(slots[i], x)
    requires RunPass(p, slots, x, n).slots[j] != slots[j]
    ensures Full(RunPass(p, slots, x, n).slots[i])
    decreases |slots|
  {
    var r := RunPass(p, slots, x, n);
    if Visits(p, slots[0], x) {
      var a := SlotAdd(slots[0], x, n);
      var left := n - a.added;
      if left <= 0 {
        assert false;
      } else {
        var rest := RunPass(p, slots[1..], x, left);
        assert r.slots == [a.slot] + rest.slots;
        if i > 0 {
          RunPassInOrder(p, slots[1..], x, left, i - 1, j - 1);
        }
      }
    } else {
      var rest := RunPass(p, slots[1..], x, n);
      assert r.slots == [slots[0]] + rest.slots;
      RunPassInOrder(p, slots[1..], x, n, i - 1, j - 1);
    }
  }

  /** A scan offering a positive count never changes a full slot. */
  lemma {:induction false} RunPassKeepsFull(p: Pass, slots: seq<Slot>, x: Item, n: int, i: nat)
    requires n > 0
    requires i < |slots| && Full(slots[i])
    ensures RunPass(p, slots, x, n).slots[i] == slots[i]
    decreases |slots|
  {
    var r := RunPass(p, slots, x, n);
    if Visits(p, slots[0], x) {
      var a := SlotAdd(slots[0], x, n);
      var left := n - a.added;
      if left > 0 {
        var rest := RunPass(p, slots[1..], x, left);
        assert r.slots == [a.slot] + rest.slots;
        if i > 0 {
          RunPassKeepsFull(p, slots[1..], x, left, i - 1);
        } else {
          assert a.slot == slots[0];
        }
      }
    } else if i > 0 {
      var rest := RunPass(p, slots[1..], x, n);
      assert r.slots == [slots[0]] + rest.slots;
      RunPassKeepsFull(p, slots[1..], x, n, i - 1);
    }
  }

  /** Stacking comes first: if a positive, stackable add puts anything into a
      slot that had no item, every slot holding an item of the same name is
      full afterwards. */
  lemma AddItemStacksFirst(inv: Inventory, x: Item, n: int, i: nat, j: nat)
    requires n > 0 && x.stackable
    requires i < |inv| && j < |inv|
    requires inv[i].item.Some? && inv[i].item.value.name == x.name
    requires inv[j].item.None?
    requires AddItem(inv, x, n).inv[j] != inv[j]
    ensures Full(AddItem(inv, x, n).inv[i])
  {
    var stacked := RunPass(Stacking, inv, x, n);
    assert stacked.slots[j] == inv[j];
    if stacked.left > 0 {
      RunPassExhausts(Stacking, inv, x, n);
      RunPassKeepsFull(Filling, stacked.slots, x, stacked.left, i);
    }
  }

  /** Overflow only when there is no room: when `AddItem` reports failure,
      every slot that had no item, and (for a stackable x) every slot holding
      an item of the same name, is full. */
  lemma AddItemFailsOnlyWhenFull(inv: Inventory, x: Item, n: int)
    requires !AddItem(inv, x, n).success
    ensures forall i :: 0 <= i < |inv| && (inv[i].item.None? || (x.stackable && inv[i].item.value.name == x.name))
              ==> Full(AddItem(inv, x, n).inv[i])
  {
    var stacked := if x.stackable then RunPass(Stacking, inv, x, n) else Fill(inv, n);
    var filled := RunPass(Filling, stacked.slots, x, stacked.left);
    RunPassExhausts(Filling, stacked.slots, x, stacked.left);
    if x.stackable {
      RunPassExhausts(Stacking, inv, x, n);
    }
    forall i | 0 <= i < |inv| && (inv[i].item.None? || (x.stackable && inv[i].item.value.name == x.name))
      ensures Full(filled.slots[i])
    {
      if inv[i].item.Some? {
        RunPassKeepsFull(Filling, stacked.slots, x, stacked.left, i);
      }
    }
  }

  /** Within the filling scan, empty slots are used in index order: an empty
      slot further on is only written once every earlier empty slot is full. */
  lemma AddItemFillsInOrder(inv: Inventory, x: Item, n: int, i: nat, j: nat)
    requires i < j < |inv|
    requires inv[i].item.None? && inv[j].item.None?
    requires AddItem(inv, x, n).inv[j] != inv[j]
    ensures Full(AddItem(inv, x, n).inv[i])
  {
    var stacked := if x.stackable then RunPass(Stacking, inv, x, n) else Fill(inv, n);
    assert stacked.slots[i] == inv[i] && stacked.slots[j] == inv[j];
    if stacked.left > 0 {
      RunPassInOrder(Filling, stacked.slots, x, stacked.left, i, j);
    }
  }

  // ---------------------------------------------------------------------------
  // RemoveItem

  /** The slots after a removal scan and the units it removed. */
  datatype Removal = Removal(slots: seq<Slot>, removed: int)

  /**
   * The `foreach` scan of `RemoveItem`: each slot holding the very instance x
   * gives up to what is still wanted, and the scan stops right after a slot
   * that leaves nothing wanted.
   */
  function RemovePass(slots: seq<Slot>, x: Item, n: int): (r: Removal)
    ensures |r.slots| == |slots|
    ensures forall i {:trigger r.slots[i]} :: 0 <= i < |slots| && slots[i].item != Some(x) ==> r.slots[i] == slots[i]
    ensures forall i {:trigger r.slots[i]} :: 0 <= i < |slots| ==> r.slots[i].item == slots[i].item || r.slots[i] == EmptySlot
    decreases |slots|
  {
    if |slots| == 0 then Removal([], 0)
    else if slots[0].item == Some(x) then
      var t := SlotRemove(slots[0], n);
      var left := n - t.removed;
      if left <= 0 then Removal([t.slot] + slots[1..], t.removed)
      else
        var rest := RemovePass(slots[1..], x, left);
        Removal([t.slot] + rest.slots, t.removed + rest.removed)
    else
      var rest := RemovePass(slots[1..], x, n);
      Removal([slots[0]] + rest.slots, rest.removed)
  }

  datatype RemoveOutcome = RemoveOutcome(inv: Inventory, removed: int, notes: nat)

  /** `Inventory.RemoveItem(x, n)`: matches slots by identity, not by name,
      and fires one notification however many slots it touched. */
  function RemoveItem(inv: Inventory, x: Item, n: int): (r: RemoveOutcome)
    ensures |r.inv| == |inv|
    ensures r.notes == 1
    ensures forall i :: 0 <= i < |inv| && inv[i].item != Some(x) ==> r.inv[i] == inv[i]
    ensures forall i :: 0 <= i < |inv| ==> r.inv[i].item == inv[i].item || r.inv[i] == EmptySlot
  {
    var t := RemovePass(inv, x, n);
    RemoveOutcome(t.slots, t.removed, 1)
  }

  lemma {:induction false} RemovePassUnits(slots: seq<Slot>, x: Item, n: int, sel: Selector)
    ensures Units(RemovePass(slots, x, n).slots, sel)
         == Units(slots, sel) - (if Selects(sel, x) then RemovePass(slots, x, n).removed else 0)
    decreases |slots|
  {
    if |slots| > 0 {
      if slots[0].item == Some(x) {
        var t := SlotRemove(slots[0], n);
        SlotRemoveUnits(slots[0], n, sel);
        var left := n - t.removed;
        if left <= 0 {
          UnitsCons(t.slot, slots[1..], sel);
        } else {
          RemovePassUnits(slots[1..], x, left, sel);
          UnitsCons(t.slot, RemovePass(slots[1..], x, left).slots, sel);
        }
      } else {
        RemovePassUnits(slots[1..], x, n, sel);
        UnitsCons(slots[0], RemovePass(slots[1..], x, n).slots, sel);
      }
    }
  }

  lemma NonNegativeTail(slots: seq<Slot>)
    requires |slots| > 0 && NonNegative(slots)
    ensures slots[0].count >= 0 && NonNegative(slots[1..])
  {
    assert forall i :: 0 <= i < |slots[1..]| ==> slots[1..][i] == slots[i + 1];
  }

  /** No single slot holds more of the selected units than the inventory. */
  lemma {:induction false} UnitsAtLeast(slots: seq<Slot>, i: nat, sel: Selector)
    requires i < |slots| && NonNegative(slots)
    ensures Units(slots, sel) >= SlotUnits(slots[i], sel)
    decreases |slots|
  {
    NonNegativeTail(slots);
    UnitsNonNegative(slots[1..], sel);
    if i > 0 {
      UnitsAtLeast(slots[1..], i - 1, sel);
    }
  }

  lemma {:induction false} RemovePassExact(slots: seq<Slot>, x: Item, n: int)
    requires n >= 0 && NonNegative(slots)
    ensures RemovePass(slots, x, n).removed == Min(n, Units(slots, Instance(x)))
    decreases |slots|
  {
    if |slots| > 0 {
      NonNegativeTail(slots);
      UnitsNonNegative(slots[1..], Instance(x));
      if slots[0].item == Some(x) {
        var t := SlotRemove(slots[0], n);
        var left := n - t.removed;
        if left > 0 {
          RemovePassExact(slots[1..], x, left);
        }
      } else {
        RemovePassExact(slots[1..], x, n);
      }
    }
  }

  /** `RemoveItem` with a non-negative request removes, and reports, exactly
      the smaller of the request and the units held of that instance; those
      units leave the inventory, and no other item's units change. */
  lemma RemoveItemExact(inv: Inventory, x: Item, n: int, sel: Selector)
    requires n >= 0 && NonNegative(inv)
    ensures RemoveItem(inv, x, n).removed == Min(n, Units(inv, Instance(x)))
    ensures Units(RemoveItem(inv, x, n).inv, sel)
         == Units(inv, sel) - (if Selects(sel, x) then RemoveItem(inv, x, n).removed else 0)
  {
    RemovePassExact(inv, x, n);
    RemovePassUnits(inv, x, n, sel);
  }

  /** One step of the scan: the first slot is scanned on its own, and the
      rest of the result is the scan of the remaining slots with what is still
      wanted, or the remaining slots untouched once nothing is wanted. */
  lemma RemovePassStep(slots: seq<Slot>, x: Item, n: int, k: nat)
    requires 0 < k < |slots|
    ensures RemovePass(slots, x, n).slots[0] == if slots[0].item == Some(x) then SlotRemove(slots[0], n).slot else slots[0]
    ensures slots[0].item != Some(x) ==> RemovePass(slots, x, n).slots[k] == RemovePass(slots[1..], x, n).slots[k - 1]
    ensures slots[0].item == Some(x) ==>
              var left := n - SlotRemove(slots[0], n).removed;
              RemovePass(slots, x, n).slots[k] == if left <= 0 then slots[k] else RemovePass(slots[1..], x, left).slots[k - 1]
  {
  }

  /** The scan's index order: while an earlier slot holding the instance is
      not emptied, no later slot is touched. */
  lemma {:induction false} RemovePassInOrder(slots: seq<Slot>, x: Item, n: int, i: nat, j: nat)
    requires i < j < |slots|
    requires slots[i].item == Some(x)
    ensures RemovePass(slots, x, n).slots[i].item.Some? ==> RemovePass(slots, x, n).slots[j] == slots[j]
    decreases |slots|
  {
    var r := RemovePass(slots, x, n).slots;
    RemovePassStep(slots, x, n, j);
    if i > 0 {
      RemovePassStep(slots, x, n, i);
    }
    assert slots[1..][j - 1] == slots[j];
    if slots[0].item == Some(x) {
      var t := SlotRemove(slots[0], n);
      var left := n - t.removed;
      if left > 0 {
        if i > 0 {
          var rest := RemovePass(slots[1..], x, left).slots;
          assert r[i] == rest[i - 1] && r[j] == rest[j - 1];
          assert slots[1..][i - 1] == slots[i];
          RemovePassInOrder(slots[1..], x, left, i - 1, j - 1);
        } else {
          // the first slot could not cover the request, so it gave everything
          assert t.removed == slots[0].count;
          assert r[0].item.None?;
        }
      } else {
        assert r[j] == slots[j];
      }
    } else {
      var rest := RemovePass(slots[1..], x, n).slots;
      assert r[i] == rest[i - 1] && r[j] == rest[j - 1];
      assert slots[1..][i - 1] == slots[i];
      RemovePassInOrder(slots[1..], x, n, i - 1, j - 1);
    }
  }

  /** Index order at the operation level: `RemoveItem` empties every earlier
      slot holding the instance before it touches a later one. */
  lemma RemoveItemInOrder(inv: Inventory, x: Item, n: int, i: nat, j: nat)
    requires i < j < |inv|
    requires inv[i].item == Some(x)
    requires RemoveItem(inv, x, n).inv[j] != inv[j]
    ensures RemoveItem(inv, x, n).inv[i] == EmptySlot
  {
    RemovePassInOrder(inv, x, n, i, j);
  }

  // ---------------------------------------------------------------------------
  // ReorganizeInventory

  /** The first loop of `ReorganizeInventory` takes a slot out when it is not
      empty and its item has the category being reorganized. */
  predicate PulledOut(s: Slot, t: ItemType)
  {
    !IsEmpty(s) && s.item.value.itemType == t
  }

  /** How many slots the first loop of `ReorganizeInventory` takes out. */
  function PulledCount(slots: seq<Slot>, t: ItemType): nat
    decreases |slots|
  {
    if |slots| == 0 then 0 else (if PulledOut(slots[0], t) then 1 else 0) + PulledCount(slots[1..], t)
  }

  /** Inventories that agree slot by slot on what is taken out take out
      equally many slots. */
  lemma {:induction false} PulledCountSame(a: seq<Slot>, b: seq<Slot>, t: ItemType)
    requires |a| == |b|
    requires forall i :: 0 <= i < |a| ==> (PulledOut(a[i], t) <==> PulledOut(b[i], t))
    ensures PulledCount(a, t) == PulledCount(b, t)
    decreases |a|
  {
    if |a| > 0 {
      assert PulledOut(a[0], t) <==> PulledOut(b[0], t);
      assert forall i :: 0 <= i < |a[1..]| ==> a[1..][i] == a[i + 1] && b[1..][i] == b[i + 1];
      PulledCountSame(a[1..], b[1..], t);
    }
  }

  /** The slots after the first loop, and the (item, quantity) pairs it
      recorded, in slot order. */
  datatype Pull = Pull(slots: seq<Slot>, stacks: seq<Stack>)

  function PullOut(slots: seq<Slot>, t: ItemType): (r: Pull)
    ensures |r.slots| == |slots|
    ensures forall i :: 0 <= i < |slots| ==> r.slots[i] == (if PulledOut(slots[i], t) then EmptySlot else slots[i])
    ensures forall k :: 0 <= k < |r.stacks| ==> r.stacks[k].item.itemType == t && r.stacks[k].count != 0
    decreases |slots|
  {
    if |slots| == 0 then Pull([], [])
    else
      var rest := PullOut(slots[1..], t);
      if PulledOut(slots[0], t) then
        var s := slots[0];
        Pull([SlotRemove(s, s.count).slot] + rest.slots, [Stack(s.item.value, s.count)] + rest.stacks)
      else
        Pull([slots[0]] + rest.slots, rest.stacks)
  }

  /** The first loop records one stack per slot it takes out. */
  lemma {:induction false} PullOutCount(slots: seq<Slot>, t: ItemType)
    ensures |PullOut(slots, t).stacks| == PulledCount(slots, t)
    decreases |slots|
  {
    if |slots| > 0 {
      PullOutCount(slots[1..], t);
    }
  }

  /** The inventory after re-adding every recorded pair, the accumulated
      ground drops and the notifications of the individual adds. */
  datatype Reinsertion = Reinsertion(inv: Inventory, dropped: seq<Stack>, notes: nat)

  function Reinsert(inv: Inventory, stacks: seq<Stack>): (r: Reinsertion)
    ensures |r.inv| == |inv|
    ensures r.notes == |stacks|
    decreases |stacks|
  {
    if |stacks| == 0 then Reinsertion(inv, [], 0)
    else
      var a := AddItem(inv, stacks[0].item, stacks[0].count);
      var rest := Reinsert(a.inv, stacks[1..]);
      Reinsertion(rest.inv, a.dropped + rest.dropped, a.notes + rest.notes)
  }

  datatype ReorgOutcome = ReorgOutcome(inv: Inventory, dropped: seq<Stack>, notes: nat)

  /** `ReorganizeInventory(t)`: take out every stack of category t, re-add
      each in encounter order, then fire one last notification. */
  function ReorganizeInventory(inv: Inventory, t: ItemType): (r: ReorgOutcome)
    ensures |r.inv| == |inv|
    // one notification per re-added stack plus the final one
    ensures r.notes == |PullOut(inv, t).stacks| + 1
  {
    var pulled := PullOut(inv, t);
    var back := Reinsert(pulled.slots, pulled.stacks);
    ReorgOutcome(back.inv, back.dropped, back.notes + 1)
  }

  /** Every item the slots hold is in the pool. */
  predicate Within(slots: seq<Slot>, pool: set<Item>)
  {
    forall i :: 0 <= i < |slots| && slots[i].item.Some? ==> slots[i].item.value in pool
  }

  predicate StacksWithin(stacks: seq<Stack>, pool: set<Item>)
  {
    forall k :: 0 <= k < |stacks| ==> stacks[k].item in pool
  }

  /** Within the pool, the selector cannot tell apart two items of one name. */
  predicate PoolAgrees(pool: set<Item>, sel: Selector)
  {
    forall a, b :: a in pool && b in pool && a.name == b.name ==> (Selects(sel, a) <==> Selects(sel, b))
  }

  /** The items the slots hold. */
  function ItemsIn(slots: seq<Slot>): (pool: set<Item>)
    ensures Within(slots, pool)
  {
    set i | 0 <= i < |slots| && slots[i].item.Some? :: slots[i].item.value
  }

  /** Within the inventory, the selector cannot tell apart two held items of
      one name (trivially so for `AnyItem` and `Named`; for `OfType(t)` it
      says that a name never spans two categories). */
  predicate NamesAgree(inv: Inventory, sel: Selector)
  {
    forall i, j :: 0 <= i < |inv| && 0 <= j < |inv| && inv[i].item.Some? && inv[j].item.Some?
      && inv[i].item.value.name == inv[j].item.value.name
      ==> (Selects(sel, inv[i].item.value) <==> Selects(sel, inv[j].item.value))
  }

  lemma {:induction false} PullOutUnits(slots: seq<Slot>, t: ItemType, sel: Selector)
    ensures Units(PullOut(slots, t).slots, sel) + StackUnits(PullOut(slots, t).stacks, sel) == Units(slots, sel)
    decreases |slots|
  {
    if |slots| > 0 {
      PullOutUnits(slots[1..], t, sel);
      var rest := PullOut(slots[1..], t);
      if PulledOut(slots[0], t) {
        UnitsCons(EmptySlot, rest.slots, sel);
        assert ([Stack(slots[0].item.value, slots[0].count)] + rest.stacks)[1..] == rest.stacks;
      } else {
        UnitsCons(slots[0], rest.slots, sel);
      }
    }
  }

  /** What reorganizing takes out, and what it leaves, comes from the slots;
      from non-negative slots it takes out only positive quantities. */
  lemma {:induction false} PullOutWithin(slots: seq<Slot>, t: ItemType, pool: set<Item>)
    requires Within(slots, pool)
    ensures Within(PullOut(slots, t).slots, pool)
    ensures StacksWithin(PullOut(slots, t).stacks, pool)
    ensures NonNegative(slots) ==> forall k :: 0 <= k < |PullOut(slots, t).stacks| ==> PullOut(slots, t).stacks[k].count > 0
    decreases |slots|
  {
    if |slots| > 0 {
      assert forall i :: 0 <= i < |slots[1..]| ==> slots[1..][i] == slots[i + 1];
      PullOutWithin(slots[1..], t, pool);
      var rest := PullOut(slots[1..], t);
      var r := PullOut(slots, t);
      if PulledOut(slots[0], t) {
        assert forall k :: 0 < k < |r.stacks| ==> r.stacks[k] == rest.stacks[k - 1];
      }
    }
  }

  lemma {:induction false} ReinsertUnits(inv: Inventory, stacks: seq<Stack>, sel: Selector, pool: set<Item>)
    requires Within(inv, pool) && StacksWithin(stacks, pool) && PoolAgrees(pool, sel)
    requires forall k :: 0 <= k < |stacks| ==> stacks[k].count >= 0
    ensures Units(Reinsert(inv, stacks).inv, sel) + StackUnits(Reinsert(inv, stacks).dropped, sel)
         == Units(inv, sel) + StackUnits(stacks, sel)
    decreases |stacks|
  {
    if |stacks| > 0 {
      var x := stacks[0].item;
      var a := AddItem(inv, x, stacks[0].count);
      AddItemUnits(inv, x, stacks[0].count, sel);
      assert Within(a.inv, pool);
      assert StacksWithin(stacks[1..], pool) by {
        assert forall k :: 0 <= k < |stacks[1..]| ==> stacks[1..][k] == stacks[k + 1];
      }
      ReinsertUnits(a.inv, stacks[1..], sel, pool);
      StackUnitsAppend(a.dropped, Reinsert(a.inv, stacks[1..]).dropped, sel);
    }
  }

  /** Conservation: whatever reorganizing takes out is either back in the
      slots or handed to the ground drop, counted over any selector that
      cannot tell apart two held items of one name. With `OfType(t)` this is
      the category total: category-t units in the slots plus the overflow
      equal the category-t units before. */
  lemma ReorganizeUnits(inv: Inventory, t: ItemType, sel: Selector)
    requires NonNegative(inv)
    requires NamesAgree(inv, sel)
    ensures Units(ReorganizeInventory(inv, t).inv, sel) + StackUnits(ReorganizeInventory(inv, t).dropped, sel)
         == Units(inv, sel)
  {
    var pool := ItemsIn(inv);
    assert PoolAgrees(pool, sel);
    PullOutUnits(inv, t, sel);
    PullOutWithin(inv, t, pool);
    var pulled := PullOut(inv, t);
    ReinsertUnits(pulled.slots, pulled.stacks, sel, pool);
  }

  /** Every recorded pair comes from a slot the first loop took out. */
  lemma {:induction false} PullOutFrom(slots: seq<Slot>, t: ItemType, pool: set<Item>)
    requires forall i :: 0 <= i < |slots| && PulledOut(slots[i], t) ==> slots[i].item.value in pool
    ensures StacksWithin(PullOut(slots, t).stacks, pool)
    decreases |slots|
  {
    if |slots| > 0 {
      assert forall i :: 0 <= i < |slots[1..]| ==> slots[1..][i] == slots[i + 1];
      PullOutFrom(slots[1..], t, pool);
      var rest := PullOut(slots[1..], t);
      var r := PullOut(slots, t);
      if PulledOut(slots[0], t) {
        assert forall k :: 0 < k < |r.stacks| ==> r.stacks[k] == rest.stacks[k - 1];
      }
    }
  }

  /** Re-adding never touches a held stack whose name none of the re-added
      stacks carries. */
  lemma {:induction false} ReinsertKeeps(inv: Inventory, stacks: seq<Stack>, i: nat)
    requires i < |inv| && !IsEmpty(inv[i])
    requires forall k :: 0 <= k < |stacks| ==> stacks[k].item.name != inv[i].item.value.name
    ensures Reinsert(inv, stacks).inv[i] == inv[i]
    decreases |stacks|
  {
    if |stacks| > 0 {
      var a := AddItem(inv, stacks[0].item, stacks[0].count);
      assert a.inv[i] == inv[i];
      assert forall k :: 0 <= k < |stacks[1..]| ==> stacks[1..][k] == stacks[k + 1];
      ReinsertKeeps(a.inv, stacks[1..], i);
    }
  }

  /** Re-adding hands to the ground drop only items of the re-added stacks'
      category. */
  lemma {:induction false} ReinsertDropsCategory(inv: Inventory, stacks: seq<Stack>, t: ItemType)
    requires forall k :: 0 <= k < |stacks| ==> stacks[k].item.itemType == t
    ensures forall k :: 0 <= k < |Reinsert(inv, stacks).dropped| ==> Reinsert(inv, stacks).dropped[k].item.itemType == t
    decreases |stacks|
  {
    if |stacks| > 0 {
      var a := AddItem(inv, stacks[0].item, stacks[0].count);
      assert forall k :: 0 <= k < |stacks[1..]| ==> stacks[1..][k] == stacks[k + 1];
      ReinsertDropsCategory(a.inv, stacks[1..], t);
      var rest := Reinsert(a.inv, stacks[1..]);
      assert forall k :: 0 <= k < |a.dropped + rest.dropped| ==>
        (a.dropped + rest.dropped)[k] == (if k < |a.dropped| then a.dropped[k] else rest.dropped[k - |a.dropped|]);
    }
  }

  /** Reorganizing a category leaves alone a held stack of another category
      whose name no taken-out stack carries. */
  lemma ReorganizeKeepsOthers(inv: Inventory, t: ItemType, i: nat)
    requires i < |inv| && !IsEmpty(inv[i]) && inv[i].item.value.itemType != t
    requires forall k :: 0 <= k < |inv| && PulledOut(inv[k], t) ==> inv[k].item.value.name != inv[i].item.value.name
    ensures ReorganizeInventory(inv, t).inv[i] == inv[i]
  {
    var pool := set k | 0 <= k < |inv| && PulledOut(inv[k], t) :: inv[k].item.value;
    PullOutFrom(inv, t, pool);
    var pulled := PullOut(inv, t);
    ReinsertKeeps(pulled.slots, pulled.stacks, i);
  }

  /** Only items of the reorganized category can overflow to the ground drop. */
  lemma ReorganizeDropsCategory(inv: Inventory, t: ItemType)
    ensures forall k :: 0 <= k < |ReorganizeInventory(inv, t).dropped| ==> ReorganizeInventory(inv, t).dropped[k].item.itemType == t
  {
    var pulled := PullOut(inv, t);
    ReinsertDropsCategory(pulled.slots, pulled.stacks, t);
  }

  /** Reorganizing re-establishes the stack bound for the category: if the
      slots are coherent, every stack of another category is within bounds
      and every held item allows at least one unit per slot, then afterwards
      every slot is valid again, whatever the category-t counts were. */
  lemma ReorganizeRestoresValid(inv: Inventory, t: ItemType)
    requires forall i :: 0 <= i < |inv| ==> Coherent(inv[i])
    requires forall i :: 0 <= i < |inv| && inv[i].item.Some? && inv[i].item.value.itemType != t ==> Valid(inv[i])
    requires forall i :: 0 <= i < |inv| && inv[i].item.Some? ==> inv[i].item.value.maxStack >= 1
    ensures AllValid(ReorganizeInventory(inv, t).inv)
  {
    var pool := set y | y in ItemsIn(inv) && y.maxStack >= 1;
    assert Within(inv, pool);
    PullOutWithin(inv, t, pool);
    var pulled := PullOut(inv, t);
    assert AllValid(pulled.slots);
    ReinsertValid(pulled.slots, pulled.stacks, pool);
  }

  lemma {:induction false} ReinsertValid(inv: Inventory, stacks: seq<Stack>, pool: set<Item>)
    requires AllValid(inv) && StacksWithin(stacks, pool)
    requires forall y :: y in pool ==> y.maxStack >= 1
    requires forall k :: 0 <= k < |stacks| ==> stacks[k].count > 0
    ensures AllValid(Reinsert(inv, stacks).inv)
    decreases |stacks|
  {
    if |stacks| > 0 {
      var a := AddItem(inv, stacks[0].item, stacks[0].count);
      AddItemValid(inv, stacks[0].item, stacks[0].count);
      assert StacksWithin(stacks[1..], pool) by {
        assert forall k :: 0 <= k < |stacks[1..]| ==> stacks[1..][k] == stacks[k + 1];
      }
      ReinsertValid(a.inv, stacks[1..], pool);
    }
  }
}
