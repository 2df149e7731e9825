/**
 * The character hooks the core relies on (Character.cs) and the use dispatch
 * of `Item.UseItem` with the potion strategy (Item/Item.cs,
 * Item/ItemUse/PotionUseData.cs).
 */
module Characters {
  import opened Wrappers
  import opened Mathf
  import opened Items
  import opened Equipment

  const InitialHealth: int := 20
  const MaxHealth: int := 100

  /** Only the health is state; the maximum is a constant that nothing writes. */
  datatype Character = Character(health: int)

  function NewCharacter(): (c: Character)
    ensures c.health == 20 && c.health <= MaxHealth
  {
    Character(InitialHealth)
  }

  /** `RestoreHealth(a)`: health becomes the smaller of health + a and the
      maximum. */
  function RestoreHealth(c: Character, amount: int): (r: Character)
    ensures r.health <= MaxHealth
    ensures r.health <= c.health + amount
    ensures r.health == MaxHealth || r.health == c.health + amount
    ensures amount >= 0 && c.health <= MaxHealth ==> r.health >= c.health
  {
    Character(Min(c.health + amount, MaxHealth))
  }

  /** `PotionUseData.Use`: hand the potion's heal amount to the character's
      `RestoreHealth`, so the health grows by that amount but not past the
      maximum. The item is not an output: using a potion does not change it
      or the inventory. */
  function PotionUseApply(healAmount: int, x: Item, c: Character): (r: Character)
    ensures r == RestoreHealth(c, healAmount)
    ensures r.health == (if c.health + healAmount <= MaxHealth then c.health + healAmount else MaxHealth)
    ensures healAmount >= 0 && c.health <= MaxHealth ==> c.health <= r.health <= MaxHealth
  {
    RestoreHealth(c, healAmount)
  }

  /** A strategy's effect on the character. The weapon and armor strategies
      only log in the source and leave the character as it is. */
  function ApplyStrategy(s: UseStrategy, x: Item, c: Character): (r: Character)
    ensures s.PotionUse? ==> r == PotionUseApply(s.healAmount, x, c)
    ensures !s.PotionUse? ==> r == c
  {
    match s
    case PotionUse(h) => PotionUseApply(h, x, c)
    case WeaponUse => c
    case ArmorUse => c
  }

  datatype UseOutcome = UseOutcome(hero: Character, used: bool)

  /** `Item.UseItem(c)`: with a strategy, apply it once and report use;
      without one, leave the character alone and report no use. */
  function UseItem(x: Item, c: Character): (r: UseOutcome)
    ensures r.used <==> x.strategy.Some?
    ensures x.strategy.None? ==> r.hero == c
    ensures x.strategy.Some? ==> r.hero == ApplyStrategy(x.strategy.value, x, c)
  {
    match x.strategy
    case None => UseOutcome(c, false)
    case Some(s) => UseOutcome(ApplyStrategy(s, x, c), true)
  }

  /** Using a potion of the default strength from full-or-less health heals
      by 20 up to the maximum, and never lowers health. */
  lemma DefaultPotionHeals(x: Item, c: Character)
    requires x.strategy == Some(NewPotionUse())
    requires c.health <= MaxHealth
    ensures UseItem(x, c).used
    ensures UseItem(x, c).hero.health == Min(c.health + 20, MaxHealth)
    ensures c.health <= UseItem(x, c).hero.health <= MaxHealth
  {
  }

  /** The visuals `UpdateModel` switches on and off. */
  datatype Visuals = Visuals(weaponActive: bool, armorActive: bool)

  /** `UpdateModel`: each visual is active exactly when its slot exists and
      is occupied. */
  function UpdateModel(e: EquipmentSet): (v: Visuals)
    ensures v.weaponActive <==> Occupied(e, Weapon)
    ensures v.armorActive <==> Occupied(e, Armor)
  {
    var w := GetEquipmentSlot(e, Weapon);
    var a := GetEquipmentSlot(e, Armor);
    Visuals(w.Some? && w.value.equipped.Some?, a.Some? && a.value.equipped.Some?)
  }

  /** The visuals follow the equipment operations: equipping an item turns
      on the visual of its category, unequipping a category turns it off,
      and the other category's visual is left as it was. */
  lemma VisualsFollowEquipment(e: EquipmentSet, x: Item, t: ItemType)
    requires WellFormed(e)
    ensures x.itemType == Weapon ==> UpdateModel(EquipItem(e, x).equipment).weaponActive
    ensures x.itemType == Armor ==> UpdateModel(EquipItem(e, x).equipment).armorActive
    ensures x.itemType != Weapon ==> UpdateModel(EquipItem(e, x).equipment).weaponActive == UpdateModel(e).weaponActive
    ensures x.itemType != Armor ==> UpdateModel(EquipItem(e, x).equipment).armorActive == UpdateModel(e).armorActive
    ensures t == Weapon ==> !UpdateModel(UnequipItem(e, t).equipment).weaponActive
    ensures t == Armor ==> !UpdateModel(UnequipItem(e, t).equipment).armorActive
    ensures t != Weapon ==> UpdateModel(UnequipItem(e, t).equipment).weaponActive == UpdateModel(e).weaponActive
    ensures t != Armor ==> UpdateModel(UnequipItem(e, t).equipment).armorActive == UpdateModel(e).armorActive
  {
  }
}
