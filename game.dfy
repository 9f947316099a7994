/** The gameplay objects that change in place: items (UItem and its food and
    equippable kinds), the inventory component, the survival character and
    its weapon. They refer to one another, so they share one module. The
    source's server authority check is taken to hold throughout. */
module Game {
  import opened MathUtil
  import opened ItemAddResults
  import opened Stacks
  import WeaponRules

  function InvSet(i: Inventory?): set<Inventory>
  {
    if i == null then {} else {i}
  }

  function CharSet(c: Character?): set<Character>
  {
    if c == null then {} else {c}
  }

  function ItemSet(i: Item?): set<Item>
  {
    if i == null then {} else {i}
  }

  /** The inventory an item (if any) marks dirty. */
  function OwningInvOf(i: Item?): set<Inventory>
    reads ItemSet(i)
  {
    if i == null then {} else InvSet(i.owningInventory)
  }

  /** The player inventory of a character (if any). */
  function PlayerInvOf(c: Character?): set<Inventory>
  {
    if c == null then {} else {c.playerInventory}
  }

  /** The slot map after an item takes its slot (TMap::Add replaces). */
  function Equipped(m: map<Slot, Item>, item: Item): (r: map<Slot, Item>)
    requires item.cls.kind.Equippable?
    ensures item.cls.kind.slot in r && r[item.cls.kind.slot] == item
    ensures forall s :: s != item.cls.kind.slot ==> (s in r <==> s in m) && (s in m ==> r[s] == m[s])
  {
    m[item.cls.kind.slot := item]
  }

  /** Whether the item is the one occupying its slot. */
  predicate Occupies(m: map<Slot, Item>, item: Item)
  {
    item.cls.kind.Equippable? && item.cls.kind.slot in m && m[item.cls.kind.slot] == item
  }

  /** The slot map after an item leaves its slot: only the occupant itself can
      leave, anything else leaves the map as it was. */
  function Unequipped(m: map<Slot, Item>, item: Item): (r: map<Slot, Item>)
    ensures Occupies(m, item) ==> r.Keys == m.Keys - {item.cls.kind.slot}
    ensures !Occupies(m, item) ==> r == m
    ensures forall s :: s in r ==> s in m && r[s] == m[s]
  {
    if Occupies(m, item) then m - {item.cls.kind.slot} else m
  }

  /** Equipping into a free slot and then unequipping the same item restores
      the map; equipping again after leaving gives the same map as equipping
      once. */
  lemma EquipRoundTrip(m: map<Slot, Item>, item: Item)
    requires item.cls.kind.Equippable?
    ensures item.cls.kind.slot !in m ==> Unequipped(Equipped(m, item), item) == m
    ensures Equipped(Unequipped(m, item), item) == Equipped(m, item)
  {
    var s := item.cls.kind.slot;
    if s !in m {
      assert Unequipped(Equipped(m, item), item).Keys == m.Keys;
    }
    assert Equipped(Unequipped(m, item), item).Keys == Equipped(m, item).Keys;
  }

  /** The (class, quantity) stacks a list of items holds. */
  ghost function StacksOf(s: seq<Item>): (cs: seq<Stack>)
    reads s
    ensures |cs| == |s|
    ensures forall i :: 0 <= i < |s| ==> cs[i] == Stack(s[i].cls, s[i].quantity)
  {
    seq(|s|, i requires 0 <= i < |s| reads s => Stack(s[i].cls, s[i].quantity))
  }

  /** The stacks of a list are determined by its items' classes and
      quantities. */
  lemma StacksPointwise(s: seq<Item>, cs: seq<Stack>)
    requires |cs| == |s|
    requires forall i :: 0 <= i < |s| ==> cs[i] == Stack(s[i].cls, s[i].quantity)
    ensures StacksOf(s) == cs
  {
  }

  /** Dropping the k-th item drops the k-th stack. */
  lemma StacksAfterRemove(r: seq<Item>, olds: seq<Item>, k: nat)
    requires k < |olds| && r == olds[..k] + olds[k + 1..]
    ensures StacksOf(r) == RemoveAt(StacksOf(olds), k)
  {
    var a := StacksOf(r);
    var b := RemoveAt(StacksOf(olds), k);
    forall i | 0 <= i < |a| ensures a[i] == b[i] {
      if i < k {
        assert r[i] == olds[i];
      } else {
        assert r[i] == olds[i + 1];
      }
    }
  }

  /** Items that record the inventory as their owner still do after one of
      them is dropped. */
  lemma OwnersAfterRemove(inv: Inventory, olds: seq<Item>, k: nat)
    requires k < |olds|
    requires forall i :: 0 <= i < |olds| ==> olds[i].owningInventory == inv
    requires inv.items == olds[..k] + olds[k + 1..]
    ensures forall i :: 0 <= i < |inv.items| ==> inv.items[i].owningInventory == inv
  {
    var r := inv.items;
    assert forall i :: 0 <= i < |r| ==> r[i] == if i < k then olds[i] else olds[i + 1];
  }

  /** After the k-th item is dropped the inventory is still owned, holds the
      old stacks less the k-th, and is valid when it was. */
  lemma OwnedAfterRemove(inv: Inventory, olds: seq<Item>, before: seq<Stack>, k: nat)
    requires k < |olds| && NoDuplicates(inv.items)
    requires forall i :: 0 <= i < |olds| ==> olds[i].owningInventory == inv
    requires |before| == |olds| && forall i :: 0 <= i < |olds| ==> before[i] == Stack(olds[i].cls, olds[i].quantity)
    requires QuantitiesInRange(before)
    requires inv.items == olds[..k] + olds[k + 1..]
    ensures inv.Owned()
    ensures inv.Contents() == RemoveAt(before, k)
    ensures OneStackPerStackableClass(before) ==> inv.Valid()
  {
    StacksPointwise(olds, before);
    OwnersAfterRemove(inv, olds, k);
    StacksAfterRemove(inv.items, olds, k);
    RemoveAtKeepsInvariants(before, k);
  }

  /** An inventory whose list is duplicate-free, whose items all record it as
      their owner and whose stacks are cs is owned, and valid when cs keeps
      one stack per stackable class. */
  lemma ValidFromStacks(inv: Inventory, cs: seq<Stack>)
    requires NoDuplicates(inv.items)
    requires forall i :: 0 <= i < |inv.items| ==> inv.items[i].owningInventory == inv
    requires |cs| == |inv.items| && forall i :: 0 <= i < |cs| ==> cs[i] == Stack(inv.items[i].cls, inv.items[i].quantity)
    requires QuantitiesInRange(cs)
    ensures inv.Contents() == cs && inv.Owned()
    ensures OneStackPerStackableClass(cs) ==> inv.Valid()
  {
    StacksPointwise(inv.items, cs);
  }

  /** The inventory after the k-th item's quantity changed to that of s,
      with every other item as it was. */
  lemma ValidAfterUpdate(inv: Inventory, before: seq<Stack>, k: nat, s: Stack)
    requires NoDuplicates(inv.items)
    requires forall i :: 0 <= i < |inv.items| ==> inv.items[i].owningInventory == inv
    requires k < |before| == |inv.items|
    requires forall i :: 0 <= i < |before| && i != k ==> before[i] == Stack(inv.items[i].cls, inv.items[i].quantity)
    requires s == Stack(inv.items[k].cls, inv.items[k].quantity)
    requires QuantitiesInRange(before[k := s])
    ensures inv.Contents() == before[k := s]
    ensures inv.Owned()
    ensures OneStackPerStackableClass(before[k := s]) ==> inv.Valid()
  {
    StacksPointwise(inv.items, before[k := s]);
  }

  /** After one new item joins the end of the list the inventory is still
      owned and holds the old stacks plus the new item's. */
  lemma OwnedAfterAppend(inv: Inventory, olds: seq<Item>, before: seq<Stack>, newItem: Item)
    requires NoDuplicates(olds) && newItem !in olds
    requires forall i :: 0 <= i < |olds| ==> olds[i].owningInventory == inv
    requires |before| == |olds| && forall i :: 0 <= i < |olds| ==> before[i] == Stack(olds[i].cls, olds[i].quantity)
    requires QuantitiesInRange(before) && 0 <= newItem.quantity <= newItem.cls.maxStackSize
    requires newItem.owningInventory == inv && inv.items == olds + [newItem]
    ensures inv.Owned()
    ensures inv.Contents() == before + [Stack(newItem.cls, newItem.quantity)]
  {
    StacksPointwise(inv.items, before + [Stack(newItem.cls, newItem.quantity)]);
  }

  /** An inventory none of whose state changed is as valid as before and
      holds the same stacks. */
  twostate lemma UntouchedInventory(inv: Inventory)
    requires old(inv.Valid())
    requires unchanged(inv`items)
    requires forall i :: 0 <= i < |old(inv.items)| ==> unchanged(old(inv.items)[i])
    ensures inv.Valid() && inv.items == old(inv.items) && inv.Contents() == old(inv.Contents())
  {
    StacksPointwise(inv.items, old(inv.Contents()));
  }

  /** The inventory after its list became RemoveSingle of the old list, in
      terms of the old list and the stacks it held. */
  lemma OwnedAfterRemoveSingle(inv: Inventory, olds: seq<Item>, before: seq<Stack>, item: Item)
    requires NoDuplicates(olds)
    requires forall i :: 0 <= i < |olds| ==> olds[i].owningInventory == inv
    requires |before| == |olds| && forall i :: 0 <= i < |olds| ==> before[i] == Stack(olds[i].cls, olds[i].quantity)
    requires QuantitiesInRange(before)
    requires inv.items == RemoveSingle(olds, item)
    ensures inv.Owned()
    ensures item in olds ==> inv.Contents() == RemoveAt(before, IndexOf(olds, item))
    ensures item !in olds ==> inv.Contents() == before
    ensures OneStackPerStackableClass(before) ==> inv.Valid()
  {
    if item in olds {
      var k := IndexOf(olds, item);
      RemoveSingleUnique(olds, item, k);
      OwnedAfterRemove(inv, olds, before, k);
    } else {
      StacksPointwise(olds, before);
    }
  }

  /** Whether an item added to the inventory equips itself: it is equippable,
      the inventory belongs to a character that is not looting, and that
      character's slot is free. */
  ghost predicate AutoEquips(cls: ItemClass, owner: Character?)
    reads CharSet(owner)
  {
    cls.kind.Equippable? && owner != null && owner.lootSource == null && cls.kind.slot !in owner.equippedItems
  }

  // =====================================================================

  /** UItem, with the equippable (UEquippableItem) and food (UFoodItem)
      behaviour selected by the item's class. */
  class Item {
    const cls: ItemClass
    /** The character the item was created inside, or null when its outer is
        not a character. */
    const outer: Character?
    var quantity: int
    var repKey: int
    var owningInventory: Inventory?
    var equipped: bool

    ghost predicate Valid()
      reads this
    {
      0 <= quantity <= cls.maxStackSize
    }

    /** UItem's defaults: quantity 1, replication key 0; an equippable starts
        unequipped. */
    constructor (cls: ItemClass, outer: Character?)
      ensures this.cls == cls && this.outer == outer
      ensures quantity == 1 && repKey == 0 && owningInventory == null && !equipped
      ensures Valid()
    {
      this.cls := cls;
      this.outer := outer;
      quantity := 1;
      repKey := 0;
      owningInventory := null;
      equipped := false;
    }

    /** Bumps the item's key and, when it has one, its inventory's key. */
    method MarkDirtyForReplication()
      modifies this`repKey, InvSet(owningInventory)`replicatedItemKey
      ensures repKey == old(repKey) + 1
      ensures owningInventory != null ==>
        owningInventory.replicatedItemKey == old(owningInventory.replicatedItemKey) + 1
    {
      repKey := repKey + 1;
      if owningInventory != null {
        owningInventory.replicatedItemKey := owningInventory.replicatedItemKey + 1;
      }
    }

    /** A request equal to the quantity changes nothing, not even the key; any
        other request clamps to [0, MaxStackSize] and marks the item dirty
        exactly once, even when clamping lands on the old value. */
    method SetQuantity(newQuantity: int)
      modifies this`quantity, this`repKey, InvSet(owningInventory)`replicatedItemKey
      ensures quantity == QuantityAfterSet(old(quantity), newQuantity, cls.maxStackSize)
      ensures newQuantity != old(quantity) ==> Valid()
      ensures old(Valid()) ==> Valid()
      ensures repKey == old(repKey) + (if newQuantity != old(quantity) then 1 else 0)
      ensures owningInventory != null ==>
        owningInventory.replicatedItemKey == old(owningInventory.replicatedItemKey) + (if newQuantity != old(quantity) then 1 else 0)
    {
      if newQuantity != quantity {
        quantity := Clamp(newQuantity, 0, cls.maxStackSize);
        MarkDirtyForReplication();
      }
    }

    /** The editor's quantity clamp: [1, MaxStackSize] for a stackable class,
        exactly 1 otherwise. */
    method PostEditQuantity()
      modifies this`quantity
      ensures 1 <= quantity <= (if cls.stackable then cls.maxStackSize else 1)
      ensures 1 <= old(quantity) <= (if cls.stackable then cls.maxStackSize else 1) ==> quantity == old(quantity)
      ensures Valid()
    {
      quantity := Clamp(quantity, 1, if cls.stackable then cls.maxStackSize else 1);
    }

    /** UItem shows always; an equippable hides while equipped. */
    function ShouldShowInInventory(): (show: bool)
      reads this
      ensures cls.kind.Equippable? ==> (show <==> !equipped)
      ensures !cls.kind.Equippable? ==> show
    {
      if cls.kind.Equippable? then !equipped else true
    }

    /** UEquippableItem::Equip: false for a null character, otherwise the
        character takes the item into its slot. */
    method Equip(character: Character?) returns (ok: bool)
      requires cls.kind.Equippable?
      modifies CharSet(character)`equippedItems
      ensures ok == (character != null)
      ensures character != null ==> character.equippedItems == Equipped(old(character.equippedItems), this)
    {
      ok := false;
      if character != null {
        ok := character.EquipItem(this);
      }
    }

    /** UEquippableItem::UnEquip: false for a null character, otherwise the
        character's answer. */
    method UnEquip(character: Character?) returns (ok: bool)
      requires cls.kind.Equippable?
      modifies CharSet(character)`equippedItems
      ensures ok == (character != null && Occupies(old(character.equippedItems), this))
      ensures character != null ==> character.equippedItems == Unequipped(old(character.equippedItems), this)
    {
      ok := false;
      if character != null {
        ok := character.UnEquipItem(this);
      }
    }

    /** Equips into or unequips from the character the item lives in. */
    method EquipStatusChanged()
      requires cls.kind.Equippable?
      modifies CharSet(outer)`equippedItems
      ensures outer != null ==>
        outer.equippedItems == if equipped then Equipped(old(outer.equippedItems), this) else Unequipped(old(outer.equippedItems), this)
    {
      if outer != null {
        if equipped {
          var _ := Equip(outer);
        } else {
          var _ := UnEquip(outer);
        }
      }
    }

    /** Stores the flag, updates the outer character's slots and marks the
        item dirty. */
    method SetEquipped(newEquipped: bool)
      requires cls.kind.Equippable?
      modifies this`equipped, this`repKey, InvSet(owningInventory)`replicatedItemKey, CharSet(outer)`equippedItems
      ensures equipped == newEquipped
      ensures repKey == old(repKey) + 1
      ensures owningInventory != null ==>
        owningInventory.replicatedItemKey == old(owningInventory.replicatedItemKey) + 1
      ensures outer != null ==>
        outer.equippedItems == if newEquipped then Equipped(old(outer.equippedItems), this) else Unequipped(old(outer.equippedItems), this)
    {
      equipped := newEquipped;
      EquipStatusChanged();
      MarkDirtyForReplication();
    }

    /** UItem::AddedToInventory does nothing; an equippable equips itself when
        AutoEquips holds for the inventory's owner. */
    method AddedToInventory(inventory: Inventory)
      modifies this`equipped, this`repKey, InvSet(owningInventory)`replicatedItemKey, CharSet(outer)`equippedItems
      ensures var auto := old(AutoEquips(cls, inventory.owner));
        && equipped == (auto || old(equipped))
        && repKey == old(repKey) + (if auto then 1 else 0)
        && (owningInventory != null ==>
              owningInventory.replicatedItemKey == old(owningInventory.replicatedItemKey) + (if auto then 1 else 0))
        && (outer != null ==>
              outer.equippedItems == if auto then Equipped(old(outer.equippedItems), this) else old(outer.equippedItems))
    {
      if cls.kind.Equippable? {
        var character := inventory.owner;
        if character != null && character.lootSource == null {
          if cls.kind.slot !in character.equippedItems {
            SetEquipped(true);
          }
        }
      }
    }

    /** The item currently in this item's slot of the character, if any. */
    function OccupantOf(character: Character?): set<Item>
      reads CharSet(character)
    {
      if character != null && cls.kind.Equippable? && cls.kind.slot in character.equippedItems
      then {character.equippedItems[cls.kind.slot]} else {}
    }

    /** UEquippableItem::Use: toggles the item. Before equipping, whatever
        occupies the slot is unequipped first. A null character changes
        nothing. */
    method UseEquippable(character: Character?)
      requires cls.kind.Equippable?
      requires character != null ==> character.EquipmentConsistent()
      modifies this`equipped, this`repKey, InvSet(owningInventory)`replicatedItemKey, CharSet(outer)`equippedItems
      modifies OccupantOf(character)`equipped, OccupantOf(character)`repKey
      modifies set o | o in OccupantOf(character) && o.owningInventory != null :: o.owningInventory`replicatedItemKey
      modifies set o | o in OccupantOf(character) && o.outer != null :: o.outer`equippedItems
      ensures character == null ==> equipped == old(equipped) && repKey == old(repKey)
      ensures character != null ==> equipped == !old(equipped)
      ensures character != null ==>
        repKey == old(repKey) + 1 + (if !old(equipped) && this in old(OccupantOf(character)) then 1 else 0)
      ensures character != null && !old(equipped) ==>
        forall o :: o in old(OccupantOf(character)) && o != this ==> !o.equipped
      ensures character != null && outer == character ==>
        character.equippedItems ==
          (if old(equipped) then Unequipped(old(character.equippedItems), this)
           else Equipped(old(character.equippedItems), this))
    {
      if character != null {
        ghost var before := character.equippedItems;
        var slot := cls.kind.slot;
        if slot in character.equippedItems && !equipped {
          var already := character.equippedItems[slot];
          already.SetEquipped(false);
          assert character.equippedItems.Keys <= before.Keys;
        }
        ghost var mid := character.equippedItems;
        SetEquipped(!equipped);
        if outer == character && !old(equipped) {
          assert character.equippedItems.Keys == before[slot := this].Keys;
        }
      }
    }

    /** UFoodItem::Use: heals the character by the class's heal amount, and
        when the heal changed health consumes one unit from the character's
        inventory. A null character changes nothing. */
    method UseFood(character: Character?)
      requires cls.kind.Food?
      requires character != null ==> character.playerInventory.Owned()
      modifies CharSet(character)`health
      modifies this`quantity, this`repKey, InvSet(owningInventory)`replicatedItemKey
      modifies PlayerInvOf(character)`items, PlayerInvOf(character)`replicatedItemKey
      ensures character == null ==> quantity == old(quantity)
      ensures character != null ==> character.playerInventory.Owned()
      ensures character != null ==>
        character.health == ClampReal(old(character.health) + cls.kind.healAmount, 0.0, character.maxHealth)
      ensures character != null && character.health == old(character.health) ==>
        quantity == old(quantity) && character.playerInventory.items == old(character.playerInventory.items)
      ensures character != null && character.health != old(character.health) ==>
        && quantity == QuantityAfterConsume(old(quantity), 1, cls.maxStackSize)
        && (this in old(character.playerInventory.items) ==>
              character.playerInventory.Contents() == AfterConsume(old(character.playerInventory.Contents()),
                IndexOf(old(character.playerInventory.items), this), 1))
    {
      if character != null {
        var healed := character.ModifyHealth(cls.kind.healAmount);
        var usedFood := healed != 0.0;
        if usedFood {
          var _ := character.playerInventory.ConsumeItem(this, 1);
        }
      }
    }
  }

  // =====================================================================

  /** UInventoryComponent: a list of item objects with an entry capacity and a
      weight capacity. */
  class Inventory {
    var items: seq<Item>
    var capacity: int
    var weightCapacity: real
    var replicatedItemKey: int
    /** The owning actor when it is a character, null otherwise. */
    var owner: Character?

    /** The stacks the inventory holds, in order. */
    ghost function Contents(): (cs: seq<Stack>)
      reads this`items, items
      ensures |cs| == |items|
      ensures forall i :: 0 <= i < |items| ==> cs[i] == Stack(items[i].cls, items[i].quantity)
    {
      StacksOf(items)
    }

    /** Each item is listed once, records this inventory as its owner, and
        has its quantity within range. */
    ghost predicate Owned()
      reads this`items, items
    {
      && NoDuplicates(items)
      && (forall i :: 0 <= i < |items| ==> items[i].owningInventory == this)
      && QuantitiesInRange(Contents())
    }

    /** Owned, and a stackable class occupies at most one entry. */
    ghost predicate Valid()
      reads this`items, items
    {
      Owned() && OneStackPerStackableClass(Contents())
    }

    constructor ()
      ensures items == [] && capacity == 0 && weightCapacity == 0.0 && replicatedItemKey == 0 && owner == null
      ensures Valid()
    {
      items := [];
      capacity := 0;
      weightCapacity := 0.0;
      replicatedItemKey := 0;
      owner := null;
    }

    /** The number of entries the inventory may hold. */
    function GetCapacity(): (n: int)
      reads this
      ensures n == capacity
    {
      capacity
    }

    /** The total weight the inventory may hold. */
    function GetWeightCapacity(): (w: real)
      reads this
      ensures w == weightCapacity
    {
      weightCapacity
    }

    /** The capacity reads back as stored; nothing else changes. */
    method SetCapacity(newCapacity: int)
      modifies this`capacity
      ensures GetCapacity() == newCapacity
    {
      capacity := newCapacity;
    }

    /** The weight capacity reads back as stored; nothing else changes. */
    method SetWeightCapacity(newWeightCapacity: real)
      modifies this`weightCapacity
      ensures GetWeightCapacity() == newWeightCapacity
    {
      weightCapacity := newWeightCapacity;
    }

    /** The first item of the class, or null. */
    method FindItemByClass(cls: ItemClass) returns (found: Item?)
      ensures var k := FirstOfClass(Contents(), cls);
        found == if k < 0 then null else items[k]
      ensures found != null ==> found in items && found.cls == cls
    {
      var i := 0;
      while i < |items|
        invariant 0 <= i <= |items|
        invariant forall j :: 0 <= j < i ==> items[j].cls != cls
      {
        if items[i].cls == cls {
          return items[i];
        }
        i := i + 1;
      }
      return null;
    }

    /** The first item of the same class as the given one, or null (also for
        a null item). */
    method FindItem(item: Item?) returns (found: Item?)
      ensures item == null ==> found == null
      ensures item != null ==> var k := FirstOfClass(Contents(), item.cls);
        found == if k < 0 then null else items[k]
    {
      found := null;
      if item != null {
        found := FindItemByClass(item.cls);
      }
    }

    /** Whether the first stack of the class holds at least the quantity. */
    ghost predicate Holds(cls: ItemClass, quantity: int)
      reads this`items, items
    {
      0 <= FirstOfClass(Contents(), cls) && QuantityOfFirst(Contents(), cls) >= quantity
    }

    /** Where an add of the amount of the class goes, by Place. */
    ghost function PlacementOf(cls: ItemClass, amount: int): Placement
      reads this`items, items, this`capacity, this`weightCapacity
    {
      Place(Contents(), capacity, weightCapacity, cls, amount)
    }

    /** The stacks after an add of the amount of the class, by PlacedContents. */
    ghost function PlacedOf(cls: ItemClass, amount: int): seq<Stack>
      reads this`items, items, this`capacity, this`weightCapacity
    {
      PlaceIsPlacement(Contents(), capacity, weightCapacity, cls, amount);
      PlacedContents(Contents(), cls, amount, PlacementOf(cls, amount))
    }

    /** What an add of the amount of the class reports, by PlacedResult. */
    ghost function ResultOf(cls: ItemClass, amount: int): ItemAddResult
      reads this`items, items, this`capacity, this`weightCapacity
    {
      PlacedResult(amount, PlacementOf(cls, amount))
    }

    /** Where TryAddItem puts the item. */
    ghost function PlacementFor(item: Item): Placement
      reads this`items, items, this`capacity, this`weightCapacity, item`quantity
    {
      PlacementOf(item.cls, item.quantity)
    }

    /** The stacks after TryAddItem of the item. */
    ghost function PlacedFor(item: Item): seq<Stack>
      reads this`items, items, this`capacity, this`weightCapacity, item`quantity
    {
      PlacedOf(item.cls, item.quantity)
    }

    /** What TryAddItem of the item reports. */
    ghost function ResultFor(item: Item): ItemAddResult
      reads this`items, items, this`capacity, this`weightCapacity, item`quantity
    {
      ResultOf(item.cls, item.quantity)
    }

    /** The amount TryAddItem of the item reports as given. */
    ghost function GivenFor(item: Item): int
      reads this`items, items, this`capacity, this`weightCapacity, item`quantity
    {
      ResultFor(item).actualAmountGiven
    }

    /** How often TryAddItem of the item marks the inventory dirty: never
        when refused, once for a merge, once for a new entry and once more
        when that entry equips itself. */
    ghost function DirtyCountFor(item: Item): int
      reads this`items, items, this`capacity, this`weightCapacity, item`quantity, this`owner, CharSet(owner)
    {
      match PlacementFor(item)
      case Refused(_) => 0
      case MergeInto(_, _, _) => 1
      case Append => 1 + (if AutoEquips(item.cls, owner) then 1 else 0)
    }

    /** Whether the first item of the class holds at least the quantity. */
    method HasItem(cls: ItemClass, quantity: int) returns (b: bool)
      ensures b <==> Holds(cls, quantity)
    {
      var found := FindItemByClass(cls);
      b := found != null && found.quantity >= quantity;
    }

    /** The carried weight: the sum of quantity times unit weight. */
    method GetCurrentWeight() returns (weight: real)
      ensures weight == TotalWeight(Contents())
    {
      weight := 0.0;
      var i := 0;
      while i < |items|
        invariant 0 <= i <= |items|
        invariant weight == TotalWeight(Contents()[..i])
      {
        assert Contents()[..i + 1][..i] == Contents()[..i];
        weight := weight + items[i].quantity as real * items[i].cls.weight;
        i := i + 1;
      }
      assert Contents()[..|items|] == Contents();
    }

    /** Removes the first occurrence of the item and marks the list dirty;
        false only for a null item. */
    method RemoveItem(item: Item?) returns (ok: bool)
      requires Owned()
      modifies this`items, this`replicatedItemKey
      ensures Owned() && (old(Valid()) ==> Valid())
      ensures ok == (item != null)
      ensures item == null ==> items == old(items) && replicatedItemKey == old(replicatedItemKey)
      ensures item != null ==> items == RemoveSingle<Item>(old(items), item) && replicatedItemKey == old(replicatedItemKey) + 1
      ensures item != null && item in old(items) ==>
        Contents() == RemoveAt(old(Contents()), IndexOf(old(items), item))
      ensures item != null && item !in old(items) ==> items == old(items)
    {
      if item == null {
        return false;
      }
      ghost var olds := items;
      ghost var before := Contents();
      var it: Item := item;
      items := RemoveSingle(items, it);
      replicatedItemKey := replicatedItemKey + 1;
      OwnedAfterRemoveSingle(this, olds, before, it);
      ok := true;
    }

    /** ConsumeItem(Item, Quantity): takes min(Quantity, the item's quantity)
        through SetQuantity and drops the item once nothing is left. A null
        item is ignored. The item need not be listed here. */
    method ConsumeItem(item: Item?, quantity: int) returns (removed: int)
      requires Owned()
      modifies this`items, this`replicatedItemKey
      modifies ItemSet(item)`quantity, ItemSet(item)`repKey, OwningInvOf(item)`replicatedItemKey
      ensures Owned() && (old(Valid()) ==> Valid())
      ensures item == null ==> removed == 0 && items == old(items) && replicatedItemKey == old(replicatedItemKey)
      ensures item != null ==> removed == ConsumedAmount(old(item.quantity), quantity)
      ensures item != null ==> item.quantity == QuantityAfterConsume(old(item.quantity), quantity, item.cls.maxStackSize)
      ensures item != null && item in old(items) ==>
        Contents() == AfterConsume(old(Contents()), IndexOf(old(items), item), quantity)
      ensures item != null && item !in old(items) ==> items == old(items)
      ensures item != null && item in old(items) ==>
        items == if item.quantity <= 0 then RemoveSingle<Item>(old(items), item) else old(items)
      ensures item != null && item in old(items) ==>
        replicatedItemKey == old(replicatedItemKey) + (if ConsumedAmount(old(item.quantity), quantity) != 0 then 1 else 0) + (if item.quantity <= 0 then 1 else 0)
    {
      if item == null {
        return 0;
      }
      ghost var inList := item in items;
      ghost var k := if inList then IndexOf(items, item) else 0;
      ghost var before := Contents();
      removed := TakeFrom(item, quantity);
      ghost var s := Stack(item.cls, item.quantity);
      if item.quantity <= 0 {
        var _ := RemoveItem(item);
        assert Stack(item.cls, item.quantity) == s;
        if inList {
          RemoveAtUpdate(before, k, s);
          assert Contents() == AfterConsume(before, k, quantity);
        }
      } else if inList {
        assert Contents() == AfterConsume(before, k, quantity);
      }
    }

    /** The first step of ConsumeItem: min(Quantity, the item's quantity)
        is taken through SetQuantity. When the item is listed its entry now
        holds the new quantity; the list itself is not changed. */
    method TakeFrom(item: Item, quantity: int) returns (removed: int)
      requires Owned()
      modifies item`quantity, item`repKey, InvSet(item.owningInventory)`replicatedItemKey
      ensures Owned() && items == old(items)
      ensures removed == ConsumedAmount(old(item.quantity), quantity)
      ensures item.quantity == QuantityAfterConsume(old(item.quantity), quantity, item.cls.maxStackSize)
      ensures item in items ==>
        Contents() == old(Contents())[IndexOf(items, item) := Stack(item.cls, item.quantity)]
      ensures item in items ==>
        QuantitiesInRange(old(Contents())[IndexOf(items, item) := Stack(item.cls, item.quantity)])
      ensures item in items && old(Valid()) ==> Valid()
      ensures item !in items ==> Contents() == old(Contents())
      ensures item in items ==>
        replicatedItemKey == old(replicatedItemKey) + (if removed != 0 then 1 else 0)
      ensures item !in items && item.owningInventory != this ==> replicatedItemKey == old(replicatedItemKey)
    {
      ghost var before := Contents();
      removed := Min(quantity, item.quantity);
      item.SetQuantity(item.quantity - removed);
      if item in items {
        var k := IndexOf(items, item);
        ghost var s := Stack(item.cls, item.quantity);
        ValidAfterUpdate(this, before, k, s);
      } else {
        ValidFromStacks(this, before);
      }
    }

    /** The one-argument ConsumeItem: consumes the whole stack of a non-null
        item, and always returns 0. */
    method ConsumeAll(item: Item?) returns (r: int)
      requires Owned()
      modifies this`items, this`replicatedItemKey
      modifies ItemSet(item)`quantity, ItemSet(item)`repKey, OwningInvOf(item)`replicatedItemKey
      ensures r == 0
      ensures Owned() && (old(Valid()) ==> Valid())
      ensures item != null && item in old(items) ==>
        Contents() == AfterConsume(old(Contents()), IndexOf(old(items), item), old(item.quantity))
      ensures item != null && item in old(items) ==> |items| == |old(items)| - 1 && item !in items
    {
      if item != null {
        ghost var k := if item in items then IndexOf(items, item) else 0;
        ghost var q := item.quantity;
        var _ := ConsumeItem(item, item.quantity);
        if item in old(items) {
          assert ConsumedAmount(q, q) == q;
          assert QuantityAfterSet(q, 0, item.cls.maxStackSize) == 0;
          assert item.quantity == 0;
          assert items == RemoveSingle<Item>(old(items), item);
          RemoveSingleUnique<Item>(old(items), item, k);
        }
      }
      return 0;
    }

    /** AddItem: a fresh item of the same class (owned by the inventory's
        owner) takes the incoming quantity through SetQuantity, joins the
        list, is told it was added, and is marked dirty. */
    method AddItem(item: Item) returns (newItem: Item)
      requires Owned()
      modifies this`items, this`replicatedItemKey, CharSet(owner)`equippedItems
      ensures Owned()
      ensures fresh(newItem) && items == old(items) + [newItem]
      ensures newItem.cls == item.cls && newItem.outer == owner && newItem.owningInventory == this
      ensures newItem.quantity == QuantityAfterSet(1, item.quantity, item.cls.maxStackSize)
      ensures Contents() == old(Contents()) + [Stack(item.cls, newItem.quantity)]
      ensures newItem.equipped == old(AutoEquips(item.cls, owner))
      ensures replicatedItemKey == old(replicatedItemKey) + 1 + (if old(AutoEquips(item.cls, owner)) then 1 else 0)
      ensures owner != null ==>
        owner.equippedItems == if old(AutoEquips(item.cls, owner)) then Equipped(old(owner.equippedItems), newItem) else old(owner.equippedItems)
    {
      ghost var olds := items;
      ghost var before := Contents();
      newItem := new Item(item.cls, owner);
      newItem.SetQuantity(item.quantity);
      newItem.owningInventory := this;
      newItem.AddedToInventory(this);
      items := items + [newItem];
      newItem.MarkDirtyForReplication();
      OwnedAfterAppend(this, olds, before, newItem);
    }

    /** The amount the existing-stack branch of TryAddItem_Internal may add:
        the room left in the stack, cut to what the remaining weight capacity
        allows for a weighted class, with the error text a partial merge
        reports. */
    method MergeLimit(existing: Item, item: Item) returns (n: int, errorText: AddError)
      requires existing.cls == item.cls
      ensures n == MergeAmount(Contents(), weightCapacity, item.cls, existing.quantity, item.quantity)
      ensures n <= item.quantity && n <= existing.cls.maxStackSize - existing.quantity
      ensures n < item.quantity ==> errorText == (if item.cls.weight != 0.0 then StackTooHeavy else StackNoRoom)
    {
      var addAmount := item.quantity;
      var capacityMaxAddAmount := existing.cls.maxStackSize - existing.quantity;
      var actualAddAmount := Min(addAmount, capacityMaxAddAmount);
      errorText := CouldNotAddAll;
      if item.cls.weight != 0.0 {
        var current := GetCurrentWeight();
        var weightMaxAddAmount := ((weightCapacity - current) / item.cls.weight).Floor;
        actualAddAmount := Min(actualAddAmount, weightMaxAddAmount);
        if actualAddAmount < addAmount {
          errorText := StackTooHeavy;
        }
      } else if actualAddAmount < addAmount {
        errorText := StackNoRoom;
      }
      n := actualAddAmount;
    }

    /** The k-th entry grows by n through SetQuantity; the entry and the
        inventory are marked dirty. */
    method GrowStack(existing: Item, ghost k: nat, n: int)
      requires Owned() && k < |items| && existing == items[k] && n != 0
      requires var c := Contents();
        QuantitiesInRange(c[k := Stack(c[k].cls, QuantityAfterSet(c[k].quantity, c[k].quantity + n, c[k].cls.maxStackSize))])
      modifies existing`quantity, existing`repKey, this`replicatedItemKey
      ensures var c := old(Contents());
        Contents() == c[k := Stack(c[k].cls, QuantityAfterSet(c[k].quantity, c[k].quantity + n, c[k].cls.maxStackSize))]
      ensures Owned() && (old(Valid()) ==> Valid())
      ensures replicatedItemKey == old(replicatedItemKey) + 1
    {
      ghost var before := Contents();
      existing.SetQuantity(existing.quantity + n);
      ghost var s := Stack(existing.cls, existing.quantity);
      ValidAfterUpdate(this, before, k, s);
    }

    /** The existing-stack branch of TryAddItem_Internal: grows the first
        stack of the class by as much as MergeAmount allows, or refuses when
        that stack is full or nothing fits. */
    method AddToExistingStack(existing: Item, item: Item) returns (r: ItemAddResult)
      requires Valid() && item !in items && item.cls.stackable && |items| + 1 <= capacity
      requires !(item.cls.weight != 0.0 && TotalWeight(Contents()) + item.cls.weight > weightCapacity)
      requires 0 <= FirstOfClass(Contents(), item.cls) && existing == items[FirstOfClass(Contents(), item.cls)]
      modifies existing`quantity, existing`repKey, this`replicatedItemKey
      ensures Valid()
      ensures !old(PlacementFor(item)).Append?
      ensures Contents() == old(PlacedFor(item))
      ensures r == old(ResultFor(item))
      ensures replicatedItemKey == old(replicatedItemKey) + old(DirtyCountFor(item))
    {
      ghost var cs := Contents();
      ghost var k := FirstOfClass(cs, item.cls);
      ghost var p := Place(cs, capacity, weightCapacity, item.cls, item.quantity);
      assert cs[k] == Stack(item.cls, existing.quantity);
      var addAmount := item.quantity;
      if existing.quantity < existing.cls.maxStackSize {
        var actualAddAmount, errorText := MergeLimit(existing, item);
        if actualAddAmount <= 0 {
          r := AddedNone(addAmount, CouldNotAddItem);
          assert p == Refused(CouldNotAddItem);
          return;
        }
        assert p == MergeInto(k, actualAddAmount, if item.cls.weight != 0.0 then StackTooHeavy else StackNoRoom);
        r := MergeIntoStack(existing, item, k, actualAddAmount, errorText);
      } else {
        r := AddedNone(addAmount, AlreadyFullStack);
        assert p == Refused(AlreadyFullStack);
      }
    }

    /** A merge that moves n units: the k-th stack grows by n, and the
        result is AddedAll or, when n falls short of the request, AddedSome
        with the partial-merge error text. */
    method MergeIntoStack(existing: Item, item: Item, ghost k: nat, n: int, errorText: AddError) returns (r: ItemAddResult)
      requires Valid() && item !in items && k < |items| && existing == items[k]
      requires PlacementFor(item) == MergeInto(k, n, if item.cls.weight != 0.0 then StackTooHeavy else StackNoRoom)
      requires 0 < n && (n < item.quantity ==> errorText == (if item.cls.weight != 0.0 then StackTooHeavy else StackNoRoom))
      modifies existing`quantity, existing`repKey, this`replicatedItemKey
      ensures Valid()
      ensures Contents() == old(PlacedFor(item))
      ensures r == old(ResultFor(item))
      ensures replicatedItemKey == old(replicatedItemKey) + 1
    {
      ghost var before := Contents();
      ghost var p := PlacementFor(item);
      PlaceIsPlacement(before, capacity, weightCapacity, item.cls, item.quantity);
      PlacedKeepsOneStackPerClass(before, capacity, weightCapacity, item.cls, item.quantity);
      PlacedKeepsQuantitiesInRange(before, item.cls, item.quantity, p);
      assert PlacedFor(item) == PlacedContents(before, item.cls, item.quantity, p);
      GrowStack(existing, k, n);
      if n < item.quantity {
        r := AddedSome(item.quantity, n, errorText);
      } else {
        r := AddedAll(item.quantity);
      }
    }

    /** TryAddItem / TryAddItem_Internal: decides by Place, changes the stacks
        as PlacedContents says and reports PlacedResult. A refused add changes
        nothing; a merge grows the existing stack and marks it dirty; an append
        adds one new entry of the item's class (which may equip itself). */
    method TryAddItem(item: Item) returns (r: ItemAddResult)
      requires Valid() && item !in items
      modifies this`items, this`replicatedItemKey, items`quantity, items`repKey, CharSet(owner)`equippedItems
      ensures Valid()
      ensures Contents() == old(PlacedFor(item))
      ensures r == old(ResultFor(item))
      ensures replicatedItemKey == old(replicatedItemKey) + old(DirtyCountFor(item))
      ensures !old(PlacementFor(item)).Append? ==> items == old(items)
      ensures old(PlacementFor(item)).Append? ==>
        |items| == |old(items)| + 1 && items == old(items) + [items[|old(items)|]]
      ensures old(PlacementFor(item)).Append? ==>
        && fresh(items[|old(items)|]) && items[|old(items)|].cls == item.cls && items[|old(items)|].outer == owner
        && items[|old(items)|].equipped == old(AutoEquips(item.cls, owner))
      ensures owner != null && old(PlacementFor(item)).Append? && old(AutoEquips(item.cls, owner)) ==>
        owner.equippedItems == Equipped(old(owner.equippedItems), items[|old(items)|])
      ensures owner != null && !(old(PlacementFor(item)).Append? && old(AutoEquips(item.cls, owner))) ==>
        owner.equippedItems == old(owner.equippedItems)
    {
      ghost var p := Place(Contents(), capacity, weightCapacity, item.cls, item.quantity);
      var addAmount := item.quantity;
      if |items| + 1 > GetCapacity() {
        assert p == Refused(InventoryFull);
        return AddedNone(addAmount, InventoryFull);
      }
      if item.cls.weight != 0.0 {
        var current := GetCurrentWeight();
        if current + item.cls.weight > GetWeightCapacity() {
          assert p == Refused(TooMuchWeight);
          return AddedNone(addAmount, TooMuchWeight);
        }
      }
      r := AddWithinLimits(item);
    }

    /** The rest of TryAddItem_Internal once the entry and weight checks have
        passed: a stackable class already present goes to its stack, anything
        else becomes a new entry through AddItem. */
    method AddWithinLimits(item: Item) returns (r: ItemAddResult)
      requires Valid() && item !in items && |items| + 1 <= capacity
      requires !(item.cls.weight != 0.0 && TotalWeight(Contents()) + item.cls.weight > weightCapacity)
      modifies this`items, this`replicatedItemKey, items`quantity, items`repKey, CharSet(owner)`equippedItems
      ensures Valid()
      ensures Contents() == old(PlacedFor(item))
      ensures r == old(ResultFor(item))
      ensures replicatedItemKey == old(replicatedItemKey) + old(DirtyCountFor(item))
      ensures !old(PlacementFor(item)).Append? ==> items == old(items)
      ensures old(PlacementFor(item)).Append? ==>
        |items| == |old(items)| + 1 && items == old(items) + [items[|old(items)|]]
      ensures old(PlacementFor(item)).Append? ==>
        && fresh(items[|old(items)|]) && items[|old(items)|].cls == item.cls && items[|old(items)|].outer == owner
        && items[|old(items)|].equipped == old(AutoEquips(item.cls, owner))
      ensures owner != null && old(PlacementFor(item)).Append? && old(AutoEquips(item.cls, owner)) ==>
        owner.equippedItems == Equipped(old(owner.equippedItems), items[|old(items)|])
      ensures owner != null && !(old(PlacementFor(item)).Append? && old(AutoEquips(item.cls, owner))) ==>
        owner.equippedItems == old(owner.equippedItems)
    {
      ghost var p := Place(Contents(), capacity, weightCapacity, item.cls, item.quantity);
      if item.cls.stackable {
        var existing := FindItem(item);
        if existing != null {
          r := AddToExistingStack(existing, item);
          return;
        }
      }
      assert p == Append;
      r := AddAsNewEntry(item);
    }

    /** The last branch of TryAddItem_Internal: AddItem copies the item into a
        new entry and everything asked for is reported as given. */
    method AddAsNewEntry(item: Item) returns (r: ItemAddResult)
      requires Valid() && item !in items && PlacementFor(item) == Append
      modifies this`items, this`replicatedItemKey, CharSet(owner)`equippedItems
      ensures Valid()
      ensures Contents() == old(PlacedFor(item))
      ensures r == old(ResultFor(item))
      ensures replicatedItemKey == old(replicatedItemKey) + old(DirtyCountFor(item))
      ensures |items| == |old(items)| + 1 && items == old(items) + [items[|old(items)|]]
      ensures fresh(items[|old(items)|]) && items[|old(items)|].cls == item.cls && items[|old(items)|].outer == owner
      ensures items[|old(items)|].equipped == old(AutoEquips(item.cls, owner))
      ensures owner != null && old(AutoEquips(item.cls, owner)) ==>
        owner.equippedItems == Equipped(old(owner.equippedItems), items[|old(items)|])
      ensures owner != null && !old(AutoEquips(item.cls, owner)) ==>
        owner.equippedItems == old(owner.equippedItems)
    {
      PlacedKeepsOneStackPerClass(Contents(), capacity, weightCapacity, item.cls, item.quantity);
      var newItem := AddItem(item);
      r := AddedAll(item.quantity);
    }

    /** TryAddItemFromClass: a fresh item of the class (owned by the
        inventory's owner) takes the quantity through SetQuantity and is
        offered to TryAddItem. */
    method TryAddItemFromClass(cls: ItemClass, quantity: int) returns (r: ItemAddResult)
      requires Valid()
      modifies this`items, this`replicatedItemKey, items`quantity, items`repKey, CharSet(owner)`equippedItems
      ensures Valid()
      ensures Contents() == old(PlacedOf(cls, QuantityAfterSet(1, quantity, cls.maxStackSize)))
      ensures r == old(ResultOf(cls, QuantityAfterSet(1, quantity, cls.maxStackSize)))
    {
      ghost var amount := QuantityAfterSet(1, quantity, cls.maxStackSize);
      ghost var placed, result := PlacedOf(cls, amount), ResultOf(cls, amount);
      var item := new Item(cls, owner);
      item.SetQuantity(quantity);
      assert Valid() && item !in items && item.quantity == amount;
      assert PlacedFor(item) == placed && ResultFor(item) == result;
      r := TryAddItem(item);
    }
  }

  // =====================================================================

  /** ASurvivalCharacter: health, the player inventory, the equipment slots,
      the loot source and the movement/aim flags. */
  class Character {
    var health: real
    const maxHealth: real
    const playerInventory: Inventory
    var lootSource: Inventory?
    var equippedItems: map<Slot, Item>
    var killer: Character?
    var isAiming: bool
    var sprinting: bool
    const walkSpeed: real
    const sprintSpeed: real
    var maxWalkSpeed: real
    var equippedWeapon: Weapon?

    /** Every slot holds an equippable item whose own slot it is. */
    predicate EquipmentConsistent()
      reads this
    {
      forall s :: s in equippedItems ==>
        equippedItems[s].cls.kind.Equippable? && equippedItems[s].cls.kind.slot == s
    }

    ghost predicate Valid()
      reads this, playerInventory, playerInventory.items
    {
      && playerInventory.owner == this
      && playerInventory.Valid()
      && EquipmentConsistent()
      && 0.0 <= health <= maxHealth
    }

    /** Health starts full at 100; the inventory holds 20 entries and 80 units
        of weight; sprinting runs 1.3 times the base walking speed. */
    constructor (baseWalkSpeed: real)
      ensures Valid() && fresh(playerInventory)
      ensures maxHealth == 100.0 && health == maxHealth
      ensures playerInventory.items == [] && playerInventory.capacity == 20 && playerInventory.weightCapacity == 80.0
      ensures lootSource == null && equippedItems == map[] && killer == null && equippedWeapon == null
      ensures !isAiming && !sprinting
      ensures walkSpeed == baseWalkSpeed && sprintSpeed == baseWalkSpeed * 1.3 && maxWalkSpeed == baseWalkSpeed
    {
      maxHealth := 100.0;
      health := 100.0;
      playerInventory := new Inventory();
      lootSource := null;
      equippedItems := map[];
      killer := null;
      isAiming := false;
      sprinting := false;
      sprintSpeed := baseWalkSpeed * 1.3;
      walkSpeed := baseWalkSpeed;
      maxWalkSpeed := baseWalkSpeed;
      equippedWeapon := null;
      new;
      playerInventory.owner := this;
      playerInventory.SetCapacity(20);
      playerInventory.SetWeightCapacity(80.0);
    }

    /** Health moves by the delta, clamped to [0, MaxHealth]; the change
        actually applied is returned. */
    method ModifyHealth(delta: real) returns (actual: real)
      modifies this`health
      ensures health == ClampReal(old(health) + delta, 0.0, maxHealth)
      ensures actual == health - old(health)
      ensures old(0.0 <= health <= maxHealth) ==> 0.0 <= health <= maxHealth
      ensures old(0.0 <= health <= maxHealth) && delta >= 0.0 ==> 0.0 <= actual <= delta
      ensures old(0.0 <= health <= maxHealth) && delta <= 0.0 ==> delta <= actual <= 0.0
    {
      var oldHealth := health;
      health := ClampReal(health + delta, 0.0, maxHealth);
      actual := health - oldHealth;
    }

    /** The character dies (Killer is set) exactly when health ends at or
        below zero: by the damage causer's owning character when there is one,
        otherwise by its own hand. The value returned is ModifyHealth's, the
        (non-positive) change in health. */
    method TakeDamage(damage: real, causerOwner: Character?) returns (dealt: real)
      modifies this`health, this`killer
      ensures health == ClampReal(old(health) - damage, 0.0, maxHealth)
      ensures dealt == health - old(health)
      ensures old(0.0 <= health <= maxHealth) && 0.0 <= damage ==> -damage <= dealt <= 0.0
      ensures health <= 0.0 ==> killer == (if causerOwner != null then causerOwner else this)
      ensures health > 0.0 ==> killer == old(killer)
    {
      dealt := ModifyHealth(-damage);
      if health <= 0.0 {
        if causerOwner != null {
          KilledByPlayer(causerOwner);
        } else {
          Suicide();
        }
      }
    }

    method Suicide()
      modifies this`killer
      ensures killer == this
    {
      killer := this;
    }

    method KilledByPlayer(instigator: Character)
      modifies this`killer
      ensures killer == instigator
    {
      killer := instigator;
    }

    /** The item's slot now holds it, replacing any previous occupant; the
        other slots are unchanged. */
    method EquipItem(item: Item) returns (ok: bool)
      requires item.cls.kind.Equippable?
      modifies this`equippedItems
      ensures ok
      ensures equippedItems == Equipped(old(equippedItems), item)
      ensures old(EquipmentConsistent()) ==> EquipmentConsistent()
    {
      equippedItems := equippedItems[item.cls.kind.slot := item];
      return true;
    }

    /** The slot is emptied, and true returned, only when this very item
        occupies it; otherwise nothing changes. */
    method UnEquipItem(item: Item?) returns (ok: bool)
      modifies this`equippedItems
      ensures ok == (item != null && Occupies(old(equippedItems), item))
      ensures item != null ==> equippedItems == Unequipped(old(equippedItems), item)
      ensures item == null ==> equippedItems == old(equippedItems)
      ensures old(EquipmentConsistent()) ==> EquipmentConsistent()
    {
      if item != null && item.cls.kind.Equippable? && item.cls.kind.slot in equippedItems {
        if item == equippedItems[item.cls.kind.slot] {
          equippedItems := equippedItems - {item.cls.kind.slot};
          return true;
        }
      }
      return false;
    }

    /** Looting exactly while a loot source is set. */
    predicate IsLooting()
      reads this
      ensures IsLooting() <==> lootSource != null
    {
      lootSource != null
    }

    /** Stores the new loot source (the owner's life-span extension is not
        modelled). */
    method SetLootSource(newLootSource: Inventory?)
      modifies this`lootSource
      ensures lootSource == newLootSource
      ensures IsLooting() <==> newLootSource != null
    {
      lootSource := newLootSource;
    }

    /** LootItem: when the loot source holds at least the item's quantity of
        its class, the item is offered to the player inventory and exactly the
        amount given is consumed from the loot source; nothing is consumed when
        nothing was given. Without a loot source, or for a null item, nothing
        changes. */
    method LootItem(item: Item?)
      requires playerInventory.Valid()
      requires lootSource != null ==> lootSource.Valid() && lootSource != playerInventory
      requires item != null ==> item !in playerInventory.items
      modifies playerInventory`items, playerInventory`replicatedItemKey, playerInventory.items`quantity,
        playerInventory.items`repKey, CharSet(playerInventory.owner)`equippedItems
      modifies InvSet(lootSource)`items, InvSet(lootSource)`replicatedItemKey
      modifies ItemSet(item)`quantity, ItemSet(item)`repKey, OwningInvOf(item)`replicatedItemKey
      ensures playerInventory.Valid()
      ensures lootSource != null ==> lootSource.Valid()
      ensures lootSource == null || item == null ==> playerInventory.items == old(playerInventory.items)
      ensures lootSource != null && item != null && !old(lootSource.Holds(item.cls, item.quantity)) ==>
        && playerInventory.Contents() == old(playerInventory.Contents())
        && lootSource.Contents() == old(lootSource.Contents())
      ensures lootSource != null && item != null && old(lootSource.Holds(item.cls, item.quantity)) ==>
        playerInventory.Contents() == old(playerInventory.PlacedFor(item))
      ensures (&& lootSource != null && item != null && old(lootSource.Holds(item.cls, item.quantity))
               && old(playerInventory.GivenFor(item)) <= 0) ==>
        lootSource.Contents() == old(lootSource.Contents())
      ensures (&& lootSource != null && item != null && item in old(lootSource.items)
               && old(lootSource.Holds(item.cls, item.quantity)) && old(playerInventory.GivenFor(item)) > 0) ==>
        lootSource.Contents() ==
          AfterConsume(old(lootSource.Contents()), IndexOf(old(lootSource.items), item), old(playerInventory.GivenFor(item)))
      ensures lootSource != null && item != null && item in old(lootSource.items) ==>
        TotalOfClass(playerInventory.Contents(), item.cls) + TotalOfClass(lootSource.Contents(), item.cls)
          == old(TotalOfClass(playerInventory.Contents(), item.cls) + TotalOfClass(lootSource.Contents(), item.cls))
    {
      if lootSource != null && item != null {
        var source := lootSource;
        ghost var contents := source.Contents();
        ghost var placed := playerInventory.PlacedFor(item);
        ghost var given := playerInventory.GivenFor(item);
        var has := source.HasItem(item.cls, item.quantity);
        assert source.Contents() == contents && playerInventory.PlacedFor(item) == placed
          && playerInventory.GivenFor(item) == given;
        if has {
          TransferFrom(source, item);
        }
      }
    }

    /** The body of LootItem once the loot source is known to hold enough:
        TryAddItem on the player inventory, then ConsumeItem of the amount
        given on the loot source. */
    method TransferFrom(source: Inventory, item: Item)
      requires playerInventory.Valid() && source.Valid() && source != playerInventory
      requires item !in playerInventory.items
      modifies playerInventory`items, playerInventory`replicatedItemKey, playerInventory.items`quantity,
        playerInventory.items`repKey, CharSet(playerInventory.owner)`equippedItems
      modifies source`items, source`replicatedItemKey
      modifies item`quantity, item`repKey, OwningInvOf(item)`replicatedItemKey
      ensures playerInventory.Valid()
      ensures source.Valid()
      ensures playerInventory.Contents() == old(playerInventory.PlacedFor(item))
      ensures old(playerInventory.GivenFor(item)) <= 0 ==> source.Contents() == old(source.Contents())
      ensures item in old(source.items) && old(playerInventory.GivenFor(item)) > 0 ==>
        source.Contents() ==
          AfterConsume(old(source.Contents()), IndexOf(old(source.items), item), old(playerInventory.GivenFor(item)))
      ensures item in old(source.items) ==>
        TotalOfClass(playerInventory.Contents(), item.cls) + TotalOfClass(source.Contents(), item.cls)
          == old(TotalOfClass(playerInventory.Contents(), item.cls) + TotalOfClass(source.Contents(), item.cls))
    {
      ghost var stacks := source.Contents();
      ghost var inSource := item in source.items;
      ghost var k := if inSource then IndexOf(source.items, item) else 0;
      if inSource {
        ghost var before := playerInventory.Contents();
        ghost var q := item.quantity;
        assert stacks[k] == Stack(item.cls, q);
        PlacedConservesClassTotal(before, playerInventory.capacity, playerInventory.weightCapacity, item.cls, q, item.cls);
        ResultAccounting(before, playerInventory.capacity, playerInventory.weightCapacity, item.cls, q);
        assert TotalOfClass(playerInventory.PlacedFor(item), item.cls) == TotalOfClass(before, item.cls) + playerInventory.GivenFor(item);
        assert 0 <= playerInventory.GivenFor(item) <= q;
      }
      var given := OfferToPlayer(source, item);
      if given > 0 {
        if inSource {
          ConsumeAccounting(stacks, k, given, item.cls);
        }
        ConsumeLooted(source, item, given);
      }
    }

    /** The first half of LootItem once the loot source is known to hold
        enough: TryAddItem on the player inventory, reporting the amount
        given. The loot source is not touched. */
    method OfferToPlayer(source: Inventory, item: Item) returns (given: int)
      requires playerInventory.Valid() && source.Valid() && source != playerInventory
      requires item !in playerInventory.items
      modifies playerInventory`items, playerInventory`replicatedItemKey, playerInventory.items`quantity,
        playerInventory.items`repKey, CharSet(playerInventory.owner)`equippedItems
      ensures playerInventory.Valid() && item !in playerInventory.items
      ensures source.Valid() && source.items == old(source.items) && source.Contents() == old(source.Contents())
      ensures playerInventory.Contents() == old(playerInventory.PlacedFor(item))
      ensures given == old(playerInventory.GivenFor(item))
    {
      assert forall i :: 0 <= i < |source.items| ==> source.items[i] !in playerInventory.items;
      var addResult := playerInventory.TryAddItem(item);
      UntouchedInventory(source);
      given := addResult.actualAmountGiven;
    }

    /** The loot source gives up the amount the player inventory took; the
        player inventory is not touched. */
    method ConsumeLooted(source: Inventory, item: Item, given: int)
      requires playerInventory.Valid() && source.Valid() && source != playerInventory
      requires item !in playerInventory.items
      modifies source`items, source`replicatedItemKey
      modifies item`quantity, item`repKey, OwningInvOf(item)`replicatedItemKey
      ensures playerInventory.Valid() && source.Valid()
      ensures playerInventory.Contents() == old(playerInventory.Contents())
      ensures item in old(source.items) ==>
        source.Contents() == AfterConsume(old(source.Contents()), IndexOf(old(source.items), item), given)
    {
      var _ := source.ConsumeItem(item, given);
      UntouchedInventory(playerInventory);
    }

    /** Aiming needs an equipped weapon. */
    predicate CanAim()
      reads this
      ensures CanAim() <==> equippedWeapon != null
    {
      equippedWeapon != null
    }

    /** Aiming afterwards exactly when asked to aim and either already aiming
        or holding a weapon: no change for an unchanged value, and no aiming
        without a weapon. */
    method SetAiming(newAiming: bool)
      modifies this`isAiming
      ensures isAiming == (newAiming && (old(isAiming) || equippedWeapon != null))
    {
      if newAiming == isAiming || (newAiming && !CanAim()) {
        return;
      }
      isAiming := newAiming;
    }

    /** Sprinting is ruled out while aiming. */
    predicate CanSprint()
      reads this
      ensures CanSprint() <==> !isAiming
    {
      !isAiming
    }

    /** Sprinting afterwards exactly when asked to sprint and either already
        sprinting or not aiming; when the flag changes the walk speed follows
        it, otherwise nothing changes. */
    method SetSprinting(newSprinting: bool)
      modifies this`sprinting, this`maxWalkSpeed
      ensures sprinting == (newSprinting && (old(sprinting) || !isAiming))
      ensures sprinting != old(sprinting) ==> maxWalkSpeed == (if sprinting then sprintSpeed else walkSpeed)
      ensures sprinting == old(sprinting) ==> maxWalkSpeed == old(maxWalkSpeed)
    {
      if (newSprinting && !CanSprint()) || newSprinting == sprinting {
        return;
      }
      sprinting := newSprinting;
      maxWalkSpeed := if sprinting then sprintSpeed else walkSpeed;
    }

    /** The item in the throwable slot when it is a throwable, else null. */
    function GetThrowable(): (t: Item?)
      reads this
      ensures t != null ==> Throwable in equippedItems && t == equippedItems[Throwable]
      ensures t != null ==> t.cls.kind.Equippable? && t.cls.kind.isThrowable
      ensures t == null ==>
        Throwable !in equippedItems || !equippedItems[Throwable].cls.kind.Equippable? || !equippedItems[Throwable].cls.kind.isThrowable
    {
      if Throwable in equippedItems && equippedItems[Throwable].cls.kind.Equippable?
        && equippedItems[Throwable].cls.kind.isThrowable
      then equippedItems[Throwable] else null
    }

    /** A throwable can be used when one is equipped and it names the actor
        class it throws. */
    function CanUseThrowable(): (b: bool)
      reads this
      ensures b ==> GetThrowable() != null && Throwable in equippedItems
      ensures b <==> GetThrowable() != null && GetThrowable().cls.kind.hasThrowableClass
    {
      GetThrowable() != null && GetThrowable().cls.kind.hasThrowableClass
    }
  }

  // =====================================================================

  /** The items of a character's player inventory (none without a
      character). */
  function OwnerItems(c: Character?): seq<Item>
    reads PlayerInvOf(c)
  {
    if c == null then [] else c.playerInventory.items
  }

  /** AWeapon: the state machine (CurrentState and its flags), the clip and
      the burst counter. The owning character and the weapon data are fixed
      for the weapon's life. The two engine questions the weapon asks,
      whether its owner is locally controlled and whether it has authority,
      are parameters of the methods that ask them. */
  class Weapon {
    const pawnOwner: Character?
    const ammoPerClip: int
    const ammoClass: ItemClass
    const timeBetweenShots: real
    var state: WeaponRules.WeaponState
    var isEquipped: bool
    var wantsToFire: bool
    var pendingReload: bool
    var pendingEquip: bool
    var ammoInClip: int
    var burstCounter: int
    var refiring: bool

    /** The clip holds between 0 and AmmoPerClip rounds and the burst
        counter is never negative. */
    ghost predicate Valid()
      reads this
    {
      0 <= ammoInClip <= ammoPerClip && 0 <= burstCounter
    }

    /** The quantity of the first ammo stack in the owner's inventory, 0
        without an owner or without such a stack. */
    ghost function InventoryAmmo(): int
      reads PlayerInvOf(pawnOwner), set i | i in OwnerItems(pawnOwner)
    {
      if pawnOwner == null then 0 else QuantityOfFirst(pawnOwner.playerInventory.Contents(), ammoClass)
    }

    /** The stacks of the owner's inventory (none without an owner). */
    ghost function OwnerContents(): seq<Stack>
      reads PlayerInvOf(pawnOwner), set i | i in OwnerItems(pawnOwner)
    {
      if pawnOwner == null then [] else pawnOwner.playerInventory.Contents()
    }

    /** The weapon as the state rules see it. */
    ghost function View(): WeaponRules.WeaponView
      reads this, PlayerInvOf(pawnOwner), set i | i in OwnerItems(pawnOwner)
    {
      WeaponRules.WeaponView(state, isEquipped, wantsToFire, pendingReload, pendingEquip,
        pawnOwner != null, ammoInClip, ammoPerClip, InventoryAmmo())
    }

    /** AWeapon's defaults: Idle, nothing pending or wanted, an empty clip and
        no burst, with the given owner and weapon data. */
    constructor (pawnOwner: Character?, ammoClass: ItemClass, ammoPerClip: int, timeBetweenShots: real)
      requires 0 <= ammoPerClip
      ensures this.pawnOwner == pawnOwner && this.ammoClass == ammoClass
      ensures this.ammoPerClip == ammoPerClip && this.timeBetweenShots == timeBetweenShots
      ensures state == WeaponRules.Idle && !isEquipped && !wantsToFire && !pendingReload && !pendingEquip
      ensures ammoInClip == 0 && burstCounter == 0 && !refiring
      ensures Valid()
    {
      this.pawnOwner := pawnOwner;
      this.ammoClass := ammoClass;
      this.ammoPerClip := ammoPerClip;
      this.timeBetweenShots := timeBetweenShots;
      state := WeaponRules.Idle;
      isEquipped := false;
      wantsToFire := false;
      pendingReload := false;
      pendingEquip := false;
      ammoInClip := 0;
      burstCounter := 0;
      refiring := false;
    }

    /** A weapon with FWeaponData's defaults: 20 rounds per clip, 0.2 s
        between shots. */
    constructor WithDefaultData(pawnOwner: Character?, ammoClass: ItemClass)
      ensures this.pawnOwner == pawnOwner && this.ammoClass == ammoClass
      ensures ammoPerClip == 20 && timeBetweenShots == 0.2
      ensures state == WeaponRules.Idle && !isEquipped && !wantsToFire && !pendingReload && !pendingEquip
      ensures ammoInClip == 0 && burstCounter == 0 && !refiring
      ensures Valid()
    {
      this.pawnOwner := pawnOwner;
      this.ammoClass := ammoClass;
      ammoPerClip := WeaponRules.DefaultAmmoPerClip;
      timeBetweenShots := WeaponRules.DefaultTimeBetweenShots;
      state := WeaponRules.Idle;
      isEquipped := false;
      wantsToFire := false;
      pendingReload := false;
      pendingEquip := false;
      ammoInClip := 0;
      burstCounter := 0;
      refiring := false;
    }

    /** The quantity of the first item of the ammo class in the owner's
        inventory, or 0. */
    method GetCurrentAmmo() returns (ammo: int)
      ensures ammo == InventoryAmmo()
    {
      if pawnOwner != null {
        var ammoItem := pawnOwner.playerInventory.FindItemByClass(ammoClass);
        if ammoItem != null {
          return ammoItem.quantity;
        }
      }
      return 0;
    }

    /** AWeapon::CanFire, by WeaponRules.CanFire. */
    function CanFire(): (b: bool)
      reads this, PlayerInvOf(pawnOwner), set i | i in OwnerItems(pawnOwner)
      ensures b <==> WeaponRules.CanFire(View())
    {
      pawnOwner != null && (state == WeaponRules.Idle || state == WeaponRules.Firing) && !pendingReload
    }

    /** AWeapon::CanReload, by WeaponRules.CanReload. */
    method CanReload() returns (b: bool)
      ensures b <==> WeaponRules.CanReload(View())
    {
      var canReload := pawnOwner != null;
      var ammo := GetCurrentAmmo();
      var gotAmmo := ammoInClip < ammoPerClip && ammo > 0;
      var stateOk := state == WeaponRules.Idle || state == WeaponRules.Firing;
      b := canReload && gotAmmo && stateOk;
    }

    /** The burst counter drops to 0 and refiring stops. */
    method OnBurstFinished()
      modifies this`burstCounter, this`refiring
      ensures burstCounter == 0 && !refiring
    {
      burstCounter := 0;
      refiring := false;
    }

    /** Stores the new state; leaving Firing finishes the burst. Entering
        Firing starts a burst: the source then calls HandleFiring at once
        (through OnBurstStarted, unless the last shot was too recent). That
        call is not made here; the caller invokes HandleFiring. */
    method SetWeaponState(newState: WeaponRules.WeaponState)
      modifies this`state, this`burstCounter, this`refiring
      ensures state == newState
      ensures old(state) == WeaponRules.Firing && newState != WeaponRules.Firing ==> burstCounter == 0 && !refiring
      ensures !(old(state) == WeaponRules.Firing && newState != WeaponRules.Firing) ==>
        burstCounter == old(burstCounter) && refiring == old(refiring)
    {
      var prevState := state;
      if prevState == WeaponRules.Firing && newState != WeaponRules.Firing {
        OnBurstFinished();
      }
      state := newState;
    }

    /** Moves to the state WeaponRules.Determined picks from the flags. */
    method DetermineWeaponState()
      modifies this`state, this`burstCounter, this`refiring
      ensures state == WeaponRules.Determined(old(View()))
      ensures burstCounter == if old(state) == WeaponRules.Firing && state != WeaponRules.Firing then 0 else old(burstCounter)
      ensures refiring == if old(state) == WeaponRules.Firing && state != WeaponRules.Firing then false else old(refiring)
    {
      var newState := WeaponRules.Idle;
      if isEquipped {
        if pendingReload {
          var canReload := CanReload();
          if !canReload {
            newState := state;
          } else {
            newState := WeaponRules.Reloading;
          }
        } else if !pendingReload && wantsToFire && CanFire() {
          newState := WeaponRules.Firing;
        }
      } else if pendingEquip {
        newState := WeaponRules.Equipping;
      }
      SetWeaponState(newState);
    }

    /** The trigger is held; only a change of the flag redetermines the
        state. */
    method StartFire()
      modifies this`wantsToFire, this`state, this`burstCounter, this`refiring
      ensures wantsToFire
      ensures old(wantsToFire) ==> state == old(state) && burstCounter == old(burstCounter)
      ensures !old(wantsToFire) ==> state == WeaponRules.Determined(old(View()).(wantsToFire := true))
      ensures burstCounter == if old(state) == WeaponRules.Firing && state != WeaponRules.Firing then 0 else old(burstCounter)
    {
      if !wantsToFire {
        wantsToFire := true;
        DetermineWeaponState();
      }
    }

    /** The trigger is released; only a change of the flag redetermines the
        state. */
    method StopFire()
      modifies this`wantsToFire, this`state, this`burstCounter, this`refiring
      ensures !wantsToFire
      ensures !old(wantsToFire) ==> state == old(state) && burstCounter == old(burstCounter)
      ensures old(wantsToFire) ==> state == WeaponRules.Determined(old(View()).(wantsToFire := false))
      ensures burstCounter == if old(state) == WeaponRules.Firing && state != WeaponRules.Firing then 0 else old(burstCounter)
      ensures refiring == if old(state) == WeaponRules.Firing && state != WeaponRules.Firing then false else old(refiring)
    {
      if wantsToFire {
        wantsToFire := false;
        DetermineWeaponState();
      }
    }

    /** A reload forced by replication, or one CanReload allows, marks the
        reload pending and redetermines the state; otherwise nothing changes.
        The timers that later call StopReload and ReloadWeapon are not
        modelled. */
    method StartReload(fromReplication: bool)
      modifies this`pendingReload, this`state, this`burstCounter, this`refiring
      ensures fromReplication || old(WeaponRules.CanReload(View())) ==>
        pendingReload && state == WeaponRules.Determined(old(View()).(pendingReload := true))
      ensures !(fromReplication || old(WeaponRules.CanReload(View()))) ==>
        pendingReload == old(pendingReload) && state == old(state)
      ensures burstCounter == if old(state) == WeaponRules.Firing && state != WeaponRules.Firing then 0 else old(burstCounter)
      ensures refiring == if old(state) == WeaponRules.Firing && state != WeaponRules.Firing then false else old(refiring)
      ensures !fromReplication ==> FiringViewOf() == WeaponRules.StartReloadStep(old(FiringViewOf()))
    {
      var canReload := CanReload();
      if fromReplication || canReload {
        pendingReload := true;
        DetermineWeaponState();
      }
    }

    /** A Reloading weapon drops its pending reload and redetermines the
        state; in any other state nothing changes. */
    method StopReload()
      modifies this`pendingReload, this`state, this`burstCounter, this`refiring
      ensures old(state) == WeaponRules.Reloading ==>
        !pendingReload && state == WeaponRules.Determined(old(View()).(pendingReload := false))
      ensures old(state) != WeaponRules.Reloading ==> pendingReload == old(pendingReload) && state == old(state)
      ensures burstCounter == old(burstCounter)
    {
      if state == WeaponRules.Reloading {
        pendingReload := false;
        DetermineWeaponState();
      }
    }

    /** With authority, takes the amount from the first ammo stack of the
        owner's inventory, through ConsumeItem; nothing happens without
        authority, without an owner or without such a stack. */
    method ConsumeAmmo(hasAuthority: bool, amount: int)
      requires pawnOwner != null ==> pawnOwner.playerInventory.Owned()
      modifies PlayerInvOf(pawnOwner)`items, PlayerInvOf(pawnOwner)`replicatedItemKey
      modifies set i | i in OwnerItems(pawnOwner) :: i`quantity
      modifies set i | i in OwnerItems(pawnOwner) :: i`repKey
      ensures pawnOwner != null ==> pawnOwner.playerInventory.Owned()
      ensures pawnOwner != null && old(pawnOwner.playerInventory.Valid()) ==> pawnOwner.playerInventory.Valid()
      ensures hasAuthority && pawnOwner != null && FirstOfClass(old(OwnerContents()), ammoClass) >= 0 ==>
        OwnerContents() == AfterConsume(old(OwnerContents()), FirstOfClass(old(OwnerContents()), ammoClass), amount)
      ensures pawnOwner != null && !(hasAuthority && FirstOfClass(old(OwnerContents()), ammoClass) >= 0) ==>
        pawnOwner.playerInventory.items == old(pawnOwner.playerInventory.items)
    {
      if hasAuthority && pawnOwner != null {
        ConsumeFromFirstStack(amount);
      }
    }

    /** The owner's side of ConsumeAmmo: the first ammo stack, if any, gives
        up the amount. */
    method ConsumeFromFirstStack(amount: int)
      requires pawnOwner != null && pawnOwner.playerInventory.Owned()
      modifies PlayerInvOf(pawnOwner)`items, PlayerInvOf(pawnOwner)`replicatedItemKey
      modifies set i | i in OwnerItems(pawnOwner) :: i`quantity
      modifies set i | i in OwnerItems(pawnOwner) :: i`repKey
      ensures pawnOwner.playerInventory.Owned()
      ensures old(pawnOwner.playerInventory.Valid()) ==> pawnOwner.playerInventory.Valid()
      ensures FirstOfClass(old(OwnerContents()), ammoClass) >= 0 ==>
        OwnerContents() == AfterConsume(old(OwnerContents()), FirstOfClass(old(OwnerContents()), ammoClass), amount)
      ensures FirstOfClass(old(OwnerContents()), ammoClass) < 0 ==>
        pawnOwner.playerInventory.items == old(pawnOwner.playerInventory.items)
    {
      var inventory := pawnOwner.playerInventory;
      var ammoItem := inventory.FindItemByClass(ammoClass);
      if ammoItem != null {
        ghost var k := FirstOfClass(inventory.Contents(), ammoClass);
        IndexOfDistinct(inventory.items, k);
        var _ := inventory.ConsumeItem(ammoItem, amount);
      }
    }

    /** Moves Min(AmmoPerClip - clip, inventory ammo) rounds into the clip
        and consumes them from the inventory, when that refill is positive;
        otherwise nothing changes. */
    method ReloadWeapon()
      requires pawnOwner != null ==> pawnOwner.playerInventory.Owned()
      modifies this`ammoInClip
      modifies PlayerInvOf(pawnOwner)`items, PlayerInvOf(pawnOwner)`replicatedItemKey
      modifies set i | i in OwnerItems(pawnOwner) :: i`quantity
      modifies set i | i in OwnerItems(pawnOwner) :: i`repKey
      ensures var refill := WeaponRules.Refill(old(View()));
        ammoInClip == old(ammoInClip) + (if refill > 0 then refill else 0)
      ensures old(Valid()) ==> Valid()
      ensures pawnOwner != null ==> pawnOwner.playerInventory.Owned()
      ensures pawnOwner != null && old(pawnOwner.playerInventory.Valid()) ==> pawnOwner.playerInventory.Valid()
      ensures pawnOwner != null && WeaponRules.Refill(old(View())) > 0 ==>
        var before := old(pawnOwner.playerInventory.Contents());
        pawnOwner.playerInventory.Contents() == AfterConsume(before, FirstOfClass(before, ammoClass), WeaponRules.Refill(old(View())))
      ensures pawnOwner != null && WeaponRules.Refill(old(View())) <= 0 ==>
        pawnOwner.playerInventory.items == old(pawnOwner.playerInventory.items)
    {
      ghost var refill := WeaponRules.Refill(View());
      ghost var wasValid := Valid();
      ghost var before := OwnerContents();
      var ammo := GetCurrentAmmo();
      assert OwnerContents() == before;
      var ammoRefill := Min(ammoPerClip - ammoInClip, ammo);
      assert ammoRefill == refill;
      if ammoRefill > 0 {
        LoadClip(ammoRefill);
        assert OwnerContents() == AfterConsume(before, FirstOfClass(before, ammoClass), refill);
      }
    }

    /** The positive branch of ReloadWeapon: the refill enters the clip and
        leaves the first ammo stack. ReloadWeapon only ever runs with
        authority (StartReload sets its timer there alone), so the ammo is
        consumed with authority. */
    method LoadClip(refill: int)
      requires pawnOwner != null && pawnOwner.playerInventory.Owned()
      requires 0 < refill <= ammoPerClip - ammoInClip && 0 <= FirstOfClass(OwnerContents(), ammoClass)
      modifies this`ammoInClip
      modifies PlayerInvOf(pawnOwner)`items, PlayerInvOf(pawnOwner)`replicatedItemKey
      modifies set i | i in OwnerItems(pawnOwner) :: i`quantity
      modifies set i | i in OwnerItems(pawnOwner) :: i`repKey
      ensures ammoInClip == old(ammoInClip) + refill
      ensures old(Valid()) ==> Valid()
      ensures pawnOwner.playerInventory.Owned()
      ensures old(pawnOwner.playerInventory.Valid()) ==> pawnOwner.playerInventory.Valid()
      ensures OwnerContents() == AfterConsume(old(OwnerContents()), FirstOfClass(old(OwnerContents()), ammoClass), refill)
    {
      ghost var before := OwnerContents();
      ammoInClip := ammoInClip + refill;
      assert OwnerContents() == before;
      label loaded:
      ConsumeAmmo(true, refill);
      assert unchanged@loaded(this);
    }

    /** With authority, an owner and a positive clip, the clip's rounds go
        back to the owner's inventory through TryAddItemFromClass (the clip
        itself keeps its count); otherwise nothing changes. */
    method ReturnAmmoToInventory(hasAuthority: bool)
      requires pawnOwner != null ==> pawnOwner.playerInventory.Valid() && pawnOwner.playerInventory.owner == pawnOwner
      modifies PlayerInvOf(pawnOwner)`items, PlayerInvOf(pawnOwner)`replicatedItemKey
      modifies OwnerItems(pawnOwner)`quantity, OwnerItems(pawnOwner)`repKey
      modifies CharSet(pawnOwner)`equippedItems
      ensures pawnOwner != null ==> pawnOwner.playerInventory.Valid()
      ensures hasAuthority && pawnOwner != null && ammoInClip > 0 ==>
        pawnOwner.playerInventory.Contents() ==
          old(pawnOwner.playerInventory.PlacedOf(ammoClass, QuantityAfterSet(1, ammoInClip, ammoClass.maxStackSize)))
      ensures !(hasAuthority && ammoInClip > 0) && pawnOwner != null ==>
        pawnOwner.playerInventory.items == old(pawnOwner.playerInventory.items)
    {
      if hasAuthority && pawnOwner != null && ammoInClip > 0 {
        var inventory := pawnOwner.playerInventory;
        var _ := inventory.TryAddItemFromClass(ammoClass, ammoInClip);
      }
    }

    /** The flag part of OnUnEquip: unequipped, trigger released, nothing
        pending, and the state then determined from those flags is Idle. A
        burst in progress is finished on the way. */
    method ClearForUnEquip()
      modifies this`isEquipped, this`wantsToFire, this`pendingReload, this`pendingEquip
      modifies this`state, this`burstCounter, this`refiring
      ensures !isEquipped && !wantsToFire && !pendingReload && !pendingEquip
      ensures state == WeaponRules.Firing ==> old(state) == WeaponRules.Firing && burstCounter == old(burstCounter) && refiring == old(refiring)
      ensures state != WeaponRules.Firing && old(state) == WeaponRules.Firing ==> burstCounter == 0 && !refiring
      ensures old(state) != WeaponRules.Firing ==> state != WeaponRules.Firing && burstCounter == old(burstCounter) && refiring == old(refiring)
    {
      isEquipped := false;
      StopFire();
      if pendingReload {
        pendingReload := false;
      }
      if pendingEquip {
        pendingEquip := false;
      }
    }

    /** OnUnEquip: the weapon ends unequipped and Idle with nothing wanted or
        pending, a burst in progress is finished, and with authority a
        positive clip is returned to the owner's inventory. */
    method OnUnEquip(hasAuthority: bool)
      requires pawnOwner != null ==> pawnOwner.playerInventory.Valid() && pawnOwner.playerInventory.owner == pawnOwner
      modifies this`isEquipped, this`wantsToFire, this`pendingReload, this`pendingEquip
      modifies this`state, this`burstCounter, this`refiring
      modifies PlayerInvOf(pawnOwner)`items, PlayerInvOf(pawnOwner)`replicatedItemKey
      modifies OwnerItems(pawnOwner)`quantity, OwnerItems(pawnOwner)`repKey
      modifies CharSet(pawnOwner)`equippedItems
      ensures !isEquipped && !wantsToFire && !pendingReload && !pendingEquip
      ensures state == WeaponRules.Idle
      ensures burstCounter == (if old(state) == WeaponRules.Firing then 0 else old(burstCounter))
      ensures ammoInClip == old(ammoInClip)
      ensures pawnOwner != null ==> pawnOwner.playerInventory.Valid()
      ensures hasAuthority && pawnOwner != null && ammoInClip > 0 ==>
        pawnOwner.playerInventory.Contents() ==
          old(pawnOwner.playerInventory.PlacedOf(ammoClass, QuantityAfterSet(1, ammoInClip, ammoClass.maxStackSize)))
      ensures !(hasAuthority && ammoInClip > 0) && pawnOwner != null ==>
        pawnOwner.playerInventory.items == old(pawnOwner.playerInventory.items)
    {
      ghost var placed: seq<Stack> := [];
      if pawnOwner != null {
        placed := pawnOwner.playerInventory.PlacedOf(ammoClass, QuantityAfterSet(1, ammoInClip, ammoClass.maxStackSize));
      }
      ClearForUnEquip();
      label cleared:
      ReturnAmmoToInventory(hasAuthority);
      assert unchanged@cleared(this);
      assert hasAuthority && pawnOwner != null && ammoInClip > 0 ==> pawnOwner.playerInventory.Contents() == placed;
      label returned:
      assert !isEquipped && !pendingEquip;
      DetermineWeaponState();
      assert state == WeaponRules.Idle;
      assert unchanged@returned(PlayerInvOf(pawnOwner)) && unchanged@returned(OwnerItems(pawnOwner));
      if pawnOwner != null {
        UntouchedInventory@returned(pawnOwner.playerInventory);
      }
    }

    /** OnEquipFinished: the weapon is equipped with no equip pending, its
        state is determined, and a locally controlled weapon that can reload
        starts reloading; the result is WeaponRules.EquipFinished. */
    method OnEquipFinished(locallyControlled: bool)
      modifies this`isEquipped, this`pendingEquip, this`pendingReload
      modifies this`state, this`burstCounter, this`refiring
      ensures View() == WeaponRules.EquipFinished(old(View()), locallyControlled)
    {
      ghost var ammo := InventoryAmmo();
      isEquipped := true;
      pendingEquip := false;
      assert InventoryAmmo() == ammo;
      ghost var v1 := View();
      DetermineWeaponState();
      assert InventoryAmmo() == ammo;
      assert View() == v1.(state := WeaponRules.Determined(v1));
      ReloadIfLocal(locallyControlled);
    }

    /** The tail of OnEquipFinished: a locally controlled weapon with an
        owner that can reload starts reloading; otherwise nothing changes. */
    method ReloadIfLocal(locallyControlled: bool)
      modifies this`pendingReload, this`state, this`burstCounter, this`refiring
      ensures var v := old(View());
        View() == if locallyControlled && v.hasOwner && WeaponRules.CanReload(v)
          then v.(pendingReload := true, state := WeaponRules.Determined(v.(pendingReload := true)))
          else v
    {
      if pawnOwner != null && locallyControlled {
        var canReload := CanReload();
        if canReload {
          StartReload(false);
        }
      }
    }

    /** OnEquip: an equip is marked pending, the state is determined (an
        unequipped weapon is now Equipping), and the equip finishes; the
        result is WeaponRules.Equip. */
    method OnEquip(locallyControlled: bool)
      modifies this`isEquipped, this`pendingEquip, this`pendingReload
      modifies this`state, this`burstCounter, this`refiring
      ensures View() == WeaponRules.Equip(old(View()), locallyControlled)
    {
      pendingEquip := true;
      ghost var v0 := View();
      assert v0 == old(View()).(pendingEquip := true);
      DetermineWeaponState();
      assert View() == v0.(state := WeaponRules.Determined(v0));
      OnEquipFinished(locallyControlled);
    }

    /** One round leaves the clip (the source does not check that one is
        there). */
    method UseClipAmmo(hasAuthority: bool)
      modifies this`ammoInClip
      ensures ammoInClip == if hasAuthority then old(ammoInClip) - 1 else old(ammoInClip)
      ensures old(Valid()) && (hasAuthority ==> old(ammoInClip) > 0) ==> Valid()
    {
      if hasAuthority {
        ammoInClip := ammoInClip - 1;
      }
    }

    /** The weapon as HandleFiring sees it. */
    ghost function FiringViewOf(): WeaponRules.FiringView
      reads this, PlayerInvOf(pawnOwner), set i | i in OwnerItems(pawnOwner)
    {
      WeaponRules.FiringView(View(), burstCounter, refiring)
    }

    /** The first part of HandleFiring, by WeaponRules.ShotOrReload. The
        muzzle effects and the line trace of the shot are not modelled. */
    method ShotOrReload(locallyControlled: bool, hasAuthority: bool)
      modifies this`ammoInClip, this`burstCounter, this`refiring, this`pendingReload, this`state
      ensures FiringViewOf() == WeaponRules.ShotOrReload(old(FiringViewOf()), pawnOwner != null && locallyControlled, hasAuthority)
    {
      var canFire := CanFire();
      if ammoInClip > 0 && canFire {
        if pawnOwner != null && locallyControlled {
          FireRound(hasAuthority);
        }
      } else {
        ReloadOrEndBurst(locallyControlled);
      }
    }

    /** A locally controlled owner's shot: with authority the clip loses the
        round, and the burst counter grows. */
    method FireRound(hasAuthority: bool)
      modifies this`ammoInClip, this`burstCounter
      ensures var f := old(FiringViewOf());
        FiringViewOf() == f.(w := f.w.(ammoInClip := if hasAuthority then f.w.ammoInClip - 1 else f.w.ammoInClip),
                             burstCounter := f.burstCounter + 1)
    {
      UseClipAmmo(hasAuthority);
      burstCounter := burstCounter + 1;
    }

    /** The no-shot branch of HandleFiring: a reload starts if one can, and
        failing that a local owner's burst ends. */
    method ReloadOrEndBurst(locallyControlled: bool)
      modifies this`burstCounter, this`refiring, this`pendingReload, this`state
      ensures var f := old(FiringViewOf());
        FiringViewOf() ==
          if WeaponRules.CanReload(f.w) then WeaponRules.StartReloadStep(f)
          else if pawnOwner != null && locallyControlled && f.burstCounter > 0 then f.(burstCounter := 0, refiring := false)
          else f
    {
      var canReload := CanReload();
      if canReload {
        StartReload(false);
      } else if pawnOwner != null && locallyControlled {
        if burstCounter > 0 {
          OnBurstFinished();
        }
      }
    }

    /** The second part of HandleFiring, by WeaponRules.FiringTail. The
        request to the server a client without authority sends is the
        server's ServerHandleFiring, below; the refire timer is not
        modelled. */
    method FiringTail(locallyControlled: bool)
      modifies this`burstCounter, this`refiring, this`pendingReload, this`state
      ensures FiringViewOf() == WeaponRules.FiringTail(old(FiringViewOf()), pawnOwner != null && locallyControlled, timeBetweenShots)
    {
      if pawnOwner != null && locallyControlled {
        ReloadWhenEmpty();
        ghost var f2 := FiringViewOf();
        refiring := state == WeaponRules.Firing && timeBetweenShots > 0.0;
        assert FiringViewOf() == f2.(refiring := f2.w.state == WeaponRules.Firing && timeBetweenShots > 0.0);
      }
    }

    /** An empty clip starts a reload when CanReload allows one. */
    method ReloadWhenEmpty()
      modifies this`burstCounter, this`refiring, this`pendingReload, this`state
      ensures var f := old(FiringViewOf());
        FiringViewOf() == if f.w.ammoInClip <= 0 && WeaponRules.CanReload(f.w) then WeaponRules.StartReloadStep(f) else f
    {
      if ammoInClip <= 0 {
        var canReload := CanReload();
        if canReload {
          StartReload(false);
        }
      }
    }

    /** AWeapon::HandleFiring, by WeaponRules.HandleFiring; the clip and the
        burst counter stay in range. */
    method HandleFiring(locallyControlled: bool, hasAuthority: bool)
      modifies this`ammoInClip, this`burstCounter, this`refiring, this`pendingReload, this`state
      ensures FiringViewOf() == WeaponRules.HandleFiring(old(FiringViewOf()), pawnOwner != null && locallyControlled, hasAuthority, timeBetweenShots)
      ensures old(Valid()) ==> Valid()
    {
      ShotOrReload(locallyControlled, hasAuthority);
      FiringTail(locallyControlled);
      if old(Valid()) {
        WeaponRules.HandleFiringKeepsRange(old(FiringViewOf()), pawnOwner != null && locallyControlled, hasAuthority, timeBetweenShots);
      }
    }

    /** AWeapon::ServerHandleFiring, on the server, by
        WeaponRules.ServerFiring. */
    method ServerHandleFiring(locallyControlled: bool)
      modifies this`ammoInClip, this`burstCounter, this`refiring, this`pendingReload, this`state
      ensures FiringViewOf() == WeaponRules.ServerFiring(old(FiringViewOf()), pawnOwner != null && locallyControlled, timeBetweenShots)
    {
      var canFire := CanFire();
      var shouldUpdateAmmo := ammoInClip > 0 && canFire;
      HandleFiring(locallyControlled, true);
      if shouldUpdateAmmo {
        UseClipAmmo(true);
        burstCounter := burstCounter + 1;
      }
    }
  }
}
