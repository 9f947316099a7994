/** APickup: an item lying in the world that a character takes into its
    inventory, wholly or in part, through the pickup's interaction
    component. */
module World {
  import opened MathUtil
  import opened ItemAddResults
  import opened Stacks
  import opened Game
  import opened Interaction

  const PickupInteractionTime: real := 0.5
  const PickupInteractionDistance: real := 200.0

  class Pickup {
    const interaction: InteractionComponent
    var item: Item?
    /** Destroy() was called (the actor is pending kill). */
    var destroyed: bool

    /** A held item belongs to no inventory and holds between 1 and
        MaxStackSize units. */
    ghost predicate Valid()
      reads this, ItemSet(item)
    {
      item != null ==> item.owningInventory == null && 1 <= item.quantity <= item.cls.maxStackSize
    }

    /** APickup's defaults: no item yet, and an interaction component that
        takes 0.5 s at up to 200 units, reads "Pickup" and "Take", and is
        owned by the pickup. */
    constructor ()
      ensures item == null && !destroyed
      ensures fresh(interaction) && interaction.hasOwner
      ensures interaction.interactionTime == 0.5 && interaction.interactionDistance == 200.0
      ensures interaction.nameText == "Pickup" && interaction.actionText == "Take"
      ensures interaction.interactors == [] && interaction.broadcasts == []
      ensures interaction.active && interaction.Valid()
      ensures Valid()
    {
      var component := new InteractionComponent(true);
      component.interactionTime := PickupInteractionTime;
      component.interactionDistance := PickupInteractionDistance;
      component.nameText := "Pickup";
      component.actionText := "Take";
      interaction := component;
      item := null;
      destroyed := false;
    }

    /** With authority, a class and a positive quantity, the pickup holds a
        new item of that class (outside any character) whose quantity is
        the request as SetQuantity clamps it; otherwise nothing changes. The
        pickup's mesh and widget refresh are not modelled. */
    method InitializePickup(hasAuthority: bool, itemClass: Option<ItemClass>, quantity: int)
      modifies this`item
      ensures hasAuthority && itemClass.Some? && quantity > 0 ==>
        && item != null && fresh(item) && item.cls == itemClass.value && item.outer == null
        && item.quantity == Min(quantity, itemClass.value.maxStackSize)
        && item.owningInventory == null
        && item.repKey == (if quantity != 1 then 2 else 1)
      ensures hasAuthority && itemClass.Some? && quantity > 0 ==> Valid()
      ensures !(hasAuthority && itemClass.Some? && quantity > 0) ==> item == old(item)
    {
      if hasAuthority && itemClass.Some? && quantity > 0 {
        var newItem := new Item(itemClass.value, null);
        newItem.SetQuantity(quantity);
        newItem.MarkDirtyForReplication();
        item := newItem;
      }
    }

    /** The interaction's OnTakePickup: with authority, a taker, a live
        pickup and an item, the taker's inventory is offered the item; the
        units it accepts leave the pickup, which is destroyed once none are
        left. A null taker, no authority, a destroyed pickup or no item
        change nothing. */
    method OnTakePickup(taker: Character?, hasAuthority: bool)
      requires Valid()
      requires taker != null ==> taker.playerInventory.Valid() && taker.playerInventory.owner == taker
      modifies this`destroyed, ItemSet(item)`quantity, ItemSet(item)`repKey
      modifies PlayerInvOf(taker)`items, PlayerInvOf(taker)`replicatedItemKey
      modifies OwnerItems(taker)`quantity, OwnerItems(taker)`repKey, CharSet(taker)`equippedItems
      ensures Valid()
      ensures taker == null || !hasAuthority || old(destroyed) || item == null ==>
        destroyed == old(destroyed) && (item != null ==> item.quantity == old(item.quantity))
      ensures taker != null && !(hasAuthority && !old(destroyed) && item != null) ==>
        taker.playerInventory.items == old(taker.playerInventory.items)
      ensures taker != null && hasAuthority && !old(destroyed) && item != null ==>
        var given := old(taker.playerInventory.GivenFor(item));
        && taker.playerInventory.Valid()
        && taker.playerInventory.Contents() == old(taker.playerInventory.PlacedFor(item))
        && (given < old(item.quantity) ==> !destroyed && item.quantity == old(item.quantity) - given)
        && (given >= old(item.quantity) ==> destroyed && given == old(item.quantity))
      ensures taker != null && hasAuthority && !old(destroyed) && item != null ==>
        TotalOfClass(taker.playerInventory.Contents(), item.cls) + (if destroyed then 0 else item.quantity)
          == old(TotalOfClass(taker.playerInventory.Contents(), item.cls)) + old(item.quantity)
    {
      if taker == null {
        return;
      }
      if hasAuthority && !destroyed && item != null {
        GiveTo(taker.playerInventory);
      }
    }

    /** The taking branch of OnTakePickup, for the taker's inventory. */
    method GiveTo(inventory: Inventory)
      requires Valid() && item != null && !destroyed && inventory.Valid()
      modifies this`destroyed, item`quantity, item`repKey
      modifies inventory`items, inventory`replicatedItemKey
      modifies inventory.items`quantity, inventory.items`repKey, CharSet(inventory.owner)`equippedItems
      ensures Valid() && inventory.Valid()
      ensures inventory.Contents() == old(inventory.PlacedFor(item))
      ensures var given := old(inventory.GivenFor(item));
        && (given < old(item.quantity) ==> !destroyed && item.quantity == old(item.quantity) - given)
        && (given >= old(item.quantity) ==> destroyed && given == old(item.quantity) && item.quantity == old(item.quantity))
      ensures TotalOfClass(inventory.Contents(), item.cls) + (if destroyed then 0 else item.quantity)
        == old(TotalOfClass(inventory.Contents(), item.cls)) + old(item.quantity)
    {
      var given := Offer(inventory);
      label offered:
      KeepRest(given);
      UntouchedInventory@offered(inventory);
    }

    /** The pickup's side once the inventory took `given` of its units: it
        keeps the rest through SetQuantity, or is destroyed when none are
        left. */
    method KeepRest(given: int)
      requires Valid() && item != null && !destroyed && 0 <= given <= item.quantity
      modifies this`destroyed, item`quantity, item`repKey
      ensures Valid()
      ensures given < old(item.quantity) ==> !destroyed && item.quantity == old(item.quantity) - given
      ensures given >= old(item.quantity) ==> destroyed && given == old(item.quantity) && item.quantity == old(item.quantity)
    {
      if given < item.quantity {
        item.SetQuantity(item.quantity - given);
      } else if given >= item.quantity {
        destroyed := true;
      }
    }

    /** The inventory is offered the held item, which stays outside it. */
    method Offer(inventory: Inventory) returns (given: int)
      requires Valid() && item != null && inventory.Valid()
      modifies inventory`items, inventory`replicatedItemKey
      modifies inventory.items`quantity, inventory.items`repKey, CharSet(inventory.owner)`equippedItems
      ensures Valid() && inventory.Valid() && item !in inventory.items && item.quantity == old(item.quantity)
      ensures inventory.Contents() == old(inventory.PlacedFor(item))
      ensures given == old(inventory.GivenFor(item)) && 0 <= given <= item.quantity
      ensures TotalOfClass(inventory.Contents(), item.cls) == old(TotalOfClass(inventory.Contents(), item.cls)) + given
    {
      ghost var before := inventory.Contents();
      ghost var q := item.quantity;
      PlaceIsPlacement(before, inventory.capacity, inventory.weightCapacity, item.cls, q);
      PlacedConservesClassTotal(before, inventory.capacity, inventory.weightCapacity, item.cls, q, item.cls);
      ResultAccounting(before, inventory.capacity, inventory.weightCapacity, item.cls, q);
      var addResult := inventory.TryAddItem(item);
      given := addResult.actualAmountGiven;
    }
  }
}
