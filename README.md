# SurvivalGame inventory, equipment and weapon core in Dafny

This project models the gameplay core of an Unreal Engine survival game in
Dafny and proves properties of it.

**Modules**

- **Inventory** (`UInventoryComponent`, module `Game`, specified by module `Stacks`)
  - A list of item objects whose stacks have a class and a quantity.
  - An entry capacity and a weight capacity.
  - `TryAddItem_Internal`, which decides how much of an incoming stack is accepted: by entry capacity, then the weight of one unit, then it merges into the first stack of the class, capped by `MaxStackSize` and the weight left, or else appends a copy.
  - `ConsumeItem`, `RemoveItem`, the lookups and the weight sum.
  - The `FItemAddResult` record and its factories (module `ItemAddResults`).
- **Items** (`UItem`, `UEquippableItem`, `UFoodItem`, class `Game.Item`)
  - `SetQuantity` with its clamp.
  - The replication keys (`RepKey`, the inventory's `ReplicatedItemKey`).
  - The editor clamp.
  - `Use` for equippables (the equip/unequip toggle with the slot map) and for food (heal, then consume one unit).
  - `AddedToInventory` auto-equip.
- **Character** (`ASurvivalCharacter`, class `Game.Character`)
  - Health through `ModifyHealth` and `TakeDamage`.
  - The `EquippedItems` slot map (`EquipItem`/`UnEquipItem`).
  - The loot source and `LootItem`, which moves exactly what the player inventory accepted out of the loot source.
  - The aim and sprint guards, and the throwable lookup.
- **Weapon** (`AWeapon`, class `Game.Weapon`, specified by module `WeaponRules`)
  - The `EWeaponState` machine (`DetermineWeaponState`, `SetWeaponState`) with its flags.
  - The `CanFire`/`CanReload` guards.
  - The clip refill of `ReloadWeapon`.
  - Equip and unequip, with the clip returned to the inventory.
  - Start/stop fire and reload.
  - The firing step `HandleFiring` with its burst counter, and the server's `ServerHandleFiring`.
- **Interaction** (`UInteractionComponent`, module `Interaction`)
  - The interactor list (`AddUnique`/`RemoveSingle`) and the `CanInteract` guard.
  - `Deactivate`'s downward walk.
  - The widget visibility on focus.
  - A log of the delegates it broadcasts.
- **Pickup** (`APickup`, module `World`)
  - `InitializePickup`.
  - `OnTakePickup`, which takes a pickup wholly or in part.

State the source changes in place is modelled as Dafny classes with `modifies` frames:

- the inventory's item list;
- the items' quantities and keys;
- the character's slot map and health;
- the weapon's flags, clip and burst counter;
- the interaction component's list;
- the pickup's item.

Each method is specified against a function on values:

- An inventory's `Contents()` is a `seq<Stack>`. `TryAddItem` is proved to leave `Stacks.PlacedContents` of the `Stacks.Place` decision and to return `Stacks.PlacedResult`.
- The weapon's `View()` is a `WeaponRules.WeaponView`. Every transition is proved to equal a `WeaponRules` function.

The properties live as lemmas about those functions:

- capacity and weight refusals;
- the largest-fit merge amount;
- conservation of each class's total;
- quantities staying within `[0, MaxStackSize]`;
- one stack per stackable class;
- clip bounds and ammo conservation;
- coherence of the state machine;
- no duplicate interactors.

Engine questions are explicit `bool` parameters of the methods that ask them: `HasAuthority()` and `IsLocallyControlled()`. Timers are modelled as the callbacks they fire (`StopReload`, `ReloadWeapon`, `OnEquipFinished`, `OnBurstFinished`), invoked explicitly. Floats are Dafny `real`:

- `IsNearlyZero(x)` is `x == 0`;
- `FloorToInt` is `.Floor`;
- integers are unbounded. Quantities, capacities and clip sizes stay far below the 32-bit limit. The one exception is the weight quotient that `FloorToInt` converts, covered under "Left out".

Where the code and a natural reading of its intent disagree, the model follows the code:

- **`AddedSome`** tags its record `IAR_NoItemsAdded` (`ItemAddResults.AddedSome`, `Stacks.PartialMergeReportsNoItemsAdded`).
- **Weight of a new stack.** A new stack is weighed by one unit only, so appending it can carry an inventory past its weight capacity (`Stacks.FreshStackCanExceedWeightCapacity`).
- **Negative `ConsumeItem` requests** are not rejected (`Stacks.NegativeConsumeGrowsStack`).
- **`TakeDamage`** returns `ModifyHealth(-Damage)`, the signed change in health (zero or negative), not the positive amount removed.
- **A reload that ends while the trigger is held** leaves the weapon Idle, not Firing (`WeaponRules.ReloadEndedWhileFiringGoesIdle`).

## Model

| member | source | states |
|---|---|---|
| MathUtil.Clamp | Source/SurvivalGame/Items/Item.cpp:63-71 | FMath::Clamp as SetQuantity applies it: within [lo, hi] when lo <= hi; x itself inside the range, lo below it, hi above it |
| MathUtil.ClampReal | Source/SurvivalGame/Player/SurvivalCharacter.cpp:277-284 | the float clamp ModifyHealth applies to health, with the same four cases |
| MathUtil.Min | Source/SurvivalGame/Weapons/Weapon.cpp:239-250 | FMath::Min: no larger than either argument and equal to one of them |
| MathUtil.AddUnique | Source/SurvivalGame/Components/InteractionComponent.cpp:76-82 | TArray::AddUnique: the element is present afterwards; a present element leaves the list as it was, a new one is appended; a duplicate-free list stays duplicate-free |
| MathUtil.RemoveSingle | Source/SurvivalGame/Components/InventoryComponent.cpp:61-69 | TArray::RemoveSingle: an absent element leaves the list unchanged, a present one shortens it by exactly one |
| MathUtil.RemoveSinglePermutes | Source/SurvivalGame/Components/InteractionComponent.cpp:84-88 | RemoveSingle takes exactly one occurrence out of the multiset of elements, and none when there is none |
| MathUtil.RemoveSingleAt | Source/SurvivalGame/Components/InventoryComponent.cpp:61-69 | RemoveSingle drops exactly the first index that holds the element |
| MathUtil.RemoveSingleUnique | Source/SurvivalGame/Components/InteractionComponent.cpp:84-88 | on a duplicate-free list RemoveSingle drops the one index holding the element, leaves it absent and keeps the list duplicate-free |
| MathUtil.IndexOfDistinct | Source/SurvivalGame/Components/InventoryComponent.cpp:61-69 | in a duplicate-free list the first occurrence of the k-th element is at k |
| MathUtil.IndexOf | Source/SurvivalGame/Components/InventoryComponent.cpp:61-69 | the index RemoveSingle finds: it holds the element and nothing before it does |
| ItemAddResults.AddedNone | Source/SurvivalGame/Components/InventoryComponent.h:40-47 | AmountToGive is the request, ActualAmountGiven 0, result IAR_NoItemsAdded, with the given error |
| ItemAddResults.AddedSome | Source/SurvivalGame/Components/InventoryComponent.h:49-56 | AmountToGive is the request and ActualAmountGiven the amount given; as written the result is IAR_NoItemsAdded |
| ItemAddResults.AddedAll | Source/SurvivalGame/Components/InventoryComponent.h:58-64 | AmountToGive and ActualAmountGiven are both the request, result IAR_AllItemsAdded, no error text |
| Stacks.DefaultClass | Source/SurvivalGame/Items/Item.cpp:46-56 | a class's defaults: weight 0, MaxStackSize 2, stackable unless equippable (EquippableItem.cpp:11-16 turns stacking off) |
| Stacks.QuantityAfterSet | Source/SurvivalGame/Items/Item.cpp:63-71 | SetQuantity on the quantity: a request equal to the current quantity changes nothing; any other lands in [0, MaxStackSize], and an in-range request is taken as is |
| Stacks.FirstOfClass | Source/SurvivalGame/Components/InventoryComponent.cpp:91-99 | FindItemByClass's index: -1 or an entry of the class, with no entry of the class before it |
| Stacks.PlaceIsPlacement | Source/SurvivalGame/Components/InventoryComponent.cpp:197-277 | every decision TryAddItem_Internal takes is a well-formed placement (a merge names an existing stack of the class) |
| Stacks.Place | Source/SurvivalGame/Components/InventoryComponent.cpp:197-271 | the decision TryAddItem_Internal takes, checked in the source's order: entry capacity, then one unit's weight, then merge or append. Anything not refused leaves room for an entry. A merge goes to the first stack of a stackable class, which is below MaxStackSize, and moves a positive amount. An append is for a class that is not stackable or not yet present |
| Stacks.RefusedWhenFull | Source/SurvivalGame/Components/InventoryComponent.cpp:202-204 | a list with no free entry refuses every add, merges included, with AddedNone(InventoryFull), and the stacks are unchanged |
| Stacks.RefusedWhenTooHeavy | Source/SurvivalGame/Components/InventoryComponent.cpp:206-210 | with a free entry, a weighted class whose one unit would exceed the weight capacity is refused and the stacks are unchanged |
| Stacks.PlacedWithinCapacity | Source/SurvivalGame/Components/InventoryComponent.cpp:202-204 | an accepted add found a free entry and leaves the entry count within Capacity; a merge keeps the entry count |
| Stacks.FloorBound | Source/SurvivalGame/Components/InventoryComponent.cpp:226-233 | the FloorToInt weight bound: that many units fit in the weight left |
| Stacks.FloorTight | Source/SurvivalGame/Components/InventoryComponent.cpp:226-233 | the FloorToInt weight bound: one unit more does not fit |
| Stacks.MergeAmountIsLargestFit | Source/SurvivalGame/Components/InventoryComponent.cpp:220-232 | the merge amount is at most the request, keeps the stack within MaxStackSize and, for a weighted class, within the weight capacity; and it is the largest such: it equals the request, fills the stack, or one more unit would break the weight capacity |
| Stacks.MergeShape | Source/SurvivalGame/Components/InventoryComponent.cpp:213-253 | a merge goes into the first stack of a stackable class, adds the merge amount (positive), and carries the weight or stack-room error text |
| Stacks.MergeRefusedOnlyForEmptyRequest | Source/SurvivalGame/Components/InventoryComponent.cpp:239-241 | once the capacity and one-unit weight checks pass and the stack has room, the merge is refused exactly when the request is not positive |
| Stacks.DivAtLeastOne | Source/SurvivalGame/Components/InventoryComponent.cpp:226-233 | when one unit fits in the weight left, the weight bound admits at least one unit |
| Stacks.PlacedKeepsQuantitiesInRange | Source/SurvivalGame/Components/InventoryComponent.cpp:243-246 | after any add every quantity stays within [0, MaxStackSize] |
| Stacks.PlacedKeepsOneStackPerClass | Source/SurvivalGame/Components/InventoryComponent.cpp:213-262 | an add never creates a second stack of a stackable class |
| Stacks.TotalOfClassUpdate | Source/SurvivalGame/Components/InventoryComponent.cpp:243 | changing one entry changes its class's total by the difference of quantities |
| Stacks.TotalOfClassAppend | Source/SurvivalGame/Components/InventoryComponent.cpp:167-185 | appending an entry adds its quantity to its class's total |
| Stacks.TotalOfClassRemove | Source/SurvivalGame/Components/InventoryComponent.cpp:61-69 | dropping an entry takes its quantity off its class's total |
| Stacks.TotalWeightUpdate | Source/SurvivalGame/Components/InventoryComponent.cpp:114-123 | changing one entry changes the weight sum by the difference of the stack weights |
| Stacks.PlacedConservesClassTotal | Source/SurvivalGame/Components/InventoryComponent.cpp:197-277 | an add grows its class's total by exactly the ActualAmountGiven it reports, and no other class's total changes |
| Stacks.MergeRespectsWeightCapacity | Source/SurvivalGame/Components/InventoryComponent.cpp:226-233 | a merge of a weighted class keeps the carried weight within the weight capacity |
| Stacks.StackWeightGrow | Source/SurvivalGame/Items/Item.h:115 | GetStackWeight (Quantity * Weight) grows by n unit weights when the quantity grows by n |
| Stacks.ResultAccounting | Source/SurvivalGame/Components/InventoryComponent.cpp:197-277 | the reported record: AmountToGive is the request; 0 <= ActualAmountGiven <= request; IAR_AllItemsAdded exactly when accepted in full; IAR_NoItemsAdded exactly when refused or short; never IAR_SomeItemsAdded; a refusal gives 0 with its error |
| Stacks.PartialMergeReportsNoItemsAdded | Source/SurvivalGame/Components/InventoryComponent.h:49-56 | a concrete partial merge (1 of 3 units fits) reports IAR_NoItemsAdded though one unit was given |
| Stacks.FreshStackCanExceedWeightCapacity | Source/SurvivalGame/Components/InventoryComponent.cpp:206-210 | a concrete new stack of 3 units of weight 30 is appended to an empty inventory of capacity 80, carrying 90 |
| Stacks.ConsumedAmount | Source/SurvivalGame/Components/InventoryComponent.cpp:37-59 | ConsumeItem's RemoveQuantity: at most the request and at most what the stack holds, and equal to one of them |
| Stacks.RemoveAt | Source/SurvivalGame/Components/InventoryComponent.cpp:61-69 | dropping entry k: one entry fewer, the others in order |
| Stacks.ConsumeAccounting | Source/SurvivalGame/Components/InventoryComponent.cpp:37-59 | for a non-negative request: the stack loses exactly the amount taken; the entry goes exactly when it is emptied; its class's total drops by that amount; other classes keep theirs |
| Stacks.ConsumeKeepsInvariants | Source/SurvivalGame/Components/InventoryComponent.cpp:37-59 | consuming keeps quantities in range and one stack per stackable class |
| Stacks.RemoveAtKeepsInvariants | Source/SurvivalGame/Components/InventoryComponent.cpp:61-69 | dropping an entry keeps quantities in range and one stack per stackable class |
| Stacks.RemoveAtUpdate | Source/SurvivalGame/Components/InventoryComponent.cpp:47-49 | an entry whose quantity was set and then removed leaves the same list as removing it |
| Stacks.NegativeConsumeGrowsStack | Source/SurvivalGame/Components/InventoryComponent.cpp:37-59 | a concrete negative request (-2 on a stack of 3) grows the stack to 5 and reports -2 consumed |
| WeaponRules.StartReloadReloads | Source/SurvivalGame/Weapons/Weapon.cpp:677-687 | an equipped weapon that CanReload and has a reload pending is determined Reloading |
| WeaponRules.CanFire | Source/SurvivalGame/Weapons/Weapon.cpp:252-258 | a weapon that can fire has an owner and is neither reloading nor equipping |
| WeaponRules.CanReload | Source/SurvivalGame/Weapons/Weapon.cpp:260-266 | a weapon that can reload has an owner, room in the clip and ammo in the inventory, and is neither reloading nor equipping |
| WeaponRules.Determined | Source/SurvivalGame/Weapons/Weapon.cpp:671-699 | an unequipped weapon ends Idle or Equipping. Reloading needs the weapon equipped with a reload pending. Firing needs it equipped and either wanting to fire while CanFire holds, or already Firing with a pending reload that cannot start |
| WeaponRules.Refill | Source/SurvivalGame/Weapons/Weapon.cpp:241 | a reload moves no more than the clip has room for and no more than the inventory holds, and it moves one of those two amounts |
| WeaponRules.HandleFiring | Source/SurvivalGame/Weapons/Weapon.cpp:574-619 | HandleFiring never adds to the clip. It leaves the clip size, the inventory ammo, the equipped and trigger flags and the owner as they were |
| WeaponRules.ServerFiring | Source/SurvivalGame/Weapons/Weapon.cpp:544-554 | ServerHandleFiring never adds to the clip, and when a shot was possible beforehand it takes a round out of it. It leaves the clip size and the inventory ammo alone |
| WeaponRules.StopReloadGoesIdle | Source/SurvivalGame/Weapons/Weapon.cpp:230-237 | a Reloading weapon with no equip pending that drops its pending reload is determined Idle, trigger held or not |
| WeaponRules.EquipFinishedSettles | Source/SurvivalGame/Weapons/Weapon.cpp:129-145 | after OnEquipFinished the weapon is equipped with no equip pending and the ammo unchanged; without a pending reload it is not Equipping; a locally controlled owner that can reload ends Reloading with a reload pending |
| WeaponRules.EquipPassesThroughEquipping | Source/SurvivalGame/Weapons/Weapon.cpp:115-127 | an unequipped weapon is Equipping once OnEquip marks the equip pending, and ends equipped with nothing pending |
| WeaponRules.DeterminedIsCoherent | Source/SurvivalGame/Weapons/Weapon.cpp:671-699 | the determined state agrees with the flags (Firing only when firing is wanted and allowed, Reloading only with a reload pending, Equipping only while unequipped or waiting on a reload) |
| WeaponRules.DeterminedWhenUnequipped | Source/SurvivalGame/Weapons/Weapon.cpp:671-699 | an unequipped weapon is Equipping exactly when an equip is pending and Idle otherwise; an equipped weapon is only determined Equipping if it was Equipping with a reload pending |
| WeaponRules.DeterminedWhenEquipped | Source/SurvivalGame/Weapons/Weapon.cpp:677-691 | equipped with a pending reload: Reloading if CanReload, else the current state; otherwise Firing exactly when fire is wanted and CanFire, and Idle in every other case |
| WeaponRules.DeterminedStableExactly | Source/SurvivalGame/Weapons/Weapon.cpp:671-699 | determining twice gives the same state except exactly for an equipped owned weapon with the trigger held, no reload pending and leaving Reloading or Equipping |
| WeaponRules.ReloadEndedWhileFiringGoesIdle | Source/SurvivalGame/Weapons/Weapon.cpp:252-258 | a concrete Reloading weapon with the trigger held is determined Idle, and Firing only on the next determination |
| WeaponRules.PendingReloadCanKeepFiring | Source/SurvivalGame/Weapons/Weapon.cpp:677-687 | a concrete Firing weapon with a full clip and a reload pending keeps Firing |
| WeaponRules.RefillBounds | Source/SurvivalGame/Weapons/Weapon.cpp:239-250 | a positive refill never overfills the clip, is at most the inventory's ammo, and either fills the clip or takes all the ammo |
| WeaponRules.CanReloadMeansPositiveRefill | Source/SurvivalGame/Weapons/Weapon.cpp:260-266 | whenever CanReload holds the refill is positive |
| WeaponRules.ReloadConservesAmmo | Source/SurvivalGame/Weapons/Weapon.cpp:239-250 | a positive refill finds an ammo stack; clip plus the inventory's ammo total is conserved; the clip stays within AmmoPerClip |
| WeaponRules.HandleFiringKeepsRange | Source/SurvivalGame/Weapons/Weapon.cpp:574-619 | HandleFiring keeps the clip within [0, AmmoPerClip] and the burst counter non-negative |
| WeaponRules.StartReloadKeepsCounts | Source/SurvivalGame/Weapons/Weapon.cpp:205-228 | starting a reload leaves the clip, the clip size, the inventory ammo, the equipped and trigger flags and the owner alone, and the burst counter alone or at 0 |
| WeaponRules.HandleFiringSpendsOneRound | Source/SurvivalGame/Weapons/Weapon.cpp:574-619 | HandleFiring spends one round exactly when a locally controlled owner with authority fires a non-empty clip that CanFire; otherwise the clip is unchanged; without authority it is always unchanged |
| WeaponRules.ServerSpendsTheClientsRound | Source/SurvivalGame/Weapons/Weapon.cpp:544-554 | a client without authority fires without spending and counts the shot; the server's ServerHandleFiring spends that round and counts it too |
| WeaponRules.LastRoundStartsReload | Source/SurvivalGame/Weapons/Weapon.cpp:574-619 | firing the last round with ammo in the inventory empties the clip, starts Reloading with a reload pending and stops refiring |
| WeaponRules.RefiringOnlyWhileFiring | Source/SurvivalGame/Weapons/Weapon.cpp:602-616 | for a locally controlled owner, refiring is set exactly when the weapon is still Firing and shots are spaced in time; otherwise refiring only survives if it was set |
| Game.Equipped | Source/SurvivalGame/Player/SurvivalCharacter.cpp:90-95 | the slot map after EquipItem: the item's slot holds it, the other slots are unchanged |
| Game.Unequipped | Source/SurvivalGame/Player/SurvivalCharacter.cpp:97-107 | the slot map after UnEquipItem: only the occupant itself leaves its slot; anything else leaves the map unchanged |
| Game.EquipRoundTrip | Source/SurvivalGame/Player/SurvivalCharacter.cpp:90-107 | equipping into a free slot and unequipping restores the map; unequipping then equipping equals equipping |
| Game.StacksOf | Source/SurvivalGame/Components/InventoryComponent.cpp:114-123 | the stacks of an item list: one per item, in order, with its class and quantity |
| Game.StacksPointwise | Source/SurvivalGame/Components/InventoryComponent.cpp:114-123 | the stacks of a list are determined by its items' classes and quantities |
| Game.StacksAfterRemove | Source/SurvivalGame/Components/InventoryComponent.cpp:61-69 | removing the k-th item drops the k-th stack |
| Game.OwnersAfterRemove | Source/SurvivalGame/Components/InventoryComponent.cpp:61-69 | items that record the inventory as owner still do after one is removed |
| Game.OwnedAfterRemove | Source/SurvivalGame/Components/InventoryComponent.cpp:61-69 | after the k-th item is removed the inventory is owned, holds the old stacks less the k-th, and is valid when it was |
| Game.ValidFromStacks | Source/SurvivalGame/Components/InventoryComponent.cpp:114-123 | a duplicate-free list of owned items whose stacks are in range is owned, and valid with one stack per stackable class |
| Game.ValidAfterUpdate | Source/SurvivalGame/Components/InventoryComponent.cpp:243 | after the k-th item's quantity changes the inventory holds the old stacks with the k-th replaced |
| Game.OwnedAfterAppend | Source/SurvivalGame/Components/InventoryComponent.cpp:167-185 | after AddItem's new entry joins the list the inventory is owned and holds the old stacks plus the new one |
| Game.UntouchedInventory | Source/SurvivalGame/Components/InventoryComponent.cpp:114-123 | an inventory none of whose state changed keeps its validity and its stacks |
| Game.OwnedAfterRemoveSingle | Source/SurvivalGame/Components/InventoryComponent.cpp:61-69 | after RemoveSingle the inventory holds the old stacks less the removed item's (or all of them when it was absent) and stays valid |
| Game.Item.constructor | Source/SurvivalGame/Items/Item.cpp:46-56 | a new item has quantity 1, replication key 0, no inventory, and is not equipped |
| Game.Item.MarkDirtyForReplication | Source/SurvivalGame/Items/Item.cpp:88-97 | RepKey grows by one, and the owning inventory's ReplicatedItemKey by one when there is one |
| Game.Item.SetQuantity | Source/SurvivalGame/Items/Item.cpp:63-71 | the quantity becomes QuantityAfterSet: an equal request changes nothing, not even RepKey; any other request is clamped into [0, MaxStackSize] and marks the item and its inventory dirty exactly once, even when the clamp lands on the old value |
| Game.Item.PostEditQuantity | Source/SurvivalGame/Items/Item.cpp:33-43 | the editor clamp: the quantity lies in [1, MaxStackSize] for a stackable class and is 1 otherwise; an in-range quantity is kept |
| Game.Item.ShouldShowInInventory | Source/SurvivalGame/Items/EquippableItem.cpp:55-58 | an equippable shows exactly when it is not equipped; other items always show (Item.cpp:73-76) |
| Game.Item.Equip | Source/SurvivalGame/Items/EquippableItem.cpp:39-45 | false for a null character; otherwise true, and the character's slot map becomes Equipped |
| Game.Item.UnEquip | Source/SurvivalGame/Items/EquippableItem.cpp:47-53 | true only when the character is not null and this very item occupies its slot; the slot map becomes Unequipped |
| Game.Item.EquipStatusChanged | Source/SurvivalGame/Items/EquippableItem.cpp:80-92 | the outer character's slot map follows the flag: Equipped when equipped, Unequipped otherwise |
| Game.Item.SetEquipped | Source/SurvivalGame/Items/EquippableItem.cpp:72-78 | the flag is stored, the slot map follows it, and the item (with its inventory) is marked dirty once |
| Game.Item.AddedToInventory | Source/SurvivalGame/Items/EquippableItem.cpp:60-70 | an equippable equips itself (and is marked dirty once) exactly when the inventory's owner is a character that is not looting and whose slot is free; otherwise nothing changes (Item.cpp:83-86) |
| Game.Item.UseEquippable | Source/SurvivalGame/Items/EquippableItem.cpp:24-37 | with a character the equipped flag flips; before equipping, a different occupant of the slot is unequipped; the character's slot map is Unequipped or Equipped accordingly; a null character changes nothing |
| Game.Item.UseFood | Source/SurvivalGame/Items/FoodItem.cpp:17-42 | health moves by the heal amount, clamped; exactly one unit is consumed from the character's inventory when health changed, and nothing otherwise; a null character changes nothing |
| Game.Inventory.Contents | Source/SurvivalGame/Components/InventoryComponent.cpp:114-123 | the inventory's stacks: one per item, in order, with its class and quantity |
| Game.Inventory.constructor | Source/SurvivalGame/Components/InventoryComponent.cpp:10-15 | a new inventory is empty, valid, with both keys at 0 |
| Game.Inventory.SetCapacity | Source/SurvivalGame/Components/InventoryComponent.cpp:131-135 | GetCapacity reads back the stored value; nothing else changes |
| Game.Inventory.SetWeightCapacity | Source/SurvivalGame/Components/InventoryComponent.cpp:125-129 | GetWeightCapacity reads back the stored value; nothing else changes |
| Game.Inventory.GetCapacity | Source/SurvivalGame/Components/InventoryComponent.h:129 | the number of entries the inventory may hold, as stored |
| Game.Inventory.GetWeightCapacity | Source/SurvivalGame/Components/InventoryComponent.h:126 | the total weight the inventory may hold, as stored |
| Game.Inventory.FindItemByClass | Source/SurvivalGame/Components/InventoryComponent.cpp:91-99 | the first item of the class, or null when there is none |
| Game.Inventory.FindItem | Source/SurvivalGame/Components/InventoryComponent.cpp:79-89 | null for a null item, else the first item of the same class, or null |
| Game.Inventory.HasItem | Source/SurvivalGame/Components/InventoryComponent.cpp:71-77 | true exactly when the first item of the class holds at least the quantity |
| Game.Inventory.GetCurrentWeight | Source/SurvivalGame/Components/InventoryComponent.cpp:114-123 | the sum of quantity times unit weight over the items |
| Game.Inventory.RemoveItem | Source/SurvivalGame/Components/InventoryComponent.cpp:61-69 | false and no change for a null item; otherwise a single occurrence leaves the list, ReplicatedItemKey grows by one, and the stacks lose exactly that entry |
| Game.Inventory.ConsumeItem | Source/SurvivalGame/Components/InventoryComponent.cpp:37-59 | removes and returns min(request, quantity); the stacks become AfterConsume; the entry leaves the list exactly when its quantity reaches 0 or below; the keys grow by the dirty marks made; a null item returns 0 and changes nothing |
| Game.Inventory.TakeFrom | Source/SurvivalGame/Components/InventoryComponent.cpp:40-45 | the item's quantity drops by the amount taken through SetQuantity and the list itself is unchanged |
| Game.Inventory.ConsumeAll | Source/SurvivalGame/Components/InventoryComponent.cpp:30-35 | the one-argument ConsumeItem always returns 0 and empties and removes a listed item |
| Game.Inventory.AddItem | Source/SurvivalGame/Components/InventoryComponent.cpp:167-185 | a fresh copy of the item's class with the clamped quantity joins the end of the list, owned by this inventory, may equip itself, and marks the list dirty |
| Game.Inventory.MergeLimit | Source/SurvivalGame/Components/InventoryComponent.cpp:220-237 | the amount a merge may add (MergeAmount) and the error text for a short merge |
| Game.Inventory.GrowStack | Source/SurvivalGame/Components/InventoryComponent.cpp:243 | the k-th entry grows through SetQuantity; the inventory stays valid and is marked dirty once |
| Game.Inventory.AddToExistingStack | Source/SurvivalGame/Components/InventoryComponent.cpp:217-258 | the merge branch ends with the stacks and the record Place decides, and the keys grow by the dirty marks made |
| Game.Inventory.MergeIntoStack | Source/SurvivalGame/Components/InventoryComponent.cpp:243-253 | a positive merge amount grows the stack, reports AddedSome or AddedAll, and marks the list dirty once |
| Game.Inventory.TryAddItem | Source/SurvivalGame/Components/InventoryComponent.cpp:197-277 | the stacks become PlacedContents of the Place decision and the record returned is PlacedResult; only an append changes the list, by one fresh entry of the class, which equips itself when AutoEquips holds; validity is kept |
| Game.Inventory.AddWithinLimits | Source/SurvivalGame/Components/InventoryComponent.cpp:213-272 | the branch after the capacity and weight checks: the same outcome as TryAddItem |
| Game.Inventory.AddAsNewEntry | Source/SurvivalGame/Components/InventoryComponent.cpp:260-271 | a new stack or a non-stackable item becomes one new entry and everything asked for is reported given |
| Game.Inventory.TryAddItemFromClass | Source/SurvivalGame/Components/InventoryComponent.cpp:23-28 | a new item of the class with the quantity as SetQuantity clamps it is offered; the stacks and the record are Place's |
| Game.Character.constructor | Source/SurvivalGame/Player/SurvivalCharacter.cpp:33-88 | health full at 100; an inventory of 20 entries and 80 weight; not looting, aiming or sprinting; sprint speed 1.3 times the walking speed |
| Game.Character.ModifyHealth | Source/SurvivalGame/Player/SurvivalCharacter.cpp:277-284 | health becomes clamp(health + delta, 0, MaxHealth) and the change actually applied is returned, between 0 and delta |
| Game.Character.TakeDamage | Source/SurvivalGame/Player/SurvivalCharacter.cpp:517-533 | health drops by the damage, clamped, and the signed change is returned; a killer (the causer's owner, else the character itself) is recorded exactly when health ends at or below 0 |
| Game.Character.Suicide | Source/SurvivalGame/Player/SurvivalCharacter.cpp:366-370 | the character is its own killer |
| Game.Character.KilledByPlayer | Source/SurvivalGame/Player/SurvivalCharacter.cpp:372-376 | the instigator is the killer |
| Game.Character.EquipItem | Source/SurvivalGame/Player/SurvivalCharacter.cpp:90-95 | the item's slot holds it, replacing any occupant; other slots unchanged; returns true |
| Game.Character.UnEquipItem | Source/SurvivalGame/Player/SurvivalCharacter.cpp:97-107 | the slot is emptied and true returned only when this very item occupies it; otherwise false and no change |
| Game.Character.SetLootSource | Source/SurvivalGame/Player/SurvivalCharacter.cpp:178-199 | the loot source is stored, and IsLooting holds exactly when it is not null (lines 201-204) |
| Game.Character.IsLooting | Source/SurvivalGame/Player/SurvivalCharacter.cpp:201-204 | looting exactly while a loot source is set |
| Game.Character.LootItem | Source/SurvivalGame/Player/SurvivalCharacter.cpp:206-226 | only when the loot source holds the item's class and quantity: the player inventory takes what Place accepts, and the loot source gives up exactly that amount, nothing when 0 was given; otherwise both inventories are unchanged. For an item of the loot source, the class total across the two inventories is unchanged |
| Game.Character.TransferFrom | Source/SurvivalGame/Player/SurvivalCharacter.cpp:210-214 | TryAddItem into the player inventory, then ConsumeItem of the amount given from the loot source. For an item of the loot source, the units that leave it are exactly those the player inventory gains, so the class total across the two is unchanged |
| Game.Character.OfferToPlayer | Source/SurvivalGame/Player/SurvivalCharacter.cpp:210 | the player inventory takes the item as Place decides and the loot source is untouched |
| Game.Character.ConsumeLooted | Source/SurvivalGame/Player/SurvivalCharacter.cpp:212-214 | the loot source gives up the amount given and the player inventory is untouched |
| Game.Character.SetAiming | Source/SurvivalGame/Player/SurvivalCharacter.cpp:616-626 | aiming is set only when it changes and, for turning it on, only with an equipped weapon; otherwise no change |
| Game.Character.CanAim | Source/SurvivalGame/Player/SurvivalCharacter.cpp:599-602 | aiming is possible exactly when a weapon is equipped |
| Game.Character.SetSprinting | Source/SurvivalGame/Player/SurvivalCharacter.cpp:749-762 | sprinting starts only when not aiming; the walk speed follows a change and is untouched otherwise |
| Game.Character.CanSprint | Source/SurvivalGame/Player/SurvivalCharacter.cpp:734-737 | sprinting is possible exactly when not aiming |
| Game.Character.GetThrowable | Source/SurvivalGame/Player/SurvivalCharacter.cpp:428-435 | the occupant of the throwable slot when it is a throwable, else null |
| Game.Character.CanUseThrowable | Source/SurvivalGame/Player/SurvivalCharacter.cpp:485-488 | true exactly when a throwable is equipped and names the class it throws |
| Game.Weapon.constructor | Source/SurvivalGame/Weapons/Weapon.cpp:24-57 | a new weapon is Idle, unequipped, with nothing pending or wanted, an empty clip and no burst |
| Game.Weapon.WithDefaultData | Source/SurvivalGame/Weapons/Weapon.h:38-41 | FWeaponData's defaults: 20 rounds per clip and 0.2 s between shots |
| Game.Weapon.GetCurrentAmmo | Source/SurvivalGame/Weapons/Weapon.cpp:273-284 | the quantity of the first ammo item in the owner's inventory, 0 without an owner or ammo |
| Game.Weapon.CanFire | Source/SurvivalGame/Weapons/Weapon.cpp:252-258 | true exactly when there is an owner, the state is Idle or Firing and no reload is pending |
| Game.Weapon.CanReload | Source/SurvivalGame/Weapons/Weapon.cpp:260-266 | true exactly when there is an owner, the clip is below AmmoPerClip, the inventory holds ammo and the state is Idle or Firing |
| Game.Weapon.OnBurstFinished | Source/SurvivalGame/Weapons/Weapon.cpp:635-651 | the burst counter is 0 and refiring stops |
| Game.Weapon.SetWeaponState | Source/SurvivalGame/Weapons/Weapon.cpp:654-669 | the new state is always stored; leaving Firing finishes the burst (counter 0 and no refiring). Otherwise the counter and the flag are kept here, because the shot `OnBurstStarted` fires on entering Firing is left to the caller (see Left out) |
| Game.Weapon.DetermineWeaponState | Source/SurvivalGame/Weapons/Weapon.cpp:671-699 | the state becomes WeaponRules.Determined of the old flags, and leaving Firing resets the burst; entering Firing does not fire the first shot here (see Left out) |
| Game.Weapon.StartFire | Source/SurvivalGame/Weapons/Weapon.cpp:181-191 | the trigger is held afterwards; only a change of the flag redetermines the state, so a second call changes nothing. The clip and burst counter are kept: the first shot of a burst it starts is left to the caller (see Left out) |
| Game.Weapon.StopFire | Source/SurvivalGame/Weapons/Weapon.cpp:193-203 | the trigger is released afterwards; only a change of the flag redetermines the state |
| Game.Weapon.StartReload | Source/SurvivalGame/Weapons/Weapon.cpp:205-228 | a forced reload or one CanReload allows marks the reload pending and redetermines the state; otherwise nothing changes; the result is WeaponRules.StartReloadStep |
| Game.Weapon.StopReload | Source/SurvivalGame/Weapons/Weapon.cpp:230-237 | a Reloading weapon drops its pending reload and redetermines the state; in any other state nothing changes |
| Game.Weapon.ConsumeAmmo | Source/SurvivalGame/Weapons/Weapon.cpp:95-104 | with authority, the first ammo stack gives up the amount as ConsumeItem does; without authority or ammo the inventory is unchanged |
| Game.Weapon.ConsumeFromFirstStack | Source/SurvivalGame/Weapons/Weapon.cpp:98-102 | the first ammo stack, if any, gives up the amount |
| Game.Weapon.ReloadWeapon | Source/SurvivalGame/Weapons/Weapon.cpp:239-250 | refill = min(AmmoPerClip - clip, inventory ammo); a positive refill grows the clip by it and takes it out of the first ammo stack; otherwise nothing changes; the clip stays within AmmoPerClip |
| Game.Weapon.LoadClip | Source/SurvivalGame/Weapons/Weapon.cpp:243-246 | the clip grows by the refill and the first ammo stack loses it |
| Game.Weapon.ReturnAmmoToInventory | Source/SurvivalGame/Weapons/Weapon.cpp:106-113 | with authority a positive clip is offered to the owner's inventory as a new ammo item, placed as Place decides; otherwise the inventory is unchanged |
| Game.Weapon.ClearForUnEquip | Source/SurvivalGame/Weapons/Weapon.cpp:149-165 | all four flags are cleared and a burst in progress is finished when the weapon leaves Firing |
| Game.Weapon.OnUnEquip | Source/SurvivalGame/Weapons/Weapon.cpp:147-169 | bIsEquipped, bWantsToFire, bPendingReload and bPendingEquip end false and the state Idle; a Firing weapon's burst is reset; the clip ammo is returned to the inventory with authority |
| Game.Weapon.OnEquipFinished | Source/SurvivalGame/Weapons/Weapon.cpp:129-145 | the result is WeaponRules.EquipFinished: equipped, no equip pending, state determined, and a locally controlled owner that can reload starts reloading |
| Game.Weapon.ReloadIfLocal | Source/SurvivalGame/Weapons/Weapon.cpp:139-143 | a locally controlled owner that can reload starts reloading; otherwise nothing changes |
| Game.Weapon.OnEquip | Source/SurvivalGame/Weapons/Weapon.cpp:115-127 | the result is WeaponRules.Equip: an equip is marked pending, the state determined, and the equip finished |
| Game.Weapon.UseClipAmmo | Source/SurvivalGame/Weapons/Weapon.cpp:88-93 | with authority one round leaves the clip (unchecked, as written); without it nothing changes |
| Game.Weapon.ShotOrReload | Source/SurvivalGame/Weapons/Weapon.cpp:576-600 | the shot-or-reload half of HandleFiring, equal to WeaponRules.ShotOrReload |
| Game.Weapon.FireRound | Source/SurvivalGame/Weapons/Weapon.cpp:576-588 | a locally controlled shot: one round leaves the clip with authority, and the burst counter grows |
| Game.Weapon.ReloadOrEndBurst | Source/SurvivalGame/Weapons/Weapon.cpp:589-600 | without a shot: a reload starts if one can; failing that a local owner's burst ends |
| Game.Weapon.FiringTail | Source/SurvivalGame/Weapons/Weapon.cpp:602-616 | an empty clip starts a reload, and refiring is set exactly while Firing with shots spaced in time, as WeaponRules.FiringTail |
| Game.Weapon.ReloadWhenEmpty | Source/SurvivalGame/Weapons/Weapon.cpp:607-609 | an empty clip starts a reload when CanReload allows one |
| Game.Weapon.HandleFiring | Source/SurvivalGame/Weapons/Weapon.cpp:574-619 | the weapon after HandleFiring is WeaponRules.HandleFiring of the weapon before, and the clip and burst counter stay in range |
| Game.Weapon.ServerHandleFiring | Source/SurvivalGame/Weapons/Weapon.cpp:544-554 | the weapon after ServerHandleFiring is WeaponRules.ServerFiring: HandleFiring, then one round spent and counted when a shot was possible |
| Interaction.DeactivateBroadcastsCons | Source/SurvivalGame/Components/InteractionComponent.cpp:109-121 | walking one interactor further down appends that interactor's end-focus and end-interact broadcasts |
| Interaction.DeactivateEndsEachOnce | Source/SurvivalGame/Components/InteractionComponent.cpp:109-121 | Deactivate on a duplicate-free list without nulls broadcasts two events per interactor, ending each interactor's focus and interaction exactly once, and nothing for anyone else |
| Interaction.BeginThenEndRestores | Source/SurvivalGame/Components/InteractionComponent.cpp:76-88 | BeginInteract then EndInteract of a character that was not interacting restores the interactors |
| Interaction.RemoveSingleAfterAppend | Source/SurvivalGame/Components/InteractionComponent.cpp:84-88 | RemoveSingle of an element just appended (and absent before) gives back the list |
| Interaction.WellFormedPrefix | Source/SurvivalGame/Components/InteractionComponent.cpp:109-121 | any prefix of a duplicate-free list without nulls is one too |
| Interaction.InteractionComponent.constructor | Source/SurvivalGame/Components/InteractionComponent.cpp:7-23 | the defaults: interaction time 0, distance 200, several interactors allowed, active, hidden, name "Interactable Object" and action "Interact" |
| Interaction.InteractionComponent.CanInteract | Source/SurvivalGame/Components/InteractionComponent.cpp:123-129 | only a non-null character on an active, owned component is admitted, and a component that allows a single interactor admits one only while nobody is interacting |
| Interaction.InteractionComponent.BeginInteract | Source/SurvivalGame/Components/InteractionComponent.cpp:76-82 | an admitted character joins the interactors once (AddUnique) and the begin event is broadcast; otherwise nothing changes; no duplicates arise, and a single-interactor component keeps at most one |
| Interaction.InteractionComponent.EndInteract | Source/SurvivalGame/Components/InteractionComponent.cpp:84-88 | a single occurrence of the character leaves (RemoveSingle); the others stay; the end event is broadcast |
| Interaction.InteractionComponent.Interact | Source/SurvivalGame/Components/InteractionComponent.cpp:90-95 | the interact event is broadcast exactly when CanInteract holds |
| Interaction.InteractionComponent.BeginFocus | Source/SurvivalGame/Components/InteractionComponent.cpp:34-57 | an inactive or unowned component, or a null character, changes nothing; otherwise the widget shows and a begin-focus event is broadcast |
| Interaction.InteractionComponent.EndFocus | Source/SurvivalGame/Components/InteractionComponent.cpp:59-74 | the widget is hidden and an end-focus event is broadcast |
| Interaction.InteractionComponent.Deactivate | Source/SurvivalGame/Components/InteractionComponent.cpp:109-121 | the component is inactive and its interactors empty; the broadcasts are exactly DeactivateBroadcasts of the old list, last interactor first |
| Interaction.InteractionComponent.EndOne | Source/SurvivalGame/Components/InteractionComponent.cpp:113-117 | one step of Deactivate's walk: the top interactor ends its focus and interaction and is the one entry removed |
| World.Pickup.constructor | Source/SurvivalGame/World/Pickup.cpp:14-31 | a new pickup holds no item; its interaction component takes 0.5 s at up to 200 units and reads "Pickup" and "Take" |
| World.Pickup.InitializePickup | Source/SurvivalGame/World/Pickup.cpp:33-44 | with authority, a class and a positive quantity, a new item outside any inventory holds the quantity as SetQuantity clamps it; otherwise the item is unchanged |
| World.Pickup.OnTakePickup | Source/SurvivalGame/World/Pickup.cpp:125-148 | a null taker, no authority, a destroyed pickup or no item change nothing; otherwise the taker's stacks are as Place decides; a partial take leaves the pickup with exactly the rest, a whole take destroys it; the class total plus what remains is conserved |
| World.Pickup.GiveTo | Source/SurvivalGame/World/Pickup.cpp:135-145 | the taking branch: the taker's stacks are as Place decides, the pickup keeps the rest or is destroyed, and the total is conserved |
| World.Pickup.KeepRest | Source/SurvivalGame/World/Pickup.cpp:137-144 | once the inventory took part of the item, the pickup keeps exactly the rest and stays. Once it took all of it, the pickup is destroyed; it never took more. The held item stays valid |
| World.Pickup.Offer | Source/SurvivalGame/World/Pickup.cpp:136 | TryAddItem of the pickup's item: the inventory grows by exactly the amount given, which lies between 0 and the item's quantity, and the item stays outside |

## Left out

- Networking: server RPCs, multicasts, `OnRep_*` handlers and `ReplicateSubobjects` are engine transport. The client-side `Server*` forwarding branches are not modelled. `ServerHandleFiring` is a method the caller invokes on the server.
- `HasAuthority()` and `IsLocallyControlled()` are engine queries. They appear as `bool` parameters where a branch depends on them. The source's dedicated-server tests only gate effects, and are left out with them. The inventory operations, `UseFood`/`UseEquippable` and `LootItem` are modelled on the server branch, where authority holds.
- `ReloadWeapon` runs only from the reload timer that `StartReload` sets with authority. So `LoadClip` consumes the ammo with authority.
- Game.Weapon.SetWeaponState: entering Firing does not call `OnBurstStarted` (Weapon.cpp:621-633, 665-668). In the source that call runs `HandleFiring` at once, unless `LastFireTime` plus `TimeBetweenShots` lies in the future. This applies to `Game.Weapon.DetermineWeaponState` and `Game.Weapon.StartFire` too. In the source, `StartFire` on an Idle weapon that can fire spends a round and raises `BurstCounter` at once, for a locally controlled owner with authority. Here it only changes the state, and the caller invokes `Game.Weapon.HandleFiring` for that first shot. Folding the call in would make `SetWeaponState`, `HandleFiring` and `StartReload` mutually recursive.
- Stacks.MergeAmount: `FMath::FloorToInt` converts the weight quotient `(WeightCapacity - GetCurrentWeight()) / Weight` to a 32-bit int (InventoryComponent.cpp:228). A weight just above `IsNearlyZero`'s tolerance can make that quotient exceed 2^31, and then the conversion is not the exact floor. `MergeAmount` uses the unbounded `.Floor`. So the model does not reproduce the wrong, possibly negative, bound that such an out-of-range conversion gives in the source. `Game.Inventory.MergeLimit` inherits this.
- Timers are not modelled: reload, refire, equip and interaction timers, `OnBurstStarted`'s delay, `HandleReFiring`'s slack time, and `LastFireTime`. Their callbacks are methods invoked explicitly.
- `FireShot`, weapon traces, hits and melee sweeps are engine queries over float vectors. A shot is modelled only by its effect on the clip and the burst counter.
- Meshes, animation, sounds, muzzle effects, outlines, widgets and `RefreshWidget`, notifications, HUD text and the out-of-ammo sound are presentation only.
- Delegate broadcasts of the inventory (`OnInventoryUpdated`), `ClientRefreshInventory` and the item's `OnItemModified` are not modelled. The interaction component's delegates are kept as a log of broadcasts. Binding `OnInteract` to `OnTakePickup` is left to the caller.
- Engine object lifecycle: `NewObject` becomes `new`. `Destroy()` on a pickup becomes a `destroyed` flag. Life-span extension of a loot source's owner is not modelled.
- `SetPawnOwner`: the weapon's owner is fixed at construction.
- `GetInteractionPercentage`, the player controller's recoil and interpolated aiming feel are floating-point rendering logic.
- `FindItemsByClass`'s `IsChildOf` test needs class inheritance, which is not modelled. Class identity is `ItemClass` equality.
- Float rounding is not modelled. Weights and health are exact reals, `IsNearlyZero` is `== 0` and `FloorToInt` is `.Floor`.
- Game.Weapon.ReturnAmmoToInventory: the engine `ensure` that the new stack fits `MaxStackSize` is not modelled. The quantity is whatever `SetQuantity` clamps.
