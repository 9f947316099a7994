/** The value-level view of an inventory: item classes, the stacks an
    inventory holds, and the decisions the inventory takes when a stack is
    added or consumed. The imperative inventory in module Game is specified
    by these functions. */
module Stacks {
  import opened MathUtil
  import opened ItemAddResults

  /** EEquippableSlot: the body slots an equippable item occupies. */
  datatype Slot = Head | Helmet | Chest | Legs | Feet | Vest | Hands | Backpack | Throwable

  /** What a class of item does when used. */
  datatype ItemKind =
    | Plain
    | Food(healAmount: real)
    | Equippable(slot: Slot, isThrowable: bool, hasThrowableClass: bool)

  type Weight = w: real | 0.0 <= w

  type StackLimit = n: int | 1 <= n witness 1

  /** A class of item (TSubclassOf<UItem>) with its per-class settings. Two
      items are of the same class exactly when their ItemClass values agree. */
  datatype ItemClass = ItemClass(
    id: nat,
    kind: ItemKind,
    weight: Weight,
    stackable: bool,
    maxStackSize: StackLimit)

  /** One inventory entry: an item of some class and its quantity. */
  datatype Stack = Stack(cls: ItemClass, quantity: int)

  const DefaultWeight: real := 0.0
  const DefaultMaxStackSize: int := 2
  const DefaultHealAmount: real := 20.0

  /** The settings an item class starts from: weightless, stackable up to two;
      an equippable class turns stacking off and a food class heals 20. */
  function DefaultClass(id: nat, kind: ItemKind): (c: ItemClass)
    ensures c.id == id && c.kind == kind
    ensures c.weight == 0.0 && c.maxStackSize == 2
    ensures c.stackable <==> !kind.Equippable?
  {
    ItemClass(id, kind, DefaultWeight, !kind.Equippable?, DefaultMaxStackSize)
  }

  /** UItem::SetQuantity on the quantity alone: a request equal to the current
      quantity is ignored, any other is clamped to [0, MaxStackSize]. */
  function QuantityAfterSet(current: int, requested: int, maxStackSize: int): (q: int)
    requires 1 <= maxStackSize
    ensures requested == current ==> q == current
    ensures requested != current ==> 0 <= q <= maxStackSize
    ensures 0 <= requested <= maxStackSize ==> q == requested
  {
    if requested != current then Clamp(requested, 0, maxStackSize) else current
  }

  /** UItem::GetStackWeight. */
  function StackWeight(s: Stack): real
  {
    s.quantity as real * s.cls.weight
  }

  /** Sum of the stack weights, accumulated from the front as the inventory's
      weight loop does. */
  function TotalWeight(cs: seq<Stack>): real
  {
    if cs == [] then 0.0 else TotalWeight(cs[..|cs| - 1]) + StackWeight(cs[|cs| - 1])
  }

  /** Total quantity held of one class, over all its stacks. */
  function TotalOfClass(cs: seq<Stack>, cls: ItemClass): int
  {
    if cs == [] then 0
    else TotalOfClass(cs[..|cs| - 1], cls) + (if cs[|cs| - 1].cls == cls then cs[|cs| - 1].quantity else 0)
  }

  /** Index of the first stack of the class, or -1 when there is none. */
  function FirstOfClass(cs: seq<Stack>, cls: ItemClass): (k: int)
    ensures -1 <= k < |cs|
    ensures 0 <= k ==> cs[k].cls == cls
    ensures forall j :: 0 <= j < |cs| && (k < 0 || j < k) ==> cs[j].cls != cls
  {
    if cs == [] then -1
    else if cs[0].cls == cls then 0
    else
      var k := FirstOfClass(cs[1..], cls);
      assert forall j :: 1 <= j < |cs| ==> cs[j] == cs[1..][j - 1];
      if k < 0 then -1 else k + 1
  }

  /** Quantity of the first stack of the class, 0 when there is none. */
  function QuantityOfFirst(cs: seq<Stack>, cls: ItemClass): int
  {
    var k := FirstOfClass(cs, cls);
    if k < 0 then 0 else cs[k].quantity
  }

  /** Every stack's quantity lies in [0, MaxStackSize]. */
  predicate QuantitiesInRange(cs: seq<Stack>)
  {
    forall i :: 0 <= i < |cs| ==> 0 <= cs[i].quantity <= cs[i].cls.maxStackSize
  }

  /** A stackable class occupies at most one entry. */
  predicate OneStackPerStackableClass(cs: seq<Stack>)
  {
    forall i, j :: 0 <= i < j < |cs| && cs[i].cls.stackable ==> cs[i].cls != cs[j].cls
  }

  // ---------------------------------------------------------------------
  // Adding a stack

  /** Where an incoming stack goes. */
  datatype Placement =
    | Refused(error: AddError)
    | MergeInto(index: nat, amount: int, partialError: AddError)
    | Append

  /** How many units a merge into a stack holding `held` may add: bounded by
      the request, the room left in the stack and, for a weighted class, the
      whole units the remaining weight capacity admits. */
  function MergeAmount(cs: seq<Stack>, weightCapacity: real, cls: ItemClass, held: int, amount: int): int
  {
    var byStack := Min(amount, cls.maxStackSize - held);
    if cls.weight != 0.0 then Min(byStack, ((weightCapacity - TotalWeight(cs)) / cls.weight).Floor)
    else byStack
  }

  /** The decision of UInventoryComponent::TryAddItem_Internal, in the same
      order: entry capacity, one unit's weight, then merge or append. */
  function Place(cs: seq<Stack>, capacity: int, weightCapacity: real, cls: ItemClass, amount: int): (p: Placement)
    ensures !p.Refused? ==> |cs| < capacity
    ensures p.MergeInto? ==> && cls.stackable && p.index == FirstOfClass(cs, cls) && 0 <= p.index < |cs|
                             && cs[p.index].quantity < cls.maxStackSize && 0 < p.amount
    ensures p == Append ==> !cls.stackable || FirstOfClass(cs, cls) < 0
  {
    if |cs| + 1 > capacity then Refused(InventoryFull)
    else if cls.weight != 0.0 && TotalWeight(cs) + cls.weight > weightCapacity then Refused(TooMuchWeight)
    else if cls.stackable then
      var k := FirstOfClass(cs, cls);
      if k < 0 then Append
      else if cs[k].quantity < cls.maxStackSize then
        var n := MergeAmount(cs, weightCapacity, cls, cs[k].quantity, amount);
        if n <= 0 then Refused(CouldNotAddItem)
        else MergeInto(k, n, if cls.weight != 0.0 then StackTooHeavy else StackNoRoom)
      else Refused(AlreadyFullStack)
    else Append
  }

  /** A placement as computed by Place for this request. */
  predicate IsPlacement(cs: seq<Stack>, cls: ItemClass, p: Placement)
  {
    p.MergeInto? ==> p.index < |cs| && cs[p.index].cls == cls
  }

  lemma PlaceIsPlacement(cs: seq<Stack>, capacity: int, weightCapacity: real, cls: ItemClass, amount: int)
    ensures IsPlacement(cs, cls, Place(cs, capacity, weightCapacity, cls, amount))
  {
  }

  /** The stacks after a placement: a merge sets the existing stack through
      SetQuantity, an append adds a fresh item (quantity 1) whose quantity is
      then set to the request. */
  function PlacedContents(cs: seq<Stack>, cls: ItemClass, amount: int, p: Placement): seq<Stack>
    requires IsPlacement(cs, cls, p)
  {
    match p
    case Refused(_) => cs
    case MergeInto(k, n, _) =>
      cs[k := Stack(cs[k].cls, QuantityAfterSet(cs[k].quantity, cs[k].quantity + n, cs[k].cls.maxStackSize))]
    case Append => cs + [Stack(cls, QuantityAfterSet(1, amount, cls.maxStackSize))]
  }

  /** The record reported for a placement. */
  function PlacedResult(amount: int, p: Placement): ItemAddResult
  {
    match p
    case Refused(e) => AddedNone(amount, e)
    case MergeInto(_, n, e) => if n < amount then AddedSome(amount, n, e) else AddedAll(amount)
    case Append => AddedAll(amount)
  }

  // ---------------------------------------------------------------------
  // Lemmas about adding

  /** A refused add leaves the stacks as they were. The entry check comes
      first, so a full inventory refuses even a request that would only have
      grown an existing stack. */
  lemma RefusedWhenFull(cs: seq<Stack>, capacity: int, weightCapacity: real, cls: ItemClass, amount: int)
    requires |cs| + 1 > capacity
    ensures Place(cs, capacity, weightCapacity, cls, amount) == Refused(InventoryFull)
    ensures PlacedContents(cs, cls, amount, Place(cs, capacity, weightCapacity, cls, amount)) == cs
    ensures PlacedResult(amount, Place(cs, capacity, weightCapacity, cls, amount)) == AddedNone(amount, InventoryFull)
  {
  }

  /** With a free entry, a weighted unit that does not fit is refused. */
  lemma RefusedWhenTooHeavy(cs: seq<Stack>, capacity: int, weightCapacity: real, cls: ItemClass, amount: int)
    requires |cs| + 1 <= capacity
    requires cls.weight != 0.0 && TotalWeight(cs) + cls.weight > weightCapacity
    ensures Place(cs, capacity, weightCapacity, cls, amount) == Refused(TooMuchWeight)
    ensures PlacedContents(cs, cls, amount, Place(cs, capacity, weightCapacity, cls, amount)) == cs
  {
  }

  /** Any accepted add finds the inventory below its entry capacity and keeps
      the entry count within it; a merge keeps the entry count. */
  lemma PlacedWithinCapacity(cs: seq<Stack>, capacity: int, weightCapacity: real, cls: ItemClass, amount: int)
    requires !Place(cs, capacity, weightCapacity, cls, amount).Refused?
    ensures |cs| < capacity
    ensures |PlacedContents(cs, cls, amount, Place(cs, capacity, weightCapacity, cls, amount))| <= capacity
    ensures Place(cs, capacity, weightCapacity, cls, amount).MergeInto? ==>
      |PlacedContents(cs, cls, amount, Place(cs, capacity, weightCapacity, cls, amount))| == |cs|
  {
  }

  lemma FloorBound(x: real, w: real, n: int)
    requires 0.0 < w && n <= (x / w).Floor
    ensures n as real * w <= x
  {
    assert n as real <= x / w;
    assert n as real * w <= (x / w) * w;
  }

  lemma FloorTight(x: real, w: real, n: int)
    requires 0.0 < w && n == (x / w).Floor
    ensures x < (n + 1) as real * w
  {
    assert x / w < (n + 1) as real;
    assert (x / w) * w < (n + 1) as real * w;
  }

  /** The merge amount is the largest that fits: within the request, within
      the room left in the stack and, for a weighted class, within the
      remaining weight capacity; one unit more breaks one of these bounds. */
  lemma MergeAmountIsLargestFit(cs: seq<Stack>, weightCapacity: real, cls: ItemClass, held: int, amount: int)
    ensures var n := MergeAmount(cs, weightCapacity, cls, held, amount);
      && n <= amount && held + n <= cls.maxStackSize
      && (cls.weight != 0.0 ==> TotalWeight(cs) + n as real * cls.weight <= weightCapacity)
      && (n == amount || held + n == cls.maxStackSize
          || (cls.weight != 0.0 && weightCapacity < TotalWeight(cs) + (n + 1) as real * cls.weight))
  {
    var n := MergeAmount(cs, weightCapacity, cls, held, amount);
    var byStack := Min(amount, cls.maxStackSize - held);
    if cls.weight != 0.0 {
      var room := weightCapacity - TotalWeight(cs);
      var f := (room / cls.weight).Floor;
      FloorBound(room, cls.weight, n);
      if n != byStack {
        assert n == f;
        FloorTight(room, cls.weight, f);
      }
    }
  }

  /** A merge picks the first stack of a stackable class and adds
      MergeAmount of it, a positive amount (see MergeAmountIsLargestFit). */
  lemma MergeShape(cs: seq<Stack>, capacity: int, weightCapacity: real, cls: ItemClass, amount: int)
    requires Place(cs, capacity, weightCapacity, cls, amount).MergeInto?
    ensures cls.stackable && 0 <= FirstOfClass(cs, cls)
    ensures var k := FirstOfClass(cs, cls);
      Place(cs, capacity, weightCapacity, cls, amount)
        == MergeInto(k, MergeAmount(cs, weightCapacity, cls, cs[k].quantity, amount),
                     if cls.weight != 0.0 then StackTooHeavy else StackNoRoom)
      && 0 < MergeAmount(cs, weightCapacity, cls, cs[k].quantity, amount)
  {
  }

  /** With the one-unit weight check passed, a merge into a stack with room is
      refused exactly when the request is not positive. */
  lemma MergeRefusedOnlyForEmptyRequest(cs: seq<Stack>, capacity: int, weightCapacity: real, cls: ItemClass, amount: int)
    requires |cs| + 1 <= capacity && cls.stackable
    requires !(cls.weight != 0.0 && TotalWeight(cs) + cls.weight > weightCapacity)
    requires 0 <= FirstOfClass(cs, cls) && cs[FirstOfClass(cs, cls)].quantity < cls.maxStackSize
    ensures Place(cs, capacity, weightCapacity, cls, amount) == Refused(CouldNotAddItem) <==> amount <= 0
  {
    var k := FirstOfClass(cs, cls);
    var n := MergeAmount(cs, weightCapacity, cls, cs[k].quantity, amount);
    assert Place(cs, capacity, weightCapacity, cls, amount)
      == if n <= 0 then Refused(CouldNotAddItem)
         else MergeInto(k, n, if cls.weight != 0.0 then StackTooHeavy else StackNoRoom);
    var byStack := Min(amount, cls.maxStackSize - cs[k].quantity);
    if cls.weight != 0.0 {
      var room := weightCapacity - TotalWeight(cs);
      DivAtLeastOne(room, cls.weight);
      var f := (room / cls.weight).Floor;
      assert 1 <= f;
      assert n == Min(byStack, f);
    } else {
      assert n == byStack;
    }
  }

  lemma DivAtLeastOne(x: real, w: real)
    requires 0.0 < w <= x
    ensures 1.0 <= x / w
  {
    var q := x / w;
    assert q * w == x;
  }

  /** Adding keeps every quantity within [0, MaxStackSize]. */
  lemma PlacedKeepsQuantitiesInRange(cs: seq<Stack>, cls: ItemClass, amount: int, p: Placement)
    requires IsPlacement(cs, cls, p) && QuantitiesInRange(cs)
    ensures QuantitiesInRange(PlacedContents(cs, cls, amount, p))
  {
  }

  /** Adding never creates a second stack of a stackable class. */
  lemma PlacedKeepsOneStackPerClass(cs: seq<Stack>, capacity: int, weightCapacity: real, cls: ItemClass, amount: int)
    requires OneStackPerStackableClass(cs)
    ensures OneStackPerStackableClass(PlacedContents(cs, cls, amount, Place(cs, capacity, weightCapacity, cls, amount)))
  {
    var p := Place(cs, capacity, weightCapacity, cls, amount);
    var r := PlacedContents(cs, cls, amount, p);
    if p.Append? {
      assert cls.stackable ==> FirstOfClass(cs, cls) < 0;
      assert forall i :: 0 <= i < |cs| ==> r[i] == cs[i];
    }
  }

  lemma {:induction false} TotalOfClassUpdate(cs: seq<Stack>, k: nat, s: Stack, cls: ItemClass)
    requires k < |cs|
    ensures TotalOfClass(cs[k := s], cls) ==
      TotalOfClass(cs, cls) - (if cs[k].cls == cls then cs[k].quantity else 0) + (if s.cls == cls then s.quantity else 0)
  {
    var n := |cs| - 1;
    if k < n {
      assert cs[k := s][..n] == cs[..n][k := s];
      TotalOfClassUpdate(cs[..n], k, s, cls);
    } else {
      assert cs[k := s][..n] == cs[..n];
    }
  }

  lemma TotalOfClassAppend(cs: seq<Stack>, s: Stack, cls: ItemClass)
    ensures TotalOfClass(cs + [s], cls) == TotalOfClass(cs, cls) + (if s.cls == cls then s.quantity else 0)
  {
    assert (cs + [s])[..|cs|] == cs;
  }

  lemma {:induction false} TotalOfClassRemove(cs: seq<Stack>, k: nat, cls: ItemClass)
    requires k < |cs|
    ensures TotalOfClass(cs[..k] + cs[k + 1..], cls) ==
      TotalOfClass(cs, cls) - (if cs[k].cls == cls then cs[k].quantity else 0)
  {
    var n := |cs| - 1;
    if k == n {
      assert cs[..k] + cs[k + 1..] == cs[..n];
    } else {
      var r := cs[..k] + cs[k + 1..];
      assert r[..|r| - 1] == cs[..n][..k] + cs[..n][k + 1..];
      assert r[|r| - 1] == cs[n];
      TotalOfClassRemove(cs[..n], k, cls);
    }
  }

  lemma {:induction false} TotalWeightUpdate(cs: seq<Stack>, k: nat, s: Stack)
    requires k < |cs|
    ensures TotalWeight(cs[k := s]) == TotalWeight(cs) - StackWeight(cs[k]) + StackWeight(s)
  {
    var n := |cs| - 1;
    if k < n {
      assert cs[k := s][..n] == cs[..n][k := s];
      TotalWeightUpdate(cs[..n], k, s);
    } else {
      assert cs[k := s][..n] == cs[..n];
    }
  }

  /** What is added of the class is exactly what the result reports as given,
      and no other class changes. */
  lemma PlacedConservesClassTotal(cs: seq<Stack>, capacity: int, weightCapacity: real, cls: ItemClass, amount: int,
                                  other: ItemClass)
    requires QuantitiesInRange(cs) && 0 <= amount <= cls.maxStackSize
    ensures var p := Place(cs, capacity, weightCapacity, cls, amount);
      TotalOfClass(PlacedContents(cs, cls, amount, p), cls)
        == TotalOfClass(cs, cls) + PlacedResult(amount, p).actualAmountGiven
    ensures var p := Place(cs, capacity, weightCapacity, cls, amount);
      other != cls ==> TotalOfClass(PlacedContents(cs, cls, amount, p), other) == TotalOfClass(cs, other)
  {
    var p := Place(cs, capacity, weightCapacity, cls, amount);
    match p
    case Refused(_) =>
    case MergeInto(k, n, _) =>
      MergeShape(cs, capacity, weightCapacity, cls, amount);
      MergeAmountIsLargestFit(cs, weightCapacity, cls, cs[k].quantity, amount);
      var s := Stack(cs[k].cls, QuantityAfterSet(cs[k].quantity, cs[k].quantity + n, cs[k].cls.maxStackSize));
      assert s.quantity == cs[k].quantity + n;
      TotalOfClassUpdate(cs, k, s, cls);
      TotalOfClassUpdate(cs, k, s, other);
    case Append =>
      TotalOfClassAppend(cs, Stack(cls, QuantityAfterSet(1, amount, cls.maxStackSize)), cls);
      TotalOfClassAppend(cs, Stack(cls, QuantityAfterSet(1, amount, cls.maxStackSize)), other);
  }

  /** A merge of a weighted class keeps the carried weight within capacity. */
  lemma MergeRespectsWeightCapacity(cs: seq<Stack>, capacity: int, weightCapacity: real, cls: ItemClass, amount: int)
    requires QuantitiesInRange(cs)
    requires Place(cs, capacity, weightCapacity, cls, amount).MergeInto? && cls.weight != 0.0
    ensures TotalWeight(PlacedContents(cs, cls, amount, Place(cs, capacity, weightCapacity, cls, amount))) <= weightCapacity
  {
    var p := Place(cs, capacity, weightCapacity, cls, amount);
    MergeShape(cs, capacity, weightCapacity, cls, amount);
    var k, n := p.index, p.amount;
    var q := cs[k].quantity;
    MergeAmountIsLargestFit(cs, weightCapacity, cls, q, amount);
    assert cs[k] == Stack(cls, q);
    var s := Stack(cls, q + n);
    assert PlacedContents(cs, cls, amount, p) == cs[k := s];
    var grow := n as real * cls.weight;
    assert TotalWeight(cs) + grow <= weightCapacity;
    StackWeightGrow(q, n, cls);
    assert StackWeight(s) == StackWeight(cs[k]) + grow;
    TotalWeightUpdate(cs, k, s);
    assert TotalWeight(cs[k := s]) == TotalWeight(cs) + grow;
  }

  lemma StackWeightGrow(q: int, n: int, cls: ItemClass)
    ensures StackWeight(Stack(cls, q + n)) == StackWeight(Stack(cls, q)) + n as real * cls.weight
  {
    assert (q + n) as real == q as real + n as real;
  }

  /** How the reported record relates to the placement: the whole request is
      always reported back, the amount given lies between 0 and the request,
      and AllItemsAdded is reported exactly when the request was accepted in
      full. */
  lemma ResultAccounting(cs: seq<Stack>, capacity: int, weightCapacity: real, cls: ItemClass, amount: int)
    requires 0 <= amount
    ensures var p := Place(cs, capacity, weightCapacity, cls, amount);
      var r := PlacedResult(amount, p);
      && r.amountToGive == amount
      && 0 <= r.actualAmountGiven <= amount
      && (r.result == AllItemsAdded <==> (!p.Refused? && r.actualAmountGiven == amount))
      && (r.result == NoItemsAdded <==> (p.Refused? || r.actualAmountGiven < amount))
      && r.result != SomeItemsAdded
      && (p.Refused? ==> r.actualAmountGiven == 0 && r.errorText == p.error)
  {
    var p := Place(cs, capacity, weightCapacity, cls, amount);
    if p.MergeInto? {
      MergeShape(cs, capacity, weightCapacity, cls, amount);
      MergeAmountIsLargestFit(cs, weightCapacity, cls, cs[p.index].quantity, amount);
    }
  }

  /** As written, a partial merge is reported as NoItemsAdded although units
      were given. */
  lemma PartialMergeReportsNoItemsAdded()
    ensures var cls := ItemClass(1, Plain, 0.0, true, 5);
      var cs := [Stack(cls, 4)];
      var p := Place(cs, 20, 80.0, cls, 3);
      p == MergeInto(0, 1, StackNoRoom)
      && PlacedResult(3, p) == ItemAddResult(3, 1, NoItemsAdded, StackNoRoom)
  {
    var cls := ItemClass(1, Plain, 0.0, true, 5);
    assert FirstOfClass([Stack(cls, 4)], cls) == 0;
  }

  /** As written, a new stack is checked against the weight of one unit only,
      so appending it can carry the inventory past its weight capacity. */
  lemma FreshStackCanExceedWeightCapacity()
    ensures var cls := ItemClass(7, Plain, 30.0, true, 5);
      var p := Place([], 20, 80.0, cls, 3);
      p == Append && TotalWeight(PlacedContents([], cls, 3, p)) == 90.0
  {
    var cls := ItemClass(7, Plain, 30.0, true, 5);
    var after := [Stack(cls, 3)];
    assert after[..0] == [];
    assert TotalWeight(after) == 90.0;
  }

  // ---------------------------------------------------------------------
  // Consuming from a stack

  /** The units ConsumeItem takes from a stack holding `held`: at most the
      request, at most what is there. */
  function ConsumedAmount(held: int, requested: int): (n: int)
    ensures n <= held && n <= requested
    ensures n == held || n == requested
  {
    Min(requested, held)
  }

  /** The stack's quantity after consuming, through SetQuantity. */
  function QuantityAfterConsume(held: int, requested: int, maxStackSize: int): int
    requires 1 <= maxStackSize
  {
    QuantityAfterSet(held, held - ConsumedAmount(held, requested), maxStackSize)
  }

  function RemoveAt(cs: seq<Stack>, k: nat): (r: seq<Stack>)
    requires k < |cs|
    ensures |r| == |cs| - 1
    ensures forall i :: 0 <= i < |r| ==> r[i] == if i < k then cs[i] else cs[i + 1]
  {
    cs[..k] + cs[k + 1..]
  }

  /** The stacks after consuming from entry k: its quantity is set, and the
      entry is dropped once the new quantity is not positive. */
  function AfterConsume(cs: seq<Stack>, k: nat, requested: int): seq<Stack>
    requires k < |cs|
  {
    var q := QuantityAfterConsume(cs[k].quantity, requested, cs[k].cls.maxStackSize);
    if q <= 0 then RemoveAt(cs, k) else cs[k := Stack(cs[k].cls, q)]
  }

  /** For a non-negative request on a stack in range, ConsumeItem takes
      min(request, held) units, the quantity never goes negative, the entry is
      removed exactly when nothing is left, and the class total drops by the
      amount taken while other classes keep theirs. */
  lemma ConsumeAccounting(cs: seq<Stack>, k: nat, requested: int, other: ItemClass)
    requires k < |cs| && QuantitiesInRange(cs) && 0 <= requested
    ensures var n := ConsumedAmount(cs[k].quantity, requested);
      && 0 <= n <= cs[k].quantity
      && QuantityAfterConsume(cs[k].quantity, requested, cs[k].cls.maxStackSize) == cs[k].quantity - n
      && (|AfterConsume(cs, k, requested)| == |cs| - 1 <==> n == cs[k].quantity)
      && TotalOfClass(AfterConsume(cs, k, requested), cs[k].cls) == TotalOfClass(cs, cs[k].cls) - n
      && (other != cs[k].cls ==> TotalOfClass(AfterConsume(cs, k, requested), other) == TotalOfClass(cs, other))
  {
    var q := QuantityAfterConsume(cs[k].quantity, requested, cs[k].cls.maxStackSize);
    if q <= 0 {
      TotalOfClassRemove(cs, k, cs[k].cls);
      TotalOfClassRemove(cs, k, other);
    } else {
      TotalOfClassUpdate(cs, k, Stack(cs[k].cls, q), cs[k].cls);
      TotalOfClassUpdate(cs, k, Stack(cs[k].cls, q), other);
    }
  }

  /** Consuming keeps quantities in range and one stack per stackable class. */
  lemma ConsumeKeepsInvariants(cs: seq<Stack>, k: nat, requested: int)
    requires k < |cs| && QuantitiesInRange(cs)
    ensures QuantitiesInRange(AfterConsume(cs, k, requested))
    ensures OneStackPerStackableClass(cs) ==> OneStackPerStackableClass(AfterConsume(cs, k, requested))
  {
  }

  /** Dropping an entry keeps quantities in range and one stack per stackable
      class. */
  lemma RemoveAtKeepsInvariants(cs: seq<Stack>, k: nat)
    requires k < |cs|
    ensures QuantitiesInRange(cs) ==> QuantitiesInRange(RemoveAt(cs, k))
    ensures OneStackPerStackableClass(cs) ==> OneStackPerStackableClass(RemoveAt(cs, k))
  {
  }

  /** Changing an entry and then dropping it is the same as dropping it. */
  lemma RemoveAtUpdate(cs: seq<Stack>, k: nat, s: Stack)
    requires k < |cs|
    ensures RemoveAt(cs[k := s], k) == RemoveAt(cs, k)
  {
    var a := RemoveAt(cs[k := s], k);
    var b := RemoveAt(cs, k);
    assert forall i :: 0 <= i < |a| ==> a[i] == b[i];
  }

  /** A negative request is not rejected: it is subtracted, so the stack grows
      (up to MaxStackSize) and a negative amount is reported. */
  lemma NegativeConsumeGrowsStack()
    ensures var cls := ItemClass(2, Plain, 0.0, true, 10);
      var cs := [Stack(cls, 3)];
      ConsumedAmount(3, -2) == -2 && AfterConsume(cs, 0, -2) == [Stack(cls, 5)]
  {
  }
}
