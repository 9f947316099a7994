/** The weapon's state machine on values: the guards CanFire and CanReload,
    the state DetermineWeaponState picks, and the clip refill of a reload.
    The imperative weapon in module Game is specified by these functions. */
module WeaponRules {
  import opened MathUtil
  import opened Stacks

  /** EWeaponState. */
  datatype WeaponState = Idle | Firing | Reloading | Equipping

  /** The part of a weapon's state the rules read. `ammoInInventory` is the
      quantity of the first stack of the weapon's ammo class in the owner's
      inventory (0 without an owner). */
  datatype WeaponView = WeaponView(
    state: WeaponState,
    isEquipped: bool,
    wantsToFire: bool,
    pendingReload: bool,
    pendingEquip: bool,
    hasOwner: bool,
    ammoInClip: int,
    ammoPerClip: int,
    ammoInInventory: int)

  const DefaultAmmoPerClip: int := 20
  const DefaultTimeBetweenShots: real := 0.2

  /** AWeapon::CanFire: never while reloading or equipping. */
  predicate CanFire(v: WeaponView)
    ensures CanFire(v) ==> v.hasOwner && v.state != Reloading && v.state != Equipping
  {
    v.hasOwner && (v.state == Idle || v.state == Firing) && !v.pendingReload
  }

  /** AWeapon::CanReload: only an owned weapon with room in the clip, ammo
      in the inventory and no reload or equip under way. */
  predicate CanReload(v: WeaponView)
    ensures CanReload(v) ==> v.hasOwner && v.state != Reloading && v.state != Equipping
    ensures CanReload(v) ==> v.ammoInClip < v.ammoPerClip && v.ammoInInventory > 0
  {
    && v.hasOwner
    && v.ammoInClip < v.ammoPerClip && v.ammoInInventory > 0
    && (v.state == Idle || v.state == Firing)
  }

  /** The state AWeapon::DetermineWeaponState moves to. An unequipped
      weapon can neither fire nor reload; an equipped one fires only when
      it wants to and may, or when it was firing and a pending reload
      cannot start. */
  function Determined(v: WeaponView): (s: WeaponState)
    ensures !v.isEquipped ==> s == Idle || s == Equipping
    ensures s == Reloading ==> v.isEquipped && v.pendingReload
    ensures s == Firing ==> v.isEquipped && ((v.wantsToFire && CanFire(v)) || (v.pendingReload && v.state == Firing))
  {
    if v.isEquipped then
      if v.pendingReload then (if CanReload(v) then Reloading else v.state)
      else if v.wantsToFire && CanFire(v) then Firing
      else Idle
    else if v.pendingEquip then Equipping
    else Idle
  }

  /** States that agree with the flags: a firing weapon is equipped, wants to
      fire, has an owner and no reload pending; a reloading weapon is equipped
      with a reload pending; an equipping weapon is not yet equipped and has
      an equip pending. */
  predicate Coherent(v: WeaponView)
  {
    && (v.state == Firing ==> v.isEquipped && v.wantsToFire && v.hasOwner && !v.pendingReload)
    && (v.state == Reloading ==> v.isEquipped && v.pendingReload)
    && (v.state == Equipping ==> !v.isEquipped && v.pendingEquip)
  }

  /** The ammo a reload moves from the inventory into the clip: as much as
      the clip has room for, unless the inventory holds less. */
  function Refill(v: WeaponView): (n: int)
    ensures n <= v.ammoPerClip - v.ammoInClip && n <= v.ammoInInventory
    ensures n == v.ammoPerClip - v.ammoInClip || n == v.ammoInInventory
  {
    Min(v.ammoPerClip - v.ammoInClip, v.ammoInInventory)
  }

  /** The weapon after OnEquipFinished: equipped with no equip pending, in
      the state DetermineWeaponState picks, and then, when the weapon is
      locally controlled with an owner and could reload, with a reload
      started. */
  function EquipFinished(v: WeaponView, locallyControlled: bool): WeaponView
  {
    var v1 := v.(isEquipped := true, pendingEquip := false);
    var v2 := v1.(state := Determined(v1));
    if locallyControlled && v2.hasOwner && CanReload(v2)
    then v2.(pendingReload := true, state := Determined(v2.(pendingReload := true)))
    else v2
  }

  /** The weapon after OnEquip: an equip is marked pending, the state is
      determined, and the equip finishes at once. */
  function Equip(v: WeaponView, locallyControlled: bool): WeaponView
  {
    var v0 := v.(pendingEquip := true);
    EquipFinished(v0.(state := Determined(v0)), locallyControlled)
  }

  /** The weapon with the burst counter and the refiring flag, the extra
      state HandleFiring works on. */
  datatype FiringView = FiringView(w: WeaponView, burstCounter: int, refiring: bool)

  /** DetermineWeaponState through SetWeaponState: leaving Firing finishes
      the burst (counter 0, no refiring). */
  function Redetermine(f: FiringView): FiringView
  {
    var s := Determined(f.w);
    if f.w.state == Firing && s != Firing then FiringView(f.w.(state := s), 0, false)
    else f.(w := f.w.(state := s))
  }

  /** StartReload(false): a reload CanReload allows is marked pending and the
      state redetermined; otherwise nothing changes. */
  function StartReloadStep(f: FiringView): FiringView
  {
    if CanReload(f.w) then Redetermine(f.(w := f.w.(pendingReload := true))) else f
  }

  /** The first part of HandleFiring. With a round in the clip and CanFire,
      an owning, locally controlled weapon fires: the burst counter grows and,
      with authority, the clip loses the round. Otherwise a reload starts if
      one can, and failing that a local owner's burst ends. */
  function ShotOrReload(f: FiringView, owned: bool, hasAuthority: bool): FiringView
  {
    if f.w.ammoInClip > 0 && CanFire(f.w) then
      if owned then
        f.(w := f.w.(ammoInClip := if hasAuthority then f.w.ammoInClip - 1 else f.w.ammoInClip),
           burstCounter := f.burstCounter + 1)
      else f
    else if CanReload(f.w) then StartReloadStep(f)
    else if owned && f.burstCounter > 0 then f.(burstCounter := 0, refiring := false)
    else f
  }

  /** The second part of HandleFiring, for a locally controlled owner only:
      an empty clip starts a reload when one can, and the weapon refires
      exactly when it is still Firing and shots are spaced in time. */
  function FiringTail(f: FiringView, owned: bool, timeBetweenShots: real): FiringView
  {
    if owned then
      var f2 := if f.w.ammoInClip <= 0 && CanReload(f.w) then StartReloadStep(f) else f;
      f2.(refiring := f2.w.state == Firing && timeBetweenShots > 0.0)
    else f
  }

  /** AWeapon::HandleFiring; `owned` is "has an owner that is locally
      controlled". */
  function HandleFiring(f: FiringView, owned: bool, hasAuthority: bool, timeBetweenShots: real): (g: FiringView)
    ensures g.w.ammoInClip <= f.w.ammoInClip
    ensures g.w.ammoPerClip == f.w.ammoPerClip && g.w.ammoInInventory == f.w.ammoInInventory
    ensures g.w.isEquipped == f.w.isEquipped && g.w.wantsToFire == f.w.wantsToFire && g.w.hasOwner == f.w.hasOwner
  {
    var f1 := ShotOrReload(f, owned, hasAuthority);
    StartReloadKeepsCounts(f);
    StartReloadKeepsCounts(f1);
    FiringTail(f1, owned, timeBetweenShots)
  }

  /** AWeapon::ServerHandleFiring on the server (which has authority): the
      server's own HandleFiring, and then, if a shot was possible before it,
      one round leaves the clip and the burst counter grows. */
  function ServerFiring(f: FiringView, owned: bool, timeBetweenShots: real): (g: FiringView)
    ensures g.w.ammoInClip <= f.w.ammoInClip
    ensures f.w.ammoInClip > 0 && CanFire(f.w) ==> g.w.ammoInClip < f.w.ammoInClip
    ensures g.w.ammoPerClip == f.w.ammoPerClip && g.w.ammoInInventory == f.w.ammoInInventory
  {
    var shouldUpdateAmmo := f.w.ammoInClip > 0 && CanFire(f.w);
    var f1 := HandleFiring(f, owned, true, timeBetweenShots);
    if shouldUpdateAmmo
    then f1.(w := f1.w.(ammoInClip := f1.w.ammoInClip - 1), burstCounter := f1.burstCounter + 1)
    else f1
  }

  // ---------------------------------------------------------------------

  /** A reload that may start on an equipped weapon puts it in Reloading. */
  lemma StartReloadReloads(v: WeaponView)
    requires CanReload(v) && v.isEquipped
    ensures Determined(v.(pendingReload := true)) == Reloading
  {
  }

  /** A reload that ends always leaves the weapon Idle, trigger held or not:
      CanFire still sees the Reloading state. */
  lemma StopReloadGoesIdle(v: WeaponView)
    requires v.state == Reloading && !v.pendingEquip
    ensures Determined(v.(pendingReload := false)) == Idle
  {
  }

  /** After an equip finishes the weapon is equipped with nothing pending
      but perhaps a reload; without a stale reload request it is never left
      in Equipping, and a locally controlled weapon that can reload starts
      reloading. */
  lemma EquipFinishedSettles(v: WeaponView, locallyControlled: bool)
    ensures var w := EquipFinished(v, locallyControlled);
      && w.isEquipped && !w.pendingEquip
      && w.ammoInClip == v.ammoInClip && w.ammoInInventory == v.ammoInInventory
    ensures !v.pendingReload ==> EquipFinished(v, locallyControlled).state != Equipping
    ensures var v2 := v.(isEquipped := true, pendingEquip := false);
      var v3 := v2.(state := Determined(v2));
      locallyControlled && v.hasOwner && CanReload(v3) ==>
        EquipFinished(v, locallyControlled).state == Reloading && EquipFinished(v, locallyControlled).pendingReload
  {
    var v2 := v.(isEquipped := true, pendingEquip := false);
    var v3 := v2.(state := Determined(v2));
    if locallyControlled && v.hasOwner && CanReload(v3) {
      StartReloadReloads(v3);
    }
  }

  /** An unequipped weapon passes through Equipping when OnEquip starts, and
      ends equipped. */
  lemma EquipPassesThroughEquipping(v: WeaponView, locallyControlled: bool)
    requires !v.isEquipped
    ensures Determined(v.(pendingEquip := true)) == Equipping
    ensures Equip(v, locallyControlled).isEquipped && !Equip(v, locallyControlled).pendingEquip
    ensures !v.pendingReload ==> Equip(v, locallyControlled).state != Equipping
  {
    var v0 := v.(pendingEquip := true);
    EquipFinishedSettles(v0.(state := Determined(v0)), locallyControlled);
  }

  // ---------------------------------------------------------------------

  /** The state DetermineWeaponState picks agrees with the flags, provided the
      current state is one the "keep the state" branch may keep. */
  lemma DeterminedIsCoherent(v: WeaponView)
    requires v.state == Firing ==> !v.pendingReload
    requires v.state == Equipping ==> !v.isEquipped
    ensures Coherent(v.(state := Determined(v)))
  {
  }

  /** An unequipped weapon is Equipping exactly when an equip is pending and
      Idle otherwise; an equipped one never reports Equipping unless it already
      did and is waiting on a reload it cannot do. */
  lemma DeterminedWhenUnequipped(v: WeaponView)
    ensures !v.isEquipped ==> (Determined(v) == Equipping <==> v.pendingEquip)
    ensures !v.isEquipped ==> (Determined(v) == Idle <==> !v.pendingEquip)
    ensures v.isEquipped && Determined(v) == Equipping ==> v.state == Equipping && v.pendingReload
  {
  }

  /** An equipped weapon fires exactly when it wants to, may fire, and no
      reload is pending; a reload starts exactly when one is pending and
      possible. */
  lemma DeterminedWhenEquipped(v: WeaponView)
    requires v.isEquipped
    ensures v.pendingReload ==>
      (Determined(v) == (if CanReload(v) then Reloading else v.state))
    ensures !v.pendingReload ==>
      (Determined(v) == Firing <==> v.wantsToFire && CanFire(v))
    ensures !v.pendingReload && Determined(v) != Firing ==> Determined(v) == Idle
  {
  }

  /** Applying DetermineWeaponState twice gives the same state as once, except
      in exactly one situation: an equipped weapon that wants to fire, has an
      owner and no reload pending, but is still Reloading or Equipping, first
      drops to Idle and only the second time starts Firing. */
  lemma DeterminedStableExactly(v: WeaponView)
    ensures Determined(v.(state := Determined(v))) == Determined(v) <==>
      !(v.isEquipped && !v.pendingReload && v.wantsToFire && v.hasOwner
        && (v.state == Reloading || v.state == Equipping))
  {
  }

  /** The first case above, concretely: a reload that ends while the trigger
      is held leaves the weapon Idle. */
  lemma ReloadEndedWhileFiringGoesIdle()
    ensures var v := WeaponView(Reloading, true, true, false, false, true, 5, 20, 40);
      Determined(v) == Idle && Determined(v.(state := Idle)) == Firing
  {
  }

  /** A pending reload that cannot be done keeps the current state, so a weapon
      told to reload while Firing on a full clip stays Firing with the reload
      pending. */
  lemma PendingReloadCanKeepFiring()
    ensures var v := WeaponView(Firing, true, true, true, false, true, 20, 20, 40);
      Determined(v) == Firing && !Coherent(v.(state := Determined(v)))
  {
  }

  /** A reload never overfills the clip, and when it moves ammo (a positive
      refill) it never moves more than the inventory's first ammo stack holds. */
  lemma RefillBounds(v: WeaponView)
    requires Refill(v) > 0
    ensures v.ammoInClip + Refill(v) <= v.ammoPerClip
    ensures Refill(v) <= v.ammoInInventory
    ensures v.ammoInClip + Refill(v) == v.ammoPerClip || Refill(v) == v.ammoInInventory
  {
  }

  /** A reload may only start when a refill would move ammo. */
  lemma CanReloadMeansPositiveRefill(v: WeaponView)
    requires CanReload(v)
    ensures Refill(v) > 0
  {
  }

  /** Reloading from the first ammo stack conserves ammo: what leaves the
      inventory's total of the ammo class is what enters the clip, and the clip
      stays within AmmoPerClip. */
  lemma ReloadConservesAmmo(cs: seq<Stack>, ammoClass: ItemClass, v: WeaponView)
    requires QuantitiesInRange(cs) && 0 <= v.ammoInClip <= v.ammoPerClip
    requires v.ammoInInventory == QuantityOfFirst(cs, ammoClass)
    requires Refill(v) > 0
    ensures 0 <= FirstOfClass(cs, ammoClass)
    ensures var k := FirstOfClass(cs, ammoClass);
      && TotalOfClass(AfterConsume(cs, k, Refill(v)), ammoClass) + v.ammoInClip + Refill(v)
           == TotalOfClass(cs, ammoClass) + v.ammoInClip
      && v.ammoInClip + Refill(v) <= v.ammoPerClip
  {
    var k := FirstOfClass(cs, ammoClass);
    ConsumeAccounting(cs, k, Refill(v), ammoClass);
  }

  // ---------------------------------------------------------------------

  /** The clip and the burst counter stay in range through HandleFiring:
      a round only leaves a non-empty clip. */
  lemma HandleFiringKeepsRange(f: FiringView, owned: bool, hasAuthority: bool, tbs: real)
    requires 0 <= f.w.ammoInClip <= f.w.ammoPerClip && 0 <= f.burstCounter
    ensures var g := HandleFiring(f, owned, hasAuthority, tbs);
      0 <= g.w.ammoInClip <= g.w.ammoPerClip && 0 <= g.burstCounter
  {
    var f1 := ShotOrReload(f, owned, hasAuthority);
    StartReloadKeepsCounts(f);
    StartReloadKeepsCounts(f1);
    assert 0 <= f1.w.ammoInClip <= f1.w.ammoPerClip && 0 <= f1.burstCounter;
  }

  /** Starting a reload leaves the clip alone and the burst counter either
      alone or at 0. */
  lemma StartReloadKeepsCounts(f: FiringView)
    ensures StartReloadStep(f).w.ammoInClip == f.w.ammoInClip
    ensures StartReloadStep(f).w.ammoPerClip == f.w.ammoPerClip
    ensures StartReloadStep(f).burstCounter == f.burstCounter || StartReloadStep(f).burstCounter == 0
    ensures var w := StartReloadStep(f).w;
      w.ammoInInventory == f.w.ammoInInventory && w.isEquipped == f.w.isEquipped
      && w.wantsToFire == f.w.wantsToFire && w.hasOwner == f.w.hasOwner
  {
  }

  /** HandleFiring spends at most one round, and spends one exactly when a
      locally controlled owner with authority fires from a non-empty clip;
      a client without authority never spends one itself. */
  lemma HandleFiringSpendsOneRound(f: FiringView, owned: bool, hasAuthority: bool, tbs: real)
    ensures var g := HandleFiring(f, owned, hasAuthority, tbs);
      && (g.w.ammoInClip == f.w.ammoInClip - 1 <==>
            owned && hasAuthority && f.w.ammoInClip > 0 && CanFire(f.w))
      && (g.w.ammoInClip == f.w.ammoInClip || g.w.ammoInClip == f.w.ammoInClip - 1)
      && (!hasAuthority ==> g.w.ammoInClip == f.w.ammoInClip)
  {
    var f1 := ShotOrReload(f, owned, hasAuthority);
    StartReloadKeepsCounts(f);
    StartReloadKeepsCounts(f1);
    assert f1.w.ammoInClip == if f.w.ammoInClip > 0 && CanFire(f.w) && owned && hasAuthority
      then f.w.ammoInClip - 1 else f.w.ammoInClip;
    assert HandleFiring(f, owned, hasAuthority, tbs).w.ammoInClip == f1.w.ammoInClip;
  }

  /** A shot from an owning client without authority spends nothing on the
      client, and the server's ServerHandleFiring for that shot (where the
      pawn is not locally controlled) spends exactly the one round and counts
      it in the burst. */
  lemma ServerSpendsTheClientsRound(f: FiringView, tbs: real)
    requires f.w.ammoInClip > 0 && CanFire(f.w)
    ensures HandleFiring(f, true, false, tbs).w.ammoInClip == f.w.ammoInClip
    ensures HandleFiring(f, true, false, tbs).burstCounter == f.burstCounter + 1
    ensures ServerFiring(f, false, tbs).w.ammoInClip == f.w.ammoInClip - 1
    ensures ServerFiring(f, false, tbs).burstCounter == f.burstCounter + 1
  {
  }

  /** The shot that empties the clip of an equipped weapon with ammo left in
      the inventory starts the reload at once, and the weapon stops
      refiring. */
  lemma LastRoundStartsReload(f: FiringView, tbs: real)
    requires f.w.ammoInClip == 1 && 0 < f.w.ammoPerClip && f.w.isEquipped
    requires CanFire(f.w) && f.w.ammoInInventory > 0
    ensures var g := HandleFiring(f, true, true, tbs);
      g.w.ammoInClip == 0 && g.w.state == Reloading && g.w.pendingReload && !g.refiring
  {
    var f1 := ShotOrReload(f, true, true);
    assert CanReload(f1.w);
    StartReloadReloads(f1.w);
  }

  /** For a locally controlled owner the weapon refires exactly when it is
      left Firing with shots spaced in time; for anyone else HandleFiring
      leaves the refiring flag as it finds it unless a burst ends. */
  lemma RefiringOnlyWhileFiring(f: FiringView, owned: bool, hasAuthority: bool, tbs: real)
    ensures var g := HandleFiring(f, owned, hasAuthority, tbs);
      owned ==> (g.refiring <==> g.w.state == Firing && tbs > 0.0)
    ensures var g := HandleFiring(f, owned, hasAuthority, tbs);
      !owned && g.refiring ==> f.refiring
  {
  }
}
