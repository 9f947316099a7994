/** UInteractionComponent: the list of characters interacting with an actor,
    the guard that admits them, and the focus widget's visibility. The
    delegates the component broadcasts are recorded, in order, as a log. */
module Interaction {
  import opened MathUtil
  import opened Game

  /** One broadcast of one of the component's delegates. */
  datatype Broadcast =
    | OnBeginFocus(character: Character?)
    | OnEndFocus(character: Character?)
    | OnBeginInteract(character: Character?)
    | OnEndInteract(character: Character?)
    | OnInteract(character: Character?)

  const DefaultInteractionTime: real := 0.0
  const DefaultInteractionDistance: real := 200.0

  /** What Deactivate broadcasts for a list of interactors: walking from the
      last interactor to the first, an end of focus and an end of interaction
      for each one that is not null. */
  function DeactivateBroadcasts(s: seq<Character?>): seq<Broadcast>
  {
    if s == [] then []
    else
      var last := s[|s| - 1];
      (if last != null then [OnEndFocus(last), OnEndInteract(last)] else [])
        + DeactivateBroadcasts(s[..|s| - 1])
  }

  /** Walking one interactor further down appends that interactor's two
      broadcasts. */
  lemma {:induction false} DeactivateBroadcastsCons(x: Character?, t: seq<Character?>)
    ensures DeactivateBroadcasts([x] + t)
      == DeactivateBroadcasts(t) + (if x != null then [OnEndFocus(x), OnEndInteract(x)] else [])
  {
    if t == [] {
      assert [x] + t == [x];
      assert [x][..0] == [];
    } else {
      var s := [x] + t;
      assert s[|s| - 1] == t[|t| - 1];
      assert s[..|s| - 1] == [x] + t[..|t| - 1];
      DeactivateBroadcastsCons(x, t[..|t| - 1]);
    }
  }

  /** Deactivating a duplicate-free list without nulls ends every
      interaction exactly once and broadcasts nothing for anyone else. */
  lemma {:induction false} DeactivateEndsEachOnce(s: seq<Character?>)
    requires WellFormed(s)
    ensures |DeactivateBroadcasts(s)| == 2 * |s|
    ensures forall c: Character :: multiset(DeactivateBroadcasts(s))[OnEndInteract(c)] == (if c in s then 1 else 0)
    ensures forall c: Character :: multiset(DeactivateBroadcasts(s))[OnEndFocus(c)] == (if c in s then 1 else 0)
  {
    if s != [] {
      var last := s[|s| - 1];
      var init := s[..|s| - 1];
      assert s == init + [last];
      WellFormedPrefix(s, |s| - 1);
      assert last !in init by {
        forall i | 0 <= i < |init| ensures init[i] != last {
          assert init[i] == s[i];
        }
      }
      DeactivateEndsEachOnce(init);
      forall c: Character ensures c in s <==> c in init || c == last {
        if c in s {
          var i :| 0 <= i < |s| && s[i] == c;
          if i < |init| {
            assert init[i] == c;
          }
        }
      }
    }
  }

  /** BeginInteract followed by EndInteract for a character that was not
      interacting leaves the interactors as they were. */
  lemma BeginThenEndRestores(s: seq<Character?>, c: Character?)
    requires c !in s
    ensures RemoveSingle(AddUnique(s, c), c) == s
  {
    RemoveSingleAfterAppend(s, c);
  }

  lemma {:induction false} RemoveSingleAfterAppend<T>(s: seq<T>, x: T)
    requires x !in s
    ensures RemoveSingle(s + [x], x) == s
  {
    if s != [] {
      assert (s + [x])[0] == s[0];
      assert (s + [x])[1..] == s[1..] + [x];
      RemoveSingleAfterAppend(s[1..], x);
      assert s == [s[0]] + s[1..];
    }
  }

  /** A list of interactors in which each appears once and none is null. */
  ghost predicate WellFormed(s: seq<Character?>)
  {
    NoDuplicates(s) && null !in s
  }

  lemma WellFormedPrefix(s: seq<Character?>, n: nat)
    requires WellFormed(s) && n <= |s|
    ensures WellFormed(s[..n])
  {
    forall i, j | 0 <= i < j < n ensures s[..n][i] != s[..n][j] {
      assert s[..n][i] == s[i] && s[..n][j] == s[j];
    }
  }

  class InteractionComponent {
    var interactors: seq<Character?>
    var allowMultipleInteractors: bool
    var active: bool
    var hiddenInGame: bool
    var interactionTime: real
    var interactionDistance: real
    var nameText: string
    var actionText: string
    /** Whether the component has an owning actor. */
    const hasOwner: bool
    /** Every delegate broadcast so far. */
    var broadcasts: seq<Broadcast>

    /** Each interactor appears once and none is null. */
    ghost predicate Valid()
      reads this
    {
      WellFormed(interactors)
    }

    /** UInteractionComponent's defaults: no interaction time, 200 units of
        distance, several interactors allowed, active and hidden. */
    constructor (hasOwner: bool)
      ensures this.hasOwner == hasOwner
      ensures interactors == [] && broadcasts == []
      ensures interactionTime == 0.0 && interactionDistance == 200.0
      ensures nameText == "Interactable Object" && actionText == "Interact"
      ensures allowMultipleInteractors && active && hiddenInGame
      ensures Valid()
    {
      this.hasOwner := hasOwner;
      interactors := [];
      allowMultipleInteractors := true;
      active := true;
      hiddenInGame := true;
      interactionTime := DefaultInteractionTime;
      interactionDistance := DefaultInteractionDistance;
      nameText := "Interactable Object";
      actionText := "Interact";
      broadcasts := [];
    }

    /** A character may interact when it is not null, the component is active
        and owned, and either several interactors are allowed or none is
        interacting yet. */
    predicate CanInteract(character: Character?)
      reads this
      ensures CanInteract(character) ==> character != null && active && hasOwner
      ensures CanInteract(character) && !allowMultipleInteractors ==> interactors == []
    {
      && !(!allowMultipleInteractors && |interactors| >= 1)
      && active && hasOwner && character != null
    }

    /** An admitted character joins the interactors (once) and the begin
        event is broadcast; anyone else changes nothing. */
    method BeginInteract(character: Character?)
      modifies this`interactors, this`broadcasts
      ensures old(CanInteract(character)) ==>
        interactors == AddUnique(old(interactors), character)
        && broadcasts == old(broadcasts) + [OnBeginInteract(character)]
      ensures !old(CanInteract(character)) ==> interactors == old(interactors) && broadcasts == old(broadcasts)
      ensures old(Valid()) ==> Valid()
      ensures !allowMultipleInteractors && |old(interactors)| <= 1 ==> |interactors| <= 1
    {
      if CanInteract(character) {
        interactors := AddUnique(interactors, character);
        broadcasts := broadcasts + [OnBeginInteract(character)];
      }
    }

    /** The character leaves the interactors, whether or not it was there,
        and the end event is broadcast. */
    method EndInteract(character: Character?)
      modifies this`interactors, this`broadcasts
      ensures interactors == RemoveSingle(old(interactors), character)
      ensures broadcasts == old(broadcasts) + [OnEndInteract(character)]
      ensures old(Valid()) ==> Valid() && character !in interactors
      ensures old(Valid()) ==> forall c :: c in old(interactors) && c != character ==> c in interactors
    {
      ghost var before := interactors;
      interactors := RemoveSingle(interactors, character);
      if WellFormed(before) && character in before {
        var k := IndexOf(before, character);
        RemoveSingleUnique(before, character, k);
        forall c | c in before && c != character
          ensures c in interactors
        {
          var i := IndexOf(before, c);
          assert i != k;
          assert c == (before[..k] + before[k + 1..])[if i < k then i else i - 1];
        }
      }
      broadcasts := broadcasts + [OnEndInteract(character)];
    }

    /** The interact event is broadcast exactly when CanInteract holds. */
    method Interact(character: Character?)
      modifies this`broadcasts
      ensures broadcasts == old(broadcasts) + (if CanInteract(character) then [OnInteract(character)] else [])
    {
      if CanInteract(character) {
        broadcasts := broadcasts + [OnInteract(character)];
      }
    }

    /** An active, owned component shows its widget to a character that
        focuses on it; otherwise nothing changes. The outline drawn on
        clients is not modelled. */
    method BeginFocus(character: Character?)
      modifies this`hiddenInGame, this`broadcasts
      ensures !active || !hasOwner || character == null ==>
        hiddenInGame == old(hiddenInGame) && broadcasts == old(broadcasts)
      ensures active && hasOwner && character != null ==>
        !hiddenInGame && broadcasts == old(broadcasts) + [OnBeginFocus(character)]
    {
      if !active || !hasOwner || character == null {
        return;
      }
      broadcasts := broadcasts + [OnBeginFocus(character)];
      hiddenInGame := false;
    }

    /** The widget is hidden again. */
    method EndFocus(character: Character)
      modifies this`hiddenInGame, this`broadcasts
      ensures hiddenInGame
      ensures broadcasts == old(broadcasts) + [OnEndFocus(character)]
    {
      broadcasts := broadcasts + [OnEndFocus(character)];
      hiddenInGame := true;
    }

    /** The component turns inactive, every interactor, last first, loses
        focus and ends its interaction, and the list ends empty. The loop
        keeps the source's test for null entries, but Valid() already rules
        them out: BeginInteract, the only method that adds an interactor,
        never adds null. */
    method Deactivate()
      requires Valid()
      modifies this`active, this`interactors, this`broadcasts, this`hiddenInGame
      ensures !active && interactors == []
      ensures broadcasts == old(broadcasts) + DeactivateBroadcasts(old(interactors))
      ensures hiddenInGame == if old(interactors) != [] then true else old(hiddenInGame)
      ensures Valid()
    {
      active := false;
      ghost var s := interactors;
      ghost var b := broadcasts;
      var i := |interactors| - 1;
      while i >= 0
        invariant -1 <= i < |s|
        invariant !active
        invariant interactors == s[..i + 1]
        invariant broadcasts == b + DeactivateBroadcasts(s[i + 1..])
        invariant hiddenInGame == if i + 1 < |s| then true else old(hiddenInGame)
        decreases i
      {
        var interactor := interactors[i];
        if interactor != null {
          EndOne(s, b, i);
        }
        i := i - 1;
      }
      interactors := [];
    }

    /** One step of Deactivate's downward walk: the interactor at the top of
        the remaining list loses focus and ends its interaction, which
        removes exactly that top entry. */
    method EndOne(ghost s: seq<Character?>, ghost b: seq<Broadcast>, i: int)
      requires WellFormed(s) && 0 <= i < |s|
      requires interactors == s[..i + 1] && broadcasts == b + DeactivateBroadcasts(s[i + 1..])
      modifies this`interactors, this`broadcasts, this`hiddenInGame
      ensures interactors == s[..i] && broadcasts == b + DeactivateBroadcasts(s[i..]) && hiddenInGame
    {
      var interactor := interactors[i];
      assert s[i..] == [s[i]] + s[i + 1..];
      DeactivateBroadcastsCons(s[i], s[i + 1..]);
      WellFormedPrefix(s, i + 1);
      EndFocus(interactor);
      RemoveSingleUnique(s[..i + 1], interactor, i);
      assert s[..i + 1][..i] + s[..i + 1][i + 1..] == s[..i];
      EndInteract(interactor);
    }
  }
}
