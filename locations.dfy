/**
 * Locations of the world. A plain location and a restricted one are the same
 * class here: a restricted location is one whose `requiredItem` is not null.
 * Where the restricted variant overrides a method, the method branches on it.
 */
module Locations {
  import opened Wrappers
  import opened Text
  import opened Items
  import opened Players

  /** The actions a restricted location withholds while it is locked. */
  const Withheld: seq<string> := ["look", "speak", "collect"]

  /** `[a for a in actions if a not in Withheld]`: order kept, withheld actions dropped. */
  function WithoutWithheld(actions: seq<string>): (r: seq<string>)
    ensures forall a :: a in r <==> a in actions && a !in Withheld
    ensures |r| <= |actions|
  {
    if |actions| == 0 then []
    else (if actions[0] in Withheld then [] else [actions[0]]) + WithoutWithheld(actions[1..])
  }

  /** What `get_description` shows: the access-denied notice, or the location's number and a description. */
  datatype Description = AccessDenied(requiredItemName: string) | Shown(mapId: int, text: string)

  /**
   * `int(dialogue.strip()[0])`: the single digit that opens the stripped
   * dialogue. `None` where Python raises: an empty or blank dialogue
   * (`IndexError`) or a first character that is not a digit (`ValueError`).
   */
  function DialogueScore(dialogue: string): (r: Option<int>)
    ensures r.Some? ==> 0 <= r.value <= 9
  {
    var s := Strip(dialogue);
    if |s| > 0 && IsDigit(s[0]) then Some(s[0] as int - '0' as int) else None
  }

  /**
   * Only the first character counts: a dialogue opening with the digit `c`
   * scores that digit whatever follows, so "12 ..." scores 1.
   */
  lemma DialogueScoreFirstDigit(c: char, rest: string)
    requires IsDigit(c)
    ensures DialogueScore([c] + rest) == Some(c as int - '0' as int)
  {
    var d := [c] + rest;
    assert LeadingSpaces(d) == 0;
    KeptLengthShape(d);
    assert KeptLength(d) > 0;
  }

  /** A location's NPC dialogue and its NPC-present flag. */
  datatype NpcView = NpcView(dialogue: string, hasNpc: bool)

  /** `dialogue[2:]`, the text after the score digit and its space (empty when too short). */
  function SpokenText(dialogue: string): string {
    if |dialogue| >= 2 then dialogue[2..] else ""
  }

  class Location {
    const mapDim: (int, int)
    const mapId: int
    const score: int
    const descriptionShort: string
    const descriptionLong: string
    /** The item a restricted location asks for; null for a plain location. */
    const requiredItem: Item?
    var playerVisited: bool
    var availableItems: seq<Item>
    var availableActions: seq<string>
    var npcDialogue: string
    var hasNpc: bool
    var looked: bool
    var hasNpcSpoken: bool
    /** `_is_locked` of a restricted location; a plain location never reads it. */
    var isLocked: bool

    predicate IsRestricted() {
      requiredItem != null
    }

    /** The NPC state that `set_npc_dialogue` writes. */
    function Npc(): NpcView
      reads this
    {
      NpcView(npcDialogue, hasNpc)
    }

    /** Every other piece of mutable state apart from the item list: the visit, action, flag and lock state. */
    ghost function Status(): (bool, seq<string>, bool, bool, bool)
      reads this
    {
      (playerVisited, availableActions, looked, hasNpcSpoken, isLocked)
    }

    /** A restricted location's own action list never holds a withheld action. */
    ghost predicate Valid()
      reads this
    {
      IsRestricted() ==> forall a :: a in availableActions ==> a !in Withheld
    }

    /** A plain `Location`. */
    constructor (mapDim: (int, int), mapId: int, score: int, descriptionShort: string,
                 descriptionLong: string, actions: seq<string>, npcDialogue: string)
      ensures Valid() && !IsRestricted()
      ensures this.mapDim == mapDim && this.mapId == mapId && this.score == score
      ensures this.descriptionShort == descriptionShort && this.descriptionLong == descriptionLong
      ensures !playerVisited && availableItems == [] && availableActions == actions
      ensures this.npcDialogue == npcDialogue && hasNpc == (npcDialogue != "")
      ensures !looked && !hasNpcSpoken
    {
      this.mapDim := mapDim;
      this.mapId := mapId;
      this.score := score;
      this.descriptionShort := descriptionShort;
      this.descriptionLong := descriptionLong;
      requiredItem := null;
      playerVisited := false;
      availableItems := [];
      availableActions := actions;
      this.npcDialogue := npcDialogue;
      hasNpc := npcDialogue != "";
      looked := false;
      hasNpcSpoken := false;
      isLocked := false;
    }

    /**
     * A `RestrictedLocation`: it starts locked, and the inherited constructor's
     * call to `update_available_actions` runs the override, so the withheld
     * actions are filtered out of `actions`.
     */
    constructor Restricted(mapDim: (int, int), mapId: int, score: int, descriptionShort: string,
                           descriptionLong: string, actions: seq<string>, requiredItem: Item,
                           npcDialogue: string)
      ensures Valid() && IsRestricted() && this.requiredItem == requiredItem && isLocked
      ensures this.mapDim == mapDim && this.mapId == mapId && this.score == score
      ensures this.descriptionShort == descriptionShort && this.descriptionLong == descriptionLong
      ensures !playerVisited && availableItems == [] && availableActions == WithoutWithheld(actions)
      ensures this.npcDialogue == npcDialogue && hasNpc == (npcDialogue != "")
      ensures !looked && !hasNpcSpoken
    {
      this.mapDim := mapDim;
      this.mapId := mapId;
      this.score := score;
      this.descriptionShort := descriptionShort;
      this.descriptionLong := descriptionLong;
      this.requiredItem := requiredItem;
      playerVisited := false;
      availableItems := [];
      availableActions := WithoutWithheld(actions);
      this.npcDialogue := npcDialogue;
      hasNpc := npcDialogue != "";
      looked := false;
      hasNpcSpoken := false;
      isLocked := true;
    }

    // ------------------------------------------------------------ NPC

    /** `set_npc_dialogue`: a non-empty dialogue marks an NPC present; an empty one leaves the flag as it was. */
    method SetNpcDialogue(dialogue: string)
      modifies this`npcDialogue, this`hasNpc
      ensures npcDialogue == dialogue && hasNpc == (old(hasNpc) || dialogue != "")
    {
      npcDialogue := dialogue;
      if npcDialogue != "" {
        hasNpc := true;
      }
    }

    /**
     * `talk_to_npc`: the NPC speaks once. The first call with an NPC present
     * yields the text after the score digit and sets the one-way flag; every
     * other call yields nothing and changes nothing.
     */
    method TalkToNpc() returns (said: Option<string>)
      modifies this`hasNpcSpoken
      ensures old(hasNpc && !hasNpcSpoken) ==> said == Some(SpokenText(npcDialogue)) && hasNpcSpoken
      ensures !old(hasNpc && !hasNpcSpoken) ==> said == None && hasNpcSpoken == old(hasNpcSpoken)
    {
      said := None;
      if hasNpc && !hasNpcSpoken {
        said := Some(SpokenText(npcDialogue));
        hasNpcSpoken := true;
      }
    }

    /** `get_npc_score`: 0 without an NPC, otherwise the digit that opens the dialogue. */
    function GetNpcScore(): (r: Option<int>)
      reads this
      ensures !hasNpc ==> r == Some(0)
      ensures hasNpc ==> r == DialogueScore(npcDialogue)
      ensures r.Some? ==> 0 <= r.value <= 9
    {
      if hasNpc then DialogueScore(npcDialogue) else Some(0)
    }

    // ------------------------------------------------------------ descriptions and access

    /** `look_for_items`: the items lying here (the empty list when there are none). */
    function LookForItems(): (r: seq<Item>)
      reads this
      ensures r == availableItems
    {
      if |availableItems| == 0 then [] else availableItems
    }

    /** `look_around`: sets the `looked` flag and shows the long description. */
    method LookAround() returns (text: string)
      modifies this`looked
      ensures looked && text == descriptionLong
    {
      looked := true;
      text := descriptionLong;
    }

    /**
     * `get_description`. A locked restricted location shows only the name of
     * the item it needs and is not marked visited. Otherwise the first call
     * shows the long description and sets the one-way visited flag, and every
     * later call shows the short one.
     */
    method GetDescription() returns (d: Description)
      modifies this`playerVisited
      ensures IsRestricted() && isLocked ==> d == AccessDenied(requiredItem.name) && playerVisited == old(playerVisited)
      ensures !(IsRestricted() && isLocked) ==>
                && d == Shown(mapId, if old(playerVisited) then descriptionShort else descriptionLong)
                && playerVisited
      ensures old(playerVisited) ==> playerVisited
    {
      if IsRestricted() && isLocked {
        d := AccessDenied(requiredItem.name);
      } else if playerVisited {
        d := Shown(mapId, descriptionShort);
      } else {
        d := Shown(mapId, descriptionLong);
        playerVisited := true;
      }
    }

    /** `update_available_actions`; the restricted override filters out the withheld actions. */
    method UpdateAvailableActions(actions: seq<string>)
      modifies this`availableActions
      ensures availableActions == if IsRestricted() then WithoutWithheld(actions) else actions
      ensures Valid()
    {
      if IsRestricted() {
        availableActions := WithoutWithheld(actions);
      } else {
        availableActions := actions;
      }
    }

    /**
     * `get_available_actions`. A plain location offers its own list. A
     * restricted one offers look, speak and collect exactly when it is
     * unlocked, and its own list either way.
     */
    function GetAvailableActions(): (r: seq<string>)
      reads this
      requires Valid()
      ensures !IsRestricted() ==> r == availableActions
      ensures IsRestricted() ==> forall a :: a in Withheld ==> (a in r <==> !isLocked)
      ensures forall a :: a !in Withheld ==> (a in r <==> a in availableActions)
    {
      if IsRestricted() && !isLocked then availableActions + Withheld else availableActions
    }

    /**
     * `update_access`. A plain location pays its visit score while it is still
     * unvisited (and leaves the flag to `get_description`). A restricted one
     * pays nothing and recomputes its lock: locked exactly when the required
     * item is not `in` the inventory. A location's score is never negative,
     * so the player's score never falls.
     */
    method UpdateAccess(player: Player)
      requires score >= 0
      modifies this`isLocked, player`score
      ensures player.score >= old(player.score)
      ensures old(player.Valid()) ==> player.Valid()
      ensures IsRestricted() ==> isLocked == !old(Contains(player.inventory, requiredItem))
      ensures IsRestricted() ==> player.score == old(player.score)
      ensures !IsRestricted() ==> isLocked == old(isLocked)
      ensures !IsRestricted() ==> player.score == old(player.score) + (if old(playerVisited) then 0 else score)
    {
      if IsRestricted() {
        isLocked := !Contains(player.GetInventory(), requiredItem);
      } else if !playerVisited {
        player.AddScore(score);
      }
    }

    // ------------------------------------------------------------ items

    /** `add_item`: appends to the item list. */
    method AddItem(item: Item)
      modifies this`availableItems
      ensures availableItems == old(availableItems) + [item]
    {
      availableItems := availableItems + [item];
    }

    /** `remove_item`: deletes the first element `==` to `item` (Python raises when there is none). */
    method RemoveItem(item: Item)
      requires Contains(availableItems, item)
      modifies this`availableItems
      ensures availableItems == old(RemoveFirst(availableItems, item))
      ensures |availableItems| == |old(availableItems)| - 1
    {
      var i := IndexOfEqual(availableItems, item);
      availableItems := availableItems[..i] + availableItems[i + 1..];
    }

    /**
     * `find_item_by_name`: the first item here whose name, lowered and
     * stripped, equals the stripped and lowered query; `null` for `None`.
     */
    method FindItemByName(query: string) returns (found: Item?)
      ensures found != null ==> NameIndex(availableItems, query) >= 0 && found == availableItems[NameIndex(availableItems, query)]
      ensures found == null <==> NameIndex(availableItems, query) < 0
    {
      var normalized := Lower(Strip(query));
      assert normalized == Normalize(query) by {
        LowerStripCommute(query);
      }
      var i := 0;
      while i < |availableItems|
        invariant 0 <= i <= |availableItems|
        invariant forall j :: 0 <= j < i ==> !NameMatches(availableItems[j], query)
      {
        var item := availableItems[i];
        if Normalize(item.name) == normalized {
          FirstMatchIsNameIndex(availableItems, query, i);
          return item;
        }
        i := i + 1;
      }
      NameIndexFinds(availableItems, query);
      return null;
    }
  }
}
