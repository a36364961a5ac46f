/**
 * The game controller: collecting and dropping items, delivery points, and
 * the win check. The code prompt of `collect_item` is a parameter, the text the
 * player typed.
 */
module Controller {
  import opened Text
  import opened Grid
  import opened Items
  import opened Players
  import opened Locations
  import opened Worlds

  /** The cell of the map where the essential items must be brought. */
  const HomeX: int := 0
  const HomeY: int := 0

  /** The cell the player must reach to win. */
  const WinX: int := 4
  const WinY: int := 3

  /**
   * Whether `collect_item` takes the item: the location holds an item of that
   * name, the typed code (stripped) is its code unless no code is needed, and
   * the inventory is not full.
   */
  predicate CollectAllowed(player: Player, location: Location, name: string, codeNeeded: bool, typedCode: string)
    reads player, location
  {
    var k := NameIndex(location.availableItems, name);
    && k >= 0
    && (!codeNeeded || location.availableItems[k].code == Strip(typedCode))
    && |player.inventory| != 2
  }

  /** The keys among `done` under which the table stores `x`. */
  ghost function KeysHolding(items: map<int, Item>, done: set<int>, x: Item): set<int> {
    set k | k in done && k in items && items[k] == x
  }

  /** Listing the item of one more key adds one occurrence of it, and only of it. */
  lemma ListOneMoreKey(items: map<int, Item>, done: set<int>, k: int, list: seq<Item>)
    requires k in items && k !in done
    requires forall x :: multiset(list)[x] == |KeysHolding(items, done, x)|
    ensures forall x :: multiset(list + [items[k]])[x] == |KeysHolding(items, done + {k}, x)|
  {
    forall x ensures multiset(list + [items[k]])[x] == |KeysHolding(items, done + {k}, x)| {
      if items[k] == x {
        assert KeysHolding(items, done + {k}, x) == KeysHolding(items, done, x) + {k};
      } else {
        assert KeysHolding(items, done + {k}, x) == KeysHolding(items, done, x);
      }
    }
  }

  class GameController {
    const world: World
    const player: Player
    /** Every item of the world, whatever its `is_essential` flag. */
    const essentialItems: seq<Item>

    constructor (world: World, player: Player)
      ensures this.world == world && this.player == player
      ensures |essentialItems| == |world.items|
      ensures forall k :: k in world.items ==> world.items[k] in essentialItems
      ensures forall x :: x in essentialItems ==> x in world.items.Values
      ensures forall x :: multiset(essentialItems)[x] == |KeysHolding(world.items, world.items.Keys, x)|
    {
      this.world := world;
      this.player := player;
      var list := GetEssentialItems(world.items);
      essentialItems := list;
    }

    /**
     * `get_essential_items`: every item of the table, once per key, in the
     * table's order; `is_essential` is not consulted. An item stored under
     * two keys is listed twice.
     */
    static method GetEssentialItems(items: map<int, Item>) returns (list: seq<Item>)
      ensures |list| == |items|
      ensures forall k :: k in items ==> items[k] in list
      ensures forall x :: x in list ==> x in items.Values
      ensures forall x :: multiset(list)[x] == |KeysHolding(items, items.Keys, x)|
    {
      list := [];
      var keys := items.Keys;
      while keys != {}
        invariant keys <= items.Keys
        invariant |list| == |items.Keys - keys|
        invariant forall k :: k in items.Keys - keys ==> items[k] in list
        invariant forall x :: x in list ==> x in items.Values
        invariant forall x :: multiset(list)[x] == |KeysHolding(items, items.Keys - keys, x)|
        decreases |keys|
      {
        ghost var some := PickKey(keys);
        var k :| k in keys;
        ghost var done := items.Keys - keys;
        assert items.Keys - (keys - {k}) == done + {k};
        ListOneMoreKey(items, done, k, list);
        list := list + [items[k]];
        keys := keys - {k};
      }
      assert items.Keys - keys == items.Keys;
    }

    /**
     * `collect_item`. It succeeds exactly when the item is found, the code
     * matches (or is not needed) and the inventory is not full. Then the item
     * the name lookup found moves from the location to the end of the
     * inventory. Otherwise nothing changes. Either way no item appears or
     * disappears, and an inventory of at most two stays at most two.
     */
    method CollectItem(name: string, location: Location, codeNeeded: bool, typedCode: string) returns (ok: bool)
      modifies player`inventory, location`availableItems
      ensures ok <==> old(CollectAllowed(player, location, name, codeNeeded, typedCode))
      ensures ok ==>
                var k := old(NameIndex(location.availableItems, name));
                && player.inventory == old(player.inventory) + [old(location.availableItems[k])]
                && location.availableItems == old(location.availableItems[..k] + location.availableItems[k + 1..])
      ensures !ok ==> player.inventory == old(player.inventory) && location.availableItems == old(location.availableItems)
      ensures multiset(player.inventory) + multiset(location.availableItems)
              == old(multiset(player.inventory) + multiset(location.availableItems))
      ensures old(|player.inventory|) <= 2 ==> |player.inventory| <= 2
    {
      var item := location.FindItemByName(name);
      if item == null {
        return false;
      }
      var playerCode := "";
      if codeNeeded {
        playerCode := Strip(typedCode);
      }
      if item.VerifyCode(playerCode) || !codeNeeded {
        var full := player.InventoryFull();
        if !full {
          FoundIsFirstEqual(location.availableItems, name);
          TakeItem(item, location, NameIndex(location.availableItems, name));
          return true;
        }
      }
      return false;
    }

    /** The success branch of `collect_item`: the item at index `k` of the location goes to the inventory. */
    method TakeItem(item: Item, location: Location, ghost k: int)
      requires 0 <= k < |location.availableItems| && location.availableItems[k] == item
      requires IndexOfEqual(location.availableItems, item) == k
      modifies player`inventory, location`availableItems
      ensures player.inventory == old(player.inventory) + [item]
      ensures location.availableItems == old(location.availableItems[..k] + location.availableItems[k + 1..])
      ensures multiset(player.inventory) + multiset(location.availableItems)
              == old(multiset(player.inventory) + multiset(location.availableItems))
    {
      ghost var from, to := location.availableItems, player.inventory;
      MoveKeepsItems(from, to, k);
      player.AddItem(item);
      location.RemoveItem(item);
      assert player.inventory == to + [from[k]];
      assert location.availableItems == from[..k] + from[k + 1..];
      assert multiset(player.inventory) + multiset(location.availableItems)
          == multiset(from[..k] + from[k + 1..]) + multiset(to + [from[k]]);
    }

    /**
     * `drop_item`. It succeeds exactly when the item is `in` the inventory
     * (an absent item, `None`, never is). Then the first inventory element
     * `==` to it is removed, the item is appended to the location and marked
     * dropped. The player earns its points only at location 1, only for an
     * item `in` the essential list, and only if it had not been dropped
     * before, so delivery pays at most once. Points are never negative, so the
     * score never falls. A failed drop changes nothing.
     */
    method DropItem(item: Item?, location: Location) returns (ok: bool)
      requires item != null ==> item.targetPoints >= 0
      modifies player`inventory, player`score, location`availableItems, item
      ensures ok <==> item != null && old(Contains(player.inventory, item))
      ensures ok ==>
                && player.inventory == old(RemoveFirst(player.inventory, item))
                && location.availableItems == old(location.availableItems) + [item]
                && item.dropped
                && player.score == old(player.score)
                   + (if old(location.mapId == 1 && Contains(essentialItems, item) && !item.dropped) then item.targetPoints else 0)
      ensures !ok ==>
                && player.inventory == old(player.inventory) && player.score == old(player.score)
                && location.availableItems == old(location.availableItems)
                && (item != null ==> item.dropped == old(item.dropped))
      ensures item != null && old(item.dropped) ==> player.score == old(player.score)
      ensures player.score >= old(player.score)
      ensures old(player.Valid()) ==> player.Valid()
    {
      if item == null {
        return false;
      }
      var inventory := player.GetInventory();
      if !Contains(inventory, item) {
        return false;
      }
      player.RemoveItem(item);
      location.AddItem(item);
      if location.mapId == 1 && Contains(essentialItems, item) && !item.WasDropped() {
        player.AddScore(item.targetPoints);
      }
      item.Drop();
      return true;
    }

    /**
     * `drop_item_name`. The item is the first inventory item whose name
     * matches, and an unknown name fails with nothing changed. On success that
     * very item moves from the inventory to the end of the location's list and
     * is marked dropped, with `drop_item`'s delivery points. No item appears
     * or disappears, and no other item's flag changes.
     */
    method DropItemName(name: string, location: Location) returns (ok: bool)
      requires forall x :: x in player.inventory ==> x.targetPoints >= 0
      modifies player`inventory, player`score, location`availableItems, player.inventory
      ensures ok <==> old(NameIndex(player.inventory, name)) >= 0
      ensures ok ==>
                var k := old(NameIndex(player.inventory, name));
                var item := old(player.inventory[k]);
                && player.inventory == old(player.inventory[..k] + player.inventory[k + 1..])
                && location.availableItems == old(location.availableItems) + [item]
                && item.dropped
                && player.score == old(player.score)
                   + (if old(location.mapId == 1 && Contains(essentialItems, item) && !item.dropped) then item.targetPoints else 0)
      ensures !ok ==>
                && player.inventory == old(player.inventory) && player.score == old(player.score)
                && location.availableItems == old(location.availableItems)
      ensures forall x :: x in old(player.inventory) && (!ok || x != old(player.inventory[NameIndex(player.inventory, name)]))
                ==> x.dropped == old(x.dropped)
      ensures multiset(player.inventory) + multiset(location.availableItems)
              == old(multiset(player.inventory) + multiset(location.availableItems))
      ensures player.score >= old(player.score)
      ensures old(player.Valid()) ==> player.Valid()
    {
      var item := player.FindItemByName(name);
      if item != null {
        MoveKeepsItems(player.inventory, location.availableItems, NameIndex(player.inventory, name));
        FoundIsFirstEqual(player.inventory, name);
        ElementIsContained(player.inventory, NameIndex(player.inventory, name));
      }
      ok := DropItem(item, location);
    }

    /**
     * `all_essentials_dropped` as a property of the state: there is a
     * location at (0, 0) and every essential item's name is found there.
     */
    ghost predicate EssentialsAtHome()
      requires Uniform(world.grid)
      reads world.locations.Values
    {
      var home := world.GetLocation(HomeX, HomeY);
      && home != null
      && forall i :: 0 <= i < |essentialItems| ==> NameIndex(home.availableItems, essentialItems[i].name) >= 0
    }

    /** `all_essentials_dropped`: looks each essential item up by name at the location at (0, 0). */
    method AllEssentialsDropped() returns (r: bool)
      requires Uniform(world.grid)
      ensures r == EssentialsAtHome()
    {
      var home := world.GetLocation(HomeX, HomeY);
      if home == null {
        return false;
      }
      var i := 0;
      while i < |essentialItems|
        invariant 0 <= i <= |essentialItems|
        invariant forall j :: 0 <= j < i ==> NameIndex(home.availableItems, essentialItems[j].name) >= 0
      {
        var found := home.FindItemByName(essentialItems[i].name);
        if found == null {
          assert NameIndex(home.availableItems, essentialItems[i].name) < 0;
          return false;
        }
        i := i + 1;
      }
      assert forall j :: 0 <= j < |essentialItems| ==> NameIndex(home.availableItems, essentialItems[j].name) >= 0;
      return true;
    }

    /**
     * `check_for_win`: won exactly when the player stands at (4, 3) and every
     * essential item is at home. Only a win adds the moves used to the score.
     */
    method CheckForWin() returns (won: bool)
      requires Uniform(world.grid)
      modifies player`score
      ensures won <==> player.position == (WinX, WinY) && EssentialsAtHome()
      ensures won ==> player.score == old(player.score) + (player.maxNumMoves - player.numMovesLeft)
      ensures !won ==> player.score == old(player.score)
      ensures old(player.Valid()) ==> player.Valid() && player.score >= old(player.score)
    {
      if player.position == (WinX, WinY) {
        var all := AllEssentialsDropped();
        if all {
          player.CalculateFinalPlayerScore();
          return true;
        }
      }
      return false;
    }
  }
}
