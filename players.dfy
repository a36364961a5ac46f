/**
 * The player: a position on the world map, a move budget, an inventory list of
 * capacity 2 and a score.
 */
module Players {
  import opened Wrappers
  import opened Text
  import opened Grid
  import opened Items

  /**
   * The unit step of a direction word, compared after `lower()`: north is
   * y - 1, south y + 1, east x + 1, west x - 1. `None` for any other word.
   */
  function Step(direction: string): (r: Option<(int, int)>)
    ensures r.Some? ==> (if r.value.0 == 0 then r.value.1 == 1 || r.value.1 == -1
                         else r.value.1 == 0 && (r.value.0 == 1 || r.value.0 == -1))
    ensures r.Some? <==> Lower(direction) in {"north", "south", "east", "west"}
  {
    var d := Lower(direction);
    if d == "north" then Some((0, -1))
    else if d == "south" then Some((0, 1))
    else if d == "east" then Some((1, 0))
    else if d == "west" then Some((-1, 0))
    else None
  }

  class Player {
    var position: (int, int)
    const worldMap: seq<seq<int>>
    var inventory: seq<Item>
    const capacity: int := 2
    var quit: bool
    var score: int
    const maxNumMoves: int
    var numMovesLeft: int
    const name: string

    /**
     * The invariant the player's operations keep: a rectangular map with the
     * player inside it, a positive capacity, a score that is never negative,
     * and no more moves left than the budget, which is positive. The map's
     * shape comes from the world's invariant; moves left may go below zero.
     */
    ghost predicate Valid()
      reads this
    {
      && Rectangular(worldMap)
      && InBounds(worldMap, position.0, position.1)
      && capacity > 0
      && score >= 0
      && numMovesLeft <= maxNumMoves
      && maxNumMoves > 0
    }

    /** A new player is valid exactly when it starts on the map with a positive move budget. */
    constructor (x: int, y: int, worldMap: seq<seq<int>>, maxMoves: int, name: string)
      ensures position == (x, y) && this.worldMap == worldMap && inventory == []
      ensures !quit && score == 0
      ensures maxNumMoves == maxMoves && numMovesLeft == maxMoves && this.name == name
      ensures Valid() <==> Rectangular(worldMap) && InBounds(worldMap, x, y) && maxMoves > 0
    {
      position := (x, y);
      this.worldMap := worldMap;
      inventory := [];
      quit := false;
      score := 0;
      maxNumMoves := maxMoves;
      numMovesLeft := maxMoves;
      this.name := name;
    }

    function GetPlayerScore(): (r: int)
      reads this
      ensures r == score
    {
      score
    }

    /** `add_score`: the score grows by `amount`, which is never negative, and nothing else changes. */
    method AddScore(amount: int)
      requires amount >= 0
      modifies this`score
      ensures score == old(score) + amount
      ensures score >= old(score)
      ensures old(Valid()) ==> Valid()
    {
      score := score + amount;
    }

    /**
     * `calculate_final_player_score`: the moves used so far are added to the
     * score. On a valid player that amount is never negative.
     */
    method CalculateFinalPlayerScore()
      modifies this`score
      ensures score == old(score) + (maxNumMoves - numMovesLeft)
      ensures old(Valid()) ==> Valid() && score >= old(score)
    {
      score := score + (maxNumMoves - numMovesLeft);
    }

    function GetInventory(): (r: seq<Item>)
      reads this
      ensures r == inventory
    {
      inventory
    }

    /** `inventory_full`: the inventory holds exactly two items. */
    function InventoryFull(): (full: bool)
      reads this
      ensures full <==> |inventory| == 2
    {
      |inventory| == capacity
    }

    /** `add_item`: appends to the inventory. */
    method AddItem(item: Item)
      modifies this`inventory
      ensures inventory == old(inventory) + [item]
    {
      inventory := inventory + [item];
    }

    /** `remove_item`: deletes the first element `==` to `item` (Python raises when there is none). */
    method RemoveItem(item: Item)
      requires Contains(inventory, item)
      modifies this`inventory
      ensures inventory == old(RemoveFirst(inventory, item))
      ensures |inventory| == |old(inventory)| - 1
    {
      var i := IndexOfEqual(inventory, item);
      inventory := inventory[..i] + inventory[i + 1..];
    }

    /**
     * `find_item_by_name`: the first inventory item whose name, lowered and
     * stripped, equals the stripped and lowered query; `null` for `None`.
     */
    method FindItemByName(query: string) returns (found: Item?)
      ensures found != null ==> NameIndex(inventory, query) >= 0 && found == inventory[NameIndex(inventory, query)]
      ensures found == null <==> NameIndex(inventory, query) < 0
    {
      var wanted := Lower(Strip(query));
      assert wanted == Normalize(query) by {
        LowerStripCommute(query);
      }
      var i := 0;
      while i < |inventory|
        invariant 0 <= i <= |inventory|
        invariant forall j :: 0 <= j < i ==> !NameMatches(inventory[j], query)
      {
        var item := inventory[i];
        if Normalize(item.name) == wanted {
          FirstMatchIsNameIndex(inventory, query, i);
          return item;
        }
        i := i + 1;
      }
      NameIndexFinds(inventory, query);
      return null;
    }

    /** `is_location_valid`: (x, y) lies within the map and its cell is not -1. */
    function IsLocationValid(x: int, y: int): (valid: bool)
      requires Rectangular(worldMap)
      ensures valid <==> IsOpenCell(worldMap, x, y)
    {
      if !(0 <= x < |worldMap[0]| && 0 <= y < |worldMap|) then false
      else worldMap[y][x] != -1
    }

    /**
     * `move`: an unknown direction changes nothing. A known one costs exactly one
     * move, even into a wall, and the player takes the unit step only when it
     * ends on an open cell. A player standing on an open cell stays on one.
     */
    method Move(direction: string)
      requires Rectangular(worldMap)
      modifies this`position, this`numMovesLeft
      ensures Step(direction).None? ==> position == old(position) && numMovesLeft == old(numMovesLeft)
      ensures Step(direction).Some? ==>
                && numMovesLeft == old(numMovesLeft) - 1
                && var target := (old(position).0 + Step(direction).value.0, old(position).1 + Step(direction).value.1);
                   position == if IsOpenCell(worldMap, target.0, target.1) then target else old(position)
      ensures IsOpenCell(worldMap, old(position).0, old(position).1) ==> IsOpenCell(worldMap, position.0, position.1)
      ensures old(Valid()) ==> Valid()
      ensures old(numMovesLeft) > 0 ==> numMovesLeft >= 0
    {
      var newY := position.1;
      var newX := position.0;
      var d := Lower(direction);
      if d == "north" {
        newY := newY - 1;
      } else if d == "south" {
        newY := newY + 1;
      } else if d == "east" {
        newX := newX + 1;
      } else if d == "west" {
        newX := newX - 1;
      } else {
        return;
      }
      numMovesLeft := numMovesLeft - 1;
      if IsLocationValid(newX, newY) {
        position := (newX, newY);
      }
    }

    /** `check_game_over`: the move budget is spent. */
    function CheckGameOver(): (over: bool)
      reads this
      ensures over <==> numMovesLeft <= 0
    {
      numMovesLeft <= 0
    }
  }
}
