# A text adventure's rule engine, in Dafny

This project models the game-rule engine of a small text adventure (`game_data.py`). In the game, a player walks a grid of locations, collects items that may need a secret code, and delivers the essential ones home. The player wins by reaching the goal cell with all of them delivered. The model covers these parts of the engine:

- **Items** (`items.dfy`): an `Item` object with a one-way `dropped` flag. Python's dataclass `==` is modelled by field-by-field equality, and so are the `in` and `list.remove` calls built on it. The name lookup compares names after `lower()` and `strip()`.
- **Player** (`players.dfy`): a class with a position, a move budget, an inventory of capacity 2 and a score. `move` is modelled with its unit steps, its cost and its wall check.
- **Locations** (`locations.dfy`): a `Location` class. A restricted location is one whose `requiredItem` is not null. It covers the visit flag, the descriptions, the NPC flags, the item list and the actions. A restricted location also has its lock, which is recomputed from the inventory, and while locked it withholds the look, speak and collect actions.
- **World** (`grid.dfy`, `worlds.dfy`):
  - `load_map`, and the item and NPC file formats, as functions over the lines of each file.
  - `load_items`, `load_npcs`, `add_location_items` and `get_locations_id` as loops proved against those functions.
  - `get_location` and `exists_in_map`.
  - the construction of a world, where `null` stands for an exception in a loader.
- **Controller** (`controller.dfy`):
  - collecting an item moves it from a location to the inventory;
  - dropping it moves it back and pays its delivery points at most once;
  - the check that every essential item is at home;
  - the win check.
- **Support modules**: `text.dfy` models the parts of Python's `str` the engine relies on: `isspace`, ASCII `lower`, `strip`, `split()`, `" ".join`, `int()` and `str()`. `wrappers.dfy` holds an `Option` type.

Python's `None` is `null` for object results and `None` of `Option` for values. An exception is modelled either as a `None`/`false`/`null` result or as a precondition. Each such case is stated below; "## Left out" names the exceptions the model does not capture.

## Model

| member | source | states |
|---|---|---|
| Text.Split | game_data.py:873 | every token of `split()` is non-empty and free of whitespace |
| Text.StripShape | game_data.py:1034 | `strip()` returns a contiguous piece of the string with no whitespace at either end, and everything it cut off on either side is whitespace |
| Text.StripOfTrimmed | game_data.py:1149 | a string with no whitespace at either end is its own `strip()` |
| Text.LowerStripCommute | game_data.py:368 | `s.lower().strip() == s.strip().lower()`, so the two orders used for the item name and for the query agree |
| Text.SplitJoin | game_data.py:1044 | splitting words joined by single spaces gives back the same words |
| Text.JoinIsTrimmed | game_data.py:1044 | words joined by single spaces have no whitespace at either end |
| Text.ParseIntToString | game_data.py:873 | `int(str(n)) == n` for every integer |
| Grid.ParseRow | game_data.py:873 | a row parses exactly when every token is an integer, and then holds each token's value, in order |
| Grid.LoadMap | game_data.py:856-873 | a loaded map has one row per line (the full characterisation is `LoadMapExactly`, the failure case `LoadMapFails`) |
| Grid.LoadMapRows | game_data.py:856-873 | `load_map` gives one row per line, in order, when every line parses |
| Grid.LoadMapFails | game_data.py:873 | `load_map` fails exactly when some line has a token that is not an integer |
| Grid.LoadMapGivesRows | game_data.py:856-873 | a successful `load_map` has one row per line, and each row is that line parsed |
| Grid.LoadMapExactly | game_data.py:856-873 | `load_map` gives a grid exactly when the grid has one row per line and each row is that line parsed |
| Grid.LoadMapRoundTrip | game_data.py:856-873 | reading back a map written one row per line gives the same grid |
| Grid.LocationIds | game_data.py:931-944 | an id is in the flattened list exactly when some cell of the map holds it |
| Items.Item.constructor | game_data.py:52-80 | every field takes the given value |
| Items.Item.Drop | game_data.py:82-91 | afterwards the item reports that it was dropped, whatever it reported before |
| Items.Item.WasDropped | game_data.py:93-108 | true exactly when the item has been dropped |
| Items.Item.VerifyCode | game_data.py:110-120 | true exactly when the attempt equals the secret code |
| Items.IndexOfEqual | game_data.py:346 | the first element whose every field equals the item's (the one `in` finds and `remove` deletes), or -1 when no element does |
| Items.ElementIsContained | game_data.py:51 | an element of a list is `in` it, at its own index or earlier |
| Items.MoveKeepsItems | game_data.py:1248-1249 | moving one element from one list to the end of another keeps the two lists' items together |
| Items.NameIndexFinds | game_data.py:366-372 | the lookup finds an item whose lowered, stripped name equals the stripped, lowered query, with no match before it, and finds nothing exactly when no item matches |
| Items.FirstMatchIsNameIndex | game_data.py:367-370 | the loop returns the item at the first index whose name matches |
| Items.FoundIsFirstEqual | game_data.py:1317-1319 | the item found by name is the one `remove` deletes: no earlier element is `==` to it |
| Players.Step | game_data.py:423-440 | a direction is known exactly when its lower-case form is north, south, east or west, and then its step moves one unit along one axis |
| Players.Player.constructor | game_data.py:179-190 | the player starts at (x, y) with an empty inventory, score 0 and the whole move budget; it meets the model's player invariant `Valid` exactly when the map is rectangular, (x, y) is inside it and the budget is positive |
| Players.Player.GetPlayerScore | game_data.py:211-221 | the player's score |
| Players.Player.AddScore | game_data.py:223-236 | the score grows by the amount, which is never negative, so the score never goes down and the representation invariant is kept |
| Players.Player.CalculateFinalPlayerScore | game_data.py:238-255 | the moves used (budget minus moves left) are added to the score; on a player meeting the invariant, with moves left at most the budget, the score does not go down and the invariant is kept |
| Players.Player.GetInventory | game_data.py:257-268 | the player's inventory list |
| Players.Player.InventoryFull | game_data.py:295-316 | full exactly when the inventory holds two items |
| Players.Player.AddItem | game_data.py:318-330 | the item is appended to the inventory |
| Players.Player.RemoveItem | game_data.py:331-346 | the first inventory element `==` to the item is deleted, and the inventory shrinks by one |
| Players.Player.FindItemByName | game_data.py:348-372 | returns the item the name lookup finds, and null exactly when it finds none |
| Players.Player.IsLocationValid | game_data.py:374-396 | true exactly when (x, y) is inside the map and its cell is not -1 |
| Players.Player.Move | game_data.py:398-451 | an unknown direction changes nothing; a known one costs exactly one move, and the player takes the unit step only onto an open cell; a player on an open cell stays on one; the representation invariant is kept, and a player with moves left does not go below zero |
| Players.Player.CheckGameOver | game_data.py:453-473 | over exactly when no moves are left |
| Locations.WithoutWithheld | game_data.py:826-833 | an action is kept exactly when it is in the list and is not look, speak or collect |
| Locations.DialogueScore | game_data.py:594 | the score is a single digit, 0 to 9 |
| Locations.DialogueScoreFirstDigit | game_data.py:594 | only the first character of the stripped dialogue counts: "12 ..." scores 1 |
| Locations.Location.constructor | game_data.py:533-548 | a plain, unvisited location with no items, the given actions, and an NPC exactly when the dialogue is non-empty |
| Locations.Location.Restricted | game_data.py:804-812 | a restricted location starts locked, with look, speak and collect filtered out of its actions |
| Locations.Location.SetNpcDialogue | game_data.py:550-563 | the dialogue is set; a non-empty one marks an NPC present, and an empty one leaves the flag as it was |
| Locations.Location.TalkToNpc | game_data.py:565-581 | the NPC speaks its text after the score digit only once, and only when present; the spoken flag is one-way |
| Locations.Location.GetNpcScore | game_data.py:583-595 | 0 without an NPC; otherwise the digit that opens the stripped dialogue |
| Locations.Location.LookForItems | game_data.py:597-618 | the location's item list |
| Locations.Location.LookAround | game_data.py:620-637 | sets the looked flag and shows the long description |
| Locations.Location.GetDescription | game_data.py:639-824 | `get_description` and its restricted override: a locked restricted location shows only the required item's name and is not marked visited; otherwise the first visit shows the long description and sets the one-way visited flag, and later visits show the short one |
| Locations.Location.UpdateAvailableActions | game_data.py:826-833 | a restricted location keeps only the actions that are not withheld, which keeps its invariant |
| Locations.Location.GetAvailableActions | game_data.py:835-844 | look, speak and collect are offered exactly when the restricted location is unlocked; other actions exactly when in its list |
| Locations.Location.UpdateAccess | game_data.py:697-853 | `update_access` and its restricted override: a plain location pays its score exactly when it is still unvisited and leaves the flag alone; a restricted one pays nothing and is locked exactly when the required item is not `in` the inventory, recomputed on every call; the player's score never goes down and the player's invariant is kept |
| Locations.Location.AddItem | game_data.py:722-733 | the item is appended to the item list |
| Locations.Location.RemoveItem | game_data.py:735-747 | the first element `==` to the item is deleted, and the list shrinks by one |
| Locations.Location.FindItemByName | game_data.py:749-772 | returns the item the name lookup finds, and null exactly when it finds none |
| Worlds.ParseItemLine | game_data.py:1034-1045 | a line is skipped exactly when it has fewer than 5 tokens; a parsed item's key is its first token and its code is one word |
| Worlds.ItemLineRoundTrip | game_data.py:1034-1045 | a written item line reads back as the same record (start, target, points, the name's words, code) |
| Worlds.ItemTableFail | game_data.py:1040-1042 | loading fails exactly when some line of 5 or more tokens has a non-integer number |
| Worlds.ItemTableKeys | game_data.py:1031-1046 | the table has a key exactly when some item line starts there |
| Worlds.ItemTableLastWins | game_data.py:1031-1046 | each key holds the record of the last item line that starts there, with that key as its start |
| Worlds.LoadItems | game_data.py:1006-1046 | the loop builds exactly the table of the item lines, with fresh items marked essential and not dropped, or fails exactly when that table fails |
| Worlds.ApplyBlock | game_data.py:1116-1126 | no block clears a location's NPC flag |
| Worlds.NpcFlagSticky | game_data.py:560-563 | once an NPC is present, no sequence of blocks removes it |
| Worlds.NpcScanStaysFailed | game_data.py:1154 | after a header without an integer id the load has failed, and later lines apply nothing more |
| Worlds.NpcScanDialogue | game_data.py:1162-1165 | dialogue lines pile up, in order, under the location in force |
| Worlds.NpcEndIsOptional | game_data.py:1166-1168 | the final `END` may be left out: the same dialogues are applied |
| Worlds.NpcSingleBlock | game_data.py:1128-1168 | one block gives its location the lines joined by a space, when it has lines, and leaves every other location as it was |
| Worlds.NpcHeaderRoundTrip | game_data.py:1149-1153 | a written `LOCATION <id>` line reads back as a header for that id |
| Worlds.NpcEndRoundTrip | game_data.py:1154-1156 | the line `END` reads back as the end of a block |
| Worlds.NpcFailedAt | game_data.py:1150-1153 | once a prefix of the lines has failed on a header, the whole file fails the same way |
| Worlds.World.constructor | game_data.py:911-929 | the world holds the given map, items, restricted ids and locations |
| Worlds.World.Load | game_data.py:911-929 | a world is built exactly from the loaders' results, with every location's NPC dialogue and items set; `null` only when a loader raises; a built world stores each location under its own id |
| Worlds.World.Populate | game_data.py:927-928 | `load_npcs` then `add_location_items`: the dialogues and the item placements of the files, the other location state untouched |
| Worlds.World.GetLocationsId | game_data.py:931-944 | the map's rows concatenated, in order |
| Worlds.LocationIdsSnoc | game_data.py:942-943 | one more row adds its ids at the end of the list |
| Worlds.World.GetLocation | game_data.py:946-970 | a location exactly on an open cell of the map whose id is in the table, and it is the one stored under that id; never fails |
| Worlds.LocationWherePlayerMayStand | game_data.py:946-970 | on a valid world, `get_location` finds a location exactly where `is_location_valid` would let the player stand, and `exists_in_map` holds for it |
| Worlds.World.ExistsInMap | game_data.py:972-987 | true only for a location that is in the table |
| Worlds.ExistsInMapIffStored | game_data.py:972-987 | when each location is stored under its own id, true exactly for the stored locations |
| Worlds.World.Placed | game_data.py:989-1004 | each location receives at most one item |
| Worlds.World.AddLocationItems | game_data.py:989-1004 | each location on the map gets the item keyed by its id, appended, whatever the iteration order; NPC and visit state untouched |
| Worlds.World.AddLocationItem | game_data.py:1000-1004 | one round of the loop places the item of one key |
| Worlds.World.AddItemAt | game_data.py:1004 | only the location with that id gains the item |
| Worlds.World.SetNpcDialogueAt | game_data.py:1116-1126 | a block with lines and a known location id sets that location's dialogue; nothing else changes |
| Worlds.World.ApplyNext | game_data.py:1153 | one more block is applied on top of the blocks applied so far |
| Worlds.World.ReadNpcLine | game_data.py:1149-1165 | one line of the loop is one step of the scan |
| Worlds.World.ScanNpcLines | game_data.py:1148-1165 | the loop over the lines ends in the scan's state for the whole file, with each location holding the blocks flushed so far; item lists and visit state untouched |
| Worlds.World.LoadNpcs | game_data.py:1128-1168 | succeeds exactly when no header lacks an integer id; each location ends with the dialogue of the blocks applied, in order, the final one included |
| Controller.GameController.constructor | game_data.py:1197-1201 | the essential list holds every item of the world, once for each key storing it |
| Controller.GameController.GetEssentialItems | game_data.py:1203-1222 | every item of the table, essential flag or not, listed as many times as there are keys storing it, and nothing else |
| Controller.GameController.CollectItem | game_data.py:1224-1258 | succeeds exactly when the item is found, the code matches or is not needed, and the inventory is not full; then the found item moves from the location to the end of the inventory, otherwise nothing changes; no item appears or disappears, and the inventory stays at most 2 |
| Controller.GameController.TakeItem | game_data.py:1248-1249 | the item is appended to the inventory and removed from the location, and the two lists keep their items together |
| Controller.GameController.DropItem | game_data.py:1260-1296 | succeeds exactly when the item is `in` the inventory; it moves to the location and is marked dropped, and the score grows by its points exactly when the location is 1, the item is essential and it was not dropped before; a failure changes nothing, and a dropped item never pays again; the score never goes down and the player's invariant is kept |
| Controller.GameController.DropItemName | game_data.py:1298-1319 | succeeds exactly when a name matches; the found item moves to the location with `drop_item`'s points; an unknown name changes nothing; no other item's flag changes and no item appears or disappears; the score never goes down and the player's invariant is kept |
| Controller.GameController.AllEssentialsDropped | game_data.py:1321-1346 | true exactly when there is a location at (0, 0) and every essential item's name is found there |
| Controller.GameController.CheckForWin | game_data.py:1348-1370 | won exactly when the player is at (4, 3) and every essential item is home; only a win adds the moves used to the score, and on a player meeting the invariant the score never goes down |

## Left out

- Console output: the `print` text of every method, including `print_player_info`, `print_inventory` and the controller's messages, is not modelled. Methods return what they would show (a `Description`, the NPC text, the long description).
- `input()` in `collect_item`: the code the player types is the parameter `typedCode`.
- The `str.format(name=...)` substitution of the NPC text in `talk_to_npc` is not modelled, so `TalkToNpc` takes no player. The method returns the text before substitution.
- Locations.Location.TalkToNpc: assumes `str.format(name=...)` succeeds (game_data.py:579). On a dialogue with any brace other than `{name}`, Python raises `KeyError`, `IndexError` or `ValueError` before `has_npc_spoken` is set (game_data.py:581), so the flag stays unset. The model always speaks and sets the flag.
- `load_locations` is not part of this model. It reads the locations file with substring tests and uses a hardcoded `self.items[3]`. Instead, the caller of `Worlds.World.Load` supplies the locations, each stored under its own id.
- `adventure.py`, the interactive loop, is not part of this model. Neither are the `__main__` blocks.
- `str.lower()` folds ASCII letters only. `int()` accepts an optional sign and ASCII digits. Python's `int()` also accepts underscores between digits, surrounding whitespace and non-ASCII digits.
- Python dictionaries iterate in insertion order, while Dafny maps have no order. `add_location_items` gives the same result in every order. `GetEssentialItems` states the list's contents, not its order.
- The world's `map` attribute is called `grid`. The game's files are given as sequences of lines.
- Worlds.World.Load: when a loader raises after `load_npcs` has started, the locations passed in keep the dialogues applied so far. The contract says nothing about them in that case.
- Worlds.World.GetLocation: requires every map row to be as wide as the first. On a ragged map, Python can raise `IndexError`, and that is not modelled.
- Controller.GameController.AllEssentialsDropped: has the same requirement, since it calls `get_location`.
- Controller.GameController.CheckForWin: has the same requirement, since it calls `get_location` through `AllEssentialsDropped`.
- Players.Player.IsLocationValid: requires a non-empty map whose rows are all as wide as the first. Python raises `IndexError` on an empty map, and on a ragged one for some coordinates.
- Players.Player.Move: has the same requirement as `IsLocationValid`, which it calls.
- Worlds.World.AddLocationItems: requires that every item key on the map has a location. Python raises `KeyError` otherwise. `Worlds.World.Populate` checks this first and fails instead.
- Locations.Location.RemoveItem and Players.Player.RemoveItem: require the item to be `in` the list. Python's `list.remove` raises `ValueError` otherwise.
- Locations.Location.GetNpcScore: `None` stands for the `IndexError` or `ValueError` that `int(dialogue.strip()[0])` raises. Python also accepts a non-ASCII digit there, which is not modelled.
- Items.Item.VerifyCode: compares codes exactly, as the source does. The four-digit format named by `collect_item`'s input prompt ("Enter the 4-digit code…", game_data.py:1242) is not checked.
- Players.Player.AddScore: requires `amount >= 0`, not the documented `amount > 0` (game_data.py:227-228). `update_access` and `drop_item` pass a location's score and an item's points, and the source bounds these only by `>= 0` (game_data.py:71, 518).
- Locations.Location.UpdateAccess: requires the location's score to be non-negative, as the location's invariant says (game_data.py:518).
- Controller.GameController.DropItem and Controller.GameController.DropItemName: require the items' points to be non-negative, as the item's invariant says (game_data.py:71).
- Players.Player.Valid: leaves out `_num_moves_left >= 0` from the player's representation invariant (game_data.py:166). `move` charges a move even with none left, so the count can go below zero. `Move` promises only that a player with moves left stays at zero or above.
- Players.Player.Valid: adds `Rectangular(worldMap)`, the map shape from the world's invariant (game_data.py:899-900), which the player's invariant (game_data.py:161-166) does not state. `Move` calls `IsLocationValid`, which needs it.
- Players.Player.Valid: adds `numMovesLeft <= maxNumMoves`, which no invariant of the source states. Without it `CalculateFinalPlayerScore` could lower the score.
- Worlds.World.Valid: `Load` establishes only that each location is stored under its own id. The source's constructor never checks the map's shape or that every cell has a location either (game_data.py:898-903), so `LocationWherePlayerMayStand` takes the invariant as a hypothesis.
