/**
 * The world: the map grid, the item table keyed by each item's start location,
 * and the table of locations. The item and NPC loaders are specified as
 * functions over the lines of their files, and the loading methods are proved
 * against those functions.
 */
module Worlds {
  import opened Wrappers
  import opened Text
  import opened Grid
  import opened Items
  import opened Locations

  // ---------------------------------------------------------------- load_items

  /** The fields `load_items` reads from one line of the items file. */
  datatype ItemRecord = ItemRecord(name: string, start: int, target: int, points: int, code: string)

  /** One line of the items file: too short to be an item, not numeric where it must be, or an item. */
  datatype ItemLine = Skipped | Malformed | Parsed(record: ItemRecord)

  /**
   * One line as `load_items` reads it. The tokens are `line.strip().split()`.
   * The first three are the start, target and points. The last is the code.
   * The name is the tokens between them, joined by single spaces.
   */
  function ParseItemLine(line: string): (r: ItemLine)
    ensures r.Skipped? <==> |Split(Strip(line))| < 5
    ensures r.Parsed? ==> IsWord(r.record.code) && ParseInt(Split(Strip(line))[0]) == Some(r.record.start)
  {
    var parts := Split(Strip(line));
    if |parts| < 5 then Skipped
    else match (ParseInt(parts[0]), ParseInt(parts[1]), ParseInt(parts[2]))
      case (Some(start), Some(target), Some(points)) =>
        Parsed(ItemRecord(Join(parts[3..|parts| - 1], " "), start, target, points, parts[|parts| - 1]))
      case _ => Malformed
  }

  /** Every line of the items file, read on its own. */
  function ParseItemLines(lines: seq<string>): (ps: seq<ItemLine>)
    ensures |ps| == |lines|
  {
    if |lines| == 0 then [] else ParseItemLines(lines[..|lines| - 1]) + [ParseItemLine(lines[|lines| - 1])]
  }

  lemma {:induction false} ParseItemLinesAt(lines: seq<string>, i: int)
    requires 0 <= i < |lines|
    ensures ParseItemLines(lines)[i] == ParseItemLine(lines[i])
  {
    if i < |lines| - 1 {
      ParseItemLinesAt(lines[..|lines| - 1], i);
    }
  }

  /**
   * The item table built from the lines read so far, keyed by start location:
   * a later item overwrites an earlier one with the same key, a short line is
   * skipped, and `None` stands for the `ValueError` of the first malformed line.
   */
  function ItemTable(ps: seq<ItemLine>): Option<map<int, ItemRecord>> {
    if |ps| == 0 then Some(map[])
    else match (ItemTable(ps[..|ps| - 1]), ps[|ps| - 1])
      case (None, _) => None
      case (Some(m), Skipped) => Some(m)
      case (Some(_), Malformed) => None
      case (Some(m), Parsed(r)) => Some(m[r.start := r])
  }

  /** `load_items` on the whole file. */
  function ItemRecords(lines: seq<string>): Option<map<int, ItemRecord>> {
    ItemTable(ParseItemLines(lines))
  }

  /** The line is an item stored under key `k`. */
  predicate StoresKey(p: ItemLine, k: int) {
    p.Parsed? && p.record.start == k
  }

  /** The records an item table holds. */
  function Records(m: map<int, Item>): map<int, ItemRecord> {
    map k | k in m :: ItemRecord(m[k].name, m[k].startPosition, m[k].targetPosition, m[k].targetPoints, m[k].code)
  }

  lemma RecordsUpdate(m: map<int, Item>, k: int, item: Item)
    ensures Records(m[k := item])
            == Records(m)[k := ItemRecord(item.name, item.startPosition, item.targetPosition, item.targetPoints, item.code)]
  {
  }

  /** An item line as the items file writes it: the three numbers, the name's words and the code, one space apart. */
  function RenderItemLine(r: ItemRecord): string {
    Join([IntToString(r.start), IntToString(r.target), IntToString(r.points)] + Split(r.name) + [r.code], " ")
  }

  /** Words joined by single spaces read back, through `strip().split()`, as the same words. */
  lemma TokensOfJoined(tokens: seq<string>)
    requires forall j :: 0 <= j < |tokens| ==> IsWord(tokens[j])
    ensures Split(Strip(Join(tokens, " "))) == tokens
  {
    JoinIsTrimmed(tokens);
    StripOfTrimmed(Join(tokens, " "));
    SplitJoin(tokens);
  }

  /** The tokens of a written item line: the three numbers, the name's words and the code. */
  function ItemTokens(r: ItemRecord, words: seq<string>): seq<string> {
    [IntToString(r.start), IntToString(r.target), IntToString(r.points)] + words + [r.code]
  }

  lemma ItemTokensAreWords(r: ItemRecord, words: seq<string>)
    requires forall j :: 0 <= j < |words| ==> IsWord(words[j])
    requires IsWord(r.code)
    ensures forall j :: 0 <= j < |ItemTokens(r, words)| ==> IsWord(ItemTokens(r, words)[j])
  {
    var tokens := ItemTokens(r, words);
    forall j | 0 <= j < |tokens| ensures IsWord(tokens[j]) {
      if 3 <= j < |tokens| - 1 {
        assert tokens[j] == words[j - 3];
      }
    }
  }

  /** Reading back a written item line gives the same record, provided the name is words joined by single spaces. */
  lemma ItemLineRoundTrip(r: ItemRecord, words: seq<string>)
    requires |words| > 0 && forall j :: 0 <= j < |words| ==> IsWord(words[j])
    requires r.name == Join(words, " ") && IsWord(r.code)
    ensures ParseItemLine(RenderItemLine(r)) == Parsed(r)
  {
    var tokens := ItemTokens(r, words);
    SplitJoin(words);
    assert RenderItemLine(r) == Join(tokens, " ");
    ItemTokensAreWords(r, words);
    TokensOfJoined(tokens);
    var parts := Split(Strip(RenderItemLine(r)));
    assert parts == tokens;
    assert |parts| >= 5;
    ParseIntToString(r.start);
    ParseIntToString(r.target);
    ParseIntToString(r.points);
    assert parts[3..|parts| - 1] == words;
    assert parts[|parts| - 1] == r.code;
  }

  /** The table fails exactly when some line is malformed. */
  lemma {:induction false} ItemTableFail(ps: seq<ItemLine>)
    ensures ItemTable(ps).None? <==> exists i :: 0 <= i < |ps| && ps[i].Malformed?
  {
    if |ps| > 0 {
      var init := ps[..|ps| - 1];
      ItemTableFail(init);
      assert forall i :: 0 <= i < |init| ==> init[i] == ps[i];
    }
  }

  /** The table holds a record for exactly the keys that some item line stores. */
  lemma {:induction false} ItemTableKeys(ps: seq<ItemLine>)
    requires ItemTable(ps).Some?
    ensures var m := ItemTable(ps).value;
            forall k :: k in m <==> exists i :: 0 <= i < |ps| && StoresKey(ps[i], k)
  {
    if |ps| > 0 {
      var n := |ps| - 1;
      var init := ps[..n];
      ItemTableKeys(init);
      var m := ItemTable(ps).value;
      assert forall i :: 0 <= i < n ==> init[i] == ps[i];
      forall k | exists i :: 0 <= i < |ps| && StoresKey(ps[i], k)
        ensures k in m
      {
        var i :| 0 <= i < |ps| && StoresKey(ps[i], k);
        if i < n {
          assert StoresKey(init[i], k);
        }
      }
    }
  }

  /**
   * Each record sits under its own start location and is the one from the
   * LAST item line storing that key.
   */
  lemma {:induction false} ItemTableLastWins(ps: seq<ItemLine>)
    requires ItemTable(ps).Some?
    ensures var m := ItemTable(ps).value;
            forall k :: k in m ==>
              && m[k].start == k
              && exists i :: && 0 <= i < |ps| && ps[i] == Parsed(m[k])
                             && forall j :: i < j < |ps| ==> !StoresKey(ps[j], k)
  {
    if |ps| > 0 {
      var n := |ps| - 1;
      var init := ps[..n];
      ItemTableLastWins(init);
      var m0 := ItemTable(init).value;
      var m := ItemTable(ps).value;
      forall k | k in m
        ensures m[k].start == k
        ensures exists i :: && 0 <= i < |ps| && ps[i] == Parsed(m[k])
                            && forall j :: i < j < |ps| ==> !StoresKey(ps[j], k)
      {
        if StoresKey(ps[n], k) {
          assert ps[n] == Parsed(m[k]);
        } else {
          assert k in m0 && m[k] == m0[k];
          var i :| && 0 <= i < n && init[i] == Parsed(m0[k])
                   && forall j :: i < j < n ==> !StoresKey(init[j], k);
          assert ps[i] == init[i];
          forall j | i < j < |ps| ensures !StoresKey(ps[j], k) {
            if j < n { assert ps[j] == init[j]; }
          }
        }
      }
    }
  }

  /**
   * `load_items`: builds the table line by line, a fresh `Item` for each item
   * line (always marked essential, never dropped). `None` stands for the
   * `ValueError` of a malformed line.
   */
  method LoadItems(lines: seq<string>) returns (r: Option<map<int, Item>>)
    ensures r.None? <==> ItemRecords(lines).None?
    ensures r.Some? ==> Records(r.value) == ItemRecords(lines).value
    ensures r.Some? ==> forall k :: k in r.value ==> fresh(r.value[k]) && r.value[k].isEssential && !r.value[k].dropped
  {
    var items: map<int, Item> := map[];
    var i := 0;
    while i < |lines|
      invariant 0 <= i <= |lines|
      invariant ItemRecords(lines[..i]) == Some(Records(items))
      invariant forall k :: k in items ==> fresh(items[k]) && items[k].isEssential && !items[k].dropped
    {
      assert lines[..i + 1][..i] == lines[..i];
      assert ParseItemLines(lines[..i + 1]) == ParseItemLines(lines[..i]) + [ParseItemLine(lines[i])];
      var parts := Split(Strip(lines[i]));
      if |parts| >= 5 {
        var start := ParseInt(parts[0]);
        var target := ParseInt(parts[1]);
        var points := ParseInt(parts[2]);
        if start.None? || target.None? || points.None? {
          ParseItemLinesAt(lines, i);
          ItemTableFail(ParseItemLines(lines));
          return None;
        }
        var code := parts[|parts| - 1];
        var name := Join(parts[3..|parts| - 1], " ");
        var item := new Item(name, start.value, target.value, points.value, code, true, false);
        assert ParseItemLine(lines[i]) == Parsed(ItemRecord(name, start.value, target.value, points.value, code));
        RecordsUpdate(items, start.value, item);
        items := items[start.value := item];
      }
      i := i + 1;
    }
    assert lines[..i] == lines;
    return Some(items);
  }

  // ---------------------------------------------------------------- load_npcs

  /**
   * One line of the NPC file, stripped: a `LOCATION` header with its id
   * (`None` when `int(line.split()[1])` raises), `END`, or a dialogue line.
   */
  datatype NpcLine = Header(id: Option<int>) | EndLine | Dialogue(text: string)

  /** Python's `s.startswith(prefix)`. */
  predicate StartsWith(s: string, prefix: string) {
    |prefix| <= |s| && s[..|prefix|] == prefix
  }

  /** How `load_npcs` reads one line: after `strip()`, a line starting with `LOCATION` is a header, `END` closes a block. */
  function ClassifyNpcLine(raw: string): NpcLine {
    var line := Strip(raw);
    if StartsWith(line, "LOCATION") then
      var tokens := Split(line);
      Header(if |tokens| >= 2 then ParseInt(tokens[1]) else None)
    else if line == "END" then EndLine
    else Dialogue(line)
  }

  /** Every line of the NPC file, read on its own. */
  function NpcLines(lines: seq<string>): (ls: seq<NpcLine>)
    ensures |ls| == |lines|
  {
    if |lines| == 0 then [] else NpcLines(lines[..|lines| - 1]) + [ClassifyNpcLine(lines[|lines| - 1])]
  }

  /** One call of `_set_npc_dialogue`: the location id in force (if any) and the dialogue lines gathered for it. */
  datatype Block = Block(location: Option<int>, lines: seq<string>)

  /**
   * The state of `load_npcs` between lines: the location id in force, the
   * dialogue lines gathered so far and the blocks handed to
   * `_set_npc_dialogue`. `Failed` keeps the blocks that were applied before a
   * header without an integer id raised.
   */
  datatype NpcScanState =
    | Scanning(location: Option<int>, pending: seq<string>, flushed: seq<Block>)
    | Failed(flushed: seq<Block>)

  /**
   * One line of the scan. A header applies the gathered block and then starts
   * a new one under its id. `END` applies the block and clears the location.
   * A dialogue line is gathered.
   */
  function NpcStep(st: NpcScanState, l: NpcLine): NpcScanState {
    match st
    case Failed(_) => st
    case Scanning(location, pending, flushed) =>
      match l
      case Header(id) =>
        var applied := flushed + [Block(location, pending)];
        if id.Some? then Scanning(id, [], applied) else Failed(applied)
      case EndLine => Scanning(None, [], flushed + [Block(location, pending)])
      case Dialogue(text) => Scanning(location, pending + [text], flushed)
  }

  /** The scan state after the lines `ls`, read in order. */
  function NpcScan(ls: seq<NpcLine>): NpcScanState {
    if |ls| == 0 then Scanning(None, [], [])
    else NpcStep(NpcScan(ls[..|ls| - 1]), ls[|ls| - 1])
  }

  /** Every block `load_npcs` applies, including the final one it applies at the end of the input. */
  function NpcFlushes(ls: seq<NpcLine>): seq<Block> {
    match NpcScan(ls)
    case Failed(flushed) => flushed
    case Scanning(location, pending, flushed) => flushed + [Block(location, pending)]
  }

  /**
   * The effect of one block on the location with id `id` (a location that is
   * in the table). A block for another location, or one without dialogue
   * lines, changes nothing. Otherwise the lines joined by a space become the
   * dialogue, as `set_npc_dialogue` sets it.
   */
  function ApplyBlock(v: NpcView, id: int, b: Block): (r: NpcView)
    ensures v.hasNpc ==> r.hasNpc
  {
    if b.location == Some(id) && |b.lines| > 0 then
      var d := Join(b.lines, " ");
      NpcView(d, v.hasNpc || d != "")
    else v
  }

  /** The effect of a sequence of blocks, applied in order. */
  function ApplyBlocks(v: NpcView, id: int, bs: seq<Block>): NpcView {
    if |bs| == 0 then v else ApplyBlock(ApplyBlocks(v, id, bs[..|bs| - 1]), id, bs[|bs| - 1])
  }

  /** Once an NPC is present it stays present: no block clears the flag. */
  lemma {:induction false} NpcFlagSticky(v: NpcView, id: int, bs: seq<Block>)
    requires v.hasNpc
    ensures ApplyBlocks(v, id, bs).hasNpc
  {
    if |bs| > 0 {
      NpcFlagSticky(v, id, bs[..|bs| - 1]);
    }
  }

  lemma ApplyBlocksSnoc(v: NpcView, id: int, bs: seq<Block>, b: Block)
    ensures ApplyBlocks(v, id, bs + [b]) == ApplyBlock(ApplyBlocks(v, id, bs), id, b)
  {
    assert (bs + [b])[..|bs|] == bs;
  }

  lemma NpcScanSnoc(ls: seq<NpcLine>, l: NpcLine)
    ensures NpcScan(ls + [l]) == NpcStep(NpcScan(ls), l)
  {
    assert (ls + [l])[..|ls|] == ls;
  }

  /** A failed scan stays failed, with the blocks it had applied. */
  lemma {:induction false} NpcScanStaysFailed(ls: seq<NpcLine>, n: nat)
    requires n <= |ls| && NpcScan(ls[..n]).Failed?
    ensures NpcScan(ls) == NpcScan(ls[..n])
    decreases |ls| - n
  {
    if n < |ls| {
      assert ls[..n + 1][..n] == ls[..n];
      NpcScanStaysFailed(ls, n + 1);
    } else {
      assert ls[..n] == ls;
    }
  }

  /** The closing `END` of the last block is optional: leaving it out applies the same dialogues. */
  lemma NpcEndIsOptional(ls: seq<NpcLine>, v: NpcView, id: int)
    ensures ApplyBlocks(v, id, NpcFlushes(ls + [EndLine])) == ApplyBlocks(v, id, NpcFlushes(ls))
  {
    NpcScanSnoc(ls, EndLine);
    match NpcScan(ls)
    case Failed(_) =>
    case Scanning(location, pending, flushed) =>
      var applied := flushed + [Block(location, pending)];
      assert NpcFlushes(ls + [EndLine]) == applied + [Block(None, [])];
      ApplyBlocksSnoc(v, id, applied, Block(None, []));
  }

  /** The dialogue lines with the given texts. */
  function Dialogues(texts: seq<string>): (ls: seq<NpcLine>)
    ensures |ls| == |texts|
  {
    seq(|texts|, k requires 0 <= k < |texts| => Dialogue(texts[k]))
  }

  /** Dialogue lines pile up, in order, under the location in force. */
  lemma {:induction false} NpcScanDialogue(ls: seq<NpcLine>, texts: seq<string>)
    requires NpcScan(ls).Scanning?
    ensures var st := NpcScan(ls);
            NpcScan(ls + Dialogues(texts)) == Scanning(st.location, st.pending + texts, st.flushed)
  {
    if |texts| > 0 {
      var n := |texts| - 1;
      NpcScanDialogue(ls, texts[..n]);
      assert ls + Dialogues(texts) == (ls + Dialogues(texts[..n])) + [Dialogue(texts[n])];
      NpcScanSnoc(ls + Dialogues(texts[..n]), Dialogue(texts[n]));
      assert NpcScan(ls).pending + texts[..n] + [texts[n]] == NpcScan(ls).pending + texts;
    } else {
      assert ls + Dialogues(texts) == ls;
    }
  }

  /**
   * A file holding one block (a header for `id`, its dialogue lines and
   * `END`) gives location `id` the lines joined by a space, when there are
   * any, and leaves every other location as it was.
   */
  lemma NpcSingleBlock(id: int, texts: seq<string>, v: NpcView, other: int)
    ensures ApplyBlocks(v, id, NpcFlushes([Header(Some(id))] + Dialogues(texts) + [EndLine]))
            == if |texts| > 0 then NpcView(Join(texts, " "), v.hasNpc || Join(texts, " ") != "") else v
    ensures other != id ==> ApplyBlocks(v, other, NpcFlushes([Header(Some(id))] + Dialogues(texts) + [EndLine])) == v
  {
    var header := [Header(Some(id))];
    assert header == [] + [Header(Some(id))];
    NpcScanSnoc([], Header(Some(id)));
    assert NpcScan(header) == Scanning(Some(id), [], [Block(None, [])]);
    NpcScanDialogue(header, texts);
    assert [] + texts == texts;
    assert NpcScan(header + Dialogues(texts)) == Scanning(Some(id), texts, [Block(None, [])]);
    NpcScanSnoc(header + Dialogues(texts), EndLine);
    var b0, b1 := Block(None, []), Block(Some(id), texts);
    assert NpcScan(header + Dialogues(texts) + [EndLine]) == Scanning(None, [], [b0, b1]);
    var bs := [b0, b1, b0];
    assert NpcFlushes(header + Dialogues(texts) + [EndLine]) == bs;
    assert [b0, b1, b0] == [b0, b1] + [b0] && [b0, b1] == [b0] + [b1] && [b0] == [] + [b0];
    ApplyBlocksSnoc(v, id, [], b0);
    ApplyBlocksSnoc(v, id, [b0], b1);
    ApplyBlocksSnoc(v, id, [b0, b1], b0);
    ApplyBlocksSnoc(v, other, [], b0);
    ApplyBlocksSnoc(v, other, [b0], b1);
    ApplyBlocksSnoc(v, other, [b0, b1], b0);
  }

  /** The header line of an NPC block. */
  function NpcHeader(id: int): string {
    "LOCATION " + IntToString(id)
  }

  /** A written header reads back as a header for the same id. */
  lemma NpcHeaderRoundTrip(id: int)
    ensures ClassifyNpcLine(NpcHeader(id)) == Header(Some(id))
  {
    var line := NpcHeader(id);
    var tokens := ["LOCATION", IntToString(id)];
    assert IsWord("LOCATION");
    assert Join(tokens, " ") == line;
    TokensOfJoined(tokens);
    JoinIsTrimmed(tokens);
    StripOfTrimmed(line);
    assert Strip(line) == line;
    assert StartsWith(line, "LOCATION");
    assert Split(line) == tokens;
    ParseIntToString(id);
  }

  /** `END` reads back as the end of a block. */
  lemma NpcEndRoundTrip()
    ensures ClassifyNpcLine("END") == EndLine
  {
    StripOfTrimmed("END");
    assert !StartsWith("END", "LOCATION");
  }

  // ---------------------------------------------------------------- the world

  class World {
    /** The map; `map` in the source. */
    const grid: seq<seq<int>>
    const items: map<int, Item>
    const restrictedLocations: seq<int>
    const locations: map<int, Location>

    constructor (grid: seq<seq<int>>, items: map<int, Item>, restrictedLocations: seq<int>,
                 locations: map<int, Location>)
      ensures this.grid == grid && this.items == items
      ensures this.restrictedLocations == restrictedLocations && this.locations == locations
    {
      this.grid := grid;
      this.items := items;
      this.restrictedLocations := restrictedLocations;
      this.locations := locations;
    }

    /**
     * `World(...)`: loads the map, then the items, then the NPCs into the
     * given locations, then places each item at its start location. The
     * locations are those `load_locations` would build, each stored under its
     * own id. `null` stands for an exception in one of the loaders. Those
     * are: a map or item token that is not an integer, an NPC header without
     * an integer id, and an item key that is on the map but has no location
     * (the `KeyError` of `add_location_items`).
     */
    static method Load(mapLines: seq<string>, itemLines: seq<string>, npcLines: seq<string>,
                       restricted: seq<int>, locations: map<int, Location>) returns (w: World?)
      requires forall id :: id in locations ==> locations[id].mapId == id
      modifies locations.Values
      ensures w == null ==>
                || LoadMap(mapLines).None?
                || ItemRecords(itemLines).None?
                || NpcScan(NpcLines(npcLines)).Failed?
                || exists id :: id in ItemRecords(itemLines).value && id in LocationIds(LoadMap(mapLines).value) && id !in locations
      ensures w != null ==>
                && fresh(w)
                && LoadMap(mapLines) == Some(w.grid)
                && ItemRecords(itemLines) == Some(Records(w.items))
                && (forall k :: k in w.items ==> fresh(w.items[k]) && w.items[k].isEssential && !w.items[k].dropped)
                && w.restrictedLocations == restricted && w.locations == locations
                && NpcScan(NpcLines(npcLines)).Scanning?
                && (forall id :: id in w.items && id in LocationIds(w.grid) ==> id in locations)
                && w.Keyed()
      ensures w != null ==> forall id :: id in locations ==>
                && locations[id].Npc() == ApplyBlocks(old(locations[id].Npc()), id, NpcFlushes(NpcLines(npcLines)))
                && locations[id].availableItems == old(locations[id].availableItems) + w.Placed(id, w.items.Keys)
                && locations[id].Status() == old(locations[id].Status())
    {
      var grid := LoadMap(mapLines);
      if grid.None? {
        return null;
      }
      var items := LoadItems(itemLines);
      if items.None? {
        return null;
      }
      w := new World(grid.value, items.value, restricted, locations);
      var ok := w.Populate(npcLines);
      if !ok {
        return null;
      }
    }

    /**
     * The last two steps of `World(...)`: `load_npcs`, then `add_location_items`.
     * `false` stands for the exception of either one.
     */
    method Populate(npcLines: seq<string>) returns (ok: bool)
      requires Keyed()
      modifies locations.Values
      ensures !ok ==>
                || NpcScan(NpcLines(npcLines)).Failed?
                || exists id :: id in items && id in LocationIds(grid) && id !in locations
      ensures ok ==>
                && NpcScan(NpcLines(npcLines)).Scanning?
                && forall id :: id in items && id in LocationIds(grid) ==> id in locations
      ensures ok ==> forall id :: id in locations ==>
                && locations[id].Npc() == ApplyBlocks(old(locations[id].Npc()), id, NpcFlushes(NpcLines(npcLines)))
                && locations[id].availableItems == old(locations[id].availableItems) + Placed(id, items.Keys)
                && locations[id].Status() == old(locations[id].Status())
    {
      ok := LoadNpcs(npcLines);
      if !ok {
        return;
      }
      var ids := GetLocationsId();
      if exists id :: id in items && id in ids && id !in locations {
        return false;
      }
      assert forall id :: id in locations ==> locations[id] in locations.Values;
      AddLocationItems();
    }

    /** Each location is stored under its own id, so distinct ids hold distinct objects. */
    ghost predicate Keyed() {
      forall id :: id in locations ==> locations[id].mapId == id
    }

    /**
     * The model's world invariant: a rectangular map whose every location id
     * has a location, each location stored under its own id, and the
     * restricted ones exactly those listed as restricted. It leaves out the
     * source's clause on the items' start and target positions.
     */
    ghost predicate Valid() {
      && Rectangular(grid)
      && Keyed()
      && (forall y, x :: 0 <= y < |grid| && 0 <= x < |grid[y]| && grid[y][x] != -1 ==> grid[y][x] in locations)
      && (forall id :: id in locations ==> (locations[id].IsRestricted() <==> id in restrictedLocations))
    }

    /** `get_locations_id`: the rows of the map, one after the other. */
    method GetLocationsId() returns (ids: seq<int>)
      ensures ids == LocationIds(grid)
    {
      ids := [];
      var y := 0;
      while y < |grid|
        invariant 0 <= y <= |grid|
        invariant ids == LocationIds(grid[..y])
      {
        LocationIdsSnoc(grid[..y], grid[y]);
        assert grid[..y + 1] == grid[..y] + [grid[y]];
        ids := ids + grid[y];
        y := y + 1;
      }
      assert grid[..y] == grid;
    }

    /**
     * `get_location`: the location at (x, y); `null` (Python's `None`) off the
     * map, on a -1 cell, and for an id with no location.
     */
    function GetLocation(x: int, y: int): (r: Location?)
      requires Uniform(grid)
      ensures r != null <==> IsOpenCell(grid, x, y) && grid[y][x] in locations
      ensures r != null ==> r == locations[grid[y][x]]
    {
      if 0 <= y < |grid| && 0 <= x < |grid[0]| && grid[y][x] != -1 && grid[y][x] in locations then
        locations[grid[y][x]]
      else null
    }

    /** `exists_in_map`: a location whose id is in the table and that is the very object stored under it. */
    function ExistsInMap(location: Location?): (r: bool)
      ensures r ==> location != null && location in locations.Values
    {
      if location == null then false
      else if location.mapId in locations then locations[location.mapId] == location
      else false
    }

    /**
     * `add_location_items`: every item whose key is an id on the map is added
     * to the location with that id. Because the table is keyed by location,
     * each location gets at most that one item, whatever the iteration order.
     */
    method AddLocationItems()
      requires Keyed()
      requires forall id :: id in items && id in LocationIds(grid) ==> id in locations
      modifies locations.Values
      ensures forall id :: id in locations ==>
                locations[id].availableItems == old(locations[id].availableItems) + Placed(id, items.Keys)
      ensures forall l :: l in locations.Values ==> l.Npc() == old(l.Npc()) && l.Status() == old(l.Status())
    {
      ghost var start := map id | id in locations :: locations[id].availableItems;
      var keys := items.Keys;
      while keys != {}
        invariant keys <= items.Keys
        invariant forall id :: id in locations ==>
                    id in start && locations[id].availableItems == start[id] + Placed(id, items.Keys - keys)
        invariant forall l :: l in locations.Values ==> l.Npc() == old(l.Npc()) && l.Status() == old(l.Status())
        decreases |keys|
      {
        ghost var some := PickKey(keys);
        var k :| k in keys;
        AddLocationItem(k, start, items.Keys - keys);
        assert items.Keys - (keys - {k}) == (items.Keys - keys) + {k};
        keys := keys - {k};
      }
    }

    /** One round of the loop of `add_location_items`: the item under key `k` goes to location `k` if `k` is on the map. */
    method AddLocationItem(k: int, ghost start: map<int, seq<Item>>, ghost done: set<int>)
      requires Keyed() && k in items && k !in done
      requires forall id :: id in items && id in LocationIds(grid) ==> id in locations
      requires forall id :: id in locations ==> id in start && locations[id].availableItems == start[id] + Placed(id, done)
      modifies locations.Values
      ensures forall id :: id in locations ==> locations[id].availableItems == start[id] + Placed(id, done + {k})
      ensures forall l :: l in locations.Values ==> l.Npc() == old(l.Npc()) && l.Status() == old(l.Status())
    {
      var ids := GetLocationsId();
      if k in ids {
        AddItemAt(k, items[k]);
      }
    }

    /** The item `add_location_items` puts at location `id` once the keys in `done` are handled: `items[id]` when `id` is a handled key on the map. */
    function Placed(id: int, done: set<int>): (r: seq<Item>)
      ensures |r| <= 1
    {
      if id in done && id in items && id in LocationIds(grid) then [items[id]] else []
    }

    /** `self._locations[k].add_item(item)`: only the location with id `k` changes. */
    method AddItemAt(k: int, item: Item)
      requires Keyed() && k in locations
      modifies locations.Values
      ensures forall id :: id in locations ==>
                locations[id].availableItems == old(locations[id].availableItems) + (if id == k then [item] else [])
      ensures forall l :: l in locations.Values ==> l.Npc() == old(l.Npc()) && l.Status() == old(l.Status())
    {
      locations[k].AddItem(item);
    }

    /**
     * `_set_npc_dialogue`: a block with a location id that is in the table,
     * and with at least one dialogue line, sets that location's dialogue.
     */
    method SetNpcDialogueAt(b: Block)
      requires Keyed()
      modifies locations.Values
      ensures forall id :: id in locations ==> locations[id].Npc() == ApplyBlock(old(locations[id].Npc()), id, b)
      ensures forall l :: l in locations.Values ==> l.availableItems == old(l.availableItems) && l.Status() == old(l.Status())
    {
      if b.location.Some? && |b.lines| > 0 && b.location.value in locations {
        locations[b.location.value].SetNpcDialogue(Join(b.lines, " "));
      }
    }

    /** One flush of `load_npcs`: the block joins those applied so far. */
    method ApplyNext(b: Block, ghost start: map<int, NpcView>, ghost flushed: seq<Block>)
      requires Keyed()
      requires forall id :: id in locations ==> id in start && locations[id].Npc() == ApplyBlocks(start[id], id, flushed)
      modifies locations.Values
      ensures forall id :: id in locations ==> locations[id].Npc() == ApplyBlocks(start[id], id, flushed + [b])
      ensures forall l :: l in locations.Values ==> l.availableItems == old(l.availableItems) && l.Status() == old(l.Status())
    {
      SetNpcDialogueAt(b);
      forall id | id in locations {
        ApplyBlocksSnoc(start[id], id, flushed, b);
      }
    }

    /**
     * The body of the loop of `load_npcs` for one raw line: a header or `END`
     * applies the gathered block; a header without an integer id then raises,
     * which `ok == false` stands for.
     */
    method ReadNpcLine(raw: string, location: Option<int>, pending: seq<string>,
                       ghost start: map<int, NpcView>, ghost flushed: seq<Block>)
      returns (ok: bool, location': Option<int>, pending': seq<string>, ghost flushed': seq<Block>)
      requires Keyed()
      requires forall id :: id in locations ==> id in start && locations[id].Npc() == ApplyBlocks(start[id], id, flushed)
      modifies locations.Values
      ensures NpcStep(Scanning(location, pending, flushed), ClassifyNpcLine(raw))
              == if ok then Scanning(location', pending', flushed') else Failed(flushed')
      ensures forall id :: id in locations ==> locations[id].Npc() == ApplyBlocks(start[id], id, flushed')
      ensures forall l :: l in locations.Values ==> l.availableItems == old(l.availableItems) && l.Status() == old(l.Status())
    {
      ok, location', pending', flushed' := true, location, pending, flushed;
      var line := Strip(raw);
      if StartsWith(line, "LOCATION") {
        ApplyNext(Block(location, pending), start, flushed);
        flushed' := flushed + [Block(location, pending)];
        var tokens := Split(line);
        if |tokens| < 2 {
          return false, location', pending', flushed';
        }
        var id := ParseInt(tokens[1]);
        if id.None? {
          return false, location', pending', flushed';
        }
        location', pending' := id, [];
      } else if line == "END" {
        ApplyNext(Block(location, pending), start, flushed);
        flushed' := flushed + [Block(location, pending)];
        location', pending' := None, [];
      } else {
        pending' := pending + [line];
      }
    }

    /**
     * `load_npcs`: reads the NPC file line by line and applies each block as
     * it closes, and the last one at the end of the input. `false` stands for
     * the exception a `LOCATION` line without an integer id raises; the blocks
     * before it stay applied.
     */
    method LoadNpcs(lines: seq<string>) returns (ok: bool)
      requires Keyed()
      modifies locations.Values
      ensures ok <==> NpcScan(NpcLines(lines)).Scanning?
      ensures forall id :: id in locations ==>
                locations[id].Npc() == ApplyBlocks(old(locations[id].Npc()), id, NpcFlushes(NpcLines(lines)))
      ensures forall l :: l in locations.Values ==> l.availableItems == old(l.availableItems) && l.Status() == old(l.Status())
    {
      ghost var start := map id | id in locations :: locations[id].Npc();
      var location, pending;
      ghost var flushed;
      ok, location, pending, flushed := ScanNpcLines(lines, start);
      if ok {
        ApplyNext(Block(location, pending), start, flushed);
      }
    }

    /**
     * The loop of `load_npcs`: the blocks it applies line by line, and the
     * location and dialogue lines still pending at the end of the input.
     */
    method ScanNpcLines(lines: seq<string>, ghost start: map<int, NpcView>)
      returns (ok: bool, location: Option<int>, pending: seq<string>, ghost flushed: seq<Block>)
      requires Keyed()
      requires forall id :: id in locations ==> id in start && locations[id].Npc() == start[id]
      modifies locations.Values
      ensures NpcScan(NpcLines(lines)) == if ok then Scanning(location, pending, flushed) else Failed(flushed)
      ensures forall id :: id in locations ==> locations[id].Npc() == ApplyBlocks(start[id], id, flushed)
      ensures forall l :: l in locations.Values ==> l.availableItems == old(l.availableItems) && l.Status() == old(l.Status())
    {
      location, pending, flushed := None, [], [];
      var i := 0;
      while i < |lines|
        invariant 0 <= i <= |lines|
        invariant NpcScan(NpcLines(lines[..i])) == Scanning(location, pending, flushed)
        invariant forall id :: id in locations ==> locations[id].Npc() == ApplyBlocks(start[id], id, flushed)
        invariant forall l :: l in locations.Values ==> l.availableItems == old(l.availableItems) && l.Status() == old(l.Status())
      {
        NpcScanNext(lines, i);
        var continues;
        continues, location, pending, flushed := ReadNpcLine(lines[i], location, pending, start, flushed);
        if !continues {
          NpcFailedAt(lines, i);
          return false, location, pending, flushed;
        }
        i := i + 1;
      }
      assert lines[..i] == lines;
      return true, location, pending, flushed;
    }
  }

  /** Once the scan has failed at line `i`, the whole file's scan is that failure. */
  lemma NpcFailedAt(lines: seq<string>, i: int)
    requires 0 <= i < |lines| && NpcScan(NpcLines(lines[..i + 1])).Failed?
    ensures NpcScan(NpcLines(lines)) == NpcScan(NpcLines(lines[..i + 1]))
  {
    NpcLinesPrefix(lines, i + 1);
    NpcScanStaysFailed(NpcLines(lines), i + 1);
  }

  /** Reading one more line is one more scan step. */
  lemma NpcScanNext(lines: seq<string>, i: int)
    requires 0 <= i < |lines|
    ensures NpcScan(NpcLines(lines[..i + 1])) == NpcStep(NpcScan(NpcLines(lines[..i])), ClassifyNpcLine(lines[i]))
  {
    assert lines[..i + 1][..i] == lines[..i];
    NpcScanSnoc(NpcLines(lines[..i]), ClassifyNpcLine(lines[i]));
  }

  /** Any element of a non-empty set of keys. */
  lemma PickKey(keys: set<int>) returns (k: int)
    requires keys != {}
    ensures k in keys
  {
    if forall j :: j !in keys {
      assert false;
    }
    k :| k in keys;
  }

  /** The lines read so far are a prefix of all the lines read. */
  lemma {:induction false} NpcLinesPrefix(lines: seq<string>, n: nat)
    requires n <= |lines|
    ensures NpcLines(lines[..n]) == NpcLines(lines)[..n]
    decreases |lines| - n
  {
    if n < |lines| {
      NpcLinesPrefix(lines[..|lines| - 1], n);
      assert lines[..|lines| - 1][..n] == lines[..n];
    } else {
      assert lines[..n] == lines;
    }
  }

  /** On a world whose locations are stored under their own ids, `exists_in_map` holds exactly for the stored locations. */
  lemma ExistsInMapIffStored(w: World, location: Location?)
    requires w.Keyed()
    ensures w.ExistsInMap(location) <==> location != null && location in w.locations.Values
  {
    if location != null && location in w.locations.Values {
      if forall id :: id in w.locations ==> w.locations[id] != location {
        assert false;
      }
      var id :| id in w.locations && w.locations[id] == location;
    }
  }

  /** Adding a row to the map adds its ids at the end of the flattened list. */
  lemma {:induction false} LocationIdsSnoc(g: seq<seq<int>>, row: seq<int>)
    ensures LocationIds(g + [row]) == LocationIds(g) + row
  {
    if |g| > 0 {
      assert (g + [row])[1..] == g[1..] + [row];
      LocationIdsSnoc(g[1..], row);
    } else {
      assert g + [row] == [row];
    }
  }

  /**
   * On a valid world, `get_location` finds a location exactly where the
   * player may stand, and what it finds is in the world's table.
   */
  lemma LocationWherePlayerMayStand(w: World, x: int, y: int)
    requires w.Valid()
    ensures w.GetLocation(x, y) != null <==> IsOpenCell(w.grid, x, y)
    ensures w.GetLocation(x, y) != null ==> w.ExistsInMap(w.GetLocation(x, y))
  {
    if IsOpenCell(w.grid, x, y) {
      assert w.grid[y][x] in w.locations;
    }
  }
}
