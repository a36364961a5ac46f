/**
 * The world map: a grid of location ids where -1 marks "no location here",
 * indexed as `grid[y][x]`. `load_map` reads it from lines of whitespace-separated
 * integers, and `get_locations_id` flattens it row by row.
 */
module Grid {
  import opened Wrappers
  import opened Text

  /** Every row is as wide as the first one (vacuous for an empty map). */
  predicate Uniform(g: seq<seq<int>>) {
    forall y :: 0 <= y < |g| ==> |g[y]| == |g[0]|
  }

  /** The shape the world's representation invariant asks for: at least one row, all of one width. */
  predicate Rectangular(g: seq<seq<int>>) {
    |g| > 0 && Uniform(g)
  }

  /** The bounds test of both `is_location_valid` and `get_location`: the width is that of row 0. */
  predicate InBounds(g: seq<seq<int>>, x: int, y: int) {
    0 <= y < |g| && 0 <= x < |g[0]|
  }

  /** Cell (x, y) is on the map and holds a location id rather than -1. */
  predicate IsOpenCell(g: seq<seq<int>>, x: int, y: int)
    requires Uniform(g)
  {
    InBounds(g, x, y) && g[y][x] != -1
  }

  // ---------------------------------------------------------------- load_map

  /** `[int(num) for num in tokens]`; `None` as soon as one token is not an integer. */
  function ParseRow(tokens: seq<string>): (r: Option<seq<int>>)
    ensures r.Some? <==> forall k :: 0 <= k < |tokens| ==> ParseInt(tokens[k]).Some?
    ensures r.Some? ==> |r.value| == |tokens| && forall k :: 0 <= k < |tokens| ==> ParseInt(tokens[k]) == Some(r.value[k])
  {
    if |tokens| == 0 then Some([])
    else match (ParseInt(tokens[0]), ParseRow(tokens[1..]))
      case (Some(v), Some(rest)) => Some([v] + rest)
      case _ => None
  }

  /**
   * `load_map`: one row per line (a blank line gives an empty row), each the
   * integers of `line.split()`. `None` stands for the `ValueError` of a
   * non-integer token.
   */
  function LoadMap(lines: seq<string>): (r: Option<seq<seq<int>>>)
    ensures r.Some? ==> |r.value| == |lines|
  {
    if |lines| == 0 then Some([])
    else match (ParseLine(lines[0]), LoadMap(lines[1..]))
      case (Some(row), Some(rest)) => Some([row] + rest)
      case _ => None
  }

  /** `[int(num) for num in line.split()]`. */
  function ParseLine(line: string): Option<seq<int>> {
    ParseRow(Split(line))
  }

  /** A row written out as the map file has it: integers separated by single spaces. */
  function RenderRow(row: seq<int>): string {
    Join(seq(|row|, k requires 0 <= k < |row| => IntToString(row[k])), " ")
  }

  lemma {:induction false} ParseRenderedRow(row: seq<int>)
    ensures ParseRow(Split(RenderRow(row))) == Some(row)
  {
    var tokens := seq(|row|, k requires 0 <= k < |row| => IntToString(row[k]));
    SplitJoin(tokens);
    forall k | 0 <= k < |row| ensures ParseInt(tokens[k]) == Some(row[k]) {
      ParseIntToString(row[k]);
    }
    var r := ParseRow(tokens);
    assert r.Some?;
    assert r.value == row;
  }

  /** `load_map` keeps one row per line, in order, when every line parses. */
  lemma {:induction false} LoadMapRows(g: seq<seq<int>>, lines: seq<string>)
    requires |lines| == |g|
    requires forall y :: 0 <= y < |g| ==> ParseLine(lines[y]) == Some(g[y])
    ensures LoadMap(lines) == Some(g)
  {
    if |g| > 0 {
      LoadMapRows(g[1..], lines[1..]);
      assert [g[0]] + g[1..] == g;
    }
  }

  /** `load_map` fails (Python's `ValueError`) exactly when some line holds a token that is not an integer. */
  lemma {:induction false} LoadMapFails(lines: seq<string>)
    ensures LoadMap(lines).None? <==> exists y :: 0 <= y < |lines| && ParseLine(lines[y]).None?
  {
    if |lines| > 0 {
      var rest := lines[1..];
      LoadMapFails(rest);
      if LoadMap(rest).None? {
        var y :| 0 <= y < |rest| && ParseLine(rest[y]).None?;
        assert ParseLine(lines[y + 1]).None?;
      }
      if exists y :: 0 <= y < |lines| && ParseLine(lines[y]).None? {
        var y :| 0 <= y < |lines| && ParseLine(lines[y]).None?;
        if y > 0 {
          assert ParseLine(rest[y - 1]).None?;
        }
      }
    }
  }

  /** A loaded map has one row per line, in order, each the integers of its line. */
  lemma {:induction false} LoadMapGivesRows(lines: seq<string>)
    requires LoadMap(lines).Some?
    ensures var g := LoadMap(lines).value;
            |g| == |lines| && forall y :: 0 <= y < |g| ==> ParseLine(lines[y]) == Some(g[y])
  {
    if |lines| > 0 {
      var rest := lines[1..];
      LoadMapGivesRows(rest);
      var g, tail := LoadMap(lines).value, LoadMap(rest).value;
      assert g == [ParseLine(lines[0]).value] + tail;
      forall y | 1 <= y < |g| ensures ParseLine(lines[y]) == Some(g[y]) {
        assert lines[y] == rest[y - 1] && g[y] == tail[y - 1];
      }
    }
  }

  /**
   * `load_map` gives the grid `g` exactly when `g` has one row per line, each
   * the integers of its line.
   */
  lemma LoadMapExactly(lines: seq<string>, g: seq<seq<int>>)
    ensures LoadMap(lines) == Some(g) <==>
              |g| == |lines| && forall y :: 0 <= y < |g| ==> ParseLine(lines[y]) == Some(g[y])
  {
    if LoadMap(lines) == Some(g) {
      LoadMapGivesRows(lines);
    }
    if |g| == |lines| && forall y :: 0 <= y < |g| ==> ParseLine(lines[y]) == Some(g[y]) {
      LoadMapRows(g, lines);
    }
  }

  /** Reading back a map written one row per line gives the same grid. */
  lemma LoadMapRoundTrip(g: seq<seq<int>>, lines: seq<string>)
    requires |lines| == |g|
    requires forall y :: 0 <= y < |g| ==> lines[y] == RenderRow(g[y])
    ensures LoadMap(lines) == Some(g)
  {
    forall y | 0 <= y < |g| ensures ParseLine(lines[y]) == Some(g[y]) {
      ParseRenderedRow(g[y]);
    }
    LoadMapRows(g, lines);
  }

  // ---------------------------------------------------------------- get_locations_id

  /** The grid flattened row by row, -1 cells included. */
  function LocationIds(g: seq<seq<int>>): (ids: seq<int>)
    ensures forall id :: id in ids <==> exists y, x :: 0 <= y < |g| && 0 <= x < |g[y]| && g[y][x] == id
  {
    if |g| == 0 then []
    else
      var rest := LocationIds(g[1..]);
      assert forall id :: id in rest <==> exists y, x :: 1 <= y < |g| && 0 <= x < |g[y]| && g[y][x] == id by {
        forall id | id in rest ensures exists y, x :: 1 <= y < |g| && 0 <= x < |g[y]| && g[y][x] == id {
          var y, x :| 0 <= y < |g[1..]| && 0 <= x < |g[1..][y]| && g[1..][y][x] == id;
          assert g[y + 1][x] == id;
        }
        forall id | exists y, x :: 1 <= y < |g| && 0 <= x < |g[y]| && g[y][x] == id ensures id in rest {
          var y, x :| 1 <= y < |g| && 0 <= x < |g[y]| && g[y][x] == id;
          assert g[1..][y - 1][x] == id;
        }
      }
      g[0] + rest
  }
}
