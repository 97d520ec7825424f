/**
 The Map object: the parsed map it was loaded with, the render grid that
 gameplay changes in place, the win flag and the win timer.
 */
module Maps {
  import opened Wrappers
  import opened MapFile
  import opened Layout
  import opened Tiles

  class Map {
    /** map_size: (width, height) after clamping. */
    const mapSize: (nat, nat)
    /** The parsed map, `height` rows of `width` kinds; never changed after loading. */
    const cells: seq<seq<int>>
    const spawnpoint: (nat, nat)
    const xBlockOffset: nat
    const yBlockOffset: nat
    /** The 48 by 48 grid that is drawn, indexed [row, column]. */
    var renderMap: array2<int>
    /** The win flag: set when a cleared cell leaves no target behind. */
    var done: bool
    /** Frames counted by the game loop until the win; only reset here. */
    var winFrames: nat

    /** The parsed map as a value. */
    ghost function Parsed(): Level {
      Level(mapSize.0, mapSize.1, cells, spawnpoint)
    }

    /** The fixed shape of a Map: a well-formed parsed map, its centring
        offsets, and a 48 by 48 render grid. */
    ghost predicate Shaped()
      reads `renderMap
    {
      && Parsed().WellFormed()
      && xBlockOffset == Offset(mapSize.0)
      && yBlockOffset == Offset(mapSize.1)
      && renderMap.Length0 == TotalSize && renderMap.Length1 == TotalSize
    }

    /** The render grid as a value. */
    function Grid(): (g: seq<seq<int>>)
      reads `renderMap, renderMap
      requires Shaped()
      ensures IsGrid(g)
      ensures forall row, col :: 0 <= row < TotalSize && 0 <= col < TotalSize ==> g[row][col] == renderMap[row, col]
    {
      var a := renderMap;
      seq(TotalSize, row requires 0 <= row < TotalSize reads a =>
        seq(TotalSize, col requires 0 <= col < TotalSize reads a => a[row, col]))
    }

    /** The object invariant: the render grid is the placement of the parsed
        map with, at most, some cells cleared to air. */
    ghost predicate Valid()
      reads `renderMap, renderMap
    {
      Shaped() && Descends(Grid(), Placed(Parsed()))
    }

    /** Loads a parsed map: offsets, a fresh render grid, no win, timer at 0. */
    constructor (lv: Level)
      requires lv.WellFormed()
      ensures Valid() && fresh(renderMap)
      ensures Parsed() == lv
      ensures Grid() == Placed(lv)
      ensures !done && winFrames == 0
    {
      mapSize := (lv.width, lv.height);
      cells := lv.cells;
      spawnpoint := lv.spawnpoint;
      xBlockOffset := Offset(lv.width);
      yBlockOffset := Offset(lv.height);
      done := false;
      winFrames := 0;
      renderMap := new int[TotalSize, TotalSize]((_, _) => Floor);
      new;
      Place();
    }

    /** Copies the parsed map onto an all-wall render grid at the offsets. */
    method Place()
      requires Shaped()
      requires forall row, col :: 0 <= row < TotalSize && 0 <= col < TotalSize ==> renderMap[row, col] == Floor
      modifies renderMap
      ensures Shaped() && Grid() == Placed(Parsed())
    {
      var y := 0;
      while y < mapSize.1
        invariant 0 <= y <= mapSize.1
        invariant forall row, col :: 0 <= row < TotalSize && 0 <= col < TotalSize ==>
          renderMap[row, col] == if OverMap(Parsed(), row, col) && row < yBlockOffset + y
                                 then cells[row - yBlockOffset][col - xBlockOffset] else Floor
      {
        var x := 0;
        while x < mapSize.0
          invariant 0 <= x <= mapSize.0
          invariant forall row, col :: 0 <= row < TotalSize && 0 <= col < TotalSize ==>
            renderMap[row, col] == if OverMap(Parsed(), row, col) &&
                                      (row < yBlockOffset + y || (row == yBlockOffset + y && col < xBlockOffset + x))
                                   then cells[row - yBlockOffset][col - xBlockOffset] else Floor
        {
          renderMap[y + yBlockOffset, x + xBlockOffset] := cells[y][x];
          x := x + 1;
        }
        y := y + 1;
      }
      GridIsPlaced();
    }

    lemma GridIsPlaced()
      requires Shaped()
      requires forall row, col :: 0 <= row < TotalSize && 0 <= col < TotalSize ==>
        renderMap[row, col] == if OverMap(Parsed(), row, col)
                               then cells[row - yBlockOffset][col - xBlockOffset] else Floor
      ensures Grid() == Placed(Parsed())
    {
      var g, p := Grid(), Placed(Parsed());
      forall row | 0 <= row < TotalSize ensures g[row] == p[row] {
        assert forall col :: 0 <= col < TotalSize ==> g[row][col] == p[row][col];
      }
    }

    /** reset_map: a fresh render grid placed from the parsed map and the
        timer back at 0; the win flag is left as it was. */
    method ResetMap()
      requires Shaped()
      modifies this
      ensures Valid() && fresh(renderMap)
      ensures Grid() == Placed(Parsed())
      ensures winFrames == 0 && done == old(done)
    {
      winFrames := 0;
      renderMap := new int[TotalSize, TotalSize]((_, _) => Floor);
      Place();
    }

    /** `Target in row`: whether render row `row` still holds a target. */
    method RowHasTarget(row: nat) returns (found: bool)
      requires Shaped() && row < TotalSize
      ensures found <==> exists col :: 0 <= col < TotalSize && renderMap[row, col] == Target
    {
      var col := 0;
      while col < TotalSize
        invariant 0 <= col <= TotalSize
        invariant forall c :: 0 <= c < col ==> renderMap[row, c] != Target
      {
        if renderMap[row, col] == Target {
          return true;
        }
        col := col + 1;
      }
      return false;
    }

    /** break_target: clears cell (x, y), then scans every row and sets the
        win flag exactly when no target is left. */
    method BreakTarget(x: nat, y: nat)
      requires Valid() && x < TotalSize && y < TotalSize
      modifies renderMap, `done
      ensures Valid() && renderMap == old(renderMap)
      ensures Grid() == Cleared(old(Grid()), x, y)
      ensures done <==> NoTarget(Grid())
    {
      ghost var before := Grid();
      renderMap[y, x] := Air;
      assert Grid() == Cleared(before, x, y) by {
        var g, c := Grid(), Cleared(before, x, y);
        forall row | 0 <= row < TotalSize ensures g[row] == c[row] {
          assert forall col :: 0 <= col < TotalSize ==> g[row][col] == c[row][col];
        }
      }
      ClearedDescends(before, Placed(Parsed()), x, y);
      var endGame := true;
      var row := 0;
      while row < TotalSize
        invariant 0 <= row <= TotalSize
        invariant Valid() && Grid() == Cleared(before, x, y)
        invariant endGame <==> forall r, c :: 0 <= r < row && 0 <= c < TotalSize ==> renderMap[r, c] != Target
      {
        var found := RowHasTarget(row);
        if found {
          endGame := false;
        }
        row := row + 1;
      }
      done := endGame;
    }

    /** The foreground pass of a frame, without the drawing: the texture of
        every cell, row by row. */
    method Render() returns (frame: seq<seq<Texture>>)
      requires Valid()
      ensures |frame| == TotalSize
      ensures forall y :: 0 <= y < TotalSize ==> |frame[y]| == TotalSize
      ensures forall y, x :: 0 <= y < TotalSize && 0 <= x < TotalSize ==>
                frame[y][x] == TextureAt(Grid(), x, y) && frame[y][x] != BelowOutOfGrid
    {
      var g := Grid();
      CellBelowTargetExists(g, Parsed());
      frame := [];
      var y := 0;
      while y < TotalSize
        invariant 0 <= y <= TotalSize && |frame| == y
        invariant forall r :: 0 <= r < y ==> |frame[r]| == TotalSize
        invariant forall r, x :: 0 <= r < y && 0 <= x < TotalSize ==> frame[r][x] == TextureAt(g, x, r)
      {
        var line: seq<Texture> := [];
        var x := 0;
        while x < TotalSize
          invariant 0 <= x <= TotalSize && |line| == x
          invariant forall c :: 0 <= c < x ==> line[c] == TextureAt(g, c, y)
        {
          line := line + [TextureAt(g, x, y)];
          x := x + 1;
        }
        frame := frame + [line];
        y := y + 1;
      }
    }
  }

  /** Map(file): parse the file, then place it; a file that does not parse
      yields its error and no Map. */
  method Load(lines: seq<string>) returns (r: Result<Map, LoadError>)
    ensures Parse(lines).Err? ==> r.Err? && r.error == Parse(lines).error
    ensures Parse(lines).Ok? ==> r.Ok? && fresh(r.value) && fresh(r.value.renderMap)
    ensures Parse(lines).Ok? ==> r.value.Valid() && r.value.Parsed() == Parse(lines).value
    ensures Parse(lines).Ok? ==> r.value.Grid() == Placed(Parse(lines).value)
    ensures Parse(lines).Ok? ==> !r.value.done && r.value.winFrames == 0
  {
    var parsed := ReadMap(lines);
    match parsed {
      case Err(e) => r := Err(e);
      case Ok(lv) =>
        var m := new Map(lv);
        r := Ok(m);
    }
  }
}
