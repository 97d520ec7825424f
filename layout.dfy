/**
 Placement of the parsed map inside the 48 by 48 render grid: the centring
 offsets, the grid a fresh placement yields, and the one change gameplay
 makes to it (clearing a cell).
 */
module Layout {
  import opened MapFile

  /** The block offset for one axis: the margin left of (or above) the map. */
  function Offset(size: nat): (offset: nat)
    requires size <= MaxSize
    ensures 1 <= offset && offset + size <= TotalSize - 1
    ensures offset <= TotalSize - size - offset <= offset + 1
  {
    (TotalSize - size) / 2
  }

  /** Index of the bottom row and of the rightmost column. */
  const Last: nat := TotalSize - 1

  /** A 48 by 48 grid of tile kinds, indexed [row][column]. */
  ghost predicate IsGrid(g: seq<seq<int>>) {
    |g| == TotalSize && forall row :: 0 <= row < TotalSize ==> |g[row]| == TotalSize
  }

  /** Whether render cell (row, col) lies over the parsed map. */
  predicate OverMap(lv: Level, row: int, col: int)
    requires lv.WellFormed()
  {
    && Offset(lv.height) <= row < Offset(lv.height) + lv.height
    && Offset(lv.width) <= col < Offset(lv.width) + lv.width
  }

  /** The render grid of a fresh placement: the parsed map at the offsets,
      floor (the wall) everywhere else. */
  function Placed(lv: Level): (g: seq<seq<int>>)
    requires lv.WellFormed()
    ensures IsGrid(g)
  {
    var ox, oy := Offset(lv.width), Offset(lv.height);
    seq(TotalSize, row requires 0 <= row < TotalSize =>
      seq(TotalSize, col requires 0 <= col < TotalSize =>
        if OverMap(lv, row, col) then lv.cells[row - oy][col - ox] else Floor))
  }

  /** Every map cell lands at its offset position. */
  lemma PlacedMap(lv: Level, x: nat, y: nat)
    requires lv.WellFormed() && x < lv.width && y < lv.height
    ensures y + Offset(lv.height) < TotalSize && x + Offset(lv.width) < TotalSize
    ensures Placed(lv)[y + Offset(lv.height)][x + Offset(lv.width)] == lv.cells[y][x]
  {
    var row, col := y + Offset(lv.height), x + Offset(lv.width);
    assert OverMap(lv, row, col);
    assert Placed(lv)[row][col] == lv.cells[row - Offset(lv.height)][col - Offset(lv.width)];
  }

  /** The outermost rows and columns are wall whatever the map holds. */
  lemma PlacedBorder(lv: Level)
    requires lv.WellFormed()
    ensures forall i :: 0 <= i < TotalSize ==>
      && Placed(lv)[0][i] == Floor && Placed(lv)[Last][i] == Floor
      && Placed(lv)[i][0] == Floor && Placed(lv)[i][Last] == Floor
  {
    var g := Placed(lv);
    forall i | 0 <= i < TotalSize
      ensures g[0][i] == Floor && g[Last][i] == Floor && g[i][0] == Floor && g[i][Last] == Floor
    {
      assert !OverMap(lv, 0, i) && !OverMap(lv, Last, i);
      assert !OverMap(lv, i, 0) && !OverMap(lv, i, Last);
    }
  }

  /** Off the map the placed grid is wall. */
  lemma PlacedOffMap(lv: Level, row: nat, col: nat)
    requires lv.WellFormed() && row < TotalSize && col < TotalSize && !OverMap(lv, row, col)
    ensures Placed(lv)[row][col] == Floor
  {
  }

  /** The render grid with one cell turned to air. */
  function Cleared(g: seq<seq<int>>, x: nat, y: nat): (h: seq<seq<int>>)
    requires IsGrid(g) && x < TotalSize && y < TotalSize
    ensures IsGrid(h) && h[y][x] == Air
    ensures forall row, col :: 0 <= row < TotalSize && 0 <= col < TotalSize && (row != y || col != x) ==>
              h[row][col] == g[row][col]
  {
    g[y := g[y][x := Air]]
  }

  /** Clearing the same cell twice is clearing it once. */
  lemma ClearedIdempotent(g: seq<seq<int>>, x: nat, y: nat)
    requires IsGrid(g) && x < TotalSize && y < TotalSize
    ensures Cleared(Cleared(g, x, y), x, y) == Cleared(g, x, y)
  {
    var once := Cleared(g, x, y);
    assert once[y][x := Air] == once[y];
  }

  /** No cell of the grid is a target: the win condition. */
  ghost predicate NoTarget(g: seq<seq<int>>)
    requires IsGrid(g)
  {
    forall row, col :: 0 <= row < TotalSize && 0 <= col < TotalSize ==> g[row][col] != Target
  }

  /** g is `from` with some cells turned to air: what gameplay can make of a
      freshly placed grid. */
  ghost predicate Descends(g: seq<seq<int>>, from: seq<seq<int>>)
    requires IsGrid(g) && IsGrid(from)
  {
    forall row, col :: 0 <= row < TotalSize && 0 <= col < TotalSize ==>
      g[row][col] == from[row][col] || g[row][col] == Air
  }

  /** Clearing a cell keeps a grid a descendant of its placement. */
  lemma ClearedDescends(g: seq<seq<int>>, from: seq<seq<int>>, x: nat, y: nat)
    requires IsGrid(g) && IsGrid(from) && Descends(g, from)
    requires x < TotalSize && y < TotalSize
    ensures Descends(Cleared(g, x, y), from)
  {
  }

  /** No descendant of a placement has a target on its bottom row, so the
      cell below a target always exists. */
  lemma NoTargetOnBottomRow(g: seq<seq<int>>, lv: Level)
    requires lv.WellFormed() && IsGrid(g) && Descends(g, Placed(lv))
    ensures forall col :: 0 <= col < TotalSize ==> g[Last][col] != Target
  {
    PlacedBorder(lv);
    forall col | 0 <= col < TotalSize ensures g[Last][col] != Target {
      assert g[Last][col] == Placed(lv)[Last][col] || g[Last][col] == Air;
    }
  }

  /** The worked example's offsets: a 3 by 2 map sits at column 22, row 23. */
  lemma ExampleOffsets()
    ensures Offset(3) == 22 && Offset(2) == 23
  {
  }
}
