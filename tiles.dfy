/**
 The per-cell texture decision of the renderer, without the drawing: which
 image a cell of the render grid gets, and the seed of the generator that
 picks a floor variant.
 */
module Tiles {
  import opened MapFile
  import opened Layout

  /** What the renderer draws for one cell. */
  datatype Texture =
    | NotDrawn                 // air is skipped
    | FloorVariant(seed: nat)  // a floor image picked by a generator seeded with `seed`
    | Grounded                 // a target with floor directly below it
    | Aerial                   // a target without floor below it (also texture slot 3)
    | Missing(kind: int)       // a kind with no texture slot: the lookup fails
    | BelowOutOfGrid           // a target on the bottom row: the lookup below it fails

  /** The floor seed: (5x)^2 + 3y. */
  function Seed(x: nat, y: nat): nat {
    (5 * x) * (5 * x) + 3 * y
  }

  /** Unlike x * y, the seed tells (x, y) from (y, x), so the generator is not
      seeded symmetrically along the diagonal. Whether the two cells then get
      different images depends on the generator's choice, which is not modelled. */
  lemma SeedNotMirrored(x: nat, y: nat)
    ensures Seed(x, y) == Seed(y, x) <==> x == y
  {
    if x > y {
      SeedGrowsFaster(x, y);
    } else if y > x {
      SeedGrowsFaster(y, x);
    }
  }

  lemma SeedGrowsFaster(big: nat, small: nat)
    requires big > small
    ensures Seed(big, small) > Seed(small, big)
  {
    ScaledSquare(big);
    ScaledSquare(small);
    SquareGap(big, small);
  }

  lemma ScaledSquare(n: nat)
    ensures (5 * n) * (5 * n) == 25 * (n * n)
  {
  }

  lemma SquareGap(big: nat, small: nat)
    requires big > small
    ensures big * big >= small * small + (big - small)
  {
    var d := big - small;
    Distribute(big, small, d);
    Distribute(small, small, d);
    AtLeastOnce(big, d);
  }

  lemma Distribute(a: nat, b: nat, c: nat)
    ensures a * (b + c) == a * b + a * c && (b + c) * a == b * a + c * a
  {
  }

  lemma AtLeastOnce(a: nat, b: nat)
    requires a >= 1
    ensures a * b >= b
  {
  }

  /** The texture of render cell (x, y), as the renderer chooses it. */
  function TextureAt(g: seq<seq<int>>, x: nat, y: nat): (t: Texture)
    requires IsGrid(g) && x < TotalSize && y < TotalSize
    ensures t == NotDrawn <==> g[y][x] == Air
    ensures t.FloorVariant? <==> g[y][x] == Floor
    ensures t.FloorVariant? ==> t.seed == Seed(x, y)
    ensures t == Grounded <==> g[y][x] == Target && y < Last && g[y + 1][x] == Floor
    ensures t == BelowOutOfGrid <==> g[y][x] == Target && y == Last
    ensures t.Missing? <==> g[y][x] < Air || g[y][x] > SpawnMarker
    ensures t.Missing? ==> t.kind == g[y][x]
    ensures t == Aerial <==> (g[y][x] == Target && y < Last && g[y + 1][x] != Floor) || g[y][x] == SpawnMarker
  {
    var kind := g[y][x];
    if kind == Air then NotDrawn
    else if kind == Floor then FloorVariant(Seed(x, y))
    else if kind == Target then
      if y + 1 >= TotalSize then BelowOutOfGrid
      else if g[y + 1][x] == Floor then Grounded
      else Aerial
    else if kind == SpawnMarker then Aerial
    else Missing(kind)
  }

  /** On any grid gameplay can make from a placement, the lookup below a
      target stays inside the grid. */
  lemma CellBelowTargetExists(g: seq<seq<int>>, lv: Level)
    requires lv.WellFormed() && IsGrid(g) && Descends(g, Placed(lv))
    ensures forall x, y :: 0 <= x < TotalSize && 0 <= y < TotalSize ==> TextureAt(g, x, y) != BelowOutOfGrid
  {
    NoTargetOnBottomRow(g, lv);
  }

  /** On a grid made from a map with no type-3 cell, the aerial texture is
      drawn exactly for the targets with no floor under them. */
  lemma AerialOnlyForTargets(g: seq<seq<int>>, lv: Level)
    requires lv.WellFormed() && lv.MarkerFree() && IsGrid(g) && Descends(g, Placed(lv))
    ensures forall x, y :: 0 <= x < TotalSize && 0 <= y < TotalSize ==>
              (TextureAt(g, x, y) == Aerial <==> g[y][x] == Target && y < Last && g[y + 1][x] != Floor)
  {
    forall x, y | 0 <= x < TotalSize && 0 <= y < TotalSize ensures g[y][x] != SpawnMarker {
      if OverMap(lv, y, x) {
        PlacedMap(lv, x - Offset(lv.width), y - Offset(lv.height));
      } else {
        PlacedOffMap(lv, y, x);
      }
    }
  }
}
