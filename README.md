# Map: loading, placement, target breaking and texture choice

This project models the non-graphical core of the `Map` class of a small
pygame platformer, in Dafny, and proves what it promises.

A map file is a `width,height` header followed by `x,y,type` lines:
- type 0 is air, 1 floor, 2 a target and 3 the spawnpoint;
- a line that is exactly `"\n"` is skipped;
- a line whose `x` or `y` lies outside `map_size` is dropped;
- width and height are cut down to 46.

Loading places the parsed map at the centre of a 48 by 48 render grid that
starts as all wall. Gameplay clears cells with `break_target`, which then
sets the win flag exactly when no target is left. `reset_map` rebuilds the
render grid from the parsed map. Each frame, the renderer chooses a texture
for every cell:
- air is not drawn;
- floor gets a variant picked by a generator seeded with `(5x)^2 + 3y`;
- a target is *grounded* when floor lies directly below it and *aerial* otherwise.

Modules, one per file:

- `Wrappers` (wrappers.dfy): `Option` and `Result`.
- `Text` (text.dfy): `str.split`, and the part of `int()` the file format uses (decimal digits with surrounding whitespace).
- `MapFile` (map_file.dfy): the parser.
  - `Parse` is its specification, a replay of decoded records on an empty map.
  - `ReadMap` and `ReadRecords` are the imperative loader, proved equal to `Parse`.
- `MapFileFacts` (map_file_facts.dfy): what a load yields. It covers:
  - the size, each cell and the spawnpoint;
  - skipped lines and the first bad line;
  - a write/read round trip and a worked example.
- `Layout` (layout.dfy): the centring offsets, the placed render grid, clearing a cell, and the invariant gameplay keeps.
- `Tiles` (tiles.dfy): the per-cell texture decision and the floor seed.
- `Maps` (map.dfy): `class Map`.
  - Its immutable parsed map is held in `const` fields.
  - The render grid is an `array2<int>`; `done` and `winFrames` are its mutable fields.
  - The constructor, `Place`, `ResetMap`, `BreakTarget` and `Render` are methods.
  - `Load` is the file-to-object path.

Python exceptions raised while loading become `LoadError` values:
- `MissingHeader` (no first line);
- `BadHeader` (the header does not read as two numbers);
- `BadRecord(n)` (line `n` does not read).

The object invariant `Map.Valid()` says that every render cell either holds
its freshly placed value or is air. From it follow:
- the bottom row never holds a target, so the renderer's look-up of the cell below a target (map.py:135) never leaves the grid;
- `BreakTarget` keeps the invariant.

## Model

| member | source | states |
|---|---|---|
| Text.Split | map.py:22-23 | `s.split(sep)`: the pieces between separators, empty pieces included, so there is always at least one piece. |
| Text.SplitJoin | map.py:43 | Joining the parts of `line.split(",")` with commas gives the line back, and no part contains a comma. |
| Text.SplitAtSeparator | map.py:43 | Splitting `a + "," + b` where `a` has no comma gives `a` followed by the parts of `b`. |
| Text.SplitWithoutSeparator | map.py:43 | A string without a comma splits into itself alone. |
| Text.ValueOfDecimal | map.py:46-50 | The value of a number's decimal numeral is that number. |
| Text.ParseNat | map.py:22-23 | `int(field)` for the file's fields: the number an unsigned decimal numeral denotes once the surrounding whitespace is stripped; any other field is an error (None). |
| Text.ParseDecimal | map.py:46-50 | `int()` reads a decimal numeral followed by whitespace (such as the line's newline) back as its number. |
| MapFile.Clamp | map.py:25-26 | The kept size is at most both the header value and 46, and is one of the two. |
| MapFile.ParseHeader | map.py:22-23 | Definition: the first two comma-separated fields of the header line read as numbers, width first; a missing or unreadable field is an error (None). What it reads back is stated by `MapFileFacts.ParseHeaderFormat`. |
| MapFile.Decode | map.py:42-50 | A record a line yields always fits the clamped map, so the write at map.py:50 is in bounds. |
| MapFile.Records | map.py:40-50 | Reading succeeds iff every line decodes. The records are then the decoded lines in order. Otherwise the error index is the first line that does not decode. |
| MapFile.Empty | map.py:31-32 | The initial map has `height` rows of `width` air cells and a well-formed shape. |
| MapFile.Step | map.py:46-50 | Applying one record keeps the map's size and shape. |
| MapFile.Replay | map.py:40-50 | Applying records in file order keeps the map's size and shape. |
| MapFile.Body | map.py:40-50 | The lines after the header replayed on an empty map of the clamped size, which keeps that size and shape; otherwise an error index that lies inside the body. That this index is the first line that does not decode follows from `MapFile.Records` and is stated by `MapFileFacts.ParseFirstBadLine`. |
| MapFile.Parse | map.py:20-50 | A successful load yields a well-formed map of at most 46 by 46. |
| MapFile.RecordsStep | map.py:40-50 | One more line either extends the records read so far or is the first bad line, and then the load fails there. |
| MapFile.ReadPrefix | map.py:40-50 | The state of the record loop after n lines: a well-formed map of the clamped size, or an error index among those n lines. That it is the first bad line follows from `MapFile.ReadPrefixIsBody` and `MapFile.Records`. |
| MapFile.BodySnoc | map.py:40-50 | Loading one more line is loading the lines before it and then applying that line: an earlier error stands, a bad line is the error, and a good line takes one `Step`. |
| MapFile.ReadPrefixIsBody | map.py:40-50 | Reading the first n lines one at a time gives exactly the load of those n lines. |
| MapFile.ReadPrefixFails | map.py:40-50 | If the first n lines read and line n does not decode, the load fails at line n. |
| MapFile.ReadRecords | map.py:40-50 | The record loop, which updates its local grid and spawnpoint line by line, returns exactly the replay of the decoded lines, or the first bad line. |
| MapFile.ReadMap | map.py:20-50 | The imperative loader returns exactly `Parse(lines)`. |
| MapFileFacts.ReplayCell | map.py:50 | A cell no record writes keeps its value; otherwise the last record writing it decides its kind. |
| MapFileFacts.ReplaySpawn | map.py:47-48 | The spawnpoint stays put without a spawn record; otherwise the last spawn record decides it. |
| MapFileFacts.DecodeNeverTilesMarker | map.py:47-50 | A type-3 line sets the spawnpoint and never becomes a cell write. |
| MapFileFacts.ReplayMarkerFree | map.py:47-50 | Replaying records that never write type 3 keeps type 3 out of the map. |
| MapFileFacts.ParseMarkerFree | map.py:47-50 | No cell of a loaded map holds type 3. |
| MapFileFacts.ParsedRecords | map.py:20-50 | A successful load has a header. Each later line decodes to a record that fits. The map is those records replayed on an empty map of the clamped size. |
| MapFileFacts.ParseSize | map.py:22-28 | `map_size` is the header's width and height, each replaced by 46 when larger, and the map has that shape. |
| MapFileFacts.LinesCellUnwritten | map.py:31 | Proof helper for `MapFileFacts.ParseCellUnwritten`. Over the decoded lines, a cell no line writes stays air. |
| MapFileFacts.LinesCellLastWriter | map.py:46-50 | Proof helper for `MapFileFacts.ParseCellLastWriter`. Over the decoded lines, the last line writing a cell decides its kind. |
| MapFileFacts.ParseCellUnwritten | map.py:31 | After a load, a cell that no line writes is air. |
| MapFileFacts.ParseCellLastWriter | map.py:46-50 | After a load, a cell holds the type of the last line that writes it. |
| MapFileFacts.LinesSpawnUnset | map.py:32 | Proof helper for `MapFileFacts.ParseSpawnpointUnset`. Over the decoded lines, without a spawn line the spawnpoint stays (0, 0). |
| MapFileFacts.LinesSpawnLast | map.py:47-48 | Proof helper for `MapFileFacts.ParseSpawnpointLast`. Over the decoded lines, the last spawn line decides the spawnpoint. |
| MapFileFacts.ParseSpawnpointUnset | map.py:32 | After a load with no type-3 line inside the map, the spawnpoint is (0, 0). |
| MapFileFacts.ParseSpawnpointLast | map.py:47-48 | After a load, the spawnpoint is the position of the last type-3 line inside the map. |
| MapFileFacts.BodySkipsLine | map.py:41-46 | A blank or out-of-bounds line appended to readable records leaves the result unchanged. |
| MapFileFacts.ParseSkipsLine | map.py:41-46 | Appending a blank line, or a line outside `map_size`, to a loadable file loads the same map. |
| MapFileFacts.ParseByRecords | map.py:20-50 | With a readable header, the load succeeds, or fails at line `n`, exactly as the record reading does one line earlier. |
| MapFileFacts.ParseLoads | map.py:40-50 | With a readable header, a file loads iff every line after the header decodes. |
| MapFileFacts.LinesFirstBad | map.py:40-50 | Record reading fails at index `n - 1` iff line `n` is the first line after the header that does not decode. |
| MapFileFacts.ParseFirstBadLine | map.py:40-50 | With a readable header, the load fails at line `n` iff line `n` does not decode and every line between the header and `n` does. |
| MapFileFacts.ParseHeaderFormat | map.py:22-23 | A header written as `w,h\n` reads back as `(w, h)`. |
| MapFileFacts.DecodeFormat | map.py:42-50 | A record written as `x,y,type\n` reads back as its meaning: dropped when outside the map, a spawn for type 3, and a cell write otherwise. |
| MapFileFacts.ParseFormatted | map.py:20-50 | A file written from a size and entries loads as the entries' meanings replayed in order on an empty map of the clamped size. |
| MapFileFacts.DecodeDropsWideLine | map.py:46 | A line whose x is outside the map is dropped whatever follows the first comma, because x is compared before y is read. |
| MapFileFacts.LoadExample | map.py:20-50 | The 3 by 2 example file loads with a floor, a target and spawnpoint (2, 1). |
| Layout.Offset | map.py:54-55 | The offset leaves at least one wall tile on each side, and the two margins differ by at most one, with any extra tile after the map. |
| Layout.Placed | map.py:57-62 | The render grid of a fresh placement: a 48 by 48 grid holding the parsed map cell at its offset position over the map and wall (1) everywhere else. |
| Layout.PlacedMap | map.py:60-62 | Map cell (x, y) lands at render cell (x + x_block_offset, y + y_block_offset). |
| Layout.PlacedBorder | map.py:57-62 | The outermost rows and columns of a fresh render grid are wall. |
| Layout.PlacedOffMap | map.py:57 | Render cells outside the map are wall. |
| Layout.Cleared | map.py:106 | Clearing makes cell (x, y) air and changes no other cell. |
| Layout.ClearedIdempotent | map.py:106 | Clearing a cell twice is clearing it once. |
| Layout.ClearedDescends | map.py:104-106 | Clearing a cell keeps the grid its placement with some cells turned to air. |
| Layout.NoTarget | map.py:109-113 | The win condition the scan computes: no cell of the render grid is a target (2). |
| Layout.NoTargetOnBottomRow | map.py:134-135 | No grid reachable from a placement has a target on the bottom row. |
| Layout.ExampleOffsets | map.py:54-55 | A 3 by 2 map sits at column 22, row 23. |
| Tiles.Seed | map.py:131 | The seed of the floor variant at (x, y): `(5x)^2 + 3y`, the same value on every frame. |
| Tiles.SeedNotMirrored | map.py:130-131 | The seeds of (x, y) and (y, x) are equal iff x = y, so the generator is not seeded symmetrically in y = x, which is the point of the comment at map.py:130. Whether the images differ depends on `random.choice`, which is left out. |
| Tiles.TextureAt | map.py:126-140 | In order of the cell's kind: <br> • air is not drawn; <br> • floor gets a variant seeded with `(5x)^2 + 3y`; <br> • a target is grounded iff the cell below is floor, and aerial otherwise; <br> • type 3 uses the aerial slot; <br> • a kind outside 0..3 has no texture; <br> • a target on the bottom row makes the look-up below fail. |
| Tiles.CellBelowTargetExists | map.py:134-135 | On any grid reachable from a placement, the look-up below a target stays inside the grid. |
| Tiles.AerialOnlyForTargets | map.py:134-138 | For a loaded map, the aerial texture is drawn exactly for targets with no floor below them. |
| Maps.Map.constructor | map.py:8-62 | A new Map holds the parsed map and a fresh render grid equal to its placement, with `done` false and `win_frames` 0. |
| Maps.Map.Place | map.py:57-62 | The placement loop turns an all-wall grid into exactly the placement of the parsed map. |
| Maps.Map.ResetMap | map.py:95-102 | `win_frames` becomes 0 and the render grid is rebuilt as a fresh placement; `done` is unchanged. |
| Maps.Map.RowHasTarget | map.py:111 | `2 in row` is true iff some cell of that render row is a target. |
| Maps.Map.BreakTarget | map.py:104-113 | Cell (x, y) becomes air and nothing else changes. `done` becomes true iff no target is left, and the invariant is kept. |
| Maps.Map.Render | map.py:115-141 | Every cell gets the texture `TextureAt` chooses, and the look-up below a target never fails. |
| Maps.Load | map.py:8-62 | A file that does not parse yields its error. Otherwise the result is a fresh, valid Map whose parsed map is `Parse(lines)`, with its grid placed, not won and its timer at 0. |

## Left out

- Graphics are not modelled: pygame surfaces, the image and font loading (map.py:64-87), `run` and `_render_win_screen` (map.py:89-93, 143-150), the background blit and the pixel rectangles. `Render` returns the texture chosen per cell instead of drawing it.
- File access is not modelled. `Load` and `ReadMap` take the file's lines, as `readlines()` returns them.
- `random.choice` is left out. The model records only the seed (`Texture.FloorVariant`); which of the three floor images a seed picks depends on CPython's generator.
- Advancing `win_frames` is left out: the game loop does it outside this class. The model only states where it is reset.
- Text.ParseNat: accepts only unsigned ASCII decimal digits surrounded by space, tab, newline or carriage return. Python's `int()` also accepts a sign, `_` between digits, other Unicode digits and whitespace. Such lines are load errors in the model.
- Negative coordinates and types are not modelled, because the model's numbers are naturals. In Python, a negative `x` or `y` passes the bounds test at map.py:46. On a type-3 line (map.py:47-48) it indexes nothing and is stored as the spawnpoint as it is. On any other line (map.py:50) a `y` from -height to -1 picks a row counted from the last row of the map, and an `x` from -width to -1 picks a cell counted from the end of that row; a `y` below -height or an `x` below -width raises `IndexError`. At render time a type from -4 to -1 indexes `textures` from the end, and one below -4 raises `IndexError`.
- Python exceptions become values. An `IndexError` or `ValueError` while loading becomes a `LoadError`; in Python the constructor raises instead.
- Maps.Map.Render: a cell whose kind is 4 or more loads as in Python, but at render time map.py:129 raises `IndexError` at the first such cell in row-major order, no later cell of that frame is drawn, and `run` (map.py:91) passes the exception on. `Render` instead returns a whole 48 by 48 frame, with `Missing(kind)` at every such cell and the other cells' textures after it.
- Maps.Map.BreakTarget: requires 0 <= x, y < 48. The source relies on its caller's hit test (map.py:105); in Python an index from -48 to -1 counts from the end of the grid (map.py:106), and one below -48 or above 47 raises `IndexError`.
- Maps.Map.ResetMap: leaves `done` as it was, as map.py:95-102 does.
- `int((48 - size) / 2)` uses float division. The model uses integer division, which gives the same value for every size from 0 to 46.
- Python stores the spawnpoint as a tuple at first and as a list once a type-3 line sets it. The model uses a pair throughout.
- `render_offset` and `pixel_size` are pixel constants used only for drawing, and are not modelled.
