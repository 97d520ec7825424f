/**
 The map file: a `width,height` header line followed by `x,y,type` records,
 read into the parsed map (map_size, the map grid and the spawnpoint).
 */
module MapFile {
  import opened Wrappers
  import opened Text

  /** Side of the bordered play field, in tiles (total_map_size). */
  const TotalSize: nat := 48
  /** Largest width or height kept from a header: one wall tile on each side. */
  const MaxSize: nat := TotalSize - 2

  /** Tile kinds as the file and the grids spell them. */
  const Air: int := 0
  const Floor: int := 1
  const Target: int := 2
  const SpawnMarker: int := 3

  /** The parsed map: map_size, `height` rows of `width` cells, the spawnpoint. */
  datatype Level = Level(width: nat, height: nat, cells: seq<seq<int>>, spawnpoint: (nat, nat))
  {
    ghost predicate WellFormed() {
      && width <= MaxSize && height <= MaxSize
      && |cells| == height
      && forall y :: 0 <= y < height ==> |cells[y]| == width
    }

    /** No cell holds the spawn marker: type 3 only ever moves the spawnpoint. */
    ghost predicate MarkerFree() {
      forall y, x :: 0 <= y < |cells| && 0 <= x < |cells[y]| ==> cells[y][x] != SpawnMarker
    }
  }

  /** Why a file does not load; `line` is the index of the offending line. */
  datatype LoadError = MissingHeader | BadHeader | BadRecord(line: nat)

  /** What one line after the header does to the map being read. */
  datatype Record =
    | Blank                            // the line is exactly "\n"
    | Dropped                          // x or y lies outside map_size
    | Spawn(x: nat, y: nat)            // type 3 inside the map
    | Tile(x: nat, y: nat, kind: nat)  // any other type inside the map
  {
    predicate Fits(width: nat, height: nat) {
      (Spawn? || Tile?) ==> x < width && y < height
    }

    predicate WritesAt(col: nat, row: nat) {
      Tile? && x == col && y == row
    }
  }

  /** The header value kept: the smaller of the value and MaxSize. */
  function Clamp(v: nat): (r: nat)
    ensures r <= v && r <= MaxSize
    ensures r == v || r == MaxSize
  {
    if v > MaxSize then MaxSize else v
  }

  /** The first line: its first two comma-separated fields, width then height. */
  function ParseHeader(line: string): Option<(nat, nat)>
  {
    var fields := Split(line, ',');
    match ParseNat(fields[0])
    case None => None
    case Some(w) =>
      if |fields| < 2 then None
      else match ParseNat(fields[1])
        case None => None
        case Some(h) => Some((w, h))
  }

  /** One record line against the clamped size, evaluated in the order the
      loader evaluates it: x is compared before y is read, and y before the
      type is read, so a line out of bounds is dropped even when its later
      fields are missing or malformed. None is a parse error. */
  function Decode(line: string, width: nat, height: nat): (r: Option<Record>)
    ensures r.Some? ==> r.value.Fits(width, height)
  {
    if line == "\n" then Some(Blank)
    else
      var fields := Split(line, ',');
      match ParseNat(fields[0])
      case None => None
      case Some(x) =>
        if x >= width then Some(Dropped)
        else if |fields| < 2 then None
        else match ParseNat(fields[1])
          case None => None
          case Some(y) =>
            if y >= height then Some(Dropped)
            else if |fields| < 3 then None
            else match ParseNat(fields[2])
              case None => None
              case Some(k) => if k == SpawnMarker then Some(Spawn(x, y)) else Some(Tile(x, y, k))
  }

  /** Each line after the header, decoded on its own. */
  function DecodeAll(lines: seq<string>, width: nat, height: nat): (decoded: seq<Option<Record>>)
    ensures |decoded| == |lines|
  {
    seq(|lines|, i requires 0 <= i < |lines| => Decode(lines[i], width, height))
  }

  /** The records of the decoded lines, or the index of the first line that
      did not decode. */
  function Records(decoded: seq<Option<Record>>): (r: Result<seq<Record>, nat>)
    ensures r.Ok? <==> forall i :: 0 <= i < |decoded| ==> decoded[i].Some?
    ensures r.Ok? ==> |r.value| == |decoded|
    ensures r.Ok? ==> forall i :: 0 <= i < |decoded| ==> decoded[i] == Some(r.value[i])
    ensures r.Err? ==> r.error < |decoded| && decoded[r.error].None?
    ensures r.Err? ==> forall i :: 0 <= i < r.error ==> decoded[i].Some?
    decreases |decoded|
  {
    if |decoded| == 0 then Ok([])
    else
      var n := |decoded| - 1;
      match Records(decoded[..n])
      case Err(i) => Err(i)
      case Ok(recs) =>
        match decoded[n]
        case None => Err(n)
        case Some(rec) => Ok(recs + [rec])
  }

  /** The map before any record: all air, spawnpoint (0, 0). */
  function Empty(width: nat, height: nat): (lv: Level)
    requires width <= MaxSize && height <= MaxSize
    ensures lv.WellFormed() && lv.width == width && lv.height == height
    ensures forall y, x :: 0 <= y < height && 0 <= x < width ==> lv.cells[y][x] == Air
  {
    Level(width, height, seq(height, _ => seq(width, _ => Air)), (0, 0))
  }

  /** The effect of one record on the map being read. */
  function Step(lv: Level, rec: Record): (next: Level)
    requires lv.WellFormed() && rec.Fits(lv.width, lv.height)
    ensures next.WellFormed() && next.width == lv.width && next.height == lv.height
  {
    match rec
    case Blank => lv
    case Dropped => lv
    case Spawn(x, y) => lv.(spawnpoint := (x, y))
    case Tile(x, y, k) => lv.(cells := lv.cells[y := lv.cells[y][x := k]])
  }

  ghost predicate AllFit(recs: seq<Record>, width: nat, height: nat) {
    forall i :: 0 <= i < |recs| ==> recs[i].Fits(width, height)
  }

  /** The records applied in file order. */
  function Replay(lv: Level, recs: seq<Record>): (final: Level)
    requires lv.WellFormed() && AllFit(recs, lv.width, lv.height)
    ensures final.WellFormed() && final.width == lv.width && final.height == lv.height
    decreases |recs|
  {
    if |recs| == 0 then lv
    else Step(Replay(lv, recs[..|recs| - 1]), recs[|recs| - 1])
  }

  /** The lines after the header applied to an empty map of the clamped size,
      or the index (among those lines) of the first that does not decode. */
  function Body(body: seq<string>, width: nat, height: nat): (r: Result<Level, nat>)
    requires width <= MaxSize && height <= MaxSize
    ensures r.Ok? ==> r.value.WellFormed() && r.value.width == width && r.value.height == height
    ensures r.Err? ==> r.error < |body|
  {
    match Records(DecodeAll(body, width, height))
    case Err(i) => Err(i)
    case Ok(recs) => Ok(Replay(Empty(width, height), recs))
  }

  /** The whole loader: the header, clamping, then every record in order. */
  function Parse(lines: seq<string>): (r: Result<Level, LoadError>)
    ensures r.Ok? ==> r.value.WellFormed()
  {
    if |lines| == 0 then Err(MissingHeader)
    else match ParseHeader(lines[0])
      case None => Err(BadHeader)
      case Some((w, h)) =>
        match Body(lines[1..], Clamp(w), Clamp(h))
        case Err(i) => Err(BadRecord(i + 1))
        case Ok(lv) => Ok(lv)
  }

  lemma RecordsSnoc(decoded: seq<Option<Record>>, d: Option<Record>)
    ensures Records(decoded + [d]) ==
      match Records(decoded)
      case Err(i) => Err(i)
      case Ok(recs) => if d.None? then Err(|decoded|) else Ok(recs + [d.value])
  {
    assert (decoded + [d])[..|decoded|] == decoded;
  }

  /** The first line that does not decode is the one Records reports. */
  lemma RecordsFirstError(decoded: seq<Option<Record>>, n: nat)
    requires n < |decoded| && Records(decoded[..n]).Ok? && decoded[n].None?
    ensures Records(decoded) == Err(n)
  {
    assert forall j :: 0 <= j < n ==> decoded[..n][j] == decoded[j];
  }

  lemma DecodeAllSnoc(body: seq<string>, i: nat, width: nat, height: nat)
    requires i < |body|
    ensures DecodeAll(body[..i + 1], width, height)
         == DecodeAll(body[..i], width, height) + [Decode(body[i], width, height)]
  {
  }

  lemma ReplaySnoc(lv: Level, recs: seq<Record>, rec: Record)
    requires lv.WellFormed() && AllFit(recs + [rec], lv.width, lv.height)
    ensures AllFit(recs, lv.width, lv.height)
    ensures Replay(lv, recs + [rec]) == Step(Replay(lv, recs), rec)
  {
    assert (recs + [rec])[..|recs|] == recs;
  }

  /** One more line of the record loop: it either extends the records read
      so far or is the first line that does not decode. */
  lemma RecordsStep(body: seq<string>, i: nat, width: nat, height: nat, recs: seq<Record>)
    requires width <= MaxSize && height <= MaxSize
    requires i < |body| && Records(DecodeAll(body[..i], width, height)) == Ok(recs)
    ensures Decode(body[i], width, height).None? ==> Body(body, width, height) == Err(i)
    ensures Decode(body[i], width, height).Some? ==>
              Records(DecodeAll(body[..i + 1], width, height)) == Ok(recs + [Decode(body[i], width, height).value])
  {
    var rec := Decode(body[i], width, height);
    DecodeAllSnoc(body, i, width, height);
    RecordsSnoc(DecodeAll(body[..i], width, height), rec);
    if rec.None? {
      assert DecodeAll(body, width, height)[..i] == DecodeAll(body[..i], width, height);
      RecordsFirstError(DecodeAll(body, width, height), i);
    }
  }

  /** The loader: read the header, clamp it, then run the record loop. */
  method ReadMap(lines: seq<string>) returns (r: Result<Level, LoadError>)
    ensures r == Parse(lines)
  {
    if |lines| == 0 {
      return Err(MissingHeader);
    }
    var header := ParseHeader(lines[0]);
    if header.None? {
      return Err(BadHeader);
    }
    var width := Clamp(header.value.0);
    var height := Clamp(header.value.1);
    var body := ReadRecords(lines[1..], width, height);
    match body {
      case Err(i) => r := Err(BadRecord(i + 1));
      case Ok(lv) => r := Ok(lv);
    }
  }

  /** The map after the first n lines of the body, or the index of the
      first line among them that does not decode: the state of the record
      loop after n rounds. */
  function ReadPrefix(body: seq<string>, n: nat, width: nat, height: nat): (r: Result<Level, nat>)
    requires width <= MaxSize && height <= MaxSize && n <= |body|
    ensures r.Ok? ==> r.value.WellFormed() && r.value.width == width && r.value.height == height
    ensures r.Err? ==> r.error < n
    decreases n
  {
    if n == 0 then Ok(Empty(width, height))
    else match ReadPrefix(body, n - 1, width, height)
      case Err(i) => Err(i)
      case Ok(lv) =>
        match Decode(body[n - 1], width, height)
        case None => Err(n - 1)
        case Some(rec) => Ok(Step(lv, rec))
  }

  /** Loading one more line: the load of the lines before it, then that line. */
  lemma BodySnoc(pre: seq<string>, width: nat, height: nat)
    requires width <= MaxSize && height <= MaxSize && |pre| > 0
    ensures Body(pre, width, height) ==
      match Body(pre[..|pre| - 1], width, height)
      case Err(j) => Err(j)
      case Ok(lv) =>
        match Decode(pre[|pre| - 1], width, height)
        case None => Err(|pre| - 1)
        case Some(rec) => Ok(Step(lv, rec))
  {
    var n := |pre| - 1;
    var d := DecodeAll(pre[..n], width, height);
    var line := Decode(pre[n], width, height);
    DecodeAllSnoc(pre, n, width, height);
    assert pre[..n + 1] == pre;
    RecordsSnoc(d, line);
    if Records(d).Ok? && line.Some? {
      ReplaySnoc(Empty(width, height), Records(d).value, line.value);
    }
  }

  /** Reading the first n lines one at a time is loading those n lines. */
  lemma {:induction false} ReadPrefixIsBody(body: seq<string>, n: nat, width: nat, height: nat)
    requires width <= MaxSize && height <= MaxSize && n <= |body|
    ensures ReadPrefix(body, n, width, height) == Body(body[..n], width, height)
    decreases n
  {
    if n == 0 {
      assert body[..0] == [];
    } else {
      ReadPrefixIsBody(body, n - 1, width, height);
      ReadPrefixStep(body, n, width, height);
    }
  }

  lemma ReadPrefixStep(body: seq<string>, n: nat, width: nat, height: nat)
    requires width <= MaxSize && height <= MaxSize && 0 < n <= |body|
    requires ReadPrefix(body, n - 1, width, height) == Body(body[..n - 1], width, height)
    ensures ReadPrefix(body, n, width, height) == Body(body[..n], width, height)
  {
    var pre := body[..n];
    assert pre[..n - 1] == body[..n - 1] && pre[n - 1] == body[n - 1];
    BodySnoc(pre, width, height);
  }

  /** A line that does not decode after lines that do is where the load stops. */
  lemma ReadPrefixFails(body: seq<string>, n: nat, width: nat, height: nat)
    requires width <= MaxSize && height <= MaxSize && n < |body|
    requires ReadPrefix(body, n, width, height).Ok? && Decode(body[n], width, height).None?
    ensures Body(body, width, height) == Err(n)
  {
    ReadPrefixIsBody(body, n, width, height);
    RecordsStep(body, n, width, height, Records(DecodeAll(body[..n], width, height)).value);
  }

  /** Reading every line is the load. */
  lemma ReadPrefixAll(body: seq<string>, width: nat, height: nat)
    requires width <= MaxSize && height <= MaxSize
    ensures ReadPrefix(body, |body|, width, height) == Body(body, width, height)
  {
    ReadPrefixIsBody(body, |body|, width, height);
    assert body[..|body|] == body;
  }

  /** The record loop: every line after the header, in order, updating the
      grid and the spawnpoint line by line. */
  method ReadRecords(body: seq<string>, width: nat, height: nat) returns (r: Result<Level, nat>)
    requires width <= MaxSize && height <= MaxSize
    ensures r == Body(body, width, height)
  {
    var cells := Empty(width, height).cells;
    var spawnpoint: (nat, nat) := (0, 0);
    var i := 0;
    while i < |body|
      invariant 0 <= i <= |body|
      invariant ReadPrefix(body, i, width, height) == Ok(Level(width, height, cells, spawnpoint))
    {
      var rec := Decode(body[i], width, height);
      if rec.None? {
        ReadPrefixFails(body, i, width, height);
        return Err(i);
      }
      ghost var before := Level(width, height, cells, spawnpoint);
      match rec.value {
        case Spawn(x, y) => spawnpoint := (x, y);
        case Tile(x, y, k) => cells := cells[y := cells[y][x := k]];
        case _ =>
      }
      assert ReadPrefix(body, i + 1, width, height) == Ok(Step(before, rec.value));
      i := i + 1;
    }
    ReadPrefixAll(body, width, height);
    return Ok(Level(width, height, cells, spawnpoint));
  }
}
