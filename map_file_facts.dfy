/**
 What the loader promises about the map it reads: the clamped size, the
 cell each record leaves behind, the spawnpoint, the lines it skips, and
 where it stops with an error.
 */
module MapFileFacts {
  import opened Wrappers
  import opened Text
  import opened MapFile

  /** A cell no record writes keeps its initial value; otherwise the last
      record that writes it decides its kind. */
  lemma {:induction false} ReplayCell(lv: Level, recs: seq<Record>, x: nat, y: nat)
    requires lv.WellFormed() && AllFit(recs, lv.width, lv.height)
    requires x < lv.width && y < lv.height
    ensures (forall i :: 0 <= i < |recs| ==> !recs[i].WritesAt(x, y)) ==>
              Replay(lv, recs).cells[y][x] == lv.cells[y][x]
    ensures forall i :: 0 <= i < |recs| && recs[i].WritesAt(x, y) &&
                        (forall j :: i < j < |recs| ==> !recs[j].WritesAt(x, y)) ==>
              Replay(lv, recs).cells[y][x] == recs[i].kind
    decreases |recs|
  {
    if |recs| > 0 {
      var n := |recs| - 1;
      var prefix := recs[..n];
      assert forall i :: 0 <= i < n ==> prefix[i] == recs[i];
      ReplayCell(lv, prefix, x, y);
      assert Replay(lv, recs) == Step(Replay(lv, prefix), recs[n]);
    }
  }

  /** The spawnpoint stays where it started unless a spawn record comes; then
      the last spawn record decides it. */
  lemma {:induction false} ReplaySpawn(lv: Level, recs: seq<Record>)
    requires lv.WellFormed() && AllFit(recs, lv.width, lv.height)
    ensures (forall i :: 0 <= i < |recs| ==> !recs[i].Spawn?) ==>
              Replay(lv, recs).spawnpoint == lv.spawnpoint
    ensures forall i :: 0 <= i < |recs| && recs[i].Spawn? &&
                        (forall j :: i < j < |recs| ==> !recs[j].Spawn?) ==>
              Replay(lv, recs).spawnpoint == (recs[i].x, recs[i].y)
    decreases |recs|
  {
    if |recs| > 0 {
      var n := |recs| - 1;
      var prefix := recs[..n];
      assert forall i :: 0 <= i < n ==> prefix[i] == recs[i];
      ReplaySpawn(lv, prefix);
      assert Replay(lv, recs) == Step(Replay(lv, prefix), recs[n]);
    }
  }

  /** A record line with type 3 becomes a spawn record, never a tile. */
  lemma DecodeNeverTilesMarker(line: string, width: nat, height: nat)
    ensures var r := Decode(line, width, height);
            r.Some? && r.value.Tile? ==> r.value.kind != SpawnMarker
  {
  }

  /** Replaying records with no tile of type 3 keeps a map free of the marker. */
  lemma {:induction false} ReplayMarkerFree(lv: Level, recs: seq<Record>)
    requires lv.WellFormed() && AllFit(recs, lv.width, lv.height) && lv.MarkerFree()
    requires forall i :: 0 <= i < |recs| && recs[i].Tile? ==> recs[i].kind != SpawnMarker
    ensures Replay(lv, recs).MarkerFree()
    decreases |recs|
  {
    if |recs| > 0 {
      var n := |recs| - 1;
      var prefix := recs[..n];
      assert forall i :: 0 <= i < n ==> prefix[i] == recs[i];
      ReplayMarkerFree(lv, prefix);
      assert Replay(lv, recs) == Step(Replay(lv, prefix), recs[n]);
    }
  }

  /** A loaded map never holds type 3 in a cell. */
  lemma ParseMarkerFree(lines: seq<string>)
    requires Parse(lines).Ok?
    ensures Parse(lines).value.MarkerFree()
  {
    var recs := ParsedRecords(lines);
    var w := Clamp(ParseHeader(lines[0]).value.0);
    var h := Clamp(ParseHeader(lines[0]).value.1);
    forall i | 0 <= i < |recs| && recs[i].Tile? ensures recs[i].kind != SpawnMarker {
      DecodeNeverTilesMarker(lines[i + 1], w, h);
    }
    ReplayMarkerFree(Empty(w, h), recs);
  }

  /** Line `line` writes kind into cell (x, y) of a map of the given size. */
  predicate WritesCell(line: string, width: nat, height: nat, x: nat, y: nat) {
    Decode(line, width, height).Some? && Decode(line, width, height).value.WritesAt(x, y)
  }

  /** Line `line` sets the spawnpoint of a map of the given size. */
  predicate SetsSpawn(line: string, width: nat, height: nat) {
    Decode(line, width, height).Some? && Decode(line, width, height).value.Spawn?
  }

  /** The records a successful load applied are the decoded lines after the header. */
  lemma ParsedRecords(lines: seq<string>) returns (recs: seq<Record>)
    requires Parse(lines).Ok?
    ensures |lines| > 0 && ParseHeader(lines[0]).Some?
    ensures var w := Clamp(ParseHeader(lines[0]).value.0);
            var h := Clamp(ParseHeader(lines[0]).value.1);
            && AllFit(recs, w, h)
            && |recs| == |lines| - 1
            && (forall i :: 1 <= i < |lines| ==> Decode(lines[i], w, h) == Some(recs[i - 1]))
            && Parse(lines) == Ok(Replay(Empty(w, h), recs))
  {
    var w := Clamp(ParseHeader(lines[0]).value.0);
    var h := Clamp(ParseHeader(lines[0]).value.1);
    var decoded := DecodeAll(lines[1..], w, h);
    recs := Records(decoded).value;
    forall i | 1 <= i < |lines| ensures Decode(lines[i], w, h) == Some(recs[i - 1]) {
      assert decoded[i - 1] == Decode(lines[1..][i - 1], w, h);
    }
    forall i | 0 <= i < |recs| ensures recs[i].Fits(w, h) {
      assert Decode(lines[1..][i], w, h) == Some(recs[i]);
    }
  }

  /** map_size is the header's width and height, each cut down to MaxSize. */
  lemma ParseSize(lines: seq<string>)
    requires Parse(lines).Ok?
    ensures |lines| > 0 && ParseHeader(lines[0]).Some?
    ensures var (w, h) := ParseHeader(lines[0]).value;
            var lv := Parse(lines).value;
            && lv.width <= MaxSize && lv.height <= MaxSize
            && (w <= MaxSize ==> lv.width == w) && (w > MaxSize ==> lv.width == MaxSize)
            && (h <= MaxSize ==> lv.height == h) && (h > MaxSize ==> lv.height == MaxSize)
            && |lv.cells| == lv.height
            && forall row :: 0 <= row < lv.height ==> |lv.cells[row]| == lv.width
  {
    var recs := ParsedRecords(lines);
  }

  // The four Lines* lemmas below are proof helpers, not separate promises.
  // They carry ReplayCell and ReplaySpawn from records over to the lines the
  // records came from, with the header's size as plain parameters, so that
  // the Parse* lemmas after each pair stay cheap for the solver. The cell and
  // spawnpoint facts about a load are stated once, by the Parse* lemmas.

  /** ReplayCell restated over the lines the records were decoded from: a
      cell no line writes stays air. */
  lemma LinesCellUnwritten(lines: seq<string>, recs: seq<Record>, w: nat, h: nat, x: nat, y: nat)
    requires w <= MaxSize && h <= MaxSize && AllFit(recs, w, h) && |recs| == |lines| - 1
    requires forall i :: 1 <= i < |lines| ==> Decode(lines[i], w, h) == Some(recs[i - 1])
    requires x < w && y < h
    requires forall i :: 1 <= i < |lines| ==> !WritesCell(lines[i], w, h, x, y)
    ensures Replay(Empty(w, h), recs).cells[y][x] == Air
  {
    forall i | 0 <= i < |recs| ensures !recs[i].WritesAt(x, y) {
      assert !WritesCell(lines[i + 1], w, h, x, y);
    }
    ReplayCell(Empty(w, h), recs, x, y);
  }

  /** ReplayCell restated over the lines the records were decoded from: the
      last line that writes a cell decides it. */
  lemma LinesCellLastWriter(lines: seq<string>, recs: seq<Record>, w: nat, h: nat, x: nat, y: nat, i: nat)
    requires w <= MaxSize && h <= MaxSize && AllFit(recs, w, h) && |recs| == |lines| - 1
    requires forall i :: 1 <= i < |lines| ==> Decode(lines[i], w, h) == Some(recs[i - 1])
    requires x < w && y < h
    requires 1 <= i < |lines| && WritesCell(lines[i], w, h, x, y)
    requires forall j :: i < j < |lines| ==> !WritesCell(lines[j], w, h, x, y)
    ensures Replay(Empty(w, h), recs).cells[y][x] == Decode(lines[i], w, h).value.kind
  {
    forall j | i - 1 < j < |recs| ensures !recs[j].WritesAt(x, y) {
      assert !WritesCell(lines[j + 1], w, h, x, y);
    }
    ReplayCell(Empty(w, h), recs, x, y);
  }

  /** After a load, a cell no line writes is air. */
  lemma ParseCellUnwritten(lines: seq<string>, x: nat, y: nat)
    requires Parse(lines).Ok?
    requires x < Parse(lines).value.width && y < Parse(lines).value.height
    requires var lv := Parse(lines).value;
             forall i :: 1 <= i < |lines| ==> !WritesCell(lines[i], lv.width, lv.height, x, y)
    ensures Parse(lines).value.cells[y][x] == Air
  {
    var recs := ParsedRecords(lines);
    var w := Clamp(ParseHeader(lines[0]).value.0);
    var h := Clamp(ParseHeader(lines[0]).value.1);
    var lv := Parse(lines).value;
    assert lv == Replay(Empty(w, h), recs);
    assert lv.width == w && lv.height == h;
    LinesCellUnwritten(lines, recs, w, h, x, y);
  }

  /** After a load, a cell holds the kind of the last line that writes it. */
  lemma ParseCellLastWriter(lines: seq<string>, x: nat, y: nat, i: nat)
    requires Parse(lines).Ok?
    requires x < Parse(lines).value.width && y < Parse(lines).value.height
    requires var lv := Parse(lines).value;
             && 1 <= i < |lines| && WritesCell(lines[i], lv.width, lv.height, x, y)
             && forall j :: i < j < |lines| ==> !WritesCell(lines[j], lv.width, lv.height, x, y)
    ensures var lv := Parse(lines).value;
            lv.cells[y][x] == Decode(lines[i], lv.width, lv.height).value.kind
  {
    var recs := ParsedRecords(lines);
    var w := Clamp(ParseHeader(lines[0]).value.0);
    var h := Clamp(ParseHeader(lines[0]).value.1);
    var lv := Parse(lines).value;
    assert lv == Replay(Empty(w, h), recs);
    assert lv.width == w && lv.height == h;
    LinesCellLastWriter(lines, recs, w, h, x, y, i);
  }

  /** ReplaySpawn restated over the lines the records were decoded from: no
      spawn line leaves the spawnpoint at (0, 0). */
  lemma LinesSpawnUnset(lines: seq<string>, recs: seq<Record>, w: nat, h: nat)
    requires w <= MaxSize && h <= MaxSize && AllFit(recs, w, h) && |recs| == |lines| - 1
    requires forall i :: 1 <= i < |lines| ==> Decode(lines[i], w, h) == Some(recs[i - 1])
    requires forall i :: 1 <= i < |lines| ==> !SetsSpawn(lines[i], w, h)
    ensures Replay(Empty(w, h), recs).spawnpoint == (0, 0)
  {
    forall i | 0 <= i < |recs| ensures !recs[i].Spawn? {
      assert !SetsSpawn(lines[i + 1], w, h);
    }
    ReplaySpawn(Empty(w, h), recs);
  }

  /** ReplaySpawn restated over the lines the records were decoded from: the
      last spawn line decides the spawnpoint. */
  lemma LinesSpawnLast(lines: seq<string>, recs: seq<Record>, w: nat, h: nat, i: nat)
    requires w <= MaxSize && h <= MaxSize && AllFit(recs, w, h) && |recs| == |lines| - 1
    requires forall i :: 1 <= i < |lines| ==> Decode(lines[i], w, h) == Some(recs[i - 1])
    requires 1 <= i < |lines| && SetsSpawn(lines[i], w, h)
    requires forall j :: i < j < |lines| ==> !SetsSpawn(lines[j], w, h)
    ensures Replay(Empty(w, h), recs).spawnpoint == (Decode(lines[i], w, h).value.x, Decode(lines[i], w, h).value.y)
  {
    forall j | i - 1 < j < |recs| ensures !recs[j].Spawn? {
      assert !SetsSpawn(lines[j + 1], w, h);
    }
    ReplaySpawn(Empty(w, h), recs);
  }

  /** After a load in which no line sets it, the spawnpoint is (0, 0). */
  lemma ParseSpawnpointUnset(lines: seq<string>)
    requires Parse(lines).Ok?
    requires var lv := Parse(lines).value;
             forall i :: 1 <= i < |lines| ==> !SetsSpawn(lines[i], lv.width, lv.height)
    ensures Parse(lines).value.spawnpoint == (0, 0)
  {
    var recs := ParsedRecords(lines);
    var w := Clamp(ParseHeader(lines[0]).value.0);
    var h := Clamp(ParseHeader(lines[0]).value.1);
    var lv := Parse(lines).value;
    assert lv == Replay(Empty(w, h), recs);
    assert lv.width == w && lv.height == h;
    LinesSpawnUnset(lines, recs, w, h);
  }

  /** After a load, the spawnpoint is the position of the last line that sets it. */
  lemma ParseSpawnpointLast(lines: seq<string>, i: nat)
    requires Parse(lines).Ok?
    requires var lv := Parse(lines).value;
             && 1 <= i < |lines| && SetsSpawn(lines[i], lv.width, lv.height)
             && forall j :: i < j < |lines| ==> !SetsSpawn(lines[j], lv.width, lv.height)
    ensures var lv := Parse(lines).value;
            lv.spawnpoint == (Decode(lines[i], lv.width, lv.height).value.x,
                              Decode(lines[i], lv.width, lv.height).value.y)
  {
    var recs := ParsedRecords(lines);
    var w := Clamp(ParseHeader(lines[0]).value.0);
    var h := Clamp(ParseHeader(lines[0]).value.1);
    var lv := Parse(lines).value;
    assert lv == Replay(Empty(w, h), recs);
    assert lv.width == w && lv.height == h;
    LinesSpawnLast(lines, recs, w, h, i);
  }

  lemma BodySkipsLine(body: seq<string>, line: string, width: nat, height: nat)
    requires width <= MaxSize && height <= MaxSize && Body(body, width, height).Ok?
    requires Decode(line, width, height) == Some(Blank) || Decode(line, width, height) == Some(Dropped)
    ensures Body(body + [line], width, height) == Body(body, width, height)
  {
    var decoded := DecodeAll(body, width, height);
    var recs := Records(decoded).value;
    assert DecodeAll(body + [line], width, height) == decoded + [Decode(line, width, height)];
    RecordsSnoc(decoded, Decode(line, width, height));
    ReplaySnoc(Empty(width, height), recs, Decode(line, width, height).value);
  }

  /** A blank line, or a record outside map_size, changes nothing: appending
      it to a file that loads gives the same map. */
  lemma ParseSkipsLine(lines: seq<string>, line: string)
    requires Parse(lines).Ok?
    requires var lv := Parse(lines).value;
             Decode(line, lv.width, lv.height) == Some(Blank) ||
             Decode(line, lv.width, lv.height) == Some(Dropped)
    ensures Parse(lines + [line]) == Parse(lines)
  {
    var w := Clamp(ParseHeader(lines[0]).value.0);
    var h := Clamp(ParseHeader(lines[0]).value.1);
    var more := lines + [line];
    assert more[0] == lines[0];
    assert more[1..] == lines[1..] + [line];
    BodySkipsLine(lines[1..], line, w, h);
  }

  /** With a readable header, whether a file loads is decided by Records
      over the decoded lines after it. */
  lemma ParseByRecords(lines: seq<string>, n: nat)
    requires |lines| > 0 && ParseHeader(lines[0]).Some?
    ensures var w := Clamp(ParseHeader(lines[0]).value.0);
            var h := Clamp(ParseHeader(lines[0]).value.1);
            && (Parse(lines).Ok? <==> Records(DecodeAll(lines[1..], w, h)).Ok?)
            && (Parse(lines) == Err(BadRecord(n)) <==> n >= 1 && Records(DecodeAll(lines[1..], w, h)) == Err(n - 1))
  {
  }

  /** With a readable header, a file loads exactly when every later line
      decodes. */
  lemma ParseLoads(lines: seq<string>)
    requires |lines| > 0 && ParseHeader(lines[0]).Some?
    ensures var w := Clamp(ParseHeader(lines[0]).value.0);
            var h := Clamp(ParseHeader(lines[0]).value.1);
            Parse(lines).Ok? <==> forall i :: 1 <= i < |lines| ==> Decode(lines[i], w, h).Some?
  {
    var w := Clamp(ParseHeader(lines[0]).value.0);
    var h := Clamp(ParseHeader(lines[0]).value.1);
    var decoded := DecodeAll(lines[1..], w, h);
    ParseByRecords(lines, 0);
    assert forall i :: 1 <= i < |lines| ==> decoded[i - 1] == Decode(lines[i], w, h);
    if forall i :: 1 <= i < |lines| ==> Decode(lines[i], w, h).Some? {
      forall i | 0 <= i < |decoded| ensures decoded[i].Some? {
        assert Decode(lines[i + 1], w, h).Some?;
      }
    }
  }

  /** Records stops at the first line after the header that does not decode. */
  lemma LinesFirstBad(lines: seq<string>, w: nat, h: nat, n: nat)
    requires |lines| > 0
    ensures (n >= 1 && Records(DecodeAll(lines[1..], w, h)) == Err(n - 1)) <==>
              && 1 <= n < |lines| && Decode(lines[n], w, h).None?
              && forall i :: 1 <= i < n ==> Decode(lines[i], w, h).Some?
  {
    var decoded := DecodeAll(lines[1..], w, h);
    var r := Records(decoded);
    if n >= 1 && r == Err(n - 1) {
      assert decoded[n - 1] == Decode(lines[n], w, h);
      forall i | 1 <= i < n ensures Decode(lines[i], w, h).Some? {
        assert decoded[i - 1] == Decode(lines[i], w, h);
      }
    }
    if 1 <= n < |lines| && Decode(lines[n], w, h).None? && forall i :: 1 <= i < n ==> Decode(lines[i], w, h).Some? {
      assert decoded[n - 1] == Decode(lines[n], w, h);
      forall i | 0 <= i < n - 1 ensures decoded[i].Some? {
        assert decoded[i] == Decode(lines[i + 1], w, h);
      }
      assert r.Err?;
    }
  }

  /** A file that does not load past its header reports the first line
      after it that does not decode. */
  lemma ParseFirstBadLine(lines: seq<string>, n: nat)
    requires |lines| > 0 && ParseHeader(lines[0]).Some?
    ensures var w := Clamp(ParseHeader(lines[0]).value.0);
            var h := Clamp(ParseHeader(lines[0]).value.1);
            Parse(lines) == Err(BadRecord(n)) <==>
              && 1 <= n < |lines| && Decode(lines[n], w, h).None?
              && forall i :: 1 <= i < n ==> Decode(lines[i], w, h).Some?
  {
    var w := Clamp(ParseHeader(lines[0]).value.0);
    var h := Clamp(ParseHeader(lines[0]).value.1);
    ParseByRecords(lines, n);
    LinesFirstBad(lines, w, h, n);
  }

  /** The three numbers of a record line. */
  datatype Entry = Entry(x: nat, y: nat, kind: nat)

  /** What a record line is meant to do to a map of the given size: nothing
      outside it, set the spawnpoint for type 3, write the cell otherwise. */
  function Meaning(e: Entry, width: nat, height: nat): Record {
    if e.x >= width || e.y >= height then Dropped
    else if e.kind == SpawnMarker then Spawn(e.x, e.y)
    else Tile(e.x, e.y, e.kind)
  }

  /** The header line as a map editor would write it. */
  function FormatHeader(width: nat, height: nat): string {
    Decimal(width) + "," + Decimal(height) + "\n"
  }

  /** A record line as a map editor would write it. */
  function FormatRecord(e: Entry): string {
    Decimal(e.x) + "," + Decimal(e.y) + "," + Decimal(e.kind) + "\n"
  }

  /** A whole map file as a map editor would write it. */
  function FormatFile(width: nat, height: nat, entries: seq<Entry>): (lines: seq<string>)
    ensures |lines| == |entries| + 1
  {
    [FormatHeader(width, height)] + seq(|entries|, i requires 0 <= i < |entries| => FormatRecord(entries[i]))
  }

  lemma NoComma(n: nat, pad: string)
    requires AllSpace(pad)
    ensures ',' !in Decimal(n) + pad
  {
    var s := Decimal(n) + pad;
    forall i | 0 <= i < |s| ensures s[i] != ',' {
      if i < |Decimal(n)| {
        assert IsDigit(Decimal(n)[i]);
      } else {
        assert IsSpace(pad[i - |Decimal(n)|]);
      }
    }
  }

  /** The header reads back the size it was written with. */
  lemma ParseHeaderFormat(width: nat, height: nat)
    ensures ParseHeader(FormatHeader(width, height)) == Some((width, height))
  {
    var a, b := Decimal(width), Decimal(height) + "\n";
    assert FormatHeader(width, height) == a + [','] + b;
    NoComma(width, "");
    assert a + "" == a;
    NoComma(height, "\n");
    SplitAtSeparator(a, ',', b);
    SplitWithoutSeparator(b, ',');
    ParseDecimal(width, "");
    ParseDecimal(height, "\n");
  }

  /** A record line splits back into its three written fields. */
  lemma SplitFormat(e: Entry)
    ensures FormatRecord(e) != "\n"
    ensures Split(FormatRecord(e), ',') == [Decimal(e.x), Decimal(e.y), Decimal(e.kind) + "\n"]
  {
    var a, b, c := Decimal(e.x), Decimal(e.y), Decimal(e.kind) + "\n";
    var line := FormatRecord(e);
    assert line == a + [','] + (b + [','] + c);
    assert |line| > 1;
    NoComma(e.x, "");
    NoComma(e.y, "");
    NoComma(e.kind, "\n");
    assert a + "" == a && b + "" == b;
    SplitAtSeparator(a, ',', b + [','] + c);
    SplitAtSeparator(b, ',', c);
    SplitWithoutSeparator(c, ',');
  }

  /** A line of three fields that read as numbers decodes as the entry of
      those numbers means. */
  lemma DecodeThreeFields(line: string, e: Entry, width: nat, height: nat)
    requires line != "\n" && |Split(line, ',')| == 3
    requires ParseNat(Split(line, ',')[0]) == Some(e.x)
    requires ParseNat(Split(line, ',')[1]) == Some(e.y)
    requires ParseNat(Split(line, ',')[2]) == Some(e.kind)
    ensures Decode(line, width, height) == Some(Meaning(e, width, height))
  {
  }

  /** A record line reads back as what it was written to mean. */
  lemma DecodeFormat(e: Entry, width: nat, height: nat)
    ensures Decode(FormatRecord(e), width, height) == Some(Meaning(e, width, height))
  {
    SplitFormat(e);
    ParseDecimal(e.x, "");
    ParseDecimal(e.y, "");
    ParseDecimal(e.kind, "\n");
    assert Decimal(e.x) + "" == Decimal(e.x) && Decimal(e.y) + "" == Decimal(e.y);
    DecodeThreeFields(FormatRecord(e), e, width, height);
  }

  /** A written file loads as its entries' meanings replayed in order on an
      empty map of the clamped size. */
  lemma ParseFormatted(width: nat, height: nat, entries: seq<Entry>)
    ensures var w, h := Clamp(width), Clamp(height);
            var recs := seq(|entries|, i requires 0 <= i < |entries| => Meaning(entries[i], w, h));
            AllFit(recs, w, h) && Parse(FormatFile(width, height, entries)) == Ok(Replay(Empty(w, h), recs))
  {
    var w, h := Clamp(width), Clamp(height);
    var recs := seq(|entries|, i requires 0 <= i < |entries| => Meaning(entries[i], w, h));
    var lines := FormatFile(width, height, entries);
    ParseHeaderFormat(width, height);
    var decoded := DecodeAll(lines[1..], w, h);
    forall i | 0 <= i < |entries| ensures decoded[i] == Some(recs[i]) {
      assert lines[1..][i] == FormatRecord(entries[i]);
      DecodeFormat(entries[i], w, h);
    }
    var r := Records(decoded);
    assert r.Ok?;
    assert r.value == recs;
  }

  /** The loader compares x with the width before it reads anything else, so
      a line whose x is outside the map is dropped whatever follows it. */
  lemma DecodeDropsWideLine(x: nat, rest: string, width: nat, height: nat)
    requires x >= width
    ensures Decode(Decimal(x) + "," + rest, width, height) == Some(Dropped)
  {
    var a := Decimal(x);
    var line := a + "," + rest;
    assert line != "\n" by {
      assert |line| > 1;
    }
    NoComma(x, "");
    assert a + "" == a;
    assert line == a + [','] + rest;
    SplitAtSeparator(a, ',', rest);
    ParseDecimal(x, "");
  }

  /** The worked example: a 3 by 2 map with a floor, a target and a spawnpoint. */
  lemma LoadExample()
    ensures Parse(["3,2\n", "0,0,1\n", "1,0,2\n", "2,1,3\n"])
         == Ok(Level(3, 2, [[Floor, Target, Air], [Air, Air, Air]], (2, 1)))
  {
    var entries := [Entry(0, 0, 1), Entry(1, 0, 2), Entry(2, 1, 3)];
    ExampleText();
    ExampleMeanings();
    ExampleReplay();
    ParseFormatted(3, 2, entries);
  }

  lemma ExampleMeanings()
    ensures Clamp(3) == 3 && Clamp(2) == 2
    ensures var entries := [Entry(0, 0, 1), Entry(1, 0, 2), Entry(2, 1, 3)];
            seq(|entries|, i requires 0 <= i < |entries| => Meaning(entries[i], 3, 2))
              == [Tile(0, 0, 1), Tile(1, 0, 2), Spawn(2, 1)]
  {
  }

  lemma ExampleText()
    ensures ["3,2\n", "0,0,1\n", "1,0,2\n", "2,1,3\n"]
         == FormatFile(3, 2, [Entry(0, 0, 1), Entry(1, 0, 2), Entry(2, 1, 3)])
  {
    assert Decimal(0) == "0" && Decimal(1) == "1" && Decimal(2) == "2" && Decimal(3) == "3";
    assert FormatHeader(3, 2) == "3" + "," + "2" + "\n" == "3,2\n";
    assert FormatRecord(Entry(0, 0, 1)) == "0" + "," + "0" + "," + "1" + "\n" == "0,0,1\n";
    assert FormatRecord(Entry(1, 0, 2)) == "1" + "," + "0" + "," + "2" + "\n" == "1,0,2\n";
    assert FormatRecord(Entry(2, 1, 3)) == "2" + "," + "1" + "," + "3" + "\n" == "2,1,3\n";
  }

  lemma ExampleReplay()
    ensures Replay(Empty(3, 2), [Tile(0, 0, 1), Tile(1, 0, 2), Spawn(2, 1)])
         == Level(3, 2, [[Floor, Target, Air], [Air, Air, Air]], (2, 1))
  {
    var r0, r1, r2 := Tile(0, 0, 1), Tile(1, 0, 2), Spawn(2, 1);
    var e := Empty(3, 2);
    assert e.cells[0] == [Air, Air, Air] && e.cells[1] == [Air, Air, Air];
    assert e.cells == [[Air, Air, Air], [Air, Air, Air]];
    ReplaySnoc(e, [], r0);
    assert [] + [r0] == [r0];
    assert Replay(e, []) == e;
    assert e.cells[0][0 := Floor] == [Floor, Air, Air];
    var l1 := Level(3, 2, [[Floor, Air, Air], [Air, Air, Air]], (0, 0));
    assert Replay(e, [r0]) == l1;
    ReplaySnoc(e, [r0], r1);
    assert [r0] + [r1] == [r0, r1];
    assert l1.cells[0][1 := Target] == [Floor, Target, Air];
    var l2 := Level(3, 2, [[Floor, Target, Air], [Air, Air, Air]], (0, 0));
    assert Replay(e, [r0, r1]) == l2;
    ReplaySnoc(e, [r0, r1], r2);
    assert [r0, r1] + [r2] == [r0, r1, r2];
  }
}
