/**
 The file layout, written down without encoder or decoder: which bytes stand for which lines.  Both directions are
 then shown to be this layout, so a cell's word is its change since the same row of the frame before.
 */
module CodecLayout {
  import opened Wrappers
  import opened CodecText
  import opened CodecRecords
  import opened Codec
  import opened CodecCanonical

  // ---------------------------------------------------------------- bytes

  /** Four bytes, the least significant first. */
  ghost predicate HoldsCount(s: Bytes, n: int) {
    |s| == 4 && n == Weighed(s[0], s[1], s[2], s[3])
  }

  ghost function Weighed(a: int, b: int, c: int, e: int): int {
    a + 256 * b + 65536 * c + 16777216 * e
  }

  /** The same in two's complement. */
  ghost predicate HoldsNumber(s: Bytes, v: int) {
    |s| == 4 && HoldsCount(s, if s[3] >= 128 then v + 4294967296 else v)
  }

  lemma CountIsWord(s: Bytes, n: int)
    requires |s| == 4
    ensures HoldsCount(s, n) <==> ReadWord(s) == n
    ensures HoldsCount(s, n) ==> 0 <= n < TWO_32 && s == Word(n)
    ensures 0 <= n < TWO_32 && s == Word(n) ==> HoldsCount(s, n)
  {
    WordReadsBack(s);
    if 0 <= n < TWO_32 {
      WordRoundTrip(n);
    }
    assert ReadWord(s) == Weighed(s[0], s[1], s[2], s[3]);
  }

  lemma WordReadsBack(s: Bytes)
    requires |s| == 4
    ensures Word(ReadWord(s)) == s
  {
    var n := ReadWord(s);
    var a: int, b: int, c: int, e: int := s[0], s[1], s[2], s[3];
    assert n / 256 == b + 256 * (c + 256 * e) && n % 256 == a;
    assert (b + 256 * (c + 256 * e)) / 256 == c + 256 * e && (b + 256 * (c + 256 * e)) % 256 == b;
    assert (c + 256 * e) / 256 == e && (c + 256 * e) % 256 == c;
  }

  lemma NumberIsWord(s: Bytes, v: int)
    requires |s| == 4
    ensures HoldsNumber(s, v) <==> ReadSignedWord(s) == v
    ensures HoldsNumber(s, v) ==> IsInt32(v) && s == SignedWord(v)
    ensures IsInt32(v) && s == SignedWord(v) ==> HoldsNumber(s, v)
  {
    hide Word, ReadWord;
    CountIsWord(s, ReadWord(s));
    if IsInt32(v) {
      CountIsWord(s, if v < 0 then v + TWO_32 else v);
    }
  }

  /** A line is copied if it is blank or its first byte that is not white space is a percent sign. */
  lemma LiteralLines(line: Bytes)
    ensures IsLiteral(line) <==>
              forall i :: 0 <= i < |line| && FirstInk(line, i) ==> line[i] == 37
  {
    var l := StripLeft(line);
    var s := StripRight(l);
    var n := |line| - |l|;
    if l != [] {
      assert !IsSpace(l[0]) && s != [] && s[0] == l[0] == line[n];
      assert FirstInk(line, n);
      assert forall i :: 0 <= i < |line| && FirstInk(line, i) ==> i == n;
    } else {
      assert s == [];
      assert forall i :: 0 <= i < |line| ==> IsSpace(line[i]);
    }
  }

  /** Only spaces, tabs, line feeds, vertical tabs, form feeds and carriage returns stand before byte `i`, which is none. */
  ghost predicate FirstInk(line: Bytes, i: nat) {
    && i < |line| && line[i] != 32 && !(9 <= line[i] <= 13)
    && forall j :: 0 <= j < i ==> line[j] == 32 || 9 <= line[j] <= 13
  }

  // ---------------------------------------------------------------- the layout

  /** Rows of numbers, one per numeric line, top to bottom and frame after frame. */
  type Grid = seq<seq<int>>

  ghost predicate IsGrid(d: Dims, rows: Grid) {
    forall r :: 0 <= r < |rows| ==> |rows[r]| == d.nx && AllInt32(rows[r])
  }

  /** What cell `i` of row `r` held one frame earlier; nothing before the first frame. */
  ghost function Earlier(d: Dims, rows: Grid, r: nat, i: nat): int
    requires IsGrid(d, rows) && r < |rows| + d.ny && i < d.nx
  {
    if r < d.ny then 0 else rows[r - d.ny][i]
  }

  /** The letter D, then for each cell its change since the frame before. */
  ghost predicate RowLaid(d: Dims, rows: Grid, r: nat, record: Bytes)
    requires IsGrid(d, rows) && r < |rows|
  {
    && |record| == 1 + 4 * d.nx && record[0] == 68
    && forall i :: 0 <= i < d.nx ==> HoldsNumber(record[1 + 4 * i..5 + 4 * i], rows[r][i] - Earlier(d, rows, r, i))
  }

  /** The letter L, the length and the line itself. */
  ghost predicate LiteralLaid(line: Bytes, record: Bytes) {
    |record| == 5 + |line| && record[0] == 76 && HoldsCount(record[1..5], |line|) && record[5..] == line
  }

  ghost predicate LineLaid(d: Dims, rows: Grid, r: nat, line: Bytes, record: Bytes)
    requires IsGrid(d, rows)
  {
    if IsLiteral(line) then LiteralLaid(line, record)
    else r < |rows| && line == Render(rows[r]) + [10] && RowLaid(d, rows, r, record)
  }

  /** After the rows `seen`, the lines hold the rows `rows`, and each record is that of its line. */
  ghost predicate Layout(d: Dims, seen: Grid, lines: seq<Bytes>, rows: Grid, records: seq<Bytes>) {
    && |records| == |lines| && |rows| == RowCount(lines)
    && IsGrid(d, seen + rows) && |seen| + |rows| <= d.frames * d.ny
    && forall k :: 0 <= k < |lines| ==> LineLaid(d, seen + rows, |seen| + RowCount(lines[..k]), lines[k], records[k])
  }

  /** The bytes `s` are the records of `lines`, from the first frame on. */
  ghost predicate IsFileOf(d: Dims, lines: seq<Bytes>, s: Bytes) {
    exists rows, records :: Layout(d, [], lines, rows, records) && s == Concat(records)
  }

  // ---------------------------------------------------------------- one line more in front

  ghost function RowOf(line: Bytes, values: seq<int>): Grid {
    if IsLiteral(line) then [] else [values]
  }

  lemma LaidInFront(d: Dims, seen: Grid, line: Bytes, values: seq<int>, record: Bytes,
                    lines: seq<Bytes>, rows: Grid, records: seq<Bytes>)
    requires Layout(d, seen + RowOf(line, values), lines, rows, records)
    requires LineLaid(d, seen + RowOf(line, values) + rows, |seen|, line, record)
    ensures Layout(d, seen, [line] + lines, RowOf(line, values) + rows, [record] + records)
    ensures Concat([record] + records) == record + Concat(records)
  {
    hide LineLaid, IsLiteral, IsGrid;
    var own := RowOf(line, values);
    var allLines, allRows, allRecords := [line] + lines, own + rows, [record] + records;
    assert allLines[1..] == lines && allRecords[1..] == records;
    Reassociate(seen, own, rows);
    forall k | 0 <= k < |allLines|
      ensures LineLaid(d, seen + allRows, |seen| + RowCount(allLines[..k]), allLines[k], allRecords[k])
    {
      if k > 0 {
        assert allLines[..k][1..] == lines[..k - 1];
        assert allLines[k] == lines[k - 1] && allRecords[k] == records[k - 1];
        assert LineLaid(d, seen + own + rows, |seen + own| + RowCount(lines[..k - 1]), lines[k - 1], records[k - 1]);
      } else {
        assert allLines[..0] == [];
      }
    }
  }

  lemma Reassociate(a: Grid, b: Grid, c: Grid)
    ensures a + b + c == a + (b + c)
  {
  }

  /** And back: the first line of a layout, and the rest. */
  lemma LaidBehind(d: Dims, seen: Grid, lines: seq<Bytes>, rows: Grid, records: seq<Bytes>)
    returns (values: seq<int>, rest: Grid)
    requires Layout(d, seen, lines, rows, records) && lines != []
    ensures rows == RowOf(lines[0], values) + rest
    ensures Layout(d, seen + RowOf(lines[0], values), lines[1..], rest, records[1..])
    ensures LineLaid(d, seen + rows, |seen|, lines[0], records[0])
    ensures Concat(records) == records[0] + Concat(records[1..])
  {
    hide LineLaid, IsLiteral, IsGrid;
    if IsLiteral(lines[0]) {
      values, rest := [], rows;
    } else {
      values, rest := rows[0], rows[1..];
    }
    var own := RowOf(lines[0], values);
    assert rows == own + rest;
    Reassociate(seen, own, rest);
    assert lines[..0] == [];
    assert LineLaid(d, seen + rows, |seen| + RowCount(lines[..0]), lines[0], records[0]);
    forall k | 0 <= k < |lines[1..]|
      ensures LineLaid(d, seen + own + rest, |seen + own| + RowCount(lines[1..][..k]), lines[1..][k], records[1..][k])
    {
      assert lines[..k + 1][1..] == lines[1..][..k];
      assert LineLaid(d, seen + rows, |seen| + RowCount(lines[..k + 1]), lines[k + 1], records[k + 1]);
    }
  }

  // ---------------------------------------------------------------- the previous frame in memory

  /** The stored cells are the last `ny` rows, each at its place in the frame; zeros where no row has come yet. */
  ghost predicate Remembers(d: Dims, f: Frame, seen: Grid) {
    && FrameOk(d, f) && IsGrid(d, seen) && f.rows == |seen|
    && forall r, i :: |seen| <= r < |seen| + d.ny && 0 <= i < d.nx ==>
         f.previous[Place(d, r) + i] == Earlier(d, seen, r, i)
  }

  /** Where row `r` starts in a frame. */
  ghost function Place(d: Dims, r: nat): (p: nat)
    ensures p + d.nx <= Cells(d)
  {
    Offset(d, Frame([], r))
  }

  lemma PlacesApart(d: Dims, q: nat, r: nat)
    requires q < r < q + d.ny
    ensures Place(d, q) + d.nx <= Place(d, r) || Place(d, r) + d.nx <= Place(d, q)
  {
    var a, b := q % d.ny, r % d.ny;
    RemaindersDiffer(q, r, d.ny);
    if a < b {
      RowsApart(a, b, d.nx);
    } else {
      RowsApart(b, a, d.nx);
    }
  }

  lemma RowsApart(a: nat, b: nat, n: pos)
    requires a < b
    ensures a * n + n <= b * n
    decreases b
  {
    assert b * n == (b - 1) * n + n;
    if a < b - 1 {
      RowsApart(a, b - 1, n);
    }
  }

  lemma IsRemainder(q: nat, n: pos, x: int, y: nat)
    requires q == x * n + y && y < n
    ensures q % n == y
  {
    var k := q / n - x;
    assert k * n == q / n * n - x * n == y - q % n;
  }

  lemma RemaindersDiffer(q: nat, r: nat, n: pos)
    requires q < r < q + n
    ensures q % n != r % n
  {
    var y := q % n + (r - q);
    if y < n {
      IsRemainder(r, n, q / n, y);
    } else {
      assert (q / n + 1) * n == q / n * n + n;
      IsRemainder(r, n, q / n + 1, y - n);
    }
  }

  lemma SamePlace(d: Dims, r: nat)
    ensures Place(d, r + d.ny) == Place(d, r)
  {
    assert (r / d.ny + 1) * d.ny == r / d.ny * d.ny + d.ny;
    IsRemainder(r + d.ny, d.ny, r / d.ny + 1, r % d.ny);
  }

  lemma NothingRemembered(d: Dims)
    ensures Remembers(d, FirstFrame(d), [])
  {
  }

  /** Storing a row keeps the last frame's worth of rows. */
  lemma RemembersNext(d: Dims, f: Frame, seen: Grid, values: seq<int>)
    requires Remembers(d, f, seen) && |values| == d.nx && AllInt32(values)
    ensures Remembers(d, NextFrame(d, f, values), seen + [values])
  {
    hide AllInt32, Offset, Cells;
    var next, rows := NextFrame(d, f, values), seen + [values];
    var at := Place(d, |seen|);
    assert Offset(d, f) == at by { OffsetIsPlace(d, f); }
    forall r, i | |rows| <= r < |rows| + d.ny && 0 <= i < d.nx
      ensures next.previous[Place(d, r) + i] == Earlier(d, rows, r, i)
    {
      if r == |seen| + d.ny {
        SamePlace(d, |seen|);
        assert rows[r - d.ny] == values;
      } else {
        PlacesApart(d, |seen|, r);
        assert f.previous[Place(d, r) + i] == Earlier(d, seen, r, i);
        assert r >= d.ny ==> rows[r - d.ny] == seen[r - d.ny];
      }
    }
  }

  lemma OffsetIsPlace(d: Dims, f: Frame)
    ensures Offset(d, f) == Place(d, f.rows)
  {
  }

  // ---------------------------------------------------------------- a row record, written and read

  /** The deltas fit, and the bytes written are those of the layout, exactly for a record laid out like this. */
  lemma RowRecordIsLaid(d: Dims, f: Frame, seen: Grid, values: seq<int>, more: Grid, record: Bytes)
    requires Remembers(d, f, seen) && |values| == d.nx && AllInt32(values) && IsGrid(d, seen + [values] + more)
    ensures RowLaid(d, seen + [values] + more, |seen|, record) <==>
              && DeltasFit(f.previous, Offset(d, f), values)
              && record == [TAG_DELTA] + DeltaBytes(f.previous, Offset(d, f), values, d.nx)
  {
    hide AllInt32, Offset, Cells, SignedWord, IsGrid, HoldsNumber;
    var rows := seen + [values] + more;
    var at := Offset(d, f);
    OffsetIsPlace(d, f);
    assert rows[|seen|] == values;
    forall i | 0 <= i < d.nx
      ensures f.previous[at + i] == Earlier(d, rows, |seen|, i)
    {
      Reassociate(seen, [values], more);
      EarlierIsStored(d, f, seen, [values] + more, i);
    }
    hide Remembers, Earlier, DeltasFit, DeltaBytes;
    if DeltasFit(f.previous, at, values) && record == [TAG_DELTA] + DeltaBytes(f.previous, at, values, d.nx) {
      WrittenIsLaid(f.previous, at, values, record);
    }
    if RowLaid(d, rows, |seen|, record) {
      forall i | 0 <= i < d.nx ensures HoldsNumber(record[1 + 4 * i..5 + 4 * i], values[i] - f.previous[at + i]) {
      }
      LaidIsWritten(f.previous, at, values, record);
    }
  }

  lemma EarlierIsStored(d: Dims, f: Frame, seen: Grid, more: Grid, i: nat)
    requires Remembers(d, f, seen) && IsGrid(d, seen + more) && i < d.nx
    ensures Place(d, |seen|) + i < |f.previous| && f.previous[Place(d, |seen|) + i] == Earlier(d, seen + more, |seen|, i)
  {
    hide Place, IsGrid;
    assert f.previous[Place(d, |seen|) + i] == Earlier(d, seen, |seen|, i);
  }

  lemma WrittenIsLaid(previous: seq<int>, at: nat, values: seq<int>, record: Bytes)
    requires at + |values| <= |previous| && DeltasFit(previous, at, values)
    requires record == [TAG_DELTA] + DeltaBytes(previous, at, values, |values|)
    ensures forall i :: 0 <= i < |values| ==> HoldsNumber(record[1 + 4 * i..5 + 4 * i], values[i] - previous[at + i])
  {
    hide HoldsNumber, SignedWord;
    var body := DeltaBytes(previous, at, values, |values|);
    forall i | 0 <= i < |values| ensures HoldsNumber(record[1 + 4 * i..5 + 4 * i], values[i] - previous[at + i]) {
      DeltaBytesAt(previous, at, values, |values|, i);
      assert record[1 + 4 * i..5 + 4 * i] == body[4 * i..4 * i + 4];
      NumberIsWord(record[1 + 4 * i..5 + 4 * i], values[i] - previous[at + i]);
    }
  }

  lemma LaidIsWritten(previous: seq<int>, at: nat, values: seq<int>, record: Bytes)
    requires at + |values| <= |previous| && |record| == 1 + 4 * |values| && record[0] == 68
    requires forall i :: 0 <= i < |values| ==> HoldsNumber(record[1 + 4 * i..5 + 4 * i], values[i] - previous[at + i])
    ensures DeltasFit(previous, at, values)
    ensures record == [TAG_DELTA] + DeltaBytes(previous, at, values, |values|)
  {
    hide HoldsNumber, SignedWord;
    forall i | 0 <= i < |values|
      ensures IsInt32(values[i] - previous[at + i])
      ensures record[1 + 4 * i..5 + 4 * i] == SignedWord(values[i] - previous[at + i])
    {
      NumberIsWord(record[1 + 4 * i..5 + 4 * i], values[i] - previous[at + i]);
    }
    BytesOfWords(previous, at, values, |values|, record);
    assert record[..1 + 4 * |values|] == record;
  }

  lemma {:induction false} BytesOfWords(previous: seq<int>, at: nat, values: seq<int>, k: nat, record: Bytes)
    requires at + |values| <= |previous| && DeltasFit(previous, at, values) && k <= |values|
    requires |record| == 1 + 4 * |values| && record[0] == TAG_DELTA
    requires forall i :: 0 <= i < |values| ==> record[1 + 4 * i..5 + 4 * i] == SignedWord(values[i] - previous[at + i])
    ensures record[..1 + 4 * k] == [TAG_DELTA] + DeltaBytes(previous, at, values, k)
  {
    hide SignedWord;
    if k > 0 {
      BytesOfWords(previous, at, values, k - 1, record);
      assert record[1 + 4 * (k - 1)..5 + 4 * (k - 1)] == SignedWord(values[k - 1] - previous[at + k - 1]);
      assert record[..1 + 4 * k] == record[..1 + 4 * (k - 1)] + record[1 + 4 * (k - 1)..5 + 4 * (k - 1)];
    }
  }

  // ---------------------------------------------------------------- one line, encoded

  lemma LiteralIsLaid(line: Bytes, record: Bytes)
    ensures LiteralLaid(line, record) <==> |line| < TWO_32 && record == LiteralRecord(line)
  {
    hide HoldsCount, Word;
    if LiteralLaid(line, record) {
      CountIsWord(record[1..5], |line|);
      assert record == [record[0]] + record[1..5] + record[5..];
    }
    if |line| < TWO_32 && record == LiteralRecord(line) {
      assert record[1..5] == Word(|line|) && record[5..] == line;
      CountIsWord(record[1..5], |line|);
    }
  }

  /** The encoder writes exactly the record laid out for the line, and then remembers its row. */
  lemma LineIsEncoded(d: Dims, f: Frame, seen: Grid, line: Bytes, values: seq<int>, more: Grid, record: Bytes)
    requires Remembers(d, f, seen) && IsGrid(d, seen + RowOf(line, values) + more)
    requires |seen + RowOf(line, values)| <= d.frames * d.ny
    ensures LineLaid(d, seen + RowOf(line, values) + more, |seen|, line, record) <==>
              && EncodeLine(d, f, line).Some? && EncodeLine(d, f, line).value.record == record
              && (!IsLiteral(line) ==> ParseAll(Tokens(Stripped(line))) == Some(values))
    ensures LineLaid(d, seen + RowOf(line, values) + more, |seen|, line, record) ==>
              Remembers(d, EncodeLine(d, f, line).value.frame, seen + RowOf(line, values))
  {
    if IsLiteral(line) {
      LiteralIsLaid(line, record);
      assert seen + [] == seen;
    } else {
      RowIsEncoded(d, f, seen, line, values, more, record);
    }
  }

  lemma RowIsEncoded(d: Dims, f: Frame, seen: Grid, line: Bytes, values: seq<int>, more: Grid, record: Bytes)
    requires Remembers(d, f, seen) && IsGrid(d, seen + [values] + more) && |seen| < d.frames * d.ny && !IsLiteral(line)
    ensures LineLaid(d, seen + [values] + more, |seen|, line, record) <==>
              && EncodeLine(d, f, line).Some? && EncodeLine(d, f, line).value.record == record
              && ParseAll(Tokens(Stripped(line))) == Some(values)
    ensures LineLaid(d, seen + [values] + more, |seen|, line, record) ==>
              Remembers(d, EncodeLine(d, f, line).value.frame, seen + [values])
  {
    hide ParseAll, Tokens, Stripped, Render, IsLiteral, AllInt32, Offset, Cells, RowLaid, DeltasFit, NextFrame, Remembers;
    var rows := seen + [values] + more;
    assert rows[|seen|] == values && |values| == d.nx && AllInt32(values);
    assert FrameOk(d, f) && f.rows == |seen| by { Remembering(d, f, seen); }
    RowRecordIsLaid(d, f, seen, values, more, record);
    RemembersNext(d, f, seen, values);
    if line == Render(values) + [LF] {
      CanonicalRowParses(d, values, line);
    }
  }

  lemma Remembering(d: Dims, f: Frame, seen: Grid)
    requires Remembers(d, f, seen)
    ensures FrameOk(d, f) && f.rows == |seen| && IsGrid(d, seen)
  {
  }

  // ---------------------------------------------------------------- the encoder

  lemma {:induction false} EncodedIsLaid(d: Dims, e: Encoder, data: Bytes, seen: Grid)
    returns (rows: Grid, records: seq<Bytes>)
    requires Remembers(d, e.frame, seen) && |seen| <= d.frames * d.ny && Feed(d, e, data).Some?
    ensures Layout(d, seen, Lines(e.pending, data), rows, records)
    ensures Feed(d, e, data).value.output == e.output + Concat(records)
    decreases |data|
  {
    hide Remembers, EncodeLine, LineLaid, Layout;
    assert FrameOk(d, e.frame) by { Remembering(d, e.frame, seen); }
    if data == [] {
      rows, records := [], [];
      NothingLaid(d, e.frame, seen);
      assert e.output + [] == e.output;
    } else if data[0] != LF {
      rows, records := EncodedIsLaid(d, FeedByte(d, e, data[0]).value, data[1..], seen);
    } else {
      var line := e.pending + [LF];
      var encoded := EncodeLine(d, e.frame, line).value;
      var values := EncodedRow(d, e.frame, seen, line);
      var more, rest := EncodedIsLaid(d, FeedByte(d, e, LF).value, data[1..], seen + RowOf(line, values));
      LaidRows(d, seen + RowOf(line, values), Lines([], data[1..]), more, rest);
      LineIsEncoded(d, e.frame, seen, line, values, more, encoded.record);
      LaidInFront(d, seen, line, values, encoded.record, Lines([], data[1..]), more, rest);
      rows, records := RowOf(line, values) + more, [encoded.record] + rest;
      Regroup(e.output, encoded.record, Concat(rest));
    }
  }

  lemma NothingLaid(d: Dims, f: Frame, seen: Grid)
    requires Remembers(d, f, seen) && |seen| <= d.frames * d.ny
    ensures Layout(d, seen, [], [], []) && Concat([]) == []
  {
    assert seen + [] == seen;
  }

  lemma LaidRows(d: Dims, seen: Grid, lines: seq<Bytes>, rows: Grid, records: seq<Bytes>)
    requires Layout(d, seen, lines, rows, records)
    ensures IsGrid(d, seen + rows) && |seen| + |rows| <= d.frames * d.ny && |records| == |lines|
  {
  }

  /** An accepted line leaves its row behind. */
  lemma EncodedRow(d: Dims, f: Frame, seen: Grid, line: Bytes) returns (values: seq<int>)
    requires Remembers(d, f, seen) && |seen| <= d.frames * d.ny && EncodeLine(d, f, line).Some?
    ensures Remembers(d, EncodeLine(d, f, line).value.frame, seen + RowOf(line, values))
    ensures !IsLiteral(line) ==> ParseAll(Tokens(Stripped(line))) == Some(values)
    ensures |seen + RowOf(line, values)| <= d.frames * d.ny
  {
    hide ParseAll, Tokens, Stripped, Render, IsLiteral, AllInt32, Offset, Cells, DeltasFit, NextFrame, Remembers;
    assert FrameOk(d, f) && f.rows == |seen| by { Remembering(d, f, seen); }
    if IsLiteral(line) {
      values := [];
      assert seen + [] == seen;
    } else {
      values := ParseAll(Tokens(Stripped(line))).value;
      RemembersNext(d, f, seen, values);
    }
  }

  lemma {:induction false} LaidIsEncoded(d: Dims, e: Encoder, data: Bytes, seen: Grid, rows: Grid, records: seq<Bytes>)
    requires Remembers(d, e.frame, seen) && Layout(d, seen, Lines(e.pending, data), rows, records)
    ensures FrameOk(d, e.frame) && Feed(d, e, data).Some?
    ensures Feed(d, e, data).value.output == e.output + Concat(records)
    decreases |data|
  {
    hide Remembers, EncodeLine, LineLaid, Layout;
    assert FrameOk(d, e.frame) by { Remembering(d, e.frame, seen); }
    LaidRows(d, seen, Lines(e.pending, data), rows, records);
    if data == [] {
      assert e.output + [] == e.output;
    } else if data[0] != LF {
      LaidIsEncoded(d, FeedByte(d, e, data[0]).value, data[1..], seen, rows, records);
    } else {
      var line := e.pending + [LF];
      var lines := Lines(e.pending, data);
      assert lines[0] == line && lines[1..] == Lines([], data[1..]);
      var values, more := LaidBehind(d, seen, lines, rows, records);
      Reassociate(seen, RowOf(line, values), more);
      LaidRows(d, seen + RowOf(line, values), lines[1..], more, records[1..]);
      LineIsEncoded(d, e.frame, seen, line, values, more, records[0]);
      LaidIsEncoded(d, FeedByte(d, e, LF).value, data[1..], seen + RowOf(line, values), more, records[1..]);
      Regroup(e.output, records[0], Concat(records[1..]));
    }
  }

  /** A stream is accepted, with the output `s`, exactly when `s` is laid out as the file of its lines. */
  lemma EncoderWritesTheLayout(d: Dims, data: Bytes, s: Bytes)
    ensures Feed(d, NewEncoder(d), data).Some? && Feed(d, NewEncoder(d), data).value.output == s
            <==> IsFileOf(d, Lines([], data), s)
  {
    hide Feed, Layout, Remembers;
    var e := NewEncoder(d);
    NothingRemembered(d);
    if Feed(d, e, data).Some? && Feed(d, e, data).value.output == s {
      var rows, records := EncodedIsLaid(d, e, data, []);
      assert [] + Concat(records) == Concat(records);
    }
    if IsFileOf(d, Lines([], data), s) {
      var rows, records :| Layout(d, [], Lines([], data), rows, records) && s == Concat(records);
      LaidIsEncoded(d, e, data, [], rows, records);
      assert [] + Concat(records) == Concat(records);
    }
  }

  /** Whatever the native encoder has been fed, its output is the file of the lines completed so far. */
  lemma NativeWritesTheLayout(d: Dims, data: Bytes, e: Encoder)
    requires FeedNative(d, NewEncoder(d), data) == Some(e)
    ensures IsFileOf(d, Lines([], data), e.output)
  {
    hide Feed, FeedNative, IsFileOf;
    NativeIsBounded(d, NewEncoder(d), data);
    EncoderWritesTheLayout(d, data, e.output);
  }

  // ---------------------------------------------------------------- the decoder

  /** A line the decoder may hand out: it ends with a line feed, and is not too long to be copied. */
  ghost predicate Deliverable(d: Dims, line: Bytes) {
    && line != [] && line[|line| - 1] == 10
    && (IsLiteral(line) ==> |line| <= 65536 || |line| <= 32 * d.nx)
  }

  /** The encoder gives back the record a line was decoded from. */
  lemma DecodedEncodes(d: Dims, f: Frame, s: Bytes)
    requires FrameOk(d, f) && DecodeRecord(d, f, s).Line?
    ensures var r := DecodeRecord(d, f, s);
            EncodeLine(d, f, r.line) == Some(Encoded(s[..r.length], r.frame)) && Deliverable(d, r.line)
  {
    hide FrameOk, DecodeRow, EncodeRow, ReadWord, Word, IsLiteral;
    var r := DecodeRecord(d, f, s);
    if s[0] == TAG_DELTA {
      RowDecodedEncodes(d, f, s[..1 + 4 * d.nx]);
      assert s[..1 + 4 * d.nx][1..] == s[1..1 + 4 * d.nx];
    } else {
      var count := |r.line|;
      CountIsWord(s[1..5], count);
      assert s[..5 + count] == [s[0]] + s[1..5] + s[5..5 + count];
    }
  }

  lemma RowDecodedEncodes(d: Dims, f: Frame, record: Bytes)
    requires FrameOk(d, f) && |record| == 1 + 4 * d.nx && record[0] == TAG_DELTA && DecodeRow(d, f, record[1..]).Line?
    ensures var r := DecodeRow(d, f, record[1..]);
            EncodeLine(d, f, r.line) == Some(Encoded(record, r.frame)) && Deliverable(d, r.line)
  {
    hide Cells, Offset, TotalRows, Render, Tokens, Stripped, ParseAll, NextFrame, AllInt32, IsLiteral, DeltasFit, DeltaBytes, CellValue;
    var at := Offset(d, f);
    var values := CellValues(f.previous, at, record[1..], d.nx);
    var line := Render(values) + [LF];
    CanonicalRowParses(d, values, line);
    ReadIsWritten(f.previous, at, record, d.nx);
  }

  /** Writing the values read against the same previous row gives the record back. */
  lemma ReadIsWritten(previous: seq<int>, at: nat, record: Bytes, n: nat)
    requires at + n <= |previous| && |record| == 1 + 4 * n && record[0] == TAG_DELTA
    ensures var values := CellValues(previous, at, record[1..], n);
            DeltasFit(previous, at, values) && record == [TAG_DELTA] + DeltaBytes(previous, at, values, n)
  {
    hide HoldsNumber, ReadSignedWord, DeltasFit, DeltaBytes;
    var values := CellValues(previous, at, record[1..], n);
    forall i | 0 <= i < |values| ensures HoldsNumber(record[1 + 4 * i..5 + 4 * i], values[i] - previous[at + i]) {
      assert record[1..][4 * i..4 * i + 4] == record[1 + 4 * i..5 + 4 * i];
      assert values[i] == CellValue(previous, at, record[1..], i);
      NumberIsWord(record[1 + 4 * i..5 + 4 * i], values[i] - previous[at + i]);
    }
    LaidIsWritten(previous, at, values, record);
  }

  /** The record alone decodes like the record with bytes behind it. */
  lemma DecodedAgain(d: Dims, f: Frame, s: Bytes)
    requires FrameOk(d, f) && DecodeRecord(d, f, s).Line?
    ensures var r := DecodeRecord(d, f, s);
            DecodeRecord(d, f, s[..r.length]) == r
  {
    hide FrameOk, DecodeRow, ReadWord, IsLiteral;
    var r := DecodeRecord(d, f, s);
    var record := s[..r.length];
    if s[0] == TAG_DELTA {
      assert record[1..1 + 4 * d.nx] == s[1..1 + 4 * d.nx];
    } else {
      assert record[1..5] == s[1..5];
      assert record[5..5 + |r.line|] == s[5..5 + |r.line|];
    }
  }

  ghost predicate AllDeliverable(d: Dims, lines: seq<Bytes>) {
    forall k :: 0 <= k < |lines| ==> Deliverable(d, lines[k])
  }

  lemma {:induction false} DecodedIsLaid(d: Dims, f: Frame, s: Bytes, seen: Grid)
    returns (lines: seq<Bytes>, rows: Grid, records: seq<Bytes>)
    requires Remembers(d, f, seen) && |seen| <= d.frames * d.ny && DecodeStream(d, f, s).Some?
    ensures Layout(d, seen, lines, rows, records) && AllDeliverable(d, lines) && s == Concat(records)
    ensures DecodeStream(d, f, s).value.bytes == Concat(lines)
    ensures DecodeStream(d, f, s).value.frame.rows == |seen| + |rows|
    decreases |s|
  {
    hide Remembers, EncodeLine, DecodeRecord, LineLaid, Layout, Deliverable, IsLiteral, IsGrid, FrameOk;
    assert FrameOk(d, f) && f.rows == |seen| by { Remembering(d, f, seen); }
    if s == [] {
      lines, rows, records := [], [], [];
      NothingLaid(d, f, seen);
    } else {
      var r := DecodeRecord(d, f, s);
      var record := s[..r.length];
      DecodedEncodes(d, f, s);
      var values := EncodedRow(d, f, seen, r.line);
      var own := RowOf(r.line, values);
      var behind, more, rest := DecodedIsLaid(d, r.frame, s[r.length..], seen + own);
      LaidRows(d, seen + own, behind, more, rest);
      LineIsEncoded(d, f, seen, r.line, values, more, record);
      LaidInFront(d, seen, r.line, values, record, behind, more, rest);
      lines, rows, records := [r.line] + behind, own + more, [record] + rest;
      assert s == record + s[r.length..];
      assert lines[1..] == behind;
      assert AllDeliverable(d, lines) by {
        assert forall k :: 1 <= k < |lines| ==> lines[k] == behind[k - 1];
      }
    }
  }

  lemma {:induction false} LaidIsDecoded(d: Dims, f: Frame, seen: Grid, lines: seq<Bytes>, rows: Grid, records: seq<Bytes>)
    requires Remembers(d, f, seen) && Layout(d, seen, lines, rows, records) && AllDeliverable(d, lines)
    ensures FrameOk(d, f) && DecodeStream(d, f, Concat(records)).Some?
    ensures DecodeStream(d, f, Concat(records)).value.bytes == Concat(lines)
    ensures DecodeStream(d, f, Concat(records)).value.frame.rows == |seen| + |rows|
    decreases |lines|
  {
    hide Remembers, EncodeLine, DecodeRecord, LineLaid, Layout, IsLiteral, FrameOk;
    assert FrameOk(d, f) && f.rows == |seen| by { Remembering(d, f, seen); }
    LaidRows(d, seen, lines, rows, records);
    if lines == [] {
      assert |rows| == 0 by { NoRows(d, seen, rows, records); }
    } else {
      var line, record, rest := lines[0], records[0], Concat(records[1..]);
      var values, more := LaidBehind(d, seen, lines, rows, records);
      var own := RowOf(line, values);
      Reassociate(seen, own, more);
      LaidRows(d, seen + own, lines[1..], more, records[1..]);
      LineIsEncoded(d, f, seen, line, values, more, record);
      assert Deliverable(d, line);
      RecordRoundTrip(d, f, line, rest);
      RecordIsNonempty(d, f, line);
      assert (record + rest)[|record|..] == rest;
      LaidIsDecoded(d, EncodeLine(d, f, line).value.frame, seen + own, lines[1..], more, records[1..]);
    }
  }

  lemma NoRows(d: Dims, seen: Grid, rows: Grid, records: seq<Bytes>)
    requires Layout(d, seen, [], rows, records)
    ensures |rows| == 0
  {
  }

  /** The bytes of `text` cut into lines that a file can hold. */
  ghost predicate IsTextOf(d: Dims, lines: seq<Bytes>, text: Bytes) {
    AllDeliverable(d, lines) && text == Concat(lines) && RowCount(lines) == d.frames * d.ny
  }

  /** The decoder accepts exactly the files laid out for whole frames of lines, and hands out those lines. */
  lemma DecoderReadsTheLayout(d: Dims, s: Bytes, text: Bytes)
    ensures Decode(d, s) == Some(text) <==> exists lines :: IsFileOf(d, lines, s) && IsTextOf(d, lines, text)
  {
    hide Layout, Remembers, DecodeStream;
    var f := FirstFrame(d);
    NothingRemembered(d);
    if Decode(d, s) == Some(text) {
      var lines, rows, records := DecodedIsLaid(d, f, s, []);
      RowsCounted(d, [], lines, rows, records);
      assert IsFileOf(d, lines, s) && IsTextOf(d, lines, text);
    }
    if lines :| IsFileOf(d, lines, s) && IsTextOf(d, lines, text) {
      var rows, records :| Layout(d, [], lines, rows, records) && s == Concat(records);
      RowsCounted(d, [], lines, rows, records);
      LaidIsDecoded(d, f, [], lines, rows, records);
    }
  }

  lemma RowsCounted(d: Dims, seen: Grid, lines: seq<Bytes>, rows: Grid, records: seq<Bytes>)
    requires Layout(d, seen, lines, rows, records)
    ensures |rows| == RowCount(lines)
  {
  }
}
