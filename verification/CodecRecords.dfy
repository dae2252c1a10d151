/** Records of the field codec: literal lines and per-cell deltas against the previous frame. */
module CodecRecords {
  import opened Wrappers
  import opened CodecText

  datatype Dims = Dims(nx: pos, ny: pos, frames: pos)

  function Cells(d: Dims): nat {
    d.nx * d.ny
  }

  function TotalRows(d: Dims): nat {
    d.frames * d.ny
  }

  predicate ValidDims(d: Dims) {
    Cells(d) <= 400000 && d.frames < TWO_32
  }

  const CHUNK := 65536

  function LineLimit(d: Dims): nat {
    if d.nx * 32 > CHUNK then d.nx * 32 else CHUNK
  }

  // ---------------------------------------------------------------- little-endian words

  function Word(n: nat): (s: Bytes)
    requires n < TWO_32
    ensures |s| == 4
  {
    var a := n / 256;
    var b := a / 256;
    [n % 256, a % 256, b % 256, b / 256]
  }

  function ReadWord(s: Bytes): (n: nat)
    requires |s| == 4
    ensures n < TWO_32
  {
    var a: int, b: int, c: int, e: int := s[0], s[1], s[2], s[3];
    a + 256 * (b + 256 * (c + 256 * e))
  }

  lemma WordRoundTrip(n: nat)
    requires n < TWO_32
    ensures ReadWord(Word(n)) == n
  {
  }

  /** Two's complement. */
  function SignedWord(v: int): (s: Bytes)
    requires IsInt32(v)
    ensures |s| == 4
  {
    Word(if v < 0 then v + TWO_32 else v)
  }

  function ReadSignedWord(s: Bytes): (v: int)
    requires |s| == 4
    ensures IsInt32(v)
  {
    var n := ReadWord(s);
    if n > INT32_MAX then n - TWO_32 else n
  }

  lemma SignedWordRoundTrip(v: int)
    requires IsInt32(v)
    ensures ReadSignedWord(SignedWord(v)) == v
  {
    WordRoundTrip(if v < 0 then v + TWO_32 else v);
  }

  // ---------------------------------------------------------------- rows

  /** The text of a numeric row without its line feed. */
  function Render(values: seq<int>): Bytes {
    if values == [] then [] else NativeValue(values[0]) + Render(values[1..])
  }

  function ParseAll(tokens: seq<Bytes>): (r: Option<seq<int>>)
    ensures r.Some? ==> |r.value| == |tokens| && AllInt32(r.value)
  {
    if tokens == [] then Some([])
    else
      var first, rest := ParseValue(tokens[0]), ParseAll(tokens[1..]);
      if first.None? || rest.None? then None else Some([first.value] + rest.value)
  }

  /** Previous values of all cells, and how many rows have been seen. */
  datatype Frame = Frame(previous: seq<int>, rows: nat)

  ghost predicate FrameOk(d: Dims, f: Frame) {
    |f.previous| == Cells(d) && forall i :: 0 <= i < |f.previous| ==> IsInt32(f.previous[i])
  }

  function FirstFrame(d: Dims): (f: Frame)
    ensures FrameOk(d, f)
  {
    Frame(seq(Cells(d), _ => 0), 0)
  }

  function Offset(d: Dims, f: Frame): (o: nat)
    ensures o + d.nx <= Cells(d)
  {
    OffsetFits(f.rows, d.nx, d.ny);
    f.rows % d.ny * d.nx
  }

  lemma OffsetFits(rows: nat, nx: pos, ny: pos)
    ensures 0 <= rows % ny * nx && rows % ny * nx + nx <= nx * ny
  {
    var r := rows % ny;
    assert (r + 1) * nx <= ny * nx;
  }

  /** Cells of the current row replaced by new values. */
  function Overwrite(previous: seq<int>, offset: nat, values: seq<int>): (r: seq<int>)
    requires offset + |values| <= |previous|
    ensures |r| == |previous|
    ensures forall i :: 0 <= i < |r| ==>
              r[i] == if offset <= i < offset + |values| then values[i - offset] else previous[i]
  {
    previous[..offset] + values + previous[offset + |values|..]
  }

  predicate AllInt32(values: seq<int>) {
    forall i :: 0 <= i < |values| ==> IsInt32(values[i])
  }

  /** The frame after a row with the given values. */
  function NextFrame(d: Dims, f: Frame, values: seq<int>): (r: Frame)
    requires FrameOk(d, f) && |values| == d.nx && AllInt32(values)
    ensures FrameOk(d, r)
  {
    hide Cells, Offset;
    Frame(Overwrite(f.previous, Offset(d, f), values), f.rows + 1)
  }

  predicate DeltasFitTo(previous: seq<int>, offset: nat, values: seq<int>, k: nat)
    requires offset + |values| <= |previous| && k <= |values|
  {
    forall i :: 0 <= i < k ==> IsInt32(values[i] - previous[offset + i])
  }

  predicate DeltasFit(previous: seq<int>, offset: nat, values: seq<int>)
    requires offset + |values| <= |previous|
  {
    DeltasFitTo(previous, offset, values, |values|)
  }

  /** The deltas of the first `k` cells as signed words. */
  function DeltaBytes(previous: seq<int>, offset: nat, values: seq<int>, k: nat): (s: Bytes)
    requires offset + |values| <= |previous| && k <= |values| && DeltasFitTo(previous, offset, values, k)
    ensures |s| == 4 * k
  {
    if k == 0 then []
    else DeltaBytes(previous, offset, values, k - 1) + SignedWord(values[k - 1] - previous[offset + k - 1])
  }

  // ---------------------------------------------------------------- encoding a line

  datatype Encoded = Encoded(record: Bytes, frame: Frame)

  predicate IsLiteral(line: Bytes) {
    Stripped(line) == [] || Stripped(line)[0] == PERCENT
  }

  function LiteralRecord(line: Bytes): Bytes
    requires |line| < TWO_32
  {
    [TAG_LITERAL] + Word(|line|) + line
  }

  /** A numeric row; refused unless rendering the parsed values gives back the same bytes. */
  function EncodeRow(d: Dims, f: Frame, line: Bytes): (r: Option<Encoded>)
    requires FrameOk(d, f)
    ensures r.Some? ==> FrameOk(d, r.value.frame)
  {
    hide Cells, Offset, TotalRows, NextFrame, AllInt32;
    var values := ParseAll(Tokens(Stripped(line)));
    if values.None? || |values.value| != d.nx || Render(values.value) + [LF] != line || f.rows >= TotalRows(d)
       || !DeltasFit(f.previous, Offset(d, f), values.value)
    then None
    else Some(Encoded([TAG_DELTA] + DeltaBytes(f.previous, Offset(d, f), values.value, d.nx),
                      NextFrame(d, f, values.value)))
  }

  function EncodeLine(d: Dims, f: Frame, line: Bytes): (r: Option<Encoded>)
    requires FrameOk(d, f)
    ensures r.Some? ==> FrameOk(d, r.value.frame)
  {
    if IsLiteral(line) then
      if |line| < TWO_32 then Some(Encoded(LiteralRecord(line), f)) else None
    else EncodeRow(d, f, line)
  }

  // ---------------------------------------------------------------- decoding a record

  datatype Decoded = More | Bad | Line(line: Bytes, frame: Frame, length: nat)

  function CellValue(previous: seq<int>, offset: nat, s: Bytes, i: nat): int
    requires offset + i < |previous| && 4 * i + 4 <= |s|
  {
    previous[offset + i] + ReadSignedWord(s[4 * i..4 * i + 4])
  }

  function CellValues(previous: seq<int>, offset: nat, s: Bytes, n: nat): (values: seq<int>)
    requires offset + n <= |previous| && |s| == 4 * n
    ensures |values| == n && forall i :: 0 <= i < n ==> values[i] == CellValue(previous, offset, s, i)
  {
    seq(n, i requires 0 <= i < n => CellValue(previous, offset, s, i))
  }

  function DecodeRow(d: Dims, f: Frame, s: Bytes): (r: Decoded)
    requires FrameOk(d, f) && |s| == 4 * d.nx
    ensures r.Line? ==> FrameOk(d, r.frame) && r.length == 1 + |s|
    ensures !r.More?
  {
    hide Cells, Offset, TotalRows, NextFrame, AllInt32;
    if f.rows >= TotalRows(d) then Bad
    else
      var values := CellValues(f.previous, Offset(d, f), s, d.nx);
      if !AllInt32(values) then Bad
      else Line(Render(values) + [LF], NextFrame(d, f, values), 1 + |s|)
  }

  /** Decode the record at the front of `s`, or say that more bytes are needed. */
  function DecodeRecord(d: Dims, f: Frame, s: Bytes): (r: Decoded)
    requires FrameOk(d, f)
    ensures r.Line? ==> FrameOk(d, r.frame) && 0 < r.length <= |s|
  {
    if s == [] then More
    else if s[0] == TAG_DELTA then
      if |s| < 1 + 4 * d.nx then More else DecodeRow(d, f, s[1..1 + 4 * d.nx])
    else if s[0] == TAG_LITERAL then
      if |s| < 5 then More
      else
        var count := ReadWord(s[1..5]);
        if count > LineLimit(d) then Bad
        else if |s| < 5 + count then More
        else
          var line := s[5..5 + count];
          if line == [] || line[count - 1] != LF || !IsLiteral(line) then Bad
          else Line(line, f, 5 + count)
    else Bad
  }

  // ---------------------------------------------------------------- one record there and back

  lemma {:induction false} DeltaBytesAt(previous: seq<int>, offset: nat, values: seq<int>, k: nat, i: nat)
    requires offset + |values| <= |previous| && DeltasFit(previous, offset, values) && i < k <= |values|
    ensures DeltaBytes(previous, offset, values, k)[4 * i..4 * i + 4] == SignedWord(values[i] - previous[offset + i])
  {
    var s, before := DeltaBytes(previous, offset, values, k), DeltaBytes(previous, offset, values, k - 1);
    if i < k - 1 {
      DeltaBytesAt(previous, offset, values, k - 1, i);
      assert s[4 * i..4 * i + 4] == before[4 * i..4 * i + 4];
    } else {
      assert s[4 * i..4 * i + 4] == SignedWord(values[i] - previous[offset + i]);
    }
  }

  /** Adding the decoded deltas to the same previous row gives back the values. */
  lemma CellsRoundTrip(previous: seq<int>, offset: nat, values: seq<int>)
    requires offset + |values| <= |previous| && DeltasFit(previous, offset, values)
    ensures CellValues(previous, offset, DeltaBytes(previous, offset, values, |values|), |values|) == values
  {
    forall i | 0 <= i < |values|
      ensures CellValue(previous, offset, DeltaBytes(previous, offset, values, |values|), i) == values[i]
    {
      DeltaBytesAt(previous, offset, values, |values|, i);
      SignedWordRoundTrip(values[i] - previous[offset + i]);
    }
  }

  lemma RowRoundTrip(d: Dims, f: Frame, line: Bytes, rest: Bytes)
    requires FrameOk(d, f) && EncodeRow(d, f, line).Some?
    ensures var e := EncodeRow(d, f, line).value;
            DecodeRecord(d, f, e.record + rest) == Line(line, e.frame, |e.record|)
  {
    hide Cells, Offset, TotalRows, Render, Tokens, Stripped, ParseAll, NextFrame, DeltasFitTo, AllInt32;
    var e := EncodeRow(d, f, line).value;
    var values := ParseAll(Tokens(Stripped(line))).value;
    CellsRoundTrip(f.previous, Offset(d, f), values);
    assert (e.record + rest)[1..1 + 4 * d.nx] == DeltaBytes(f.previous, Offset(d, f), values, d.nx);
  }

  lemma LiteralRoundTrip(d: Dims, f: Frame, line: Bytes, rest: Bytes)
    requires FrameOk(d, f) && IsLiteral(line) && line != [] && line[|line| - 1] == LF && |line| < TWO_32
    ensures var record := LiteralRecord(line);
            DecodeRecord(d, f, record + rest)
            == if |line| <= LineLimit(d) then Line(line, f, |record|) else Bad
  {
    var record := LiteralRecord(line);
    assert (record + rest)[1..5] == Word(|line|);
    WordRoundTrip(|line|);
    assert (record + rest)[5..5 + |line|] == line;
  }

  /** A record decodes to its line and to the encoder's next frame, unless it is an oversized literal. */
  lemma RecordRoundTrip(d: Dims, f: Frame, line: Bytes, rest: Bytes)
    requires FrameOk(d, f) && line != [] && line[|line| - 1] == LF && EncodeLine(d, f, line).Some?
    ensures var e := EncodeLine(d, f, line).value;
            DecodeRecord(d, f, e.record + rest)
            == if IsLiteral(line) && |line| > LineLimit(d) then Bad else Line(line, e.frame, |e.record|)
  {
    if IsLiteral(line) {
      LiteralRoundTrip(d, f, line, rest);
    } else {
      RowRoundTrip(d, f, line, rest);
    }
  }

  /** Bytes after a complete record do not change how it decodes. */
  lemma RecordIsPrefix(d: Dims, f: Frame, s: Bytes, more: Bytes)
    requires FrameOk(d, f) && !DecodeRecord(d, f, s).More?
    ensures DecodeRecord(d, f, s + more) == DecodeRecord(d, f, s)
  {
    hide CellValues, Render, AllInt32, Overwrite, ReadWord, IsLiteral, LineLimit, FrameOk, Offset, TotalRows;
    assert (s + more)[0] == s[0];
    if s[0] == TAG_DELTA {
      assert (s + more)[1..1 + 4 * d.nx] == s[1..1 + 4 * d.nx];
    } else if s[0] == TAG_LITERAL {
      assert (s + more)[1..5] == s[1..5];
      var count := ReadWord(s[1..5]);
      if count <= LineLimit(d) {
        assert (s + more)[5..5 + count] == s[5..5 + count];
      }
    }
  }
}
