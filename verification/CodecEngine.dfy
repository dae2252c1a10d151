/** The native encoder and decoder, and the Python ones, as programs that update their state in place. */
module CodecEngine {
  import opened Wrappers
  import opened CodecText
  import opened CodecRecords
  import Codec
  import CodecLayout

  // ---------------------------------------------------------------- lemmas about runs without a line feed

  /** A run without a line feed is taken whole, or refused when it passes the limit. */
  lemma {:induction false} NativeRun(d: Dims, e: Codec.Encoder, run: Bytes, rest: Bytes)
    requires FrameOk(d, e.frame) && forall i :: 0 <= i < |run| ==> run[i] != LF
    ensures |e.pending| + |run| <= LineLimit(d) ==>
              Codec.FeedNative(d, e, run + rest) == Codec.FeedNative(d, e.(pending := e.pending + run), rest)
    ensures |e.pending| + |run| > LineLimit(d) && |e.pending| <= LineLimit(d) ==>
              Codec.FeedNative(d, e, run + rest).None?
    decreases |run|
  {
    hide FrameOk;
    if run == [] {
      assert run + rest == rest && e.pending + run == e.pending;
    } else {
      assert (run + rest)[0] == run[0] && (run + rest)[1..] == run[1..] + rest;
      if |e.pending| + 1 <= LineLimit(d) {
        NativeRun(d, e.(pending := e.pending + [run[0]]), run[1..], rest);
        Codec.Regroup(e.pending, [run[0]], run[1..]);
        assert [run[0]] + run[1..] == run;
      }
    }
  }

  lemma NativeClose(d: Dims, e: Codec.Encoder, rest: Bytes)
    requires FrameOk(d, e.frame) && |e.pending| + 1 <= LineLimit(d)
    ensures Codec.FeedNative(d, e, [LF] + rest)
            == if Codec.CloseLine(d, e, e.pending + [LF]).None? then None
               else Codec.FeedNative(d, Codec.CloseLine(d, e, e.pending + [LF]).value, rest)
  {
    assert ([LF] + rest)[1..] == rest;
  }

  /** One pass of the native feed loop: up to and including the next line feed, or to the end of the data. */
  lemma NativePass(d: Dims, e: Codec.Encoder, run: Bytes, newline: bool, rest: Bytes)
    requires FrameOk(d, e.frame) && |e.pending| <= LineLimit(d) && forall i :: 0 <= i < |run| ==> run[i] != LF
    requires run != [] || newline
    ensures var piece := if newline then run + [LF] else run;
            var full := Codec.FeedNative(d, e, piece + rest);
            var line := e.pending + piece;
            if |line| > LineLimit(d) then full.None?
            else if !newline then full == Codec.FeedNative(d, e.(pending := line), rest)
            else if Codec.CloseLine(d, e, line).None? then full.None?
            else full == Codec.FeedNative(d, Codec.CloseLine(d, e, line).value, rest)
  {
    hide FrameOk, Codec.CloseLine;
    if newline {
      assert run + [LF] + rest == run + ([LF] + rest);
      NativeRun(d, e, run, [LF] + rest);
      var open := e.(pending := e.pending + run);
      assert open.pending + [LF] == e.pending + (run + [LF]);
      if |open.pending| + 1 <= LineLimit(d) {
        NativeClose(d, open, rest);
        SameClose(d, open, e, open.pending + [LF]);
      } else if |open.pending| <= LineLimit(d) {
        assert Codec.FeedNative(d, open, [LF] + rest).None?;
      }
    } else {
      NativeRun(d, e, run, rest);
    }
  }

  lemma SameClose(d: Dims, a: Codec.Encoder, b: Codec.Encoder, line: Bytes)
    requires FrameOk(d, a.frame) && a.frame == b.frame && a.output == b.output
    ensures Codec.CloseLine(d, a, line) == Codec.CloseLine(d, b, line)
  {
  }

  method IndexOfLf(data: Bytes, from: nat) returns (position: nat)
    requires from <= |data|
    ensures from <= position <= |data| && (forall i :: from <= i < position ==> data[i] != LF)
    ensures position < |data| ==> data[position] == LF
  {
    position := from;
    while position < |data| && data[position] != LF
      invariant from <= position <= |data| && forall i :: from <= i < position ==> data[i] != LF
    {
      position := position + 1;
    }
  }

  // ---------------------------------------------------------------- native encoder

  class NativeEncoder {
    const dims: Dims
    const previous: array<int>
    var pending: Bytes
    var rows: nat
    var output: Bytes
    var finished: bool
    ghost var fed: Bytes

    ghost predicate Valid()
      reads this, previous
    {
      |pending| <= LineLimit(dims) && FrameOk(dims, Frame(previous[..], rows))
    }

    /** The state is that of a new encoder after the bytes fed so far. */
    ghost predicate HasFed()
      reads this, previous
    {
      Codec.FeedNative(dims, Codec.NewEncoder(dims), fed) == Some(Value())
    }

    ghost function Value(): Codec.Encoder
      reads this, previous
    {
      Codec.Encoder(pending, Frame(previous[..], rows), output)
    }

    constructor (d: Dims)
      ensures Valid() && dims == d && fresh(previous) && Value() == Codec.NewEncoder(d)
      ensures HasFed() && fed == [] && !finished
    {
      dims := d;
      previous := new int[Cells(d)](_ => 0);
      pending, rows, output, finished, fed := [], 0, [], false, [];
      new;
      assert previous[..] == seq(Cells(d), _ => 0);
    }

    /** Parse every token and render the values again. */
    static method ParseRow(tokens: seq<Bytes>) returns (values: Option<seq<int>>, text: Bytes)
      ensures values == ParseAll(tokens)
      ensures values.Some? ==> text == Render(values.value)
    {
      hide NativeValue, ParseValue;
      var parsed := [];
      text := [];
      assert tokens[0..] == tokens;
      assert ParseAll(tokens) == Prepend([], ParseAll(tokens)) by { PrependNothing(ParseAll(tokens)); }
      for i := 0 to |tokens|
        invariant |parsed| == i
        invariant ParseAll(tokens) == Prepend(parsed, ParseAll(tokens[i..]))
        invariant text == Render(parsed)
      {
        var value := ParseToken(tokens[i]);
        ParseAllStep(tokens[i..]);
        assert tokens[i..][1..] == tokens[i + 1..];
        if value.None? {
          return None, [];
        }
        RenderAppend(parsed, value.value);
        PrependMore(parsed, value.value, ParseAll(tokens[i + 1..]));
        parsed := parsed + [value.value];
        text := text + NativeValue(value.value);
      }
      assert tokens[|tokens|..] == [];
      assert parsed + [] == parsed;
      values := Some(parsed);
    }

    /** Write the deltas of a row and overwrite the previous row, cell by cell. */
    method WriteDeltas(values: seq<int>, offset: nat) returns (record: Option<Bytes>)
      requires Valid() && |values| == dims.nx && offset + dims.nx <= previous.Length && AllInt32(values)
      modifies previous
      ensures Valid()
      ensures record.Some? <==> DeltasFit(old(previous[..]), offset, values)
      ensures record.Some? ==> record.value == [TAG_DELTA] + DeltaBytes(old(previous[..]), offset, values, dims.nx)
      ensures record.Some? ==> previous[..] == Overwrite(old(previous[..]), offset, values)
    {
      hide Cells, SignedWord, TotalRows, DeltasFitTo, DeltaBytes;
      DeltasStart(previous[..], offset, values);
      var bytes := [TAG_DELTA];
      ghost var before := previous[..];
      for k := 0 to dims.nx
        invariant DeltasFitTo(before, offset, values, k)
        invariant bytes == [TAG_DELTA] + DeltaBytes(before, offset, values, k)
        invariant forall i :: 0 <= i < previous.Length ==>
                    previous[i] == if offset <= i < offset + k then values[i - offset] else before[i]
      {
        var delta := values[k] - previous[offset + k];
        if !IsInt32(delta) {
          DeltasStop(before, offset, values, k);
          assert FrameOk(dims, Frame(previous[..], rows)) by { assert forall i :: 0 <= i < |values| ==> IsInt32(values[i]); }
          return None;
        }
        DeltasNext(before, offset, values, k);
        bytes := bytes + SignedWord(delta);
        previous[offset + k] := values[k];
      }
      assert FrameOk(dims, Frame(previous[..], rows)) by { assert forall i :: 0 <= i < |values| ==> IsInt32(values[i]); }
      record := Some(bytes);
    }

    /** Encode one complete line; on failure the stream is refused. */
    method EncodeLine(line: Bytes) returns (ok: bool)
      requires Valid() && |line| < TWO_32
      modifies `rows, `output, previous
      ensures Valid()
      ensures ok <==> Codec.CloseLine(dims, old(Value()), line).Some?
      ensures ok ==> Value().(pending := []) == Codec.CloseLine(dims, old(Value()), line).value
    {
      hide Cells, Offset, TotalRows, DeltasFitTo, DeltaBytes, Overwrite, Render, ParseAll, Tokens, Stripped, AllInt32;
      var clean := Stripped(line);
      if clean == [] || clean[0] == PERCENT {
        output := output + LiteralRecord(line);
        return true;
      }
      var tokens := ScanTokens(clean);
      var values, text := ParseRow(tokens);
      if values.None? || |values.value| != dims.nx || text + [LF] != line || rows >= TotalRows(dims) {
        return false;
      }
      var record := WriteDeltas(values.value, Offset(dims, Frame(previous[..], rows)));
      if record.None? {
        return false;
      }
      output := output + record.value;
      rows := rows + 1;
      ok := true;
    }

    /** Feed a chunk; the result and the new state are those of feeding its bytes one by one. */
    method Feed(data: Bytes) returns (ok: bool)
      requires Valid() && HasFed() && LineLimit(dims) < TWO_32
      modifies `pending, `rows, `output, `fed, previous
      ensures ok ==> Valid() && HasFed() && fed == old(fed) + data
      ensures ok ==> CodecLayout.IsFileOf(dims, Codec.Lines([], fed), output)
      ensures ok <==> !finished && Codec.FeedNative(dims, old(Value()), data).Some?
      ensures ok ==> Value() == Codec.FeedNative(dims, old(Value()), data).value
    {
      hide Codec.FeedNative, Codec.CloseLine, FrameOk, LineLimit, CodecLayout.IsFileOf;
      if finished {
        return false;
      }
      FedOnward(dims, fed, Value(), data);
      var consumed := 0;
      ghost var goal := Codec.FeedNative(dims, Value(), data);
      assert data[0..] == data;
      while consumed < |data|
        invariant 0 <= consumed <= |data| && Valid() && fed == old(fed)
        invariant Codec.FeedNative(dims, Value(), data[consumed..]) == goal
      {
        var at := IndexOfLf(data, consumed);
        var newline := at < |data|;
        var end := if newline then at + 1 else at;
        var piece := data[consumed..end];
        ghost var run := data[consumed..at];
        assert piece == if newline then run + [LF] else run;
        assert data[consumed..] == piece + data[end..];
        NativePass(dims, Value(), run, newline, data[end..]);
        if |pending| + |piece| > LineLimit(dims) {
          return false;
        }
        if newline {
          var closed := EncodeLine(pending + piece);
          if !closed {
            return false;
          }
          pending := [];
        } else {
          pending := pending + piece;
        }
        consumed := end;
      }
      assert data[|data|..] == [];
      FedAll(dims, Value());
      fed := fed + data;
      CodecLayout.NativeWritesTheLayout(dims, fed, Value());
      ok := true;
    }

    /**
     The record stream of everything fed: refused exactly when that ends inside a line, has not the rows of
     whole frames, or has been handed out before; otherwise decoding it gives back the bytes fed.
     */
    method Finish() returns (file: Option<Bytes>)
      requires Valid() && HasFed()
      modifies `finished
      ensures Valid() && HasFed() && finished == (old(finished) || file.Some?)
      ensures file.Some? <==>
                !old(finished) && Codec.Rest([], fed) == [] && Codec.RowCount(Codec.Lines([], fed)) == TotalRows(dims)
      ensures file.Some? ==> Codec.Decode(dims, file.value) == Some(fed)
      ensures file.Some? ==> CodecLayout.IsFileOf(dims, Codec.Lines([], fed), file.value)
    {
      hide Codec.FeedNative, Codec.Decode, TotalRows, FrameOk, CodecLayout.IsFileOf;
      Codec.FinishedDecodes(dims, fed, Value());
      CodecLayout.NativeWritesTheLayout(dims, fed, Value());
      if finished || pending != [] || rows != TotalRows(dims) {
        return None;
      }
      finished := true;
      file := Some(output);
    }
  }

  lemma DeltasStart(before: seq<int>, offset: nat, values: seq<int>)
    requires offset + |values| <= |before|
    ensures DeltasFitTo(before, offset, values, 0) && DeltaBytes(before, offset, values, 0) == []
  {
  }

  lemma DeltasNext(before: seq<int>, offset: nat, values: seq<int>, k: nat)
    requires offset + |values| <= |before| && k < |values| && DeltasFitTo(before, offset, values, k)
    requires IsInt32(values[k] - before[offset + k])
    ensures DeltasFitTo(before, offset, values, k + 1)
    ensures DeltaBytes(before, offset, values, k + 1)
            == DeltaBytes(before, offset, values, k) + SignedWord(values[k] - before[offset + k])
  {
  }

  lemma DeltasStop(before: seq<int>, offset: nat, values: seq<int>, k: nat)
    requires offset + |values| <= |before| && k < |values| && !IsInt32(values[k] - before[offset + k])
    ensures !DeltasFit(before, offset, values)
  {
  }

  lemma FedOnward(d: Dims, fed: Bytes, e: Codec.Encoder, data: Bytes)
    requires Codec.FeedNative(d, Codec.NewEncoder(d), fed) == Some(e)
    ensures FrameOk(d, e.frame) && Codec.FeedNative(d, Codec.NewEncoder(d), fed + data) == Codec.FeedNative(d, e, data)
  {
    Codec.FeedNativeAppend(d, Codec.NewEncoder(d), fed, data);
  }

  lemma FedAll(d: Dims, e: Codec.Encoder)
    requires FrameOk(d, e.frame)
    ensures Codec.FeedNative(d, e, []) == Some(e)
  {
  }

  function Prepend(values: seq<int>, rest: Option<seq<int>>): Option<seq<int>> {
    if rest.None? then None else Some(values + rest.value)
  }

  lemma ParseAllStep(tokens: seq<Bytes>)
    requires tokens != []
    ensures ParseValue(tokens[0]).None? ==> ParseAll(tokens).None?
    ensures ParseValue(tokens[0]).Some? ==>
              ParseAll(tokens) == Prepend([ParseValue(tokens[0]).value], ParseAll(tokens[1..]))
  {
  }

  lemma PrependNothing(rest: Option<seq<int>>)
    ensures Prepend([], rest) == rest
  {
    if rest.Some? {
      assert [] + rest.value == rest.value;
    }
  }

  lemma PrependMore(values: seq<int>, v: int, rest: Option<seq<int>>)
    ensures Prepend(values, Prepend([v], rest)) == Prepend(values + [v], rest)
  {
    if rest.Some? {
      assert values + ([v] + rest.value) == values + [v] + rest.value;
    }
  }

  lemma {:induction false} RenderAppend(values: seq<int>, v: int)
    ensures Render(values + [v]) == Render(values) + NativeValue(v)
  {
    hide NativeValue;
    if values == [] {
      assert values + [v] == [v] && [v][1..] == [];
      assert NativeValue(v) + [] == NativeValue(v) == [] + NativeValue(v);
    } else {
      assert (values + [v])[1..] == values[1..] + [v];
      RenderAppend(values[1..], v);
      Codec.Regroup(NativeValue(values[0]), Render(values[1..]), NativeValue(v));
    }
  }

  // ---------------------------------------------------------------- native decoder

  datatype Delivered = LineOut(line: Bytes) | EndOfFile | Broken

  /** The inflated record stream arrives in chunks of any size. */
  class NativeDecoder {
    const dims: Dims
    const previous: array<int>
    var rows: nat
    var pending: Bytes
    var offset: nat
    var chunks: seq<Bytes>
    var complete: bool
    ghost var read: Bytes
    ghost var text: Bytes

    /** The record bytes read so far decode to the text handed out so far. */
    ghost predicate HasRead()
      reads this, previous
    {
      Codec.DecodeStream(dims, FirstFrame(dims), read) == Some(Codec.Text(text, CurrentFrame()))
    }

    ghost predicate Valid()
      reads this, previous
    {
      offset <= |pending| && FrameOk(dims, Frame(previous[..], rows))
    }

    ghost function CurrentFrame(): Frame
      reads this, previous
    {
      Frame(previous[..], rows)
    }

    /** All record bytes not yet turned into lines. */
    ghost function Remaining(): Bytes
      requires offset <= |pending|
      reads this
    {
      pending[offset..] + Codec.Concat(chunks)
    }

    constructor (d: Dims, inflated: seq<Bytes>)
      ensures Valid() && dims == d && fresh(previous)
      ensures CurrentFrame() == FirstFrame(d) && Remaining() == Codec.Concat(inflated) && !complete
      ensures HasRead() && read == [] && text == []
    {
      dims := d;
      previous := new int[Cells(d)](_ => 0);
      rows, pending, offset, chunks, complete, read, text := 0, [], 0, inflated, false, [], [];
      new;
      assert previous[..] == seq(Cells(d), _ => 0);
      assert pending[offset..] + Codec.Concat(chunks) == Codec.Concat(chunks);
    }

    /** Apply the deltas of one row in place; fails when a value leaves 32-bit range. */
    method ApplyDeltas(bytes: Bytes, at: nat) returns (line: Option<Bytes>)
      requires Valid() && |bytes| == 4 * dims.nx && at + dims.nx <= previous.Length
      modifies previous
      ensures Valid()
      ensures var values := CellValues(old(previous[..]), at, bytes, dims.nx);
              && (line.Some? <==> AllInt32(values))
              && (line.Some? ==> line.value == Render(values) && previous[..] == Overwrite(old(previous[..]), at, values))
    {
      hide Render, NativeValue, ReadSignedWord, Cells;
      var text := [];
      ghost var before := previous[..];
      ghost var values := CellValues(before, at, bytes, dims.nx);
      assert values[..0] == [] && Render([]) == [] by { RenderNothing(); }
      for k := 0 to dims.nx
        invariant forall i :: 0 <= i < k ==> IsInt32(values[i])
        invariant text == Render(values[..k])
        invariant forall i :: 0 <= i < previous.Length ==>
                    previous[i] == if at <= i < at + k then values[i - at] else before[i]
      {
        var value := previous[at + k] + ReadSignedWord(bytes[4 * k..4 * k + 4]);
        assert value == CellValue(before, at, bytes, k) == values[k];
        if !IsInt32(value) {
          assert FrameOk(dims, Frame(previous[..], rows)) && !AllInt32(values);
          return None;
        }
        RenderAppend(values[..k], value);
        assert values[..k + 1] == values[..k] + [value];
        previous[at + k] := value;
        text := text + NativeValue(value);
      }
      assert values[..dims.nx] == values;
      line := Some(text);
    }

    /** Decode the record at the front of the pending bytes, if it is complete. */
    method DecodePending() returns (r: Decoded)
      requires Valid()
      modifies `rows, `offset, previous
      ensures Valid()
      ensures var expected := DecodeRecord(dims, old(CurrentFrame()), old(pending[offset..]));
              && (r.More? <==> expected.More?) && (r.Bad? <==> expected.Bad?)
              && (expected.More? ==> CurrentFrame() == old(CurrentFrame()) && offset == old(offset))
              && (expected.Line? ==> r == expected && CurrentFrame() == expected.frame
                                     && offset == old(offset) + expected.length)
    {
      hide Cells, Offset, TotalRows, Render, IsLiteral, AllInt32, CellValues, Overwrite, ReadWord, ReadSignedWord;
      var record := pending[offset..];
      if record == [] {
        return More;
      }
      if record[0] == TAG_DELTA {
        var length := 1 + 4 * dims.nx;
        if |record| < length {
          return More;
        }
        if rows >= TotalRows(dims) {
          return Bad;
        }
        var line := ApplyDeltas(record[1..length], Offset(dims, Frame(previous[..], rows)));
        if line.None? {
          return Bad;
        }
        offset := offset + length;
        rows := rows + 1;
        return Line(line.value + [LF], Frame(previous[..], rows), length);
      }
      if record[0] != TAG_LITERAL {
        return Bad;
      }
      if |record| < 5 {
        return More;
      }
      var count := ReadWord(record[1..5]);
      if count > LineLimit(dims) {
        return Bad;
      }
      if |record| < 5 + count {
        return More;
      }
      var line := record[5..5 + count];
      if line == [] || line[count - 1] != LF || !IsLiteral(line) {
        return Bad;
      }
      offset := offset + 5 + count;
      r := Line(line, Frame(previous[..], rows), 5 + count);
    }

    /** The next line, whatever the chunk boundaries; the end, once, only after complete frames. */
    method Next() returns (r: Delivered)
      requires Valid()
      modifies this, previous
      ensures Valid() && complete == (old(complete) || r.EndOfFile?)
      ensures old(complete) ==> r == Broken && Remaining() == old(Remaining()) && CurrentFrame() == old(CurrentFrame())
      ensures !old(complete) ==>
              var expected := DecodeRecord(dims, old(CurrentFrame()), old(Remaining()));
              match expected
              case Line(line, frame, length) =>
                r == LineOut(line) && CurrentFrame() == frame && Remaining() == old(Remaining())[length..]
              case Bad => r == Broken
              case More =>
                r == if old(Remaining()) == [] && old(rows) == TotalRows(dims) then EndOfFile else Broken
      ensures old(HasRead()) && !r.Broken? ==> HasRead() && read + Remaining() == old(read + Remaining())
      ensures r.LineOut? ==> text == old(text) + r.line
      ensures r.EndOfFile? ==> text == old(text) && Remaining() == []
      ensures old(HasRead()) && r.EndOfFile? ==> Codec.Decode(dims, read) == Some(text) && exists cut ::
                CodecLayout.IsFileOf(dims, cut, read) && CodecLayout.IsTextOf(dims, cut, text)
    {
      hide FrameOk, DecodeRecord, Cells, TotalRows, LineLimit, Codec.DecodeStream, CodecLayout.IsFileOf, CodecLayout.IsTextOf;
      if complete {
        return Broken;
      }
      while true
        invariant Valid() && Remaining() == old(Remaining()) && CurrentFrame() == old(CurrentFrame()) && !complete
        invariant read == old(read) && text == old(text)
        decreases |chunks|
      {
        ghost var tail := Codec.Concat(chunks);
        ghost var front := pending[offset..];
        if !DecodeRecord(dims, CurrentFrame(), front).More? {
          RecordIsPrefix(dims, CurrentFrame(), front, tail);
        }
        var decoded := DecodePending();
        if decoded.Line? {
          assert (front + tail)[decoded.length..] == front[decoded.length..] + tail;
          assert pending[offset..] == front[decoded.length..];
          ReadOn(dims, read, text, old(CurrentFrame()), front, tail);
          read, text := read + front[..decoded.length], text + decoded.line;
          return LineOut(decoded.line);
        }
        if decoded.Bad? {
          return Broken;
        }
        if chunks == [] {
          assert front + tail == front;
          if offset != |pending| || rows != TotalRows(dims) {
            return Broken;
          }
          complete := true;
          CodecLayout.DecoderReadsTheLayout(dims, read, text);
          assert read + [] == read;
          return EndOfFile;
        }
        pending := pending[offset..] + chunks[0];
        offset := 0;
        assert pending[0..] == pending;
        Codec.Regroup(front, chunks[0], Codec.Concat(chunks[1..]));
        chunks := chunks[1..];
      }
    }
  }

  /** Reading one more record off the front. */
  lemma ReadOn(d: Dims, read: Bytes, text: Bytes, f: Frame, front: Bytes, tail: Bytes)
    requires FrameOk(d, f) && DecodeRecord(d, f, front).Line?
    ensures var r := DecodeRecord(d, f, front);
            && Codec.DecodeStream(d, FirstFrame(d), read) == Some(Codec.Text(text, f))
            ==> Codec.DecodeStream(d, FirstFrame(d), read + front[..r.length]) == Some(Codec.Text(text + r.line, r.frame))
    ensures var r := DecodeRecord(d, f, front);
            read + front[..r.length] + (front[r.length..] + tail) == read + (front + tail)
  {
    hide FrameOk, DecodeRecord, Codec.DecodeStream;
    var r := DecodeRecord(d, f, front);
    var record := front[..r.length];
    assert front == record + front[r.length..];
    Codec.Regroup(record, front[r.length..], tail);
    Codec.Regroup(read, record, front[r.length..] + tail);
    if Codec.DecodeStream(d, FirstFrame(d), read) == Some(Codec.Text(text, f)) {
      OneRecord(d, f, front);
      Codec.DecodeAppend(d, FirstFrame(d), read, record);
    }
  }

  /** A record is a stream of one line. */
  lemma OneRecord(d: Dims, f: Frame, s: Bytes)
    requires FrameOk(d, f) && DecodeRecord(d, f, s).Line?
    ensures var r := DecodeRecord(d, f, s);
            Codec.DecodeStream(d, f, s[..r.length]) == Some(Codec.Text(r.line, r.frame))
  {
    var r := DecodeRecord(d, f, s);
    var record := s[..r.length];
    CodecLayout.DecodedAgain(d, f, s);
    hide FrameOk, DecodeRecord;
    assert record[r.length..] == [] && r.line + [] == r.line;
  }

  lemma RenderNothing()
    ensures Render([]) == []
  {
  }

  // ---------------------------------------------------------------- Python encoder and decoder

  /** Close a list of complete lines in order. */
  function CloseAll(d: Dims, e: Codec.Encoder, lines: seq<Bytes>): (r: Option<Codec.Encoder>)
    requires FrameOk(d, e.frame)
    ensures r.Some? ==> FrameOk(d, r.value.frame)
    decreases |lines|
  {
    if lines == [] then Some(e)
    else
      var next := Codec.CloseLine(d, e, lines[0]);
      if next.None? then None else CloseAll(d, next.value, lines[1..])
  }

  /** Feeding bytes is the same as closing the completed lines and keeping the rest. */
  lemma {:induction false} FeedIsCloseAll(d: Dims, e: Codec.Encoder, data: Bytes)
    requires FrameOk(d, e.frame)
    ensures var closed := CloseAll(d, e, Codec.Lines(e.pending, data));
            Codec.Feed(d, e, data)
            == if closed.None? then None else Some(closed.value.(pending := Codec.Rest(e.pending, data)))
    decreases |data|
  {
    hide FrameOk, EncodeLine;
    if data != [] {
      if data[0] == LF {
        var line := e.pending + [LF];
        var next := Codec.CloseLine(d, e, line);
        assert Codec.Lines(e.pending, data)[1..] == Codec.Lines([], data[1..]);
        if next.Some? {
          FeedIsCloseAll(d, next.value, data[1..]);
        }
      } else {
        var open := e.(pending := e.pending + [data[0]]);
        FeedIsCloseAll(d, open, data[1..]);
        CloseAllIgnoresPending(d, e, open, Codec.Lines(open.pending, data[1..]));
      }
    }
  }

  lemma CloseAllIgnoresPending(d: Dims, a: Codec.Encoder, b: Codec.Encoder, lines: seq<Bytes>)
    requires FrameOk(d, a.frame) && a.frame == b.frame && a.output == b.output
    ensures CloseAll(d, a, lines).None? <==> CloseAll(d, b, lines).None?
    ensures CloseAll(d, a, lines).Some? ==>
              CloseAll(d, a, lines).value.frame == CloseAll(d, b, lines).value.frame
              && CloseAll(d, a, lines).value.output == CloseAll(d, b, lines).value.output
  {
    hide FrameOk, EncodeLine;
    if lines != [] {
      SameClose(d, a, b, lines[0]);
    }
  }

  /** Splitting the pending bytes followed by new data at line feeds. */
  lemma {:induction false} SplitAfterPending(pending: Bytes, seen: Bytes, data: Bytes)
    requires forall i :: 0 <= i < |pending| ==> pending[i] != LF
    ensures Codec.Lines(seen, pending + data) == Codec.Lines(seen + pending, data)
    ensures Codec.Rest(seen, pending + data) == Codec.Rest(seen + pending, data)
    decreases |pending|
  {
    if pending == [] {
      assert pending + data == data && seen + pending == seen;
    } else {
      assert (pending + data)[0] == pending[0] && (pending + data)[1..] == pending[1..] + data;
      SplitAfterPending(pending[1..], seen + [pending[0]], data);
      Codec.Regroup(seen, [pending[0]], pending[1..]);
      assert [pending[0]] + pending[1..] == pending;
    }
  }

  lemma {:induction false} LinesStep(seen: Bytes, run: Bytes, rest: Bytes)
    requires forall i :: 0 <= i < |run| ==> run[i] != LF
    ensures Codec.Lines(seen, run + [LF] + rest) == [seen + run + [LF]] + Codec.Lines([], rest)
    ensures Codec.Rest(seen, run + [LF] + rest) == Codec.Rest([], rest)
  {
    assert run + [LF] + rest == run + ([LF] + rest);
    SplitAfterPending(run, seen, [LF] + rest);
    assert ([LF] + rest)[1..] == rest;
  }

  /** `bytes.split` at line feeds: the complete lines, each with its line feed, and what is left. */
  method SplitLines(all: Bytes) returns (lines: seq<Bytes>, rest: Bytes)
    ensures lines == Codec.Lines([], all) && rest == Codec.Rest([], all)
    ensures forall i :: 0 <= i < |rest| ==> rest[i] != LF
  {
    lines := [];
    var from := 0;
    assert all[0..] == all;
    while from < |all|
      invariant 0 <= from <= |all|
      invariant lines + Codec.Lines([], all[from..]) == Codec.Lines([], all)
      invariant Codec.Rest([], all[from..]) == Codec.Rest([], all)
    {
      var at := IndexOfLf(all, from);
      ghost var run := all[from..at];
      if at == |all| {
        assert all[from..] == run == run + [];
        SplitAfterPending(run, [], []);
        assert [] + run == run;
        return lines, all[from..];
      }
      assert all[from..] == run + [LF] + all[at + 1..];
      LinesStep([], run, all[at + 1..]);
      assert [] + run + [LF] == all[from..at + 1];
      lines := lines + [all[from..at + 1]];
      from := at + 1;
    }
    assert all[|all|..] == [];
    rest := [];
  }

  class PythonEncoder {
    const dims: Dims
    var previous: seq<int>
    var pending: Bytes
    var rows: nat
    var output: Bytes
    ghost var fed: Bytes

    /** The state is that of a new encoder after the bytes fed so far. */
    ghost predicate HasFed()
      reads this
    {
      Codec.Feed(dims, Codec.NewEncoder(dims), fed) == Some(Value())
    }

    ghost predicate Valid()
      reads this
    {
      FrameOk(dims, Frame(previous, rows)) && forall i :: 0 <= i < |pending| ==> pending[i] != LF
    }

    ghost function Value(): Codec.Encoder
      reads this
    {
      Codec.Encoder(pending, Frame(previous, rows), output)
    }

    constructor (d: Dims)
      ensures Valid() && dims == d && Value() == Codec.NewEncoder(d) && HasFed() && fed == []
    {
      dims := d;
      previous, rows, pending, output, fed := seq(Cells(d), _ => 0), 0, [], [], [];
    }

    /** Feed a chunk: only the bytes left over at its end are checked against the limit. */
    method Feed(data: Bytes) returns (ok: bool)
      requires Valid() && HasFed()
      modifies this
      ensures ok ==> Valid() && HasFed() && fed == old(fed) + data
      ensures ok <==> Codec.FeedPython(dims, old(Value()), data).Some?
      ensures ok ==> Value() == Codec.FeedPython(dims, old(Value()), data).value
      ensures ok ==> CodecLayout.IsFileOf(dims, Codec.Lines([], fed), output)
    {
      hide FrameOk, EncodeLine, Codec.Feed, CodecLayout.IsFileOf;
      ghost var start := Value();
      Codec.FeedAppend(dims, Codec.NewEncoder(dims), fed, data);
      FeedIsCloseAll(dims, start, data);
      SplitAfterPending(pending, [], data);
      assert [] + pending == pending;
      var lines, rest := SplitLines(pending + data);
      pending := rest;
      if |pending| > LineLimit(dims) {
        return false;
      }
      for k := 0 to |lines|
        invariant Valid() && pending == rest && fed == old(fed)
        invariant var here := Codec.Encoder([], Frame(previous, rows), output);
                  var left, whole := CloseAll(dims, here, lines[k..]), CloseAll(dims, start, lines);
                  && (whole.None? <==> left.None?)
                  && (whole.Some? ==> whole.value.frame == left.value.frame && whole.value.output == left.value.output)
      {
        var encoded := EncodeLine(dims, Frame(previous, rows), lines[k]);
        assert lines[k..][1..] == lines[k + 1..] && lines[k..][0] == lines[k];
        if encoded.None? {
          return false;
        }
        output := output + encoded.value.record;
        previous, rows := encoded.value.frame.previous, encoded.value.frame.rows;
      }
      assert lines[|lines|..] == [];
      fed := fed + data;
      CodecLayout.EncoderWritesTheLayout(dims, fed, output);
      ok := true;
    }
  }

  function Prefixed(text: Bytes, rest: Option<Codec.Text>): Option<Codec.Text> {
    if rest.None? then None else Some(Codec.Text(text + rest.value.bytes, rest.value.frame))
  }

  lemma {:induction false} ConcatAppend(lines: seq<Bytes>, line: Bytes)
    ensures Codec.Concat(lines + [line]) == Codec.Concat(lines) + line
  {
    if lines == [] {
      assert lines + [line] == [line] && [line][1..] == [];
      assert line + [] == line == [] + line;
    } else {
      assert (lines + [line])[1..] == lines[1..] + [line];
      ConcatAppend(lines[1..], line);
      Codec.Regroup(lines[0], Codec.Concat(lines[1..]), line);
    }
  }

  /** The Python decoding loop: append a chunk, then take complete records off the front. */
  method DecodedLines(d: Dims, chunks: seq<Bytes>) returns (lines: seq<Bytes>, ok: bool)
    ensures ok <==> Codec.Decode(d, Codec.Concat(chunks)).Some?
    ensures ok ==> Codec.Decode(d, Codec.Concat(chunks)) == Some(Codec.Concat(lines))
    ensures ok ==> exists cut ::
              CodecLayout.IsFileOf(d, cut, Codec.Concat(chunks)) && CodecLayout.IsTextOf(d, cut, Codec.Concat(lines))
  {
    hide FrameOk, DecodeRecord, Cells, TotalRows, CodecLayout.IsFileOf, CodecLayout.IsTextOf;
    ghost var goal := Codec.DecodeStream(d, FirstFrame(d), Codec.Concat(chunks));
    var frame := FirstFrame(d);
    var pending := [];
    lines := [];
    assert chunks[0..] == chunks && [] + Codec.Concat(chunks) == Codec.Concat(chunks);
    PrefixedNothing(goal);
    NothingToDecode(d, frame);
    for i := 0 to |chunks|
      invariant FrameOk(d, frame)
      invariant goal == Prefixed(Codec.Concat(lines), Codec.DecodeStream(d, frame, pending + Codec.Concat(chunks[i..])))
      invariant DecodeRecord(d, frame, pending).More?
    {
      ghost var tail := Codec.Concat(chunks[i + 1..]);
      assert chunks[i..][1..] == chunks[i + 1..];
      assert pending + (chunks[i] + tail) == pending + chunks[i] + tail;
      pending := pending + chunks[i];
      var decoded := DecodeRecord(d, frame, pending);
      while !decoded.More?
        invariant FrameOk(d, frame) && decoded == DecodeRecord(d, frame, pending)
        invariant goal == Prefixed(Codec.Concat(lines), Codec.DecodeStream(d, frame, pending + tail))
        decreases |pending|
      {
        DecodeFront(d, frame, pending, tail);
        if decoded.Bad? {
          return lines, false;
        }
        ConcatAppend(lines, decoded.line);
        PrefixedTwice(Codec.Concat(lines), decoded.line,
                      Codec.DecodeStream(d, decoded.frame, pending[decoded.length..] + tail));
        lines := lines + [decoded.line];
        frame := decoded.frame;
        pending := pending[decoded.length..];
        decoded := DecodeRecord(d, frame, pending);
      }
    }
    assert pending + Codec.Concat(chunks[|chunks|..]) == pending;
    DecodeEnd(d, frame, pending);
    assert Codec.Concat(lines) + [] == Codec.Concat(lines);
    ok := pending == [] && frame.rows == TotalRows(d);
    CodecLayout.DecoderReadsTheLayout(d, Codec.Concat(chunks), Codec.Concat(lines));
  }

  lemma PrefixedNothing(rest: Option<Codec.Text>)
    ensures Prefixed([], rest) == rest
  {
    if rest.Some? {
      assert [] + rest.value.bytes == rest.value.bytes;
    }
  }

  lemma PrefixedTwice(a: Bytes, b: Bytes, rest: Option<Codec.Text>)
    ensures Prefixed(a, Prefixed(b, rest)) == Prefixed(a + b, rest)
  {
    if rest.Some? {
      Codec.Regroup(a, b, rest.value.bytes);
    }
  }

  lemma DecodeFront(d: Dims, f: Frame, s: Bytes, tail: Bytes)
    requires FrameOk(d, f) && !DecodeRecord(d, f, s).More?
    ensures DecodeRecord(d, f, s).Bad? ==> Codec.DecodeStream(d, f, s + tail).None?
    ensures DecodeRecord(d, f, s).Line? ==>
              var r := DecodeRecord(d, f, s);
              Codec.DecodeStream(d, f, s + tail) == Prefixed(r.line, Codec.DecodeStream(d, r.frame, s[r.length..] + tail))
  {
    RecordIsPrefix(d, f, s, tail);
    assert s != [] by {
      if s == [] {
        NothingToDecode(d, f);
      }
    }
    hide FrameOk, DecodeRecord;
    if DecodeRecord(d, f, s).Line? {
      var n := DecodeRecord(d, f, s).length;
      assert (s + tail)[n..] == s[n..] + tail;
    }
  }

  lemma NothingToDecode(d: Dims, f: Frame)
    requires FrameOk(d, f)
    ensures DecodeRecord(d, f, []).More?
  {
  }

  lemma DecodeEnd(d: Dims, f: Frame, s: Bytes)
    requires FrameOk(d, f) && DecodeRecord(d, f, s).More?
    ensures Codec.DecodeStream(d, f, s) == if s == [] then Some(Codec.Text([], f)) else None
  {
  }
}
