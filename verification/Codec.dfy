/** Whole streams: feeding bytes to the encoder, decoding its records, and how the two undo each other. */
module Codec {
  import opened Wrappers
  import opened CodecText
  import opened CodecRecords

  // ---------------------------------------------------------------- the encoder as a value

  /** Bytes of the unfinished line, previous frame, and the record stream so far. */
  datatype Encoder = Encoder(pending: Bytes, frame: Frame, output: Bytes)

  function NewEncoder(d: Dims): Encoder {
    Encoder([], FirstFrame(d), [])
  }

  function CloseLine(d: Dims, e: Encoder, line: Bytes): (r: Option<Encoder>)
    requires FrameOk(d, e.frame)
    ensures r.Some? ==> FrameOk(d, r.value.frame) && r.value.pending == []
  {
    var x := EncodeLine(d, e.frame, line);
    if x.None? then None else Some(Encoder([], x.value.frame, e.output + x.value.record))
  }

  function FeedByte(d: Dims, e: Encoder, b: byte): (r: Option<Encoder>)
    requires FrameOk(d, e.frame)
    ensures r.Some? ==> FrameOk(d, r.value.frame)
  {
    if b == LF then CloseLine(d, e, e.pending + [LF]) else Some(e.(pending := e.pending + [b]))
  }

  /** Feeding without a bound on line length; `None` is the raised error. */
  function Feed(d: Dims, e: Encoder, data: Bytes): (r: Option<Encoder>)
    requires FrameOk(d, e.frame)
    ensures r.Some? ==> FrameOk(d, r.value.frame)
    decreases |data|
  {
    if data == [] then Some(e)
    else
      var next := FeedByte(d, e, data[0]);
      if next.None? then None else Feed(d, next.value, data[1..])
  }

  /** The native encoder refuses a line as soon as it would pass the limit. */
  function FeedNative(d: Dims, e: Encoder, data: Bytes): (r: Option<Encoder>)
    requires FrameOk(d, e.frame)
    ensures r.Some? ==> FrameOk(d, r.value.frame)
    decreases |data|
  {
    if data == [] then Some(e)
    else if |e.pending| + 1 > LineLimit(d) then None
    else
      var next := FeedByte(d, e, data[0]);
      if next.None? then None else FeedNative(d, next.value, data[1..])
  }

  /** The bytes after the last line feed. */
  function Rest(pending: Bytes, data: Bytes): Bytes
    decreases |data|
  {
    if data == [] then pending
    else if data[0] == LF then Rest([], data[1..])
    else Rest(pending + [data[0]], data[1..])
  }

  /** The Python encoder looks only at what is left over at the end of a chunk. */
  function FeedPython(d: Dims, e: Encoder, data: Bytes): (r: Option<Encoder>)
    requires FrameOk(d, e.frame)
    ensures r.Some? ==> FrameOk(d, r.value.frame)
  {
    if |Rest(e.pending, data)| > LineLimit(d) then None else Feed(d, e, data)
  }

  function NativeChunks(d: Dims, e: Encoder, chunks: seq<Bytes>): (r: Option<Encoder>)
    requires FrameOk(d, e.frame)
    ensures r.Some? ==> FrameOk(d, r.value.frame)
    decreases |chunks|
  {
    if chunks == [] then Some(e)
    else
      var next := FeedNative(d, e, chunks[0]);
      if next.None? then None else NativeChunks(d, next.value, chunks[1..])
  }

  function PythonChunks(d: Dims, e: Encoder, chunks: seq<Bytes>): (r: Option<Encoder>)
    requires FrameOk(d, e.frame)
    ensures r.Some? ==> FrameOk(d, r.value.frame)
    decreases |chunks|
  {
    if chunks == [] then Some(e)
    else
      var next := FeedPython(d, e, chunks[0]);
      if next.None? then None else PythonChunks(d, next.value, chunks[1..])
  }

  function Concat(chunks: seq<Bytes>): Bytes {
    if chunks == [] then [] else chunks[0] + Concat(chunks[1..])
  }

  /** The record stream, when no line is left open and every frame is complete. */
  function Finish(d: Dims, e: Option<Encoder>): Option<Bytes> {
    if e.None? || e.value.pending != [] || e.value.frame.rows != TotalRows(d) then None else Some(e.value.output)
  }

  // ---------------------------------------------------------------- chunk independence

  lemma {:induction false} FeedNativeAppend(d: Dims, e: Encoder, a: Bytes, b: Bytes)
    requires FrameOk(d, e.frame)
    ensures FeedNative(d, e, a + b)
            == if FeedNative(d, e, a).None? then None else FeedNative(d, FeedNative(d, e, a).value, b)
    decreases |a|
  {
    hide FrameOk, FeedByte;
    if a == [] {
      assert a + b == b;
    } else {
      assert (a + b)[0] == a[0] && (a + b)[1..] == a[1..] + b;
      var next := FeedByte(d, e, a[0]);
      if next.Some? {
        FeedNativeAppend(d, next.value, a[1..], b);
      }
    }
  }

  /** The native encoder's verdict and records do not depend on how the input is split. */
  lemma {:induction false} ChunksDoNotMatter(d: Dims, e: Encoder, chunks: seq<Bytes>)
    requires FrameOk(d, e.frame)
    ensures NativeChunks(d, e, chunks) == FeedNative(d, e, Concat(chunks))
    decreases |chunks|
  {
    hide FrameOk, FeedByte;
    if chunks != [] {
      FeedNativeAppend(d, e, chunks[0], Concat(chunks[1..]));
      var next := FeedNative(d, e, chunks[0]);
      if next.Some? {
        ChunksDoNotMatter(d, next.value, chunks[1..]);
      }
    }
  }

  lemma {:induction false} FeedAppend(d: Dims, e: Encoder, a: Bytes, b: Bytes)
    requires FrameOk(d, e.frame)
    ensures Feed(d, e, a + b) == if Feed(d, e, a).None? then None else Feed(d, Feed(d, e, a).value, b)
    decreases |a|
  {
    hide FrameOk, FeedByte;
    if a == [] {
      assert a + b == b;
    } else {
      assert (a + b)[0] == a[0] && (a + b)[1..] == a[1..] + b;
      var next := FeedByte(d, e, a[0]);
      if next.Some? {
        FeedAppend(d, next.value, a[1..], b);
      }
    }
  }

  // ---------------------------------------------------------------- the two encoders agree

  /** Every line, counted from `n` bytes already pending, stays within the limit. */
  predicate LinesFit(d: Dims, n: nat, data: Bytes)
    decreases |data|
  {
    data == [] || (n + 1 <= LineLimit(d) && LinesFit(d, if data[0] == LF then 0 else n + 1, data[1..]))
  }

  /** The native encoder is the unbounded one restricted to streams whose lines fit. */
  lemma {:induction false} NativeIsBounded(d: Dims, e: Encoder, data: Bytes)
    requires FrameOk(d, e.frame)
    ensures FeedNative(d, e, data) == if LinesFit(d, |e.pending|, data) then Feed(d, e, data) else None
    decreases |data|
  {
    hide FrameOk, EncodeLine;
    if data != [] && |e.pending| + 1 <= LineLimit(d) {
      var next := FeedByte(d, e, data[0]);
      if next.Some? {
        NativeIsBounded(d, next.value, data[1..]);
      }
    }
  }

  lemma {:induction false} PendingIsRest(d: Dims, e: Encoder, data: Bytes)
    requires FrameOk(d, e.frame)
    ensures Feed(d, e, data).Some? ==> Feed(d, e, data).value.pending == Rest(e.pending, data)
    decreases |data|
  {
    hide FrameOk, EncodeLine;
    if data != [] {
      var next := FeedByte(d, e, data[0]);
      if next.Some? {
        PendingIsRest(d, next.value, data[1..]);
      }
    }
  }

  lemma {:induction false} RestFits(d: Dims, pending: Bytes, a: Bytes, b: Bytes)
    requires LinesFit(d, |pending|, a + b) && |pending| <= LineLimit(d)
    ensures |Rest(pending, a)| <= LineLimit(d) && LinesFit(d, |Rest(pending, a)|, b)
    decreases |a|
  {
    if a == [] {
      assert a + b == b;
    } else {
      assert (a + b)[0] == a[0] && (a + b)[1..] == a[1..] + b;
      RestFits(d, if a[0] == LF then [] else pending + [a[0]], a[1..], b);
    }
  }

  /** On streams whose lines all fit, the Python encoder does the same as the unbounded one for every chunking. */
  lemma {:induction false} PythonIsUnbounded(d: Dims, e: Encoder, chunks: seq<Bytes>)
    requires FrameOk(d, e.frame) && |e.pending| <= LineLimit(d) && LinesFit(d, |e.pending|, Concat(chunks))
    ensures PythonChunks(d, e, chunks) == Feed(d, e, Concat(chunks))
    decreases |chunks|
  {
    hide FrameOk, FeedByte;
    if chunks != [] {
      var tail := Concat(chunks[1..]);
      RestFits(d, e.pending, chunks[0], tail);
      FeedAppend(d, e, chunks[0], tail);
      PendingIsRest(d, e, chunks[0]);
      var next := Feed(d, e, chunks[0]);
      if next.Some? {
        PythonIsUnbounded(d, next.value, chunks[1..]);
      }
    }
  }

  /** Where every line fits, both encoders accept the same streams with the same records, however each is fed. */
  lemma EncodersAgree(d: Dims, native: seq<Bytes>, python: seq<Bytes>)
    requires Concat(native) == Concat(python) && LinesFit(d, 0, Concat(native))
    ensures NativeChunks(d, NewEncoder(d), native) == PythonChunks(d, NewEncoder(d), python)
  {
    ChunksDoNotMatter(d, NewEncoder(d), native);
    NativeIsBounded(d, NewEncoder(d), Concat(native));
    PythonIsUnbounded(d, NewEncoder(d), python);
  }

  /** Whatever chunking the Python encoder accepts, the unbounded encoder accepts with the same result. */
  lemma {:induction false} PythonAccepted(d: Dims, e: Encoder, chunks: seq<Bytes>)
    requires FrameOk(d, e.frame) && PythonChunks(d, e, chunks).Some?
    ensures Feed(d, e, Concat(chunks)) == PythonChunks(d, e, chunks)
    decreases |chunks|
  {
    hide FrameOk, FeedByte;
    if chunks != [] {
      FeedAppend(d, e, chunks[0], Concat(chunks[1..]));
      PythonAccepted(d, Feed(d, e, chunks[0]).value, chunks[1..]);
    }
  }

  // ---------------------------------------------------------------- decoding

  datatype Text = Text(bytes: Bytes, frame: Frame)

  /** Decode a whole record stream; `None` is an error or a truncated record. */
  function DecodeStream(d: Dims, f: Frame, s: Bytes): (r: Option<Text>)
    requires FrameOk(d, f)
    decreases |s|
  {
    if s == [] then Some(Text([], f))
    else
      match DecodeRecord(d, f, s)
      case More => None
      case Bad => None
      case Line(line, frame, length) =>
        var rest := DecodeStream(d, frame, s[length..]);
        if rest.None? then None else Some(Text(line + rest.value.bytes, rest.value.frame))
  }

  /** Decoding goes on from the frame where a decoded part ends. */
  lemma {:induction false} DecodeAppend(d: Dims, f: Frame, a: Bytes, b: Bytes)
    requires FrameOk(d, f) && DecodeStream(d, f, a).Some?
    ensures FrameOk(d, DecodeStream(d, f, a).value.frame)
    ensures var first := DecodeStream(d, f, a).value;
            var rest := DecodeStream(d, first.frame, b);
            DecodeStream(d, f, a + b) == if rest.None? then None else Some(Text(first.bytes + rest.value.bytes, rest.value.frame))
    decreases |a|
  {
    hide FrameOk, DecodeRecord;
    if a == [] {
      assert a + b == b;
      var rest := DecodeStream(d, f, b);
      if rest.Some? {
        assert [] + rest.value.bytes == rest.value.bytes;
      }
    } else {
      var r := DecodeRecord(d, f, a);
      RecordIsPrefix(d, f, a, b);
      assert (a + b)[r.length..] == a[r.length..] + b;
      DecodeAppend(d, r.frame, a[r.length..], b);
      var tail := DecodeStream(d, r.frame, a[r.length..]).value;
      var rest := DecodeStream(d, tail.frame, b);
      if rest.Some? {
        Regroup(r.line, tail.bytes, rest.value.bytes);
      }
    }
  }

  function Decode(d: Dims, s: Bytes): Option<Bytes> {
    var text := DecodeStream(d, FirstFrame(d), s);
    if text.None? || text.value.frame.rows != TotalRows(d) then None else Some(text.value.bytes)
  }

  // ---------------------------------------------------------------- there and back

  /** The lines completed by feeding `data` after `pending`. */
  function Lines(pending: Bytes, data: Bytes): seq<Bytes>
    decreases |data|
  {
    if data == [] then []
    else if data[0] == LF then [pending + [LF]] + Lines([], data[1..])
    else Lines(pending + [data[0]], data[1..])
  }

  /** Lines that are neither blank nor comments. */
  function RowCount(lines: seq<Bytes>): nat {
    if lines == [] then 0 else (if IsLiteral(lines[0]) then 0 else 1) + RowCount(lines[1..])
  }

  lemma ClosingCounts(d: Dims, e: Encoder, line: Bytes)
    requires FrameOk(d, e.frame) && CloseLine(d, e, line).Some?
    ensures CloseLine(d, e, line).value.frame.rows == e.frame.rows + if IsLiteral(line) then 0 else 1
  {
  }

  /** What is left open, and how many rows there are, can be read off the bytes fed. */
  lemma {:induction false} FeedNativeCounts(d: Dims, e: Encoder, data: Bytes)
    requires FrameOk(d, e.frame) && FeedNative(d, e, data).Some?
    ensures FeedNative(d, e, data).value.pending == Rest(e.pending, data)
    ensures FeedNative(d, e, data).value.frame.rows == e.frame.rows + RowCount(Lines(e.pending, data))
    decreases |data|
  {
    hide FrameOk, CloseLine, IsLiteral;
    if data != [] {
      var next := FeedByte(d, e, data[0]).value;
      FeedNativeCounts(d, next, data[1..]);
      if data[0] == LF {
        ClosingCounts(d, e, e.pending + [LF]);
        assert Lines(e.pending, data)[1..] == Lines([], data[1..]);
      }
    }
  }

  predicate LiteralsFit(d: Dims, lines: seq<Bytes>) {
    forall i :: 0 <= i < |lines| ==> IsLiteral(lines[i]) ==> |lines[i]| <= LineLimit(d)
  }

  lemma Regroup(a: Bytes, x: Bytes, y: Bytes)
    ensures a + x + y == a + (x + y)
  {
  }

  lemma {:induction false} LinesAndRest(pending: Bytes, data: Bytes)
    ensures Concat(Lines(pending, data)) + Rest(pending, data) == pending + data
    decreases |data|
  {
    if data != [] {
      Regroup(pending, [data[0]], data[1..]);
      assert [data[0]] + data[1..] == data;
      if data[0] == LF {
        LinesAndRest([], data[1..]);
        assert [] + data[1..] == data[1..];
        assert Lines(pending, data)[1..] == Lines([], data[1..]);
        Regroup(pending + [LF], Concat(Lines([], data[1..])), Rest([], data[1..]));
      } else {
        LinesAndRest(pending + [data[0]], data[1..]);
      }
    } else {
      assert pending + data == pending && Concat([]) + pending == pending;
    }
  }

  /** Cutting at line feeds: each line ends with its only one, and the rest has none. */
  lemma {:induction false} LinesAreCut(pending: Bytes, data: Bytes)
    requires forall i :: 0 <= i < |pending| ==> pending[i] != LF
    ensures forall k :: 0 <= k < |Lines(pending, data)| ==> IsOneLine(Lines(pending, data)[k])
    ensures forall i :: 0 <= i < |Rest(pending, data)| ==> Rest(pending, data)[i] != LF
    decreases |data|
  {
    if data != [] {
      LinesAreCut(if data[0] == LF then [] else pending + [data[0]], data[1..]);
    }
  }

  ghost predicate IsOneLine(line: Bytes) {
    line != [] && line[|line| - 1] == 10 && forall i :: 0 <= i < |line| - 1 ==> line[i] != 10
  }

  /** What was appended to the output decodes to the completed lines and to the encoder's frame. */
  ghost predicate Undoes(d: Dims, before: Encoder, after: Encoder, lines: seq<Bytes>, appended: Bytes)
    requires FrameOk(d, before.frame)
  {
    && after.output == before.output + appended
    && DecodeStream(d, before.frame, appended)
       == if LiteralsFit(d, lines) then Some(Text(Concat(lines), after.frame)) else None
  }

  lemma {:induction false} StreamRoundTrip(d: Dims, e: Encoder, data: Bytes) returns (appended: Bytes)
    requires FrameOk(d, e.frame) && Feed(d, e, data).Some?
    ensures Undoes(d, e, Feed(d, e, data).value, Lines(e.pending, data), appended)
    decreases |data|
  {
    if data == [] {
      appended := [];
    } else {
      var next := FeedByte(d, e, data[0]).value;
      var rest := StreamRoundTrip(d, next, data[1..]);
      if data[0] == LF {
        appended := LineRoundTrip(d, e, e.pending + [LF], Feed(d, e, data).value, Lines([], data[1..]), rest);
      } else {
        appended := rest;
      }
    }
  }

  lemma LineRoundTrip(d: Dims, e: Encoder, line: Bytes, after: Encoder, lines: seq<Bytes>, rest: Bytes)
    returns (appended: Bytes)
    requires FrameOk(d, e.frame) && CloseLine(d, e, line).Some? && line != [] && line[|line| - 1] == LF
    requires Undoes(d, CloseLine(d, e, line).value, after, lines, rest)
    ensures Undoes(d, e, after, [line] + lines, appended)
  {
    hide FrameOk, DecodeRecord, EncodeLine, IsLiteral;
    var x := EncodeLine(d, e.frame, line).value;
    appended := x.record + rest;
    assert e.output + x.record + rest == e.output + appended;
    RecordRoundTrip(d, e.frame, line, rest);
    RecordIsNonempty(d, e.frame, line);
    assert appended[|x.record|..] == rest;
    var all := [line] + lines;
    assert all[1..] == lines;
    assert LiteralsFit(d, all) <==> (IsLiteral(line) ==> |line| <= LineLimit(d)) && LiteralsFit(d, lines) by {
      assert all[0] == line && forall i :: 1 <= i < |all| ==> all[i] == lines[i - 1];
      if LiteralsFit(d, all) {
        assert forall i :: 0 <= i < |lines| ==> lines[i] == all[i + 1];
      }
    }
  }

  lemma RecordIsNonempty(d: Dims, f: Frame, line: Bytes)
    requires FrameOk(d, f) && EncodeLine(d, f, line).Some?
    ensures EncodeLine(d, f, line).value.record != []
  {
  }

  lemma {:induction false} FittingLines(d: Dims, pending: Bytes, data: Bytes)
    requires LinesFit(d, |pending|, data)
    ensures forall i :: 0 <= i < |Lines(pending, data)| ==> |Lines(pending, data)[i]| <= LineLimit(d)
    decreases |data|
  {
    if data != [] {
      FittingLines(d, if data[0] == LF then [] else pending + [data[0]], data[1..]);
    }
  }

  /** What the unbounded encoder accepts decodes to the same bytes exactly when its literal lines fit. */
  lemma UnboundedRoundTrip(d: Dims, data: Bytes)
    requires Finish(d, Feed(d, NewEncoder(d), data)).Some?
    ensures Decode(d, Finish(d, Feed(d, NewEncoder(d), data)).value)
            == if LiteralsFit(d, Lines([], data)) then Some(data) else None
  {
    var e := Feed(d, NewEncoder(d), data).value;
    var appended := StreamRoundTrip(d, NewEncoder(d), data);
    assert [] + appended == appended;
    PendingIsRest(d, NewEncoder(d), data);
    LinesAndRest([], data);
    assert Concat(Lines([], data)) + [] == Concat(Lines([], data)) && [] + data == data;
  }

  /** Native round trip: whatever the native encoder accepts, in any chunks, decodes to the same bytes. */
  lemma NativeRoundTrip(d: Dims, chunks: seq<Bytes>)
    requires Finish(d, NativeChunks(d, NewEncoder(d), chunks)).Some?
    ensures Decode(d, Finish(d, NativeChunks(d, NewEncoder(d), chunks)).value) == Some(Concat(chunks))
  {
    var data := Concat(chunks);
    ChunksDoNotMatter(d, NewEncoder(d), chunks);
    NativeIsBounded(d, NewEncoder(d), data);
    FittingLines(d, [], data);
    UnboundedRoundTrip(d, data);
  }

  /** Python round trip: an accepted stream decodes if and only if its comment and blank lines are within the limit. */
  lemma PythonRoundTrip(d: Dims, chunks: seq<Bytes>)
    requires Finish(d, PythonChunks(d, NewEncoder(d), chunks)).Some?
    ensures Decode(d, Finish(d, PythonChunks(d, NewEncoder(d), chunks)).value)
            == if LiteralsFit(d, Lines([], Concat(chunks))) then Some(Concat(chunks)) else None
  {
    PythonAccepted(d, NewEncoder(d), chunks);
    UnboundedRoundTrip(d, Concat(chunks));
  }

  /** The file of an encoder that has been fed `data` is there exactly for whole lines and whole frames, and decodes to `data`. */
  lemma FinishedDecodes(d: Dims, data: Bytes, e: Encoder)
    requires FeedNative(d, NewEncoder(d), data) == Some(e)
    ensures Finish(d, Some(e)).Some? <==> Rest([], data) == [] && RowCount(Lines([], data)) == TotalRows(d)
    ensures Finish(d, Some(e)).Some? ==> Decode(d, Finish(d, Some(e)).value) == Some(data)
  {
    hide FeedNative, Decode, Rest, Lines, RowCount, TotalRows;
    FeedNativeCounts(d, NewEncoder(d), data);
    ChunksDoNotMatter(d, NewEncoder(d), [data]);
    ConcatOne(data);
    if Finish(d, Some(e)).Some? {
      NativeRoundTrip(d, [data]);
    }
  }

  lemma ConcatOne(data: Bytes)
    ensures Concat([data]) == data
  {
    assert [data][1..] == [] && data + [] == data;
  }
}
