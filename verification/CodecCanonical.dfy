/** Which numeric lines the encoder accepts, and the one family of streams the Python pair loses. */
module CodecCanonical {
  import opened Wrappers
  import opened CodecText
  import opened CodecRecords
  import opened Codec

  // ---------------------------------------------------------------- printing and parsing

  lemma NumberHasNoSpace(v: int)
    ensures Number(v) != [] && (forall i :: 0 <= i < |Number(v)| ==> !IsSpace(Number(v)[i])) && Number(v)[0] != PERCENT
  {
  }

  /** Printing a value and parsing the text gives the value back. */
  lemma ParseOfNumber(v: int)
    requires IsInt32(v)
    ensures ParseValue(Number(v)) == Some(v)
  {
    var magnitude := if v < 0 then -v else v;
    var t, whole, fraction := Number(v), Digits(magnitude / 1000), Thousandths(magnitude % 1000);
    assert t[0] == MINUS <==> v < 0;
    assert Unsigned(t) == whole + [DOT] + fraction;
    assert Whole(t) == whole && Fraction(t) == fraction;
    DecimalOfDigits(magnitude / 1000);
    DecimalOfThree(fraction);
    ThousandthsValue(magnitude % 1000);
  }

  lemma ThousandthsValue(n: nat)
    requires n < 1000
    ensures Decimal(Thousandths(n)) == n
  {
    DecimalOfThree(Thousandths(n));
  }

  lemma {:induction false} NoLeadingZero(n: nat)
    ensures Digits(n)[0] == ZERO ==> n == 0 && |Digits(n)| == 1
  {
    if n >= 10 {
      NoLeadingZero(n / 10);
      assert Digits(n)[0] == Digits(n / 10)[0];
    }
  }

  /**
   How a value is printed: a canonical number without needless zeros, moved right to fill seven columns if it is
   shorter, and two spaces.
   */
  lemma PrintedField(v: int) returns (padding: nat, t: Bytes)
    ensures NativeValue(v) == Spaces(padding) + t + [32, 32]
    ensures padding + |t| == if |t| < 7 then 7 else |t|
    ensures IsNumber(t) && (t[0] == 45 <==> v < 0) && v == if v < 0 then 0 - Magnitude(t) else Magnitude(t)
    ensures Whole(t)[0] == 48 ==> |Whole(t)| == 1
  {
    padding, t := Padding(v), Number(v);
    assert Spaces(2) == [32, 32];
    var magnitude := if v < 0 then -v else v;
    var whole, fraction := Digits(magnitude / 1000), Thousandths(magnitude % 1000);
    assert Unsigned(t) == whole + [DOT] + fraction;
    assert Whole(t) == whole && Fraction(t) == fraction;
    DecimalOfDigits(magnitude / 1000);
    ThousandthsValue(magnitude % 1000);
    NoLeadingZero(magnitude / 1000);
  }

  // ---------------------------------------------------------------- tokens of a rendered row

  lemma TokensOfWord(word: Bytes, rest: Bytes)
    requires word != [] && (forall i :: 0 <= i < |word| ==> !IsSpace(word[i])) && (rest != [] ==> IsSpace(rest[0]))
    ensures Tokens(word + rest) == [word] + Tokens(rest)
  {
    var s := word + rest;
    WordLengthIs(s, |word|);
    assert s[..|word|] == word && s[|word|..] == rest;
  }

  lemma TokensAfterSpaces(n: nat, rest: Bytes)
    ensures Tokens(Spaces(n) + rest) == Tokens(rest)
  {
    TokensSkip(Spaces(n) + rest, n);
    assert (Spaces(n) + rest)[n..] == rest;
  }

  function Padding(v: int): nat {
    if |Number(v)| < 7 then 7 - |Number(v)| else 0
  }

  lemma FieldParts(v: int, tail: Bytes)
    ensures NativeValue(v) + tail == Spaces(Padding(v)) + (Number(v) + (Spaces(2) + tail))
  {
    hide Number, Spaces;
    Regroup(Spaces(Padding(v)), Number(v), Spaces(2));
    Regroup(Spaces(Padding(v)), Number(v) + Spaces(2), tail);
    Regroup(Number(v), Spaces(2), tail);
  }

  lemma TokensOfField(v: int, tail: Bytes)
    ensures Tokens(NativeValue(v) + tail) == [Number(v)] + Tokens(tail)
  {
    hide Number, NativeValue, Tokens;
    FieldParts(v, tail);
    NumberHasNoSpace(v);
    TokensAfterSpaces(Padding(v), Number(v) + (Spaces(2) + tail));
    TokensOfWord(Number(v), Spaces(2) + tail);
    TokensAfterSpaces(2, tail);
  }

  function Numbers(values: seq<int>): seq<Bytes> {
    if values == [] then [] else [Number(values[0])] + Numbers(values[1..])
  }

  lemma {:induction false} TokensOfRow(values: seq<int>)
    ensures Tokens(Render(values)) == Numbers(values)
  {
    hide Number, NativeValue;
    if values != [] {
      TokensOfField(values[0], Render(values[1..]));
      TokensOfRow(values[1..]);
    }
  }

  lemma {:induction false} ParseAllOfNumbers(values: seq<int>)
    requires AllInt32(values)
    ensures ParseAll(Numbers(values)) == Some(values)
  {
    hide Number, ParseValue;
    if values != [] {
      assert IsInt32(values[0]);
      ParseOfNumber(values[0]);
      ParseAllOfNumbers(values[1..]);
      assert Numbers(values)[0] == Number(values[0]) && Numbers(values)[1..] == Numbers(values[1..]);
      assert [values[0]] + values[1..] == values;
    }
  }

  // ---------------------------------------------------------------- stripping does not lose tokens

  lemma {:induction false} TokensDropLast(s: Bytes)
    requires s != [] && IsSpace(s[|s| - 1])
    ensures Tokens(s[..|s| - 1]) == Tokens(s)
    decreases |s|
  {
    var t := s[..|s| - 1];
    if |s| == 1 {
      assert s[1..] == [] == t;
    } else if IsSpace(s[0]) {
      assert t[1..] == s[1..][..|s[1..]| - 1];
      TokensDropLast(s[1..]);
    } else {
      var w := WordLength(s);
      WordLengthIs(t, w);
      hide WordLength;
      assert t[..w] == s[..w];
      assert t[w..] == s[w..][..|s[w..]| - 1];
      TokensDropLast(s[w..]);
    }
  }

  lemma {:induction false} TokensDropTrailing(s: Bytes, n: nat)
    requires n <= |s| && forall i :: n <= i < |s| ==> IsSpace(s[i])
    ensures Tokens(s[..n]) == Tokens(s)
    decreases |s|
  {
    hide Tokens;
    if n == |s| {
      assert s[..n] == s;
    } else {
      TokensDropLast(s);
      TokensDropTrailing(s[..|s| - 1], n);
      assert s[..|s| - 1][..n] == s[..n];
    }
  }

  lemma TokensOfStripped(s: Bytes)
    ensures Tokens(Stripped(s)) == Tokens(s)
  {
    var l := StripLeft(s);
    TokensSkip(s, |s| - |l|);
    TokensDropTrailing(l, |StripRight(l)|);
  }

  lemma {:induction false} StripLeftOfSpaces(n: nat, rest: Bytes)
    requires rest != [] && !IsSpace(rest[0])
    ensures StripLeft(Spaces(n) + rest) == rest
  {
    if n > 0 {
      assert (Spaces(n) + rest)[1..] == Spaces(n - 1) + rest;
      StripLeftOfSpaces(n - 1, rest);
    } else {
      assert Spaces(0) + rest == rest;
    }
  }

  lemma RowIsNotLiteral(values: seq<int>)
    requires values != []
    ensures !IsLiteral(Render(values) + [LF])
  {
    hide Number, NativeValue;
    var v, tail := values[0], Render(values[1..]) + [LF];
    NumberHasNoSpace(v);
    FieldParts(v, tail);
    Regroup(NativeValue(v), Render(values[1..]), [LF]);
    var rest := Number(v) + (Spaces(2) + tail);
    StripLeftOfSpaces(Padding(v), rest);
    assert rest[0] == Number(v)[0];
    var r := StripRight(rest);
    assert r != [] ==> r[0] == rest[0];
  }

  /** Rows of `nx` values in 32-bit range, as the solver prints them. */
  ghost predicate IsCanonicalRow(d: Dims, values: seq<int>, line: Bytes) {
    |values| == d.nx && AllInt32(values) && line == Render(values) + [LF]
  }

  lemma CanonicalRowParses(d: Dims, values: seq<int>, line: Bytes)
    requires IsCanonicalRow(d, values, line)
    ensures !IsLiteral(line) && ParseAll(Tokens(Stripped(line))) == Some(values)
  {
    hide Tokens, Stripped, ParseAll, Render, IsLiteral, AllInt32;
    RowIsNotLiteral(values);
    TokensOfStripped(line);
    TokensDropTrailing(line, |line| - 1);
    assert line[..|line| - 1] == Render(values);
    TokensOfRow(values);
    ParseAllOfNumbers(values);
  }

  /**
   A line that is not a literal is accepted if and only if it is a canonical row, there is
   room for it, and every cell moved by less than 32 bits; the next frame then holds its values.
   */
  lemma AcceptedRows(d: Dims, f: Frame, line: Bytes, values: seq<int>)
    requires FrameOk(d, f) && IsCanonicalRow(d, values, line)
    ensures EncodeLine(d, f, line).Some? <==> f.rows < TotalRows(d) && DeltasFit(f.previous, Offset(d, f), values)
    ensures EncodeLine(d, f, line).Some? ==> EncodeLine(d, f, line).value.frame == NextFrame(d, f, values)
  {
    CanonicalRowParses(d, values, line);
  }

  lemma RefusedRows(d: Dims, f: Frame, line: Bytes)
    requires FrameOk(d, f) && !IsLiteral(line) && forall values :: !IsCanonicalRow(d, values, line)
    ensures EncodeLine(d, f, line).None?
  {
    if EncodeLine(d, f, line).Some? {
      assert IsCanonicalRow(d, ParseAll(Tokens(Stripped(line))).value, line);
    }
  }

  // ---------------------------------------------------------------- the streams the Python pair loses

  /** A comment one byte longer than the limit. */
  function LongComment(d: Dims): (s: Bytes)
    ensures |s| == LineLimit(d) + 1 && s[0] == PERCENT && s[|s| - 1] == LF
    ensures forall i :: 0 <= i < |s| - 1 ==> s[i] != LF
  {
    seq(LineLimit(d), _ => PERCENT) + [LF]
  }

  lemma {:induction false} FeedRun(d: Dims, e: Encoder, run: Bytes)
    requires FrameOk(d, e.frame) && forall i :: 0 <= i < |run| ==> run[i] != LF
    ensures Feed(d, e, run) == Some(e.(pending := e.pending + run)) && Rest(e.pending, run) == e.pending + run
    decreases |run|
  {
    hide FrameOk;
    if run != [] {
      FeedRun(d, e.(pending := e.pending + [run[0]]), run[1..]);
      Regroup(e.pending, [run[0]], run[1..]);
      assert [run[0]] + run[1..] == run;
    } else {
      assert e.pending + run == e.pending;
    }
  }

  /** Feeding one line to an encoder with nothing pending closes that line. */
  lemma FeedLine(d: Dims, e: Encoder, line: Bytes)
    requires FrameOk(d, e.frame) && e.pending == [] && line != [] && line[|line| - 1] == LF
    requires forall i :: 0 <= i < |line| - 1 ==> line[i] != LF
    ensures Feed(d, e, line) == CloseLine(d, e, line)
  {
    hide FrameOk, EncodeLine;
    var run := line[..|line| - 1];
    assert line == run + [LF];
    FeedRun(d, e, run);
    FeedAppend(d, e, run, [LF]);
    var open := e.(pending := e.pending + run);
    assert open.pending + [LF] == line;
    assert Feed(d, open, [LF]) == FeedByte(d, open, LF);
  }

  lemma LongCommentIsLiteral(d: Dims)
    ensures IsLiteral(LongComment(d))
  {
    var s := LongComment(d);
    assert StripLeft(s) == s;
    var r := StripRight(s);
    assert r != [] ==> r[0] == s[0];
  }

  /**
   Whatever one chunk the Python encoder accepts, putting a long comment in front of it
   is accepted as well, and then the Python decoder rejects the file.
   */
  lemma LongCommentIsLost(d: Dims, body: Bytes)
    requires ValidDims(d) && Finish(d, PythonChunks(d, NewEncoder(d), [body])).Some?
    ensures Finish(d, PythonChunks(d, NewEncoder(d), [LongComment(d) + body])).Some?
    ensures Decode(d, Finish(d, PythonChunks(d, NewEncoder(d), [LongComment(d) + body])).value).None?
  {
    var e, comment := NewEncoder(d), LongComment(d);
    NxIsSmall(d);
    LongCommentIsLiteral(d);
    FeedLine(d, e, comment);
    var record := LiteralRecord(comment);
    FeedAppend(d, e, comment, body);
    var commented := Encoder([], e.frame, record);
    assert [] + record == record;
    OutputOnlyGrows(d, e, commented, body);
    RestAfterLine(comment, body);
    assert Feed(d, e, comment + body) == Feed(d, commented, body);
    OneChunk(d, e, body);
    OneChunk(d, e, comment + body);
    PythonRoundTrip(d, [comment + body]);
    LinesAfterLine(comment, body);
    assert Lines([], comment + body)[0] == comment;
  }

  lemma OneChunk(d: Dims, e: Encoder, data: Bytes)
    requires FrameOk(d, e.frame)
    ensures PythonChunks(d, e, [data]) == FeedPython(d, e, data) && Concat([data]) == data
  {
    var chunks := [data];
    assert chunks[1..] == [];
    assert Concat(chunks[1..]) == [] && data + [] == data;
    var next := FeedPython(d, e, data);
    assert next.Some? ==> PythonChunks(d, next.value, []) == next;
  }

  lemma NxIsSmall(d: Dims)
    requires ValidDims(d)
    ensures d.nx <= 400000
  {
    assert d.nx <= d.nx * d.ny;
  }

  /** The output already written does not influence what is accepted. */
  lemma {:induction false} OutputOnlyGrows(d: Dims, a: Encoder, b: Encoder, data: Bytes)
    requires FrameOk(d, a.frame) && a.frame == b.frame && a.pending == b.pending
    ensures Feed(d, a, data).Some? <==> Feed(d, b, data).Some?
    ensures Feed(d, a, data).Some? ==>
              Feed(d, a, data).value.pending == Feed(d, b, data).value.pending
              && Feed(d, a, data).value.frame == Feed(d, b, data).value.frame
    decreases |data|
  {
    hide FrameOk, EncodeLine;
    if data != [] {
      var x, y := FeedByte(d, a, data[0]), FeedByte(d, b, data[0]);
      if x.Some? {
        OutputOnlyGrows(d, x.value, y.value, data[1..]);
      }
    }
  }

  lemma {:induction false} RestAndLinesAfter(pending: Bytes, line: Bytes, body: Bytes)
    requires line != [] && line[|line| - 1] == LF && forall i :: 0 <= i < |line| - 1 ==> line[i] != LF
    ensures Rest(pending, line + body) == Rest([], body)
    ensures Lines(pending, line + body) == [pending + line] + Lines([], body)
    decreases |line|
  {
    assert (line + body)[1..] == line[1..] + body && (line + body)[0] == line[0];
    if |line| == 1 {
      assert line[1..] + body == body && line == [LF];
    } else {
      RestAndLinesAfter(pending + [line[0]], line[1..], body);
      Regroup(pending, [line[0]], line[1..]);
      assert [line[0]] + line[1..] == line;
    }
  }

  lemma RestAfterLine(line: Bytes, body: Bytes)
    requires line != [] && line[|line| - 1] == LF && forall i :: 0 <= i < |line| - 1 ==> line[i] != LF
    ensures Rest([], line + body) == Rest([], body)
  {
    RestAndLinesAfter([], line, body);
  }

  lemma LinesAfterLine(line: Bytes, body: Bytes)
    requires line != [] && line[|line| - 1] == LF && forall i :: 0 <= i < |line| - 1 ==> line[i] != LF
    ensures Lines([], line + body) == [line] + Lines([], body)
  {
    RestAndLinesAfter([], line, body);
    assert [] + line == line;
  }

  lemma NumberHasNoLf(v: int)
    ensures forall i :: 0 <= i < |NativeValue(v)| ==> NativeValue(v)[i] != LF
  {
    NumberHasNoSpace(v);
  }

  lemma RenderOne(v: int)
    ensures Render([v]) == NativeValue(v)
  {
    var values := [v];
    assert values[1..] == [];
    assert NativeValue(v) + [] == NativeValue(v);
  }

  lemma OneCellRow(d: Dims, line: Bytes)
    requires d == Dims(1, 1, 1) && line == Render([0]) + [LF]
    ensures IsCanonicalRow(d, [0], line)
  {
  }

  lemma RestOfNothing()
    ensures Rest([], []) == []
  {
  }

  /** A concrete stream: one cell, one frame, a long comment and a zero. */
  lemma PythonLosesAStream()
    ensures var d := Dims(1, 1, 1);
            var data := LongComment(d) + (Render([0]) + [LF]);
            var file := Finish(d, PythonChunks(d, NewEncoder(d), [data]));
            file.Some? && Decode(d, file.value).None?
  {
    hide NativeValue, Tokens, Stripped, LongComment, IsCanonicalRow, EncodeLine, Rest;
    var d := Dims(1, 1, 1);
    var e, line := NewEncoder(d), Render([0]) + [LF];
    RenderOne(0);
    NumberHasNoLf(0);
    OneCellRow(d, line);
    AcceptedRows(d, e.frame, line, [0]);
    FeedLine(d, e, line);
    RestAfterLine(line, []);
    assert line + [] == line && Rest([], []) == [] by { RestOfNothing(); }
    OneChunk(d, e, line);
    LongCommentIsLost(d, line);
  }
}
