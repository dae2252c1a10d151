/** Bytes, tokens and canonical three-decimal numbers of the field codec. */
module CodecText {
  import opened Wrappers

  type byte = b: int | 0 <= b < 256
  type Bytes = seq<byte>

  const LF: byte := 10
  const SPACE: byte := 32
  const PERCENT: byte := 37
  const MINUS: byte := 45
  const DOT: byte := 46
  const ZERO: byte := 48
  const TAG_DELTA: byte := 68
  const TAG_LITERAL: byte := 76

  const INT32_MIN := -0x8000_0000
  const INT32_MAX := 0x7fff_ffff
  const TWO_32 := 0x1_0000_0000

  predicate IsInt32(v: int) {
    INT32_MIN <= v <= INT32_MAX
  }

  predicate IsSpace(b: byte) {
    b == SPACE || 9 <= b <= 13
  }

  predicate IsDigit(b: byte) {
    ZERO <= b <= ZERO + 9
  }

  // ---------------------------------------------------------------- stripping and splitting

  function StripLeft(s: Bytes): (r: Bytes)
    ensures |r| <= |s| && r == s[|s| - |r|..] && (r != [] ==> !IsSpace(r[0]))
    ensures forall i :: 0 <= i < |s| - |r| ==> IsSpace(s[i])
  {
    if s == [] || !IsSpace(s[0]) then s else StripLeft(s[1..])
  }

  function StripRight(s: Bytes): (r: Bytes)
    ensures |r| <= |s| && r == s[..|r|] && (r != [] ==> !IsSpace(r[|r| - 1]))
    ensures forall i :: |r| <= i < |s| ==> IsSpace(s[i])
  {
    if s == [] || !IsSpace(s[|s| - 1]) then s else StripRight(s[..|s| - 1])
  }

  function Stripped(s: Bytes): Bytes {
    StripRight(StripLeft(s))
  }

  /** Length of the leading run without spaces. */
  function WordLength(s: Bytes): (n: nat)
    ensures n <= |s| && (forall i :: 0 <= i < n ==> !IsSpace(s[i])) && (n < |s| ==> IsSpace(s[n]))
  {
    if s == [] || IsSpace(s[0]) then 0 else 1 + WordLength(s[1..])
  }

  /** The maximal runs without spaces, in order. */
  function Tokens(s: Bytes): seq<Bytes> {
    if s == [] then []
    else if IsSpace(s[0]) then Tokens(s[1..])
    else
      var n := WordLength(s);
      [s[..n]] + Tokens(s[n..])
  }

  lemma TokensSkip(s: Bytes, n: nat)
    requires n <= |s| && forall i :: 0 <= i < n ==> IsSpace(s[i])
    ensures Tokens(s) == Tokens(s[n..])
  {
    if n > 0 {
      TokensSkip(s[1..], n - 1);
      assert s[1..][n - 1..] == s[n..];
    }
  }

  method SkipSpaces(value: Bytes, from: nat) returns (position: nat)
    requires from <= |value|
    ensures from <= position <= |value| && Tokens(value[from..]) == Tokens(value[position..])
    ensures position < |value| ==> !IsSpace(value[position])
  {
    position := from;
    while position < |value| && IsSpace(value[position])
      invariant from <= position <= |value|
      invariant forall i :: from <= i < position ==> IsSpace(value[i])
    {
      position := position + 1;
    }
    TokensSkip(value[from..], position - from);
    assert value[from..][position - from..] == value[position..];
  }

  method SkipWord(value: Bytes, begin: nat) returns (position: nat)
    requires begin < |value| && !IsSpace(value[begin])
    ensures begin < position <= |value|
    ensures Tokens(value[begin..]) == [value[begin..position]] + Tokens(value[position..])
  {
    position := begin;
    while position < |value| && !IsSpace(value[position])
      invariant begin <= position <= |value|
      invariant forall i :: begin <= i < position ==> !IsSpace(value[i])
    {
      position := position + 1;
    }
    WordLengthIs(value[begin..], position - begin);
    assert value[begin..][position - begin..] == value[position..];
    assert value[begin..][..position - begin] == value[begin..position];
  }

  /** The native scanner finds exactly those runs. */
  method ScanTokens(value: Bytes) returns (result: seq<Bytes>)
    ensures result == Tokens(value)
  {
    result := [];
    var position := 0;
    assert value[0..] == value;
    while position < |value|
      invariant 0 <= position <= |value|
      invariant result + Tokens(value[position..]) == Tokens(value)
    {
      var begin := SkipSpaces(value, position);
      if begin == |value| {
        position := begin;
        break;
      }
      position := SkipWord(value, begin);
      result := result + [value[begin..position]];
    }
    assert value[|value|..] == [];
  }

  lemma WordLengthIs(s: Bytes, n: nat)
    requires n <= |s| && (forall i :: 0 <= i < n ==> !IsSpace(s[i])) && (n < |s| ==> IsSpace(s[n]))
    ensures WordLength(s) == n
  {
  }

  // ---------------------------------------------------------------- decimal numbers

  /** Value of a run of digits. */
  function Decimal(s: Bytes): nat
    requires forall i :: 0 <= i < |s| ==> IsDigit(s[i])
  {
    if s == [] then 0
    else
      assert IsDigit(s[|s| - 1]);
      Decimal(s[..|s| - 1]) * 10 + (s[|s| - 1] - ZERO)
  }

  /** Decimal digits without leading zeros. */
  function Digits(n: nat): (s: Bytes)
    ensures s != [] && forall i :: 0 <= i < |s| ==> IsDigit(s[i])
  {
    if n < 10 then [ZERO + n] else Digits(n / 10) + [ZERO + n % 10]
  }

  lemma {:induction false} DecimalOfDigits(n: nat)
    ensures Decimal(Digits(n)) == n
  {
    if n >= 10 {
      DecimalOfDigits(n / 10);
      assert Digits(n)[..|Digits(n)| - 1] == Digits(n / 10);
    } else {
      assert Digits(n)[..0] == [];
    }
  }

  /** Three digits, padded with zeros. */
  function Thousandths(n: nat): (s: Bytes)
    requires n < 1000
    ensures |s| == 3 && forall i :: 0 <= i < 3 ==> IsDigit(s[i])
  {
    [ZERO + n / 100, ZERO + n / 10 % 10, ZERO + n % 10]
  }

  lemma DecimalOfThree(s: Bytes)
    requires |s| == 3 && forall i :: 0 <= i < 3 ==> IsDigit(s[i])
    ensures Decimal(s) == (s[0] - ZERO) * 100 + (s[1] - ZERO) * 10 + (s[2] - ZERO)
  {
    assert s[..2][..1] == s[..1] && s[..1][..0] == [];
    assert Decimal(s[..1]) == s[0] - ZERO;
    assert Decimal(s[..2]) == Decimal(s[..2][..1]) * 10 + (s[1] - ZERO);
  }

  /** Sign, whole kelvins, point and thousandths of a milli-kelvin value. */
  function Number(v: int): Bytes {
    var magnitude := if v < 0 then -v else v;
    (if v < 0 then [MINUS] else []) + Digits(magnitude / 1000) + [DOT] + Thousandths(magnitude % 1000)
  }

  function Spaces(n: nat): (s: Bytes)
    ensures |s| == n && forall i :: 0 <= i < n ==> s[i] == SPACE
  {
    seq(n, _ => SPACE)
  }

  /** The field as the solver prints it: right-aligned to seven columns and two spaces. */
  function NativeValue(v: int): Bytes {
    var text := Number(v);
    Spaces(if |text| < 7 then 7 - |text| else 0) + text + Spaces(2)
  }

  // ---------------------------------------------------------------- parsing a token

  function Unsigned(t: Bytes): Bytes {
    if t != [] && t[0] == MINUS then t[1..] else t
  }

  /** An optional minus, at least one digit, a point and exactly three digits. */
  predicate IsNumber(t: Bytes) {
    IsUnsigned(Unsigned(t))
  }

  predicate IsUnsigned(body: Bytes) {
    && |body| >= 5 && body[|body| - 4] == DOT
    && forall i :: 0 <= i < |body| && i != |body| - 4 ==> IsDigit(body[i])
  }

  function Whole(t: Bytes): (s: Bytes)
    requires IsNumber(t)
    ensures s != [] && forall i :: 0 <= i < |s| ==> IsDigit(s[i])
  {
    var body := Unsigned(t);
    body[..|body| - 4]
  }

  function Fraction(t: Bytes): (s: Bytes)
    requires IsNumber(t)
    ensures |s| == 3 && forall i :: 0 <= i < |s| ==> IsDigit(s[i])
  {
    var body := Unsigned(t);
    body[|body| - 3..]
  }

  function Magnitude(t: Bytes): nat
    requires IsNumber(t)
  {
    Decimal(Whole(t)) * 1000 + Decimal(Fraction(t))
  }

  /** The token's value in milli-kelvin when it is a number in 32-bit range. */
  function ParseValue(t: Bytes): Option<int> {
    if !IsNumber(t) then None
    else
      var v: int := if t[0] == MINUS then 0 - Magnitude(t) else Magnitude(t);
      if IsInt32(v) then Some(v) else None
  }

  newtype uint64 = x: int | 0 <= x < 0x1_0000_0000_0000_0000

  lemma {:induction false} DecimalGrows(s: Bytes, k: nat)
    requires k <= |s| && forall i :: 0 <= i < |s| ==> IsDigit(s[i])
    ensures Decimal(s[..k]) <= Decimal(s)
    decreases |s| - k
  {
    if k < |s| {
      DecimalGrows(s, k + 1);
      assert s[..k + 1][..k] == s[..k];
    } else {
      assert s[..k] == s;
    }
  }

  /** Length of the leading run of digits from `from`. */
  method ScanDigits(t: Bytes, from: nat) returns (position: nat)
    requires from <= |t|
    ensures from <= position <= |t| && (forall i :: from <= i < position ==> IsDigit(t[i]))
    ensures position < |t| ==> !IsDigit(t[position])
  {
    position := from;
    while position < |t| && IsDigit(t[position])
      invariant from <= position <= |t| && forall i :: from <= i < position ==> IsDigit(t[i])
    {
      position := position + 1;
    }
  }

  /** Accumulate digits; `None` as soon as the value would pass `limit`. */
  method ParseWhole(digits: Bytes, limit: uint64) returns (r: Option<uint64>)
    requires forall i :: 0 <= i < |digits| ==> IsDigit(digits[i])
    requires 9 <= limit <= 0x8000_0000
    ensures r.Some? ==> r.value as int == Decimal(digits) <= limit as int
    ensures r.None? ==> Decimal(digits) > limit as int
  {
    var whole: uint64 := 0;
    var index := 0;
    while index < |digits|
      invariant 0 <= index <= |digits|
      invariant whole as int == Decimal(digits[..index]) <= limit as int
    {
      var digit: uint64 := (digits[index] - ZERO) as uint64;
      assert digits[..index + 1][..index] == digits[..index];
      if whole > (limit - digit) / 10 {
        DecimalGrows(digits, index + 1);
        return None;
      }
      whole := whole * 10 + digit;
      index := index + 1;
    }
    assert digits[..|digits|] == digits;
    r := Some(whole);
  }

  /** A number splits at the first position that is not a digit. */
  lemma UnsignedShape(body: Bytes, d: nat)
    requires d <= |body| && (forall i :: 0 <= i < d ==> IsDigit(body[i])) && (d < |body| ==> !IsDigit(body[d]))
    ensures IsUnsigned(body) <==>
              && 0 < d && |body| == d + 4 && body[d] == DOT
              && IsDigit(body[d + 1]) && IsDigit(body[d + 2]) && IsDigit(body[d + 3])
  {
    if IsUnsigned(body) {
      assert !IsDigit(body[|body| - 4]);
      assert d < |body|;
    }
  }

  lemma NumberShape(t: Bytes, begin: nat, dot: nat)
    requires t != [] && begin == (if t[0] == MINUS then 1 else 0) && begin <= dot <= |t|
    requires forall i :: begin <= i < dot ==> IsDigit(t[i])
    requires dot < |t| ==> !IsDigit(t[dot])
    ensures IsNumber(t) <==>
              && begin < dot && |t| == dot + 4 && t[dot] == DOT
              && IsDigit(t[dot + 1]) && IsDigit(t[dot + 2]) && IsDigit(t[dot + 3])
    ensures IsNumber(t) ==> Whole(t) == t[begin..dot] && Fraction(t) == t[dot + 1..]
  {
    hide IsUnsigned;
    var body := Unsigned(t);
    assert body == t[begin..];
    UnsignedShape(body, dot - begin);
  }

  /**
   The native parser, on 64-bit unsigned arithmetic that never wraps, accepts the same
   tokens as the regular expression with a range check, with the same values.
   */
  method ParseToken(token: Bytes) returns (r: Option<int>)
    ensures r == ParseValue(token)
  {
    if token == [] {
      return None;
    }
    var negative := token[0] == MINUS;
    var wholeBegin := if negative then 1 else 0;
    var dot := ScanDigits(token, wholeBegin);
    NumberShape(token, wholeBegin, dot);
    if dot == wholeBegin || dot == |token| || token[dot] != DOT || |token| - dot - 1 != 3 {
      return None;
    }
    if !IsDigit(token[dot + 1]) || !IsDigit(token[dot + 2]) || !IsDigit(token[dot + 3]) {
      return None;
    }
    DecimalOfThree(Fraction(token));
    var limit: uint64 := 0x7fff_ffff + (if negative then 1 else 0);
    var whole := ParseWhole(token[wholeBegin..dot], limit);
    if whole.None? {
      return None;
    }
    var fraction: uint64 := ((token[dot + 1] - ZERO) * 100 + (token[dot + 2] - ZERO) * 10 + (token[dot + 3] - ZERO)) as uint64;
    var magnitude := whole.value * 1000 + fraction;
    if magnitude > limit {
      return None;
    }
    r := Some(if negative then 0 - magnitude as int else magnitude as int);
  }
}
