/** The pieces of Rust's standard library that the day-1 parser and solver lean on:
    `str::trim`, `str::lines`, `i16::from_str` (with the messages its errors display)
    and the decimal `to_string` of an unsigned integer. Strings are sequences of
    Unicode scalar values. */
module RustText {
  import opened Wrappers
  import opened MachineInts

  // ---------------------------------------------------------------- trim

  /** The Unicode White_Space property, which `char::is_whitespace` tests: the ASCII
      blanks and line breaks count, the digits and the letters of a rotation do not. */
  predicate IsWhitespace(c: char)
    ensures c in " \t\n\r\U{0B}\U{0C}" ==> IsWhitespace(c)
    ensures ('0' <= c <= '9') || c in "+-LR" ==> !IsWhitespace(c)
  {
    ('\t' <= c <= '\r') || c == ' ' || c == '\U{85}' || c == '\U{A0}' || c == '\U{1680}'
    || ('\U{2000}' <= c <= '\U{200A}') || c == '\U{2028}' || c == '\U{2029}'
    || c == '\U{202F}' || c == '\U{205F}' || c == '\U{3000}'
  }

  /** `str::trim_start`: the suffix left after dropping the leading whitespace. */
  function TrimStart(s: string): (r: string)
    ensures |r| <= |s| && r == s[|s| - |r|..]
    ensures forall i :: 0 <= i < |s| - |r| ==> IsWhitespace(s[i])
    ensures r == [] || !IsWhitespace(r[0])
  {
    if s != [] && IsWhitespace(s[0]) then TrimStart(s[1..]) else s
  }

  /** `str::trim_end`: the prefix left after dropping the trailing whitespace. */
  function TrimEnd(s: string): (r: string)
    ensures |r| <= |s| && r == s[..|r|]
    ensures forall i :: |r| <= i < |s| ==> IsWhitespace(s[i])
    ensures r == [] || !IsWhitespace(r[|r| - 1])
  {
    if s != [] && IsWhitespace(s[|s| - 1]) then TrimEnd(s[..|s| - 1]) else s
  }

  /** `str::trim`: both ends stripped; nothing but whitespace trims to the empty string. */
  function Trim(s: string): (r: string)
    ensures r == [] || (!IsWhitespace(r[0]) && !IsWhitespace(r[|r| - 1]))
    ensures r == [] <==> forall i :: 0 <= i < |s| ==> IsWhitespace(s[i])
  {
    TrimEnd(TrimStart(s))
  }

  // --------------------------------------------------------------- lines

  /** The index of the first line feed in `s`, if any. */
  function FindNewline(s: string): (r: Option<nat>)
    ensures r.Some? ==> r.value < |s| && s[r.value] == '\n'
                        && forall j :: 0 <= j < r.value ==> s[j] != '\n'
    ensures r.None? ==> forall j :: 0 <= j < |s| ==> s[j] != '\n'
  {
    if s == [] then None
    else if s[0] == '\n' then Some(0)
    else match FindNewline(s[1..])
      case None => None
      case Some(i) => Some(i + 1)
  }

  /** A line that ended with "\r\n" loses its carriage return as well. */
  function StripCarriageReturn(line: string): (r: string)
    ensures r == line || (line == r + ['\r'])
  {
    if line != [] && line[|line| - 1] == '\r' then line[..|line| - 1] else line
  }

  /** `str::lines`: split at "\n" or "\r\n"; the final line ending is optional, so a
      trailing line feed yields no empty last line, and a lone '\r' that ends the text
      without a line feed stays. */
  function Lines(s: string): (r: seq<string>)
    ensures forall i, j :: 0 <= i < |r| && 0 <= j < |r[i]| ==> r[i][j] != '\n'
    ensures s == [] <==> r == []
    decreases |s|
  {
    if s == [] then []
    else match FindNewline(s)
      case None => [s]
      case Some(i) => [StripCarriageReturn(s[..i])] + Lines(s[i + 1..])
  }

  /** Every line followed by a line feed: the text `Lines` splits back. */
  function JoinTerminated(ls: seq<string>): string {
    if ls == [] then [] else ls[0] + "\n" + JoinTerminated(ls[1..])
  }

  predicate PlainLine(l: string) {
    (forall j :: 0 <= j < |l| ==> l[j] != '\n') && (l == [] || l[|l| - 1] != '\r')
  }

  /** Splitting text whose lines each end in a line feed gives those lines back. */
  lemma {:induction false} LinesOfJoined(ls: seq<string>)
    requires forall i :: 0 <= i < |ls| ==> PlainLine(ls[i])
    ensures Lines(JoinTerminated(ls)) == ls
  {
    if ls != [] {
      var l := ls[0];
      var rest := JoinTerminated(ls[1..]);
      var s := l + "\n" + rest;
      assert s[|l|] == '\n';
      assert forall j :: 0 <= j < |l| ==> s[j] == l[j];
      assert FindNewline(s) == Some(|l|);
      assert s[..|l|] == l;
      assert s[|l| + 1..] == rest;
      LinesOfJoined(ls[1..]);
      assert [ls[0]] + ls[1..] == ls;
    }
  }

  // ------------------------------------------------------------- decimal

  predicate IsDigit(c: char) { '0' <= c <= '9' }

  predicate AllDigits(s: string) { forall i :: 0 <= i < |s| ==> IsDigit(s[i]) }

  function DigitValue(c: char): (r: nat)
    requires IsDigit(c)
    ensures r < 10
  {
    c as int - '0' as int
  }

  function DigitChar(d: nat): (r: char)
    requires d < 10
    ensures IsDigit(r) && DigitValue(r) == d
  {
    ('0' as int + d) as char
  }

  /** The number a string of digits spells, most significant digit first. */
  function DigitsValue(s: string): nat
    requires AllDigits(s)
  {
    if s == [] then 0 else 10 * DigitsValue(s[..|s| - 1]) + DigitValue(s[|s| - 1])
  }

  /** `to_string` of an unsigned integer: its decimal digits, without leading zeros. */
  function Decimal(n: nat): (r: string)
    ensures |r| >= 1 && AllDigits(r)
    ensures r[0] == '0' ==> n == 0
  {
    if n < 10 then [DigitChar(n)] else Decimal(n / 10) + [DigitChar(n % 10)]
  }

  /** Reading the digits back gives the number. */
  lemma {:induction false} DecimalValue(n: nat)
    ensures DigitsValue(Decimal(n)) == n
  {
    if n >= 10 {
      var s := Decimal(n);
      assert s[..|s| - 1] == Decimal(n / 10);
      DecimalValue(n / 10);
    }
  }

  // ------------------------------------------------------------ from_str

  /** `IntErrorKind`, restricted to the kinds `i16::from_str` can report. */
  datatype IntErrorKind = Empty | InvalidDigit | PosOverflow | NegOverflow

  /** The text `ParseIntError` displays for each kind; each kind has its own text. */
  function IntErrorMessage(k: IntErrorKind): (r: string)
    ensures r != []
  {
    match k
    case Empty => "cannot parse integer from empty string"
    case InvalidDigit => "invalid digit found in string"
    case PosOverflow => "number too large to fit in target type"
    case NegOverflow => "number too small to fit in target type"
  }

  /** Different kinds display different texts, so a message names its kind. */
  lemma IntErrorMessageDistinct(a: IntErrorKind, b: IntErrorKind)
    ensures a != b ==> IntErrorMessage(a) != IntErrorMessage(b)
  {
    if a != b {
      var ma, mb := IntErrorMessage(a), IntErrorMessage(b);
      assert ma[0] != mb[0] || ma[11] != mb[11];
    }
  }

  function Signed(negative: bool, n: nat): int {
    var m: int := n;
    if negative then -m else m
  }

  function OverflowKind(negative: bool): IntErrorKind {
    if negative then NegOverflow else PosOverflow
  }

  /** The digit loop of `from_str`: left to right, each character is checked to be a
      digit and then accumulated (subtracted when the sign was '-'); the first
      character that is not a digit, or the first step that leaves the i16 range, stops it. */
  function AccumulateDigits(s: string, negative: bool): (r: Result<int, IntErrorKind>)
    ensures r.Ok? <==> AllDigits(s) && IsI16(Signed(negative, DigitsValue(s)))
    ensures r.Ok? ==> r.value == Signed(negative, DigitsValue(s))
    ensures AllDigits(s) && !IsI16(Signed(negative, DigitsValue(s)))
            ==> r == Err(OverflowKind(negative))
    ensures r.Err? ==> r.error == InvalidDigit || r.error == OverflowKind(negative)
  {
    if s == [] then Ok(0)
    else
      var init := s[..|s| - 1];
      var c := s[|s| - 1];
      assert forall i :: 0 <= i < |init| ==> init[i] == s[i];
      match AccumulateDigits(init, negative)
      case Err(e) => Err(e)
      case Ok(acc) =>
        if !IsDigit(c) then Err(InvalidDigit)
        else
          var v := if negative then acc * 10 - DigitValue(c) else acc * 10 + DigitValue(c);
          if v > 0x7FFF then Err(PosOverflow)
          else if v < -0x8000 then Err(NegOverflow)
          else Ok(v)
  }

  /** `<i16 as FromStr>::from_str`, with the error already rendered as its message: an
      optional '+' or '-' sign, then one or more ASCII digits. */
  function ParseI16(s: string): (r: Result<i16, string>)
    ensures s == [] ==> r == Err(IntErrorMessage(Empty))
    ensures r.Ok? ==> |s| >= 1 && (s[0] == '-' || s[0] == '+' || IsDigit(s[0]))
  {
    if s == [] then Err(IntErrorMessage(Empty))
    else if (s[0] == '+' || s[0] == '-') && |s| == 1 then Err(IntErrorMessage(InvalidDigit))
    else
      var negative := s[0] == '-';
      var digits := if s[0] == '+' || s[0] == '-' then s[1..] else s;
      match AccumulateDigits(digits, negative)
      case Ok(v) => Ok(v)
      case Err(k) => Err(IntErrorMessage(k))
  }

  /** Bare digits parse to their value when it fits an i16, and are too large
      otherwise. */
  lemma ParseI16Unsigned(d: string)
    requires |d| >= 1 && AllDigits(d)
    ensures ParseI16(d) == if DigitsValue(d) <= 0x7FFF then Ok(DigitsValue(d)) else Err(IntErrorMessage(PosOverflow))
  {
    assert d[0] != '+' && d[0] != '-';
    assert Signed(false, DigitsValue(d)) == DigitsValue(d);
  }

  /** A '+' before the digits changes nothing. */
  lemma ParseI16Plus(d: string)
    requires |d| >= 1 && AllDigits(d)
    ensures ParseI16("+" + d) == ParseI16(d)
  {
    assert d[0] != '+' && d[0] != '-';
    assert ("+" + d)[0] == '+' && ("+" + d)[1..] == d;
  }

  /** After a '-' the digits parse to their negated value down to -32768, and are too
      small below. */
  lemma ParseI16Minus(d: string)
    requires |d| >= 1 && AllDigits(d)
    ensures ParseI16("-" + d) == if DigitsValue(d) <= 0x8000 then Ok(-(DigitsValue(d) as int)) else Err(IntErrorMessage(NegOverflow))
  {
    var s := "-" + d;
    assert s[0] == '-' && s[1..] == d && |s| > 1;
    AccumulateNegated(d);
  }

  /** The digit loop after a '-': the negated value down to -32768, too small below. */
  lemma AccumulateNegated(d: string)
    requires AllDigits(d)
    ensures AccumulateDigits(d, true)
            == if DigitsValue(d) <= 0x8000 then Ok(-(DigitsValue(d) as int)) else Err(NegOverflow)
  {
    assert Signed(true, DigitsValue(d)) == -(DigitsValue(d) as int);
  }

  /** The digits of any magnitude parse back, bare or after '+', when they fit an i16,
      and are too large otherwise; after '-' they parse down to -32768 and are too small
      below. */
  lemma ParseI16Decimal(n: nat)
    ensures ParseI16(Decimal(n)) == if n <= 0x7FFF then Ok(n) else Err(IntErrorMessage(PosOverflow))
    ensures ParseI16("+" + Decimal(n)) == ParseI16(Decimal(n))
    ensures ParseI16("-" + Decimal(n))
            == if n <= 0x8000 then Ok(-(n as int)) else Err(IntErrorMessage(NegOverflow))
  {
    DecimalValue(n);
    ParseI16Unsigned(Decimal(n));
    ParseI16Plus(Decimal(n));
    ParseI16Minus(Decimal(n));
  }

  /** The only i16 magnitude that does not fit after a '+' is one past the largest. */
  lemma ParseI16Overflow()
    ensures ParseI16(Decimal(0x8000)) == Err(IntErrorMessage(PosOverflow))
    ensures ParseI16("-" + Decimal(0x8000)) == Ok(-0x8000)
    ensures ParseI16("-" + Decimal(0x8001)) == Err(IntErrorMessage(NegOverflow))
  {
    ParseI16Decimal(0x8000);
    ParseI16Decimal(0x8001);
  }
}
