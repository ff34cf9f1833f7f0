/** Year 2025, day 1: a dial numbered 0..99 starts at 50 and is turned by a list of
    rotations ("L68" turns 68 clicks towards lower numbers, "R48" 48 towards higher).
    Part 1 counts the rotations that leave the dial at 0; part 2 counts every click at
    which the dial points at 0. Both answers come from one pass over the rotations,
    computed on first use and cached in the shared data (aoc-solutions, day_1.rs). */
module Day1 {
  import opened Wrappers
  import opened MachineInts
  import opened SolverErrors
  import opened RustText

  // ------------------------------------------------------------- parsing

  const NotLeftOrRight := "first character need to be 'L' or 'R'"
  const NegativeRotation := "Rotate value must be non negative"

  /** One line: 'L' or 'R' followed by an i16 that must not be negative; a turn to
      the left is the negated value. */
  function ParseRotation(line: string): (r: Result<i16, string>)
    ensures line == [] || (line[0] != 'L' && line[0] != 'R') <==> r == Err(NotLeftOrRight)
    ensures r.Ok? ==> -0x7FFF <= r.value <= 0x7FFF
    ensures r.Ok? && r.value < 0 ==> line[0] == 'L'
    ensures r.Ok? && r.value > 0 ==> line[0] == 'R'
  {
    if line == [] || (line[0] != 'L' && line[0] != 'R') then Err(NotLeftOrRight)
    else match ParseI16(line[1..])
      case Err(m) => Err(m)
      case Ok(v) =>
        if v < 0 then Err(NegativeRotation)
        else if line[0] == 'L' then Ok(-v)
        else Ok(v)
  }

  /** A rotation written the way the puzzle input writes it. */
  function FormatRotation(v: int): string {
    (if v < 0 then "L" else "R") + Decimal(if v < 0 then -v else v)
  }

  /** Every rotation whose size fits an i16 reads back from its text. */
  lemma FormatThenParse(v: int)
    requires -0x7FFF <= v <= 0x7FFF
    ensures ParseRotation(FormatRotation(v)) == Ok(v)
  {
    var n: nat := if v < 0 then -v else v;
    ParseI16Decimal(n);
    assert FormatRotation(v)[1..] == Decimal(n);
  }

  /** "L-5" parses as a number but is refused; "X5" and "" are refused before that. */
  lemma ParseRotationErrors()
    ensures ParseRotation("L-5") == Err(NegativeRotation)
    ensures ParseRotation("X5") == Err(NotLeftOrRight)
    ensures ParseRotation("") == Err(NotLeftOrRight)
    ensures ParseRotation("R") == Err(IntErrorMessage(Empty))
  {
    ParseI16Decimal(5);
    assert "L-5"[1..] == "-" + Decimal(5);
    assert "R"[1..] == [];
  }

  /** The message of a line that fails: its 1-based number, then the line's own error. */
  function LineError(lineNumber: nat, message: string): string {
    "(line " + Decimal(lineNumber) + ") " + message
  }

  /** The `try_fold` over the numbered lines, for any line parser: the values in line
      order, or the numbered error of the first line that fails. */
  function TryFoldLines<T>(parse: string -> Result<T, string>, lines: seq<string>): (r: Result<seq<T>, string>)
  {
    if lines == [] then Ok([])
    else match TryFoldLines(parse, lines[..|lines| - 1])
      case Err(m) => Err(m)
      case Ok(vs) =>
        match parse(lines[|lines| - 1])
        case Err(m) => Err(LineError(|lines|, m))
        case Ok(v) => Ok(vs + [v])
  }

  /** The fold of `parse` with the rotation parser. */
  function ParseLines(lines: seq<string>): Result<seq<i16>, string> {
    TryFoldLines(ParseRotation, lines)
  }

  /** The fold succeeds exactly when every line does, and then yields each line's value
      in line order. */
  lemma {:induction false} TryFoldLinesOk<T>(parse: string -> Result<T, string>, lines: seq<string>)
    ensures TryFoldLines(parse, lines).Ok?
            <==> forall i :: 0 <= i < |lines| ==> parse(lines[i]).Ok?
    ensures TryFoldLines(parse, lines).Ok? ==>
              |TryFoldLines(parse, lines).value| == |lines|
              && forall i :: 0 <= i < |lines| ==>
                   TryFoldLines(parse, lines).value[i] == parse(lines[i]).value
  {
    if lines != [] {
      var init := lines[..|lines| - 1];
      TryFoldLinesOk(parse, init);
      assert forall i :: 0 <= i < |init| ==> init[i] == lines[i];
    }
  }

  /** A failure names the first line that fails, numbered from 1. */
  lemma {:induction false} TryFoldLinesFirstError<T>(parse: string -> Result<T, string>, lines: seq<string>, k: nat)
    requires k < |lines| && parse(lines[k]).Err?
    requires forall i :: 0 <= i < k ==> parse(lines[i]).Ok?
    ensures TryFoldLines(parse, lines) == Err(LineError(k + 1, parse(lines[k]).error))
  {
    var init := lines[..|lines| - 1];
    assert forall i :: 0 <= i < |init| ==> init[i] == lines[i];
    if k == |lines| - 1 {
      TryFoldLinesOk(parse, init);
    } else {
      TryFoldLinesFirstError(parse, init, k);
    }
  }

  /** Parsing the rotations succeeds exactly when every line parses, and then yields
      each line's rotation in line order. */
  lemma ParseLinesOk(lines: seq<string>)
    ensures ParseLines(lines).Ok?
            <==> forall i :: 0 <= i < |lines| ==> ParseRotation(lines[i]).Ok?
    ensures ParseLines(lines).Ok? ==>
              |ParseLines(lines).value| == |lines|
              && forall i :: 0 <= i < |lines| ==>
                   ParseLines(lines).value[i] == ParseRotation(lines[i]).value
  {
    TryFoldLinesOk(ParseRotation, lines);
  }

  /** A failure to parse the rotations names the first line that fails. */
  lemma ParseLinesFirstError(lines: seq<string>, k: nat)
    requires k < |lines| && ParseRotation(lines[k]).Err?
    requires forall i :: 0 <= i < k ==> ParseRotation(lines[i]).Ok?
    ensures ParseLines(lines) == Err(LineError(k + 1, ParseRotation(lines[k]).error))
  {
    TryFoldLinesFirstError(ParseRotation, lines, k);
  }

  /** What `parse` produces from the whole input text. */
  function ParseSpec(input: string): Result<seq<i16>, ParseError> {
    match ParseLines(Lines(Trim(input)))
    case Ok(vs) => Ok(vs)
    case Err(m) => Err(InvalidFormat(m))
  }

  /** `parse`: trim the input, then parse its lines. */
  method ParseInput(input: string) returns (r: Result<seq<i16>, ParseError>)
    ensures r == ParseSpec(input)
  {
    var parsed := ParseAllLines(Lines(Trim(input)));
    if parsed.Err? {
      return Err(InvalidFormat(parsed.error));
    }
    return Ok(parsed.value);
  }

  /** The loop of `parse`: walk the lines and push each rotation, stopping at the first
      line that fails with that line's numbered message. */
  method ParseAllLines(lines: seq<string>) returns (r: Result<seq<i16>, string>)
    ensures r == ParseLines(lines)
  {
    var parsed: seq<i16> := [];
    for i := 0 to |lines|
      invariant ParseLines(lines[..i]) == Ok(parsed)
    {
      assert lines[..i + 1][..i] == lines[..i];
      var rotation := ParseRotation(lines[i]);
      if rotation.Err? {
        ParseLinesPrefixError(lines, i + 1);
        return Err(LineError(i + 1, rotation.error));
      }
      parsed := parsed + [rotation.value];
    }
    assert lines[..|lines|] == lines;
    r := Ok(parsed);
  }

  /** Once a prefix of the lines fails, the whole input fails with the same message. */
  lemma {:induction false} ParseLinesPrefixError(lines: seq<string>, n: nat)
    requires n <= |lines| && ParseLines(lines[..n]).Err?
    ensures ParseLines(lines) == ParseLines(lines[..n])
    decreases |lines| - n
  {
    if n < |lines| {
      assert lines[..n + 1][..n] == lines[..n];
      ParseLinesPrefixError(lines, n + 1);
    } else {
      assert lines[..n] == lines;
    }
  }

  /** `parse` followed by building the shared data, with no result cached yet. */
  method Parse(input: string) returns (r: Result<SharedData, ParseError>)
    ensures r.Err? <==> ParseSpec(input).Err?
    ensures r.Err? ==> r.error == ParseSpec(input).error
    ensures r.Ok? ==> ParseSpec(input) == Ok(r.value.parsedInput)
                      && fresh(r.value) && r.value.commonResult == None && r.value.Valid()
  {
    var parsed := ParseInput(input);
    if parsed.Err? {
      return Err(parsed.error);
    }
    var shared := new SharedData(parsed.value);
    return Ok(shared);
  }

  // ------------------------------------------------------------ the dial

  /** Rust's `/` on integers: the quotient rounded towards zero. */
  function TruncDiv(a: int, b: int): (q: int)
    requires b > 0
    ensures a >= 0 ==> q == a / b
    ensures a < 0 ==> q == -((-a) / b)
  {
    if a >= 0 then a / b else -((-a) / b)
  }

  /** Rust's `%` on integers: the remainder takes the sign of the dividend. */
  function TruncRem(a: int, b: int): (r: int)
    requires b > 0
    ensures -b < r < b
  {
    if a >= 0 then a % b else -((-a) % b)
  }

  /** Rust's `/` and `%` agree: the dividend is the quotient times the divisor plus
      the remainder. */
  lemma TruncDivRem(a: int, b: int)
    requires b > 0
    ensures a == b * TruncDiv(a, b) + TruncRem(a, b)
    ensures a >= 0 ==> TruncRem(a, b) >= 0
    ensures a <= 0 ==> TruncRem(a, b) <= 0
  {
  }

  function Abs(x: int): nat {
    if x < 0 then -x else x
  }

  /** The state the fold carries: the dial and both counters. */
  datatype Tally = Tally(dial: int, zeroCounts: nat, passZeroCounts: nat)

  const Start := Tally(50, 0, 0)

  /** One rotation, as the fold body applies it: add the rotation, then settle the
      sum. The sum is taken in unbounded arithmetic (see `StepAsWritten` for the i16
      sum of the source). The dial moves to the residue of the sum modulo 100. */
  function Step(t: Tally, rotation: int): (r: Tally)
    ensures r.dial == (t.dial + rotation) % 100
  {
    SettleDial(t, t.dial + rotation);
    Settle(t, t.dial + rotation)
  }

  /** The rest of the fold body once the sum is taken: count a pass through 0 when the
      dial left a non-zero position and the sum is 0 or below; count one more per whole
      hundred in the truncated quotient; reduce modulo 100 by Rust's `%` and lift a
      negative remainder by 100; count the stop at 0. The dial lands on the face, neither
      counter goes down, and the stop counter grows exactly when the dial lands on 0. */
  function Settle(t: Tally, sum: int): (r: Tally)
    ensures 0 <= r.dial < 100
    ensures t.zeroCounts <= r.zeroCounts && t.passZeroCounts <= r.passZeroCounts
    ensures r.zeroCounts == t.zeroCounts + 1 <==> r.dial == 0
  {
    var passes := t.passZeroCounts + (if sum <= 0 && t.dial != 0 then 1 else 0)
                  + Abs(TruncDiv(sum, 100));
    var rem := TruncRem(sum, 100);
    var dial := if rem < 0 then rem + 100 else rem;
    Tally(dial, t.zeroCounts + (if dial == 0 then 1 else 0), passes)
  }

  /** The fold over the rotations, from the dial at 50 and both counters at 0. The dial
      always stays on the face. */
  function Fold(rotations: seq<int>): (r: Tally)
    ensures 0 <= r.dial < 100
  {
    if rotations == [] then Start
    else Step(Fold(rotations[..|rotations| - 1]), rotations[|rotations| - 1])
  }

  function Sum(rotations: seq<int>): int {
    if rotations == [] then 0
    else Sum(rotations[..|rotations| - 1]) + rotations[|rotations| - 1]
  }

  /** The truncating remainder, lifted when negative, is the mathematical residue. */
  lemma SettleDial(t: Tally, pre: int)
    ensures Settle(t, pre).dial == pre % 100
  {
    if pre < 0 {
      var q := (-pre) / 100;
      var m := (-pre) % 100;
      assert -pre == 100 * q + m;
      if m == 0 {
        assert pre == 100 * (-q);
      } else {
        assert pre == 100 * (-q - 1) + (100 - m);
      }
    }
  }

  /** After any rotations the dial is where 50 plus their total lands on the dial. */
  lemma {:induction false} FoldDial(rotations: seq<int>)
    ensures Fold(rotations).dial == (50 + Sum(rotations)) % 100
    ensures 0 <= Fold(rotations).dial < 100
  {
    if rotations != [] {
      var init := rotations[..|rotations| - 1];
      var last := rotations[|rotations| - 1];
      FoldDial(init);
      ModAdd(50 + Sum(init), last);
    }
  }

  lemma ModAdd(a: int, b: int)
    ensures (a % 100 + b) % 100 == (a + b) % 100
  {
    var q := a / 100;
    assert a == 100 * q + a % 100;
    assert a + b == 100 * q + (a % 100 + b);
  }

  /** The number of rotations after which the dial rests at 0, read off the running
      totals alone. */
  function ZeroStops(rotations: seq<int>): nat {
    if rotations == [] then 0
    else ZeroStops(rotations[..|rotations| - 1])
         + (if (50 + Sum(rotations)) % 100 == 0 then 1 else 0)
  }

  /** Part 1's counter is the number of rotations that leave the dial at 0. */
  lemma {:induction false} FoldZeroCounts(rotations: seq<int>)
    ensures Fold(rotations).zeroCounts == ZeroStops(rotations)
  {
    if rotations != [] {
      var init := rotations[..|rotations| - 1];
      FoldZeroCounts(init);
      FoldDial(rotations);
    }
  }

  /** Click by click: how often a dial at `d`, turned `r` clicks (to the left when `r`
      is negative), points at 0 after a click. */
  function ClicksAtZero(d: int, r: int): nat
    decreases Abs(r)
  {
    if r == 0 then 0
    else if r > 0 then ClicksAtZero(d, r - 1) + (if (d + r) % 100 == 0 then 1 else 0)
    else ClicksAtZero(d, r + 1) + (if (d + r) % 100 == 0 then 1 else 0)
  }

  lemma DivStep(x: nat)
    ensures (x + 1) / 100 == x / 100 + (if (x + 1) % 100 == 0 then 1 else 0)
  {
    var q := x / 100;
    var m := x % 100;
    assert x == 100 * q + m;
    if m == 99 {
      assert x + 1 == 100 * (q + 1);
    } else {
      assert x + 1 == 100 * q + (m + 1);
    }
  }

  lemma ModNeg(x: int)
    ensures x % 100 == 0 <==> (-x) % 100 == 0
  {
    if x % 100 == 0 {
      assert x == 100 * (x / 100);
      assert -x == 100 * (-(x / 100));
    }
    if (-x) % 100 == 0 {
      assert -x == 100 * ((-x) / 100);
      assert x == 100 * (-((-x) / 100));
    }
  }

  /** Turning right by `r` clicks from 0..99 points at 0 once per hundred reached. */
  lemma {:induction false} ClicksRight(d: int, r: nat)
    requires 0 <= d < 100
    ensures ClicksAtZero(d, r) == (d + r) / 100
  {
    if r > 0 {
      ClicksRight(d, r - 1);
      DivStep(d + r - 1);
    }
  }

  /** Turning left by `m` clicks from 0..99 points at 0 once on reaching 0 (unless the
      dial starts there), then once per further hundred. */
  lemma {:induction false} ClicksLeft(d: int, m: nat)
    requires 0 <= d < 100
    ensures ClicksAtZero(d, -(m as int)) == if d == 0 then m / 100 else if m < d then 0 else 1 + (m - d) / 100
  {
    if m > 0 {
      ClicksLeft(d, m - 1);
      ModNeg(m - d);
      if d == 0 {
        DivStep(m - 1);
      } else if m > d {
        DivStep(m - d - 1);
      }
    }
  }

  /** What the fold body adds to part 2's counter for one rotation from a dial in 0..99
      is the number of clicks that point at 0. */
  lemma StepCountsClicks(d: int, r: int)
    requires 0 <= d < 100
    ensures (if d + r <= 0 && d != 0 then 1 else 0) + Abs(TruncDiv(d + r, 100))
            == ClicksAtZero(d, r)
  {
    if r >= 0 {
      ClicksRight(d, r);
    } else {
      ClicksLeft(d, -r);
    }
  }

  /** The clicks at 0 over all rotations, each turned from where the running total left
      the dial. */
  function ZeroClicks(rotations: seq<int>): nat {
    if rotations == [] then 0
    else
      var init := rotations[..|rotations| - 1];
      ZeroClicks(init) + ClicksAtZero((50 + Sum(init)) % 100, rotations[|rotations| - 1])
  }

  /** Part 2's counter is the number of clicks, over all rotations, at which the dial
      points at 0. */
  lemma {:induction false} FoldPassZeroCounts(rotations: seq<int>)
    ensures Fold(rotations).passZeroCounts == ZeroClicks(rotations)
  {
    if rotations != [] {
      var init := rotations[..|rotations| - 1];
      FoldPassZeroCounts(init);
      FoldDial(init);
      StepCountsClicks(Fold(init).dial, rotations[|rotations| - 1]);
    }
  }

  /** Neither counter ever decreases along the fold. */
  lemma {:induction false} FoldMonotone(rotations: seq<int>, i: nat)
    requires i <= |rotations|
    ensures Fold(rotations[..i]).zeroCounts <= Fold(rotations).zeroCounts
    ensures Fold(rotations[..i]).passZeroCounts <= Fold(rotations).passZeroCounts
    decreases |rotations| - i
  {
    if i == |rotations| {
      assert rotations[..i] == rotations;
    } else {
      FoldMonotone(rotations, i + 1);
      assert rotations[..i + 1][..i] == rotations[..i];
    }
  }

  lemma FoldAppend(rotations: seq<int>, r: int)
    ensures Fold(rotations + [r]) == Step(Fold(rotations), r)
  {
    assert (rotations + [r])[..|rotations|] == rotations;
  }

  /** One more rotation moves the fold's tally by one step. */
  lemma FoldStep(p: seq<int>, r: int, t: Tally, t': Tally)
    requires Fold(p) == t && Step(t, r) == t'
    ensures Fold(p + [r]) == t'
  {
    FoldAppend(p, r);
  }

  /** The first rotations of the puzzle's worked example. */
  lemma ExampleFirstThree()
    ensures Fold([-68, -30, 48]) == Tally(0, 1, 2)
  {
    assert Fold([]) == Start;
    FoldStep([], -68, Start, Tally(82, 0, 1));
    assert [] + [-68] == [-68];
    FoldStep([-68], -30, Tally(82, 0, 1), Tally(52, 0, 1));
    assert [-68] + [-30] == [-68, -30];
    FoldStep([-68, -30], 48, Tally(52, 0, 1), Tally(0, 1, 2));
    assert [-68, -30] + [48] == [-68, -30, 48];
  }

  /** Rotations four to six of the worked example, from wherever the first three left
      the tally. */
  lemma ExampleMiddle(p: seq<int>)
    requires Fold(p) == Tally(0, 1, 2)
    ensures Fold(p + [-5, 60, -55]) == Tally(0, 2, 4)
  {
    var p1 := p + [-5];
    var p2 := p1 + [60];
    FoldStep(p, -5, Tally(0, 1, 2), Tally(95, 1, 2));
    FoldStep(p1, 60, Tally(95, 1, 2), Tally(55, 1, 3));
    FoldStep(p2, -55, Tally(55, 1, 3), Tally(0, 2, 4));
    assert p2 + [-55] == p + [-5, 60, -55];
  }

  /** The last four rotations of the worked example. */
  lemma ExampleEnd(p: seq<int>)
    requires Fold(p) == Tally(0, 2, 4)
    ensures Fold(p + [-1, -99, 14, -82]) == Tally(32, 3, 6)
  {
    var p1 := p + [-1];
    var p2 := p1 + [-99];
    var p3 := p2 + [14];
    FoldStep(p, -1, Tally(0, 2, 4), Tally(99, 2, 4));
    FoldStep(p1, -99, Tally(99, 2, 4), Tally(0, 3, 5));
    FoldStep(p2, 14, Tally(0, 3, 5), Tally(14, 3, 5));
    FoldStep(p3, -82, Tally(14, 3, 5), Tally(32, 3, 6));
    assert p3 + [-82] == p + [-1, -99, 14, -82];
  }

  /** The puzzle's worked example: three stops at 0 and six clicks at 0. */
  lemma Example()
    ensures Fold([-68, -30, 48, -5, 60, -55, -1, -99, 14, -82]) == Tally(32, 3, 6)
  {
    var first := [-68, -30, 48];
    var middle := [-5, 60, -55];
    ExampleFirstThree();
    ExampleMiddle(first);
    ExampleEnd(first + middle);
    assert first + middle + [-1, -99, 14, -82] == [-68, -30, 48, -5, 60, -55, -1, -99, 14, -82];
  }

  // ------------------------------------------ the i16 sum, as the source writes it

  /** The wrap-around of an i16 addition (what a release build does on overflow). */
  function WrapI16(x: int): i16 {
    (x + 0x8000) % 0x1_0000 - 0x8000
  }

  /** The fold body with the dial and the rotation added in i16, as the source does: the
      dial moves to the residue of the wrapped sum, not of the sum. */
  function StepAsWritten(t: Tally, rotation: int): (r: Tally)
    ensures r.dial == WrapI16(t.dial + rotation) % 100
  {
    SettleDial(t, WrapI16(t.dial + rotation));
    Settle(t, WrapI16(t.dial + rotation))
  }

  /** While the sum fits in an i16 the two agree. */
  lemma StepAsWrittenAgrees(t: Tally, rotation: int)
    requires IsI16(t.dial + rotation)
    ensures StepAsWritten(t, rotation) == Step(t, rotation)
  {
    assert WrapI16(t.dial + rotation) == t.dial + rotation;
  }

  /** "R32767", which the parser accepts, overflows the i16 sum from the starting dial:
      a debug build panics, and a wrapped sum leaves the dial at 81 where the 32767
      clicks from 50 end at 17. */
  lemma LargeRotationOverflows()
    ensures !IsI16(Start.dial + 0x7FFF)
    ensures ParseRotation(FormatRotation(0x7FFF)) == Ok(0x7FFF)
    ensures StepAsWritten(Start, 0x7FFF).dial == 81
    ensures Step(Start, 0x7FFF).dial == 17 == (50 + 0x7FFF) % 100
  {
    FormatThenParse(0x7FFF);
    assert WrapI16(50 + 0x7FFF) == -32719;
    assert TruncDiv(-32719, 100) == -327;
    assert TruncRem(-32719, 100) == -19;
    assert TruncDiv(50 + 0x7FFF, 100) == 328;
    assert TruncRem(50 + 0x7FFF, 100) == 17;
  }

  // --------------------------------------------------------- shared data

  /** Both answers, as the u16 counters of the fold hold them. */
  datatype CommonResult = CommonResult(zeroCounts: u16, passZeroCounts: u16)

  /** The u16 counters do not overflow on these rotations. */
  predicate CountersFit(rotations: seq<int>) {
    Fold(rotations).zeroCounts < 0x1_0000 && Fold(rotations).passZeroCounts < 0x1_0000
  }

  function Expected(rotations: seq<int>): CommonResult
    requires CountersFit(rotations)
  {
    CommonResult(Fold(rotations).zeroCounts, Fold(rotations).passZeroCounts)
  }

  /** The parsed rotations and the cached answers of both parts. */
  class SharedData {
    const parsedInput: seq<i16>
    var commonResult: Option<CommonResult>

    /** A cached result is the one the fold gives. */
    ghost predicate Valid()
      reads this
    {
      commonResult.Some? ==>
        CountersFit(parsedInput) && commonResult.value == Expected(parsedInput)
    }

    constructor(parsed: seq<i16>)
      ensures parsedInput == parsed && commonResult == None && Valid()
    {
      parsedInput := parsed;
      commonResult := None;
    }

    /** `solve_once_for_both`: the cached result if there is one, otherwise the fold over
        the rotations, cached before it is returned. */
    method SolveOnceForBoth() returns (r: CommonResult)
      requires Valid() && CountersFit(parsedInput)
      modifies this
      ensures Valid() && commonResult == Some(r) && r == Expected(parsedInput)
      ensures old(commonResult).Some? ==> commonResult == old(commonResult)
    {
      if commonResult.Some? {
        return commonResult.value;
      }
      var dial: int := 50;
      var zeroCounts: u16 := 0;
      var passZeroCounts: u16 := 0;
      for i := 0 to |parsedInput|
        invariant Tally(dial, zeroCounts, passZeroCounts) == Fold(parsedInput[..i])
      {
        assert parsedInput[..i + 1][..i] == parsedInput[..i];
        FoldMonotone(parsedInput, i + 1);
        var oldDial := dial;
        dial := dial + parsedInput[i];
        if dial <= 0 && oldDial != 0 {
          passZeroCounts := passZeroCounts + 1;
        }
        passZeroCounts := passZeroCounts + Abs(TruncDiv(dial, 100));
        dial := TruncRem(dial, 100);
        if dial < 0 {
          dial := dial + 100;
        }
        if dial == 0 {
          zeroCounts := zeroCounts + 1;
        }
      }
      assert parsedInput[..|parsedInput|] == parsedInput;
      r := CommonResult(zeroCounts, passZeroCounts);
      commonResult := Some(r);
    }

    /** Part 1: the number of rotations that leave the dial at 0, in decimal. */
    method SolvePart1() returns (r: Result<string, SolveError>)
      requires Valid() && CountersFit(parsedInput)
      modifies this
      ensures Valid() && commonResult == Some(Expected(parsedInput))
      ensures r == Ok(Decimal(ZeroStops(parsedInput)))
    {
      var common := SolveOnceForBoth();
      FoldZeroCounts(parsedInput);
      return Ok(Decimal(common.zeroCounts));
    }

    /** Part 2: the number of clicks that point the dial at 0, in decimal. */
    method SolvePart2() returns (r: Result<string, SolveError>)
      requires Valid() && CountersFit(parsedInput)
      modifies this
      ensures Valid() && commonResult == Some(Expected(parsedInput))
      ensures r == Ok(Decimal(ZeroClicks(parsedInput)))
    {
      var common := SolveOnceForBoth();
      FoldPassZeroCounts(parsedInput);
      return Ok(Decimal(common.passZeroCounts));
    }
  }

  /** Both parts on the worked example: the second part reads the result the first
      one cached. */
  method SolveExample() returns (part1: Result<string, SolveError>,
                                 part2: Result<string, SolveError>)
    ensures part1 == Ok(Decimal(3)) && part2 == Ok(Decimal(6))
  {
    Example();
    FoldZeroCounts([-68, -30, 48, -5, 60, -55, -1, -99, 14, -82]);
    FoldPassZeroCounts([-68, -30, 48, -5, 60, -55, -1, -99, 14, -82]);
    var shared := new SharedData([-68, -30, 48, -5, 60, -55, -1, -99, 14, -82]);
    part1 := shared.SolvePart1();
    assert shared.commonResult == Some(CommonResult(3, 6));
    part2 := shared.SolvePart2();
  }
}
