/** The submission-response classifier and the user-id extractor of the HTTP client
    (aoc-http-client, parser.rs). The HTML document is represented by the text of its
    first `<main>` element (`None` when it has none); regular-expression searches are
    written out as leftmost scans, and the duration parser is a parameter. */
module ResponseParser {
  import opened Wrappers
  import opened MachineInts
  import opened RustText

  // ---------------------------------------------------------- substrings

  predicate StartsWith(s: string, p: string) {
    |p| <= |s| && s[..|p|] == p
  }

  /** The first position at or after `i` where `p` occurs in `s`. */
  function FindFrom(s: string, p: string, i: nat): (r: Option<nat>)
    requires i <= |s|
    ensures r.Some? ==> i <= r.value <= |s| && StartsWith(s[r.value..], p)
                        && forall j :: i <= j < r.value ==> !StartsWith(s[j..], p)
    ensures r.None? ==> forall j :: i <= j <= |s| ==> !StartsWith(s[j..], p)
    decreases |s| - i
  {
    if StartsWith(s[i..], p) then Some(i)
    else if i == |s| then None
    else FindFrom(s, p, i + 1)
  }

  /** `str::contains` with a string pattern. */
  function Contains(s: string, p: string): (r: bool)
    ensures r <==> exists j :: 0 <= j <= |s| && StartsWith(s[j..], p)
  {
    FindFrom(s, p, 0).Some?
  }

  /** A string contains whatever is spliced into it. */
  lemma ContainsSpliced(a: string, p: string, b: string)
    ensures Contains(a + p + b, p)
  {
    var s := a + p + b;
    assert s[|a|..][..|p|] == p;
    assert StartsWith(s[|a|..], p);
  }

  /** The empty string contains no non-empty pattern. */
  lemma EmptyContainsNothing(p: string)
    requires p != []
    ensures !Contains([], p)
  {
  }

  // -------------------------------------------------------------- user id

  const UserIdOpening := "(anonymous user #"

  /** The length of the run of ASCII digits that starts at `i`. */
  function DigitRun(s: string, i: nat): (n: nat)
    requires i <= |s|
    ensures i + n <= |s|
    ensures forall k :: i <= k < i + n ==> IsDigit(s[k])
    ensures i + n == |s| || !IsDigit(s[i + n])
    decreases |s| - i
  {
    if i < |s| && IsDigit(s[i]) then 1 + DigitRun(s, i + 1) else 0
  }

  /** The pattern `\(anonymous user #(\d+)\)` matches at `i`. The `\d+` is greedy and
      what follows it is not a digit, so a match takes the whole digit run. */
  predicate UserIdAt(s: string, i: nat)
    requires i <= |s|
  {
    StartsWith(s[i..], UserIdOpening)
    && var j := i + |UserIdOpening|;
       var n := DigitRun(s, j);
       n >= 1 && j + n < |s| && s[j + n] == ')'
  }

  /** The leftmost match at or after `i`. */
  function FirstUserIdAt(s: string, i: nat): (r: Option<nat>)
    requires i <= |s|
    ensures r.Some? ==> i <= r.value <= |s| && UserIdAt(s, r.value)
                        && forall j :: i <= j < r.value ==> !UserIdAt(s, j)
    ensures r.None? ==> forall j :: i <= j <= |s| ==> !UserIdAt(s, j)
    decreases |s| - i
  {
    if UserIdAt(s, i) then Some(i)
    else if i == |s| then None
    else FirstUserIdAt(s, i + 1)
  }

  /** `extract_user_id`: the digits of the leftmost match, read as a u64; a number too
      large for a u64 gives `None`, as the failed `parse` does. */
  function ExtractUserId(html: string): (r: Option<u64>)
    ensures r.Some? ==> Contains(html, UserIdOpening)
  {
    var m := FirstUserIdAt(html, 0);
    if m.None? then None else CapturedUserId(html, m.value + |UserIdOpening|)
  }

  /** The digit run starting at `j`, read as a u64. */
  function CapturedUserId(html: string, j: nat): Option<u64>
    requires j <= |html|
  {
    U64Of(html[j..j + DigitRun(html, j)])
  }

  /** `str::parse::<u64>` of a run of digits: `None` when the number does not fit. */
  function U64Of(digits: string): (r: Option<u64>)
    requires AllDigits(digits)
    ensures r.Some? <==> DigitsValue(digits) < 0x1_0000_0000_0000_0000
    ensures r.Some? ==> r.value == DigitsValue(digits)
  {
    var v := DigitsValue(digits);
    if v < 0x1_0000_0000_0000_0000 then Some(v) else None
  }

  /** The digit run over a string of digits that is followed by a non-digit. */
  lemma {:induction false} DigitRunOf(s: string, i: nat, m: nat)
    requires i + m < |s|
    requires forall k :: i <= k < i + m ==> IsDigit(s[k])
    requires !IsDigit(s[i + m])
    ensures DigitRun(s, i) == m
    decreases m
  {
    if m > 0 {
      DigitRunOf(s, i + 1, m - 1);
    }
  }

  /** The pattern matches where the opening phrase is followed by digits and ')', and
      captures exactly those digits. */
  lemma {:induction false} UserIdMatch(s: string, i: nat, d: string)
    requires |d| >= 1 && AllDigits(d)
    requires i + |UserIdOpening| + |d| < |s|
    requires s[i..i + |UserIdOpening|] == UserIdOpening
    requires s[i + |UserIdOpening|..i + |UserIdOpening| + |d|] == d
    requires s[i + |UserIdOpening| + |d|] == ')'
    ensures UserIdAt(s, i)
    ensures DigitRun(s, i + |UserIdOpening|) == |d|
  {
    var j := i + |UserIdOpening|;
    assert s[i..][..|UserIdOpening|] == s[i..i + |UserIdOpening|];
    assert forall k :: j <= k < j + |d| ==> s[k] == d[k - j];
    DigitRunOf(s, j, |d|);
  }

  /** Text without an opening parenthesis before " (anonymous user #N) " yields N, and
      `None` when N does not fit a u64. */
  lemma UserIdFound(a: string, n: nat, b: string)
    requires forall k :: 0 <= k < |a| ==> a[k] != '('
    ensures ExtractUserId(a + " " + UserIdOpening + Decimal(n) + ") " + b)
            == if n < 0x1_0000_0000_0000_0000 then Some(n) else None
  {
    var d := Decimal(n);
    var s := a + " " + UserIdOpening + d + ") " + b;
    var i := |a| + 1;
    var j := i + |UserIdOpening|;
    assert s[i..j] == UserIdOpening;
    assert s[j..j + |d|] == d;
    assert s[j + |d|] == ')';
    UserIdMatch(s, i, d);
    forall k | 0 <= k < i
      ensures !UserIdAt(s, k)
    {
      assert s[k..][0] == s[k] != '(';
    }
    DecimalValue(n);
    FirstUserIdIs(s, i);
    ExtractAt(s, i, d);
  }

  lemma FirstUserIdIs(s: string, i: nat)
    requires i <= |s| && UserIdAt(s, i)
    requires forall k :: 0 <= k < i ==> !UserIdAt(s, k)
    ensures FirstUserIdAt(s, 0) == Some(i)
  {
  }

  lemma ExtractAt(s: string, i: nat, d: string)
    requires FirstUserIdAt(s, 0) == Some(i) && AllDigits(d)
    requires i + |UserIdOpening| + |d| <= |s|
    requires DigitRun(s, i + |UserIdOpening|) == |d|
    requires s[i + |UserIdOpening|..i + |UserIdOpening| + |d|] == d
    ensures ExtractUserId(s) == U64Of(d)
  {
    UserIdOfFirstMatch(s, i);
    CapturedUserIdIs(s, i + |UserIdOpening|, d);
  }

  lemma UserIdOfFirstMatch(s: string, i: nat)
    requires FirstUserIdAt(s, 0) == Some(i)
    ensures ExtractUserId(s) == CapturedUserId(s, i + |UserIdOpening|)
  {
  }

  lemma CapturedUserIdIs(s: string, j: nat, d: string)
    requires AllDigits(d) && j + |d| <= |s| && DigitRun(s, j) == |d| && s[j..j + |d|] == d
    ensures CapturedUserId(s, j) == U64Of(d)
  {
  }

  /** Without the opening phrase there is no user id. */
  lemma UserIdAbsent(html: string)
    requires !Contains(html, UserIdOpening)
    ensures ExtractUserId(html) == None
  {
  }

  // ------------------------------------------------------------ wait time

  /** A wait time, in nanoseconds as `std::time::Duration` counts them. */
  type Duration = nat

  const YouHave := "You have "
  const LeftToWait := " left to wait."

  /** " left to wait." begins at position `i` of `s`. */
  predicate PhraseAt(s: string, i: nat) {
    i <= |s| && StartsWith(s[i..], LeftToWait)
  }

  /** The lazy group of `You have (.+?) left to wait\.` starting at `start`: the
      shortest capture of at least `k` characters, none of them a line feed (which `.`
      does not match), that is followed by " left to wait.". */
  function LazyCapture(s: string, start: nat, k: nat): (r: Option<nat>)
    requires 1 <= k && start <= |s|
    ensures r.Some? ==> k <= r.value && start + r.value <= |s| && PhraseAt(s, start + r.value)
    ensures r.Some? ==> forall j :: start + k <= j < start + r.value ==> !PhraseAt(s, j)
    ensures r.Some? ==> forall m :: start + k - 1 <= m < start + r.value ==> s[m] != '\n'
    ensures r.None? ==> forall j :: start + k <= j <= |s| && PhraseAt(s, j)
                          ==> exists m :: start + k - 1 <= m < j && s[m] == '\n'
    decreases |s| + 1 - start - k
  {
    if start + k > |s| then None
    else if s[start + k - 1] == '\n' then None
    else if PhraseAt(s, start + k) then Some(k)
    else
      assert !PhraseAt(s, start + k);
      LazyCapture(s, start, k + 1)
  }

  /** The length of the capture when the pattern matches at `i`. */
  function WaitMatchAt(s: string, i: nat): (r: Option<nat>)
    requires i <= |s|
  {
    if StartsWith(s[i..], YouHave) then LazyCapture(s, i + |YouHave|, 1) else None
  }

  /** The capture of the leftmost match at or after `i`, as its start and length. */
  function FirstWaitMatch(s: string, i: nat): (r: Option<(nat, nat)>)
    requires i <= |s|
    ensures r.Some? ==> r.value.0 + r.value.1 <= |s|
    decreases |s| - i
  {
    var here := WaitMatchAt(s, i);
    if here.Some? then Some((i + |YouHave|, here.value))
    else if i == |s| then None
    else FirstWaitMatch(s, i + 1)
  }

  /** `extract_throttle_duration`: the captured text of the leftmost match, handed to
      the duration parser. */
  function ExtractThrottleDuration(text: string, parseDuration: string -> Option<Duration>)
    : (r: Option<Duration>)
    ensures FirstWaitMatch(text, 0).None? ==> r.None?
    ensures FirstWaitMatch(text, 0).Some? ==>
              var (c, n) := FirstWaitMatch(text, 0).value; r == parseDuration(text[c..c + n])
  {
    DurationOfCapture(text, FirstWaitMatch(text, 0), parseDuration)
  }

  /** The parsed text of a capture given as its start and length. */
  function DurationOfCapture(text: string, m: Option<(nat, nat)>,
                             parseDuration: string -> Option<Duration>): Option<Duration>
    requires m.Some? ==> m.value.0 + m.value.1 <= |text|
  {
    if m.None? then None else parseDuration(text[m.value.0..m.value.0 + m.value.1])
  }

  lemma DurationOfFirstMatch(text: string, parseDuration: string -> Option<Duration>)
    ensures ExtractThrottleDuration(text, parseDuration)
            == DurationOfCapture(text, FirstWaitMatch(text, 0), parseDuration)
  {
  }

  lemma {:induction false} NoPhraseNoMatch(s: string, i: nat)
    requires i <= |s|
    requires forall j :: i <= j <= |s| ==> !StartsWith(s[j..], YouHave)
    ensures FirstWaitMatch(s, i) == None
    decreases |s| - i
  {
    if i < |s| {
      NoPhraseNoMatch(s, i + 1);
    }
  }

  /** Without "You have " there is no wait time, whatever the duration parser does. */
  lemma NoWaitWithoutPhrase(text: string, parseDuration: string -> Option<Duration>)
    requires !Contains(text, YouHave)
    ensures ExtractThrottleDuration(text, parseDuration) == None
  {
    NoPhraseNoMatch(text, 0);
  }

  /** From any length up to `|d|`, the lazy capture stops exactly at the end of `d`. */
  lemma {:induction false} CaptureEndsAtPhrase(s: string, c: nat, d: string, k: nat)
    requires 1 <= k <= |d| && c + |d| + |LeftToWait| <= |s|
    requires s[c..c + |d|] == d && s[c + |d|..][..|LeftToWait|] == LeftToWait
    requires forall m :: 0 <= m < |d| ==> d[m] != '\n' && d[m] != 'l'
    requires d[|d| - 1] != ' '
    ensures LazyCapture(s, c, k) == Some(|d|)
    decreases |d| - k
  {
    assert s[c + k - 1] == d[k - 1];
    if k < |d| {
      assert s[c + k..][1] == s[c + k + 1];
      if k + 1 < |d| {
        assert s[c + k + 1] == d[k + 1];
      } else {
        assert s[c + k] == d[k];
      }
      assert !StartsWith(s[c + k..], LeftToWait);
      CaptureEndsAtPhrase(s, c, d, k + 1);
    } else {
      assert StartsWith(s[c + k..], LeftToWait);
    }
  }

  lemma {:induction false} NoMatchBefore(s: string, i: nat, target: nat)
    requires i <= target <= |s|
    requires forall j :: i <= j < target ==> !StartsWith(s[j..], YouHave)
    requires WaitMatchAt(s, target).Some?
    ensures FirstWaitMatch(s, i) == Some((target + |YouHave|, WaitMatchAt(s, target).value))
    decreases target - i
  {
    if i < target {
      NoMatchBefore(s, i + 1, target);
    }
  }

  /** "You have D left to wait." hands exactly D to the duration parser, when "You have "
      does not start anywhere before it and D is one line with no 'l' that does not end
      in a space (as "5m 30s" is). */
  lemma WaitTimeCaptured(pre: string, d: string, post: string,
                         parseDuration: string -> Option<Duration>)
    requires forall j :: 0 <= j < |pre| ==>
               !StartsWith((pre + YouHave + d + LeftToWait + post)[j..], YouHave)
    requires |d| >= 1 && d[|d| - 1] != ' '
    requires forall m :: 0 <= m < |d| ==> d[m] != '\n' && d[m] != 'l'
    ensures ExtractThrottleDuration(pre + YouHave + d + LeftToWait + post, parseDuration)
            == parseDuration(d)
  {
    var s := pre + YouHave + d + LeftToWait + post;
    var c := |pre| + |YouHave|;
    assert s[|pre|..][..|YouHave|] == YouHave;
    assert s[c..c + |d|] == d;
    assert s[c + |d|..][..|LeftToWait|] == LeftToWait;
    CaptureEndsAtPhrase(s, c, d, 1);
    assert WaitMatchAt(s, |pre|) == Some(|d|);
    NoMatchBefore(s, 0, |pre|);
    DurationOfMatch(s, c, d, parseDuration);
  }

  lemma DurationOfMatch(s: string, c: nat, d: string, parseDuration: string -> Option<Duration>)
    requires FirstWaitMatch(s, 0) == Some((c, |d|)) && c + |d| <= |s| && s[c..c + |d|] == d
    ensures ExtractThrottleDuration(s, parseDuration) == parseDuration(d)
  {
    DurationOfFirstMatch(s, parseDuration);
    DurationOfSlice(s, c, d, parseDuration);
  }

  lemma DurationOfSlice(s: string, c: nat, d: string, parseDuration: string -> Option<Duration>)
    requires c + |d| <= |s| && s[c..c + |d|] == d
    ensures DurationOfCapture(s, Some((c, |d|)), parseDuration) == parseDuration(d)
  {
  }

  // ------------------------------------------------------------- classify

  /** The outcome of submitting an answer. */
  datatype SubmissionResult =
    | Correct
    | Incorrect
    | AlreadyCompleted
    | Throttled(waitTime: Option<Duration>)

  /** The one client error this parser reports. */
  datatype AocError = HtmlParse

  const NotRightAnswer := "not the right answer"
  const AlreadyComplete := "already complete it"
  const TooRecently := "gave an answer too recently"

  /** `extract_main_text`: the document's first `<main>` text, or `HtmlParse`. */
  function ExtractMainText(main: Option<string>): (r: Result<string, AocError>)
    ensures r.Err? <==> main.None?
    ensures r.Ok? ==> r.value == main.value
  {
    if main.None? then Err(HtmlParse) else Ok(main.value)
  }

  /** `parse_submission_response`: the phrases are tried in a fixed order, the first
      one present decides, and a text with none of them counts as correct. */
  function ParseSubmissionResponse(main: Option<string>,
                                   parseDuration: string -> Option<Duration>)
    : (r: Result<SubmissionResult, AocError>)
    ensures main.None? <==> r == Err(HtmlParse)
    ensures main.Some? ==> r.Ok?
    ensures r == Ok(Incorrect) <==> main.Some? && Contains(main.value, NotRightAnswer)
    ensures r == Ok(AlreadyCompleted)
            <==> main.Some? && !Contains(main.value, NotRightAnswer)
                 && Contains(main.value, AlreadyComplete)
    ensures (r.Ok? && r.value.Throttled?)
            <==> main.Some? && !Contains(main.value, NotRightAnswer)
                 && !Contains(main.value, AlreadyComplete)
                 && Contains(main.value, TooRecently)
    ensures r == Ok(Correct)
            <==> main.Some? && !Contains(main.value, NotRightAnswer)
                 && !Contains(main.value, AlreadyComplete)
                 && !Contains(main.value, TooRecently)
    ensures r.Ok? && r.value.Throttled? ==>
              r.value.waitTime == ExtractThrottleDuration(main.value, parseDuration)
  {
    match ExtractMainText(main)
    case Err(e) => Err(e)
    case Ok(text) =>
      if Contains(text, NotRightAnswer) then Ok(Incorrect)
      else if Contains(text, AlreadyComplete) then Ok(AlreadyCompleted)
      else if Contains(text, TooRecently) then
        Ok(Throttled(ExtractThrottleDuration(text, parseDuration)))
      else Ok(Correct)
  }

  /** "not the right answer" anywhere makes the answer incorrect, whatever surrounds it. */
  lemma IncorrectWhateverElse(a: string, b: string, parseDuration: string -> Option<Duration>)
    ensures ParseSubmissionResponse(Some(a + NotRightAnswer + b), parseDuration) == Ok(Incorrect)
  {
    ContainsSpliced(a, NotRightAnswer, b);
  }

  /** "already complete it" anywhere, without the incorrect phrase, is already completed. */
  lemma AlreadyCompletedDetected(a: string, b: string,
                                 parseDuration: string -> Option<Duration>)
    requires !Contains(a + AlreadyComplete + b, NotRightAnswer)
    ensures ParseSubmissionResponse(Some(a + AlreadyComplete + b), parseDuration)
            == Ok(AlreadyCompleted)
  {
    ContainsSpliced(a, AlreadyComplete, b);
  }

  /** "gave an answer too recently" anywhere, without the two earlier phrases, is
      throttled, with the wait time taken from the same text. */
  lemma ThrottledDetected(a: string, b: string, parseDuration: string -> Option<Duration>)
    requires !Contains(a + TooRecently + b, NotRightAnswer)
    requires !Contains(a + TooRecently + b, AlreadyComplete)
    ensures ParseSubmissionResponse(Some(a + TooRecently + b), parseDuration)
            == Ok(Throttled(ExtractThrottleDuration(a + TooRecently + b, parseDuration)))
  {
    ContainsSpliced(a, TooRecently, b);
  }

  /** Throttled text without "You have " carries no wait time. */
  lemma ThrottledWithoutWaitTime(text: string, parseDuration: string -> Option<Duration>)
    requires !Contains(text, NotRightAnswer) && !Contains(text, AlreadyComplete)
    requires Contains(text, TooRecently) && !Contains(text, YouHave)
    ensures ParseSubmissionResponse(Some(text), parseDuration) == Ok(Throttled(None))
  {
    NoWaitWithoutPhrase(text, parseDuration);
  }

  /** An empty `<main>` is a correct answer; a document without one is an error. */
  lemma EmptyMainIsCorrect(parseDuration: string -> Option<Duration>)
    ensures ParseSubmissionResponse(Some([]), parseDuration) == Ok(Correct)
    ensures ParseSubmissionResponse(None, parseDuration) == Err(HtmlParse)
  {
    EmptyContainsNothing(NotRightAnswer);
    EmptyContainsNothing(AlreadyComplete);
    EmptyContainsNothing(TooRecently);
  }
}
