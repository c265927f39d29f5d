/** `ats_extractor` (resumeparser.py): builds the extraction prompt, calls the
    generative backend, validates its answer and retries only a rate-limited
    call whose message advertises a short delay.

    The backend is a function from the call's index to its reply; whether a
    string is JSON that `json.loads` accepts is the parameter `validJson`; a
    sleep is recorded as the number of seconds waited. */
module Extractor {
  import opened PyStrings
  import opened CleanJson
  import opened Options

  /** What one call of `model.generate_content(full_prompt)` does. */
  datatype Reply =
    | Text(text: string)            // a response whose `.text` is `text`
    | RateLimited(message: string)  // raises `ResourceExhausted`; `str(e) == message`
    | OtherError(message: string)   // raises any other exception; `str(e) == message`

  /** What `ats_extractor` produces. Each error alternative stands for the JSON
      object it returns, with the constants below as its fields. */
  datatype Extraction =
    | Json(text: string)                 // the cleaned reply, which parses as JSON
    | ParseFailure(rawResponse: string)  // {"error": ParseFailureError, "raw_response": rawResponse}
    | RateLimitExceeded                  // {"error": RateLimitError, "message": RateLimitMessage, "suggestion": RateLimitSuggestion}
    | ProcessingError(message: string)   // {"error": ProcessingErrorError, "message": message}
    | UnknownError                       // {"error": UnknownErrorError, "message": UnknownErrorMessage}
    | Raised(message: string)            // a ValueError escapes to the caller; `str(e) == message`

  const ParseFailureError: string := "Failed to parse resume data"
  const RateLimitError: string := "Rate limit exceeded"
  const RateLimitMessage: string :=
    "API rate limit exceeded. You have reached the free tier quota limit (20 requests per minute). "
    + "Please wait a few minutes before trying again, or upgrade your API plan."
  const RateLimitSuggestion: string :=
    "Please wait a few minutes and try again, or check your API quota at https://ai.dev/usage?tab=rate-limit"
  const ProcessingErrorError: string := "Processing error"
  const ProcessingPrefix: string := "An error occurred while processing the resume: "
  const UnknownErrorError: string := "Unknown error"
  const UnknownErrorMessage: string := "Failed to process resume after multiple attempts"

  // ---------------------------------------------------------------------------
  // The prompt

  /** The lines of the fixed instruction block, character for character. */
  const PromptLines: seq<string> := [
    "    You are an AI bot designed to act as a professional for parsing resumes. You are given with resume and your job is to extract the following information from the resume:",
    "    1. full name",
    "    2. email id",
    "    3. github portfolio",
    "    4. linkedin id",
    "    5. employment details",
    "    6. technical skills",
    "    7. soft skills",
    "    8. contact number",
    "    9. address",
    "    10. Projects",
    "    IMPORTANT: Your response must be a valid JSON object with the following structure:",
    "    {",
    "        \"full_name\": \"extracted name\",",
    "        \"email_id\": \"extracted email\",",
    "        \"github_portfolio\": \"extracted github url\",",
    "        \"linkedin_id\": \"extracted linkedin url\",",
    "        \"employment_details\": [\"list of employment details\"],",
    "        \"technical_skills\": [\"list of technical skills\"],",
    "        \"soft_skills\": [\"list of soft skills\"],",
    "        \"contact_number\": [\"extracted contact number\"],",
    "        \"address\": [\"extracted address\"],",
    "        \"Projects\": [\"list of projects\"]",
    "    }",
    "    ",
    "    Only return the JSON object, no additional text or explanation."
  ]

  /** Each line followed by a line break. */
  function Lines(ls: seq<string>): string {
    if ls == [] then "" else ls[0] + "\n" + Lines(ls[1..])
  }

  /** The instruction block: the triple-quoted string opens with a line break
      and its last line holds the four spaces of indentation. */
  const PromptTemplate: string := "\n" + Lines(PromptLines) + "    "

  const ResumeHeader: string := "\n\nResume Content:\n"

  /** `f"{prompt}\n\nResume Content:\n{resume_data}"` */
  function FullPrompt(resume: string): string {
    PromptTemplate + ResumeHeader + resume
  }

  /** The resume text carried by a prompt: everything after the header. */
  function ResumeOf(prompt: string): string {
    if |prompt| < |PromptTemplate + ResumeHeader| then "" else prompt[|PromptTemplate + ResumeHeader|..]
  }

  /** The prompt carries the resume verbatim after the fixed template. */
  lemma PromptCarriesResume(resume: string)
    ensures StartsWith(FullPrompt(resume), PromptTemplate + ResumeHeader)
    ensures ResumeOf(FullPrompt(resume)) == resume
  {
    PrefixThenRest(PromptTemplate + ResumeHeader, resume);
  }

  // ---------------------------------------------------------------------------
  // The advertised retry delay

  /** One pattern character under `re.IGNORECASE`: ASCII case plus the extra
      equivalences Python's `re` applies to `i` (dotless and dotted I) and
      `s` (long s). */
  predicate SameIgnoringCase(c: char, p: char) {
    || c == p
    || ('a' <= p <= 'z' && c as int == p as int - 32)
    || (p == 'i' && (c as int == 0x130 || c as int == 0x131))
    || (p == 's' && c as int == 0x17F)
  }

  predicate MatchesIgnoringCase(s: string, pattern: string) {
    |s| == |pattern| && forall k :: 0 <= k < |s| ==> SameIgnoringCase(s[k], pattern[k])
  }

  /** A character of the group `[\d.]`. */
  predicate IsDelayChar(c: char) {
    '0' <= c <= '9' || c == '.'
  }

  /** The characters of `g` are all in `[\d.]`. */
  predicate IsDelayString(g: string) {
    forall k :: 0 <= k < |g| ==> IsDelayChar(g[k])
  }

  /** Length of the longest run of `[\d.]` at the start of `s`. */
  function DelayRunLength(s: string): (n: nat)
    ensures n <= |s|
    ensures forall k :: 0 <= k < n ==> IsDelayChar(s[k])
    ensures n < |s| ==> !IsDelayChar(s[n])
  {
    if s != [] && IsDelayChar(s[0]) then 1 + DelayRunLength(s[1..]) else 0
  }

  const RetryIn: string := "retry in "

  /** The group of `retry in ([\d.]+)s` when the match starts at `p`. Since
      `s` is not in `[\d.]`, the greedy run matches only at its full length. */
  function MatchAt(msg: string, p: nat): (r: Option<string>)
    requires p <= |msg|
    ensures r.Some? ==> r.value != [] && IsDelayString(r.value)
    ensures r.Some? ==>
              && p + |RetryIn| + |r.value| < |msg|
              && MatchesIgnoringCase(msg[p..p + |RetryIn|], RetryIn)
              && msg[p + |RetryIn|..p + |RetryIn| + |r.value|] == r.value
              && SameIgnoringCase(msg[p + |RetryIn| + |r.value|], 's')
  {
    if p + |RetryIn| <= |msg| && MatchesIgnoringCase(msg[p..p + |RetryIn|], RetryIn) then
      var start := p + |RetryIn|;
      var n := DelayRunLength(msg[start..]);
      if 0 < n && start + n < |msg| && SameIgnoringCase(msg[start + n], 's')
      then Some(msg[start..start + n])
      else None
    else None
  }

  /** `re.search(r'retry in ([\d.]+)s', msg[from..], re.IGNORECASE)`: the group
      of the leftmost match. */
  function SearchRetryIn(msg: string, from: nat): (r: Option<string>)
    requires from <= |msg|
    ensures r.Some? ==> r.value != [] && IsDelayString(r.value)
    ensures r.None? ==> forall p :: from <= p <= |msg| ==> MatchAt(msg, p).None?
    decreases |msg| - from
  {
    if MatchAt(msg, from).Some? then MatchAt(msg, from)
    else if from == |msg| then None
    else SearchRetryIn(msg, from + 1)
  }

  /** The search returns the group of the leftmost position where the
      pattern matches. */
  lemma {:induction false} SearchFindsLeftmost(msg: string, from: nat) returns (p: nat)
    requires from <= |msg| && SearchRetryIn(msg, from).Some?
    ensures from <= p <= |msg| && MatchAt(msg, p) == SearchRetryIn(msg, from)
    ensures forall q :: from <= q < p ==> MatchAt(msg, q).None?
    decreases |msg| - from
  {
    if MatchAt(msg, from).Some? {
      p := from;
    } else {
      p := SearchFindsLeftmost(msg, from + 1);
    }
  }

  /** Conversely, the search returns the group at the first position where
      the pattern matches. */
  lemma {:induction false} SearchFindsFirst(msg: string, from: nat, p: nat)
    requires from <= p <= |msg| && MatchAt(msg, p).Some?
    requires forall q :: from <= q < p ==> MatchAt(msg, q).None?
    ensures SearchRetryIn(msg, from) == MatchAt(msg, p)
    decreases p - from
  {
    if from < p {
      SearchFindsFirst(msg, from + 1, p);
    }
  }

  /** The greedy run stops at the first character outside `[\d.]`. */
  lemma {:induction false} DelayRunLengthIs(s: string, n: nat)
    requires n < |s| && IsDelayString(s[..n]) && !IsDelayChar(s[n])
    ensures DelayRunLength(s) == n
  {
    if n > 0 {
      assert s[0] == s[..n][0];
      var t := s[1..][..n - 1];
      forall k | 0 <= k < |t|
        ensures IsDelayChar(t[k])
      {
        assert t[k] == s[..n][k + 1];
      }
      DelayRunLengthIs(s[1..], n - 1);
    }
  }

  /** The pattern matches at `p` with group `g` when "retry in", in any case,
      starts there, `g` follows it, and an `s`, in any case, follows `g`. */
  lemma MatchAtGroup(msg: string, p: nat, g: string)
    requires p + |RetryIn| + |g| < |msg|
    requires MatchesIgnoringCase(msg[p..p + |RetryIn|], RetryIn)
    requires g != [] && IsDelayString(g) && msg[p + |RetryIn|..p + |RetryIn| + |g|] == g
    requires SameIgnoringCase(msg[p + |RetryIn| + |g|], 's')
    ensures MatchAt(msg, p) == Some(g)
  {
    var start := p + |RetryIn|;
    var rest := msg[start..];
    assert rest[..|g|] == g;
    assert rest[|g|] == msg[start + |g|];
    DelayRunLengthIs(rest, |g|);
  }

  /** No match starts inside a leading "Please ". */
  lemma NoMatchInPlease(msg: string)
    requires StartsWith(msg, "Please ")
    ensures forall q :: 0 <= q < 7 ==> MatchAt(msg, q).None?
  {
    forall q | 0 <= q < 7
      ensures MatchAt(msg, q).None?
    {
      assert msg[q] == msg[..7][q];
      if q + |RetryIn| <= |msg| {
        assert msg[q..q + |RetryIn|][0] == msg[q];
      }
    }
  }

  function CountPoints(g: string): nat {
    if g == [] then 0 else (if g[0] == '.' then 1 else 0) + CountPoints(g[1..])
  }

  lemma {:induction false} NoPoints(g: string)
    requires CountPoints(g) == 0
    ensures forall k :: 0 <= k < |g| ==> g[k] != '.'
  {
    if g != [] {
      NoPoints(g[1..]);
      forall k | 1 <= k < |g| ensures g[k] != '.' {
        assert g[k] == g[1..][k - 1];
      }
    }
  }

  /** Once a point is found, a string with at most one point has no other. */
  lemma {:induction false} OnePointAt(g: string, i: nat)
    requires CountPoints(g) <= 1 && i < |g| && g[i] == '.'
    ensures forall k :: i < k < |g| ==> g[k] != '.'
  {
    if i == 0 {
      NoPoints(g[1..]);
      forall k | 0 < k < |g| ensures g[k] != '.' {
        assert g[k] == g[1..][k - 1];
      }
    } else {
      assert g[i] == g[1..][i - 1];
      OnePointAt(g[1..], i - 1);
      forall k | i < k < |g| ensures g[k] != '.' {
        assert g[k] == g[1..][k - 1];
      }
    }
  }

  /** The strings over `[\d.]` that `float()` accepts: at least one digit and
      at most one decimal point. */
  predicate WellFormedDecimal(g: string) {
    CountPoints(g) <= 1 && CountPoints(g) < |g|
  }

  function DigitValue(c: char): nat
    requires '0' <= c <= '9'
  {
    c as int - '0' as int
  }

  /** The digits of `g`, which holds no point, read as a whole number. */
  function WholeValue(g: string): nat
    requires forall k :: 0 <= k < |g| ==> '0' <= g[k] <= '9'
  {
    if g == [] then 0 else 10 * WholeValue(g[..|g| - 1]) + DigitValue(g[|g| - 1])
  }

  /** The digits of `g`, which holds no point, read as the fraction `0.g`. */
  function FractionValue(g: string): (r: real)
    requires forall k :: 0 <= k < |g| ==> '0' <= g[k] <= '9'
    ensures 0.0 <= r <= 1.0
  {
    if g == [] then 0.0 else (DigitValue(g[0]) as real + FractionValue(g[1..])) / 10.0
  }

  /** Position of the first point, `|g|` when there is none. */
  function PointIndex(g: string): (i: nat)
    ensures i <= |g|
    ensures forall k :: 0 <= k < i ==> g[k] != '.'
    ensures i < |g| ==> g[i] == '.'
  {
    if g == [] || g[0] == '.' then 0 else 1 + PointIndex(g[1..])
  }

  /** The characters of `g` are all in `\d`. */
  predicate IsDigits(g: string) {
    forall k :: 0 <= k < |g| ==> '0' <= g[k] <= '9'
  }

  lemma {:induction false} CountPointsAppend(a: string, b: string)
    ensures CountPoints(a + b) == CountPoints(a) + CountPoints(b)
    decreases |a|
  {
    if a == [] {
      assert a + b == b;
    } else {
      assert (a + b)[0] == a[0] && (a + b)[1..] == a[1..] + b;
      CountPointsAppend(a[1..], b);
    }
  }

  lemma {:induction false} CountPointsOfDigits(g: string)
    requires IsDigits(g)
    ensures CountPoints(g) == 0
    decreases |g|
  {
    if g != [] {
      assert IsDigits(g[1..]) by {
        forall k | 0 <= k < |g[1..]| ensures '0' <= g[1..][k] <= '9' {
          assert g[1..][k] == g[k + 1];
        }
      }
      CountPointsOfDigits(g[1..]);
    }
  }

  /** `float(g)` for a group of digits alone is the whole number they spell. */
  lemma DecimalOfDigits(g: string)
    requires g != [] && IsDigits(g)
    ensures IsDelayString(g) && WellFormedDecimal(g)
    ensures DelayOfGroup(g) == Seconds(WholeValue(g) as real)
  {
    CountPointsOfDigits(g);
    assert PointIndex(g) == |g|;
    assert g[..|g|] == g;
  }

  /** `float(w + "." + f)` is the whole part `w` plus the fraction `0.f`,
      provided one of the two parts has a digit (`float(".")` fails). */
  lemma DecimalOfParts(w: string, f: string)
    requires IsDigits(w) && IsDigits(f) && |w| + |f| > 0
    ensures IsDelayString(w + "." + f) && WellFormedDecimal(w + "." + f)
    ensures DelayOfGroup(w + "." + f) == Seconds(WholeValue(w) as real + FractionValue(f))
  {
    var g := w + "." + f;
    CountPointsOfDigits(w);
    CountPointsOfDigits(f);
    CountPointsAppend(w, ".");
    CountPointsAppend(w + ".", f);
    assert CountPoints(".") == 1 by {
      assert "."[1..] == [];
    }
    assert g[|w|] == '.';
    forall k | 0 <= k < |w| ensures g[k] == w[k] { }
    assert PointIndex(g) == |w|;
    assert g[..|w|] == w && g[|w| + 1..] == f;
  }

  lemma {:induction false} CountPointsOfPoints(g: string)
    requires forall k :: 0 <= k < |g| ==> g[k] == '.'
    ensures CountPoints(g) == |g|
    decreases |g|
  {
    if g != [] {
      assert forall k :: 0 <= k < |g[1..]| ==> g[1..][k] == g[k + 1];
      CountPointsOfPoints(g[1..]);
    }
  }

  /** `float()` rejects a group with two or more points, and a group made of
      points alone. */
  lemma DecimalRejects(g: string)
    requires g != [] && IsDelayString(g)
    requires CountPoints(g) >= 2 || forall k :: 0 <= k < |g| ==> g[k] == '.'
    ensures DelayOfGroup(g) == Unparsable(g)
  {
    if CountPoints(g) < 2 {
      CountPointsOfPoints(g);
    }
  }

  /** `float(g)` for a well-formed `g`, as an exact decimal: the digits before
      the point are the whole part, those after it the fraction. */
  function DecimalValue(g: string): (r: real)
    requires IsDelayString(g) && CountPoints(g) <= 1
    ensures r >= 0.0
  {
    var i := PointIndex(g);
    var whole := g[..i];
    var fraction := if i < |g| then g[i + 1..] else [];
    assert forall k :: 0 <= k < |fraction| ==> '0' <= fraction[k] <= '9' by {
      if i < |g| {
        OnePointAt(g, i);
      }
    }
    WholeValue(whole) as real + FractionValue(fraction)
  }

  /** `retry_delay` after resumeparser.py:102-108: no delay, a number of
      seconds, or a group that `float()` rejects. */
  datatype Delay = NoDelay | Seconds(value: real) | Unparsable(group: string)

  /** What `float()` makes of the group, or the group it rejects. */
  function DelayOfGroup(g: string): (d: Delay)
    requires IsDelayString(g)
  {
    if WellFormedDecimal(g) then Seconds(DecimalValue(g)) else Unparsable(g)
  }

  const RetryDelayMarker: string := "retry_delay"
  const PleaseRetryMarker: string := "Please retry in"

  function RetryDelay(message: string): (d: Delay)
    ensures !Contains(message, RetryDelayMarker) && !Contains(message, PleaseRetryMarker) ==> d == NoDelay
    ensures d.Seconds? ==> d.value >= 0.0
    ensures d.Unparsable? ==> !WellFormedDecimal(d.group)
  {
    if Contains(message, RetryDelayMarker) || Contains(message, PleaseRetryMarker) then
      match SearchRetryIn(message, 0)
      case None => NoDelay
      case Some(g) => DelayOfGroup(g)
    else
      NoDelay
  }

  /** A message in which the pattern matches nowhere advertises no delay,
      whatever markers it holds. */
  lemma NoMatchNoDelay(msg: string)
    requires forall p :: 0 <= p <= |msg| ==> MatchAt(msg, p).None?
    ensures RetryDelay(msg) == NoDelay
  {
    if SearchRetryIn(msg, 0).Some? {
      var p := SearchFindsLeftmost(msg, 0);
    }
  }

  /** `str(e)` of the ValueError `float(g)` raises. */
  function FloatErrorMessage(g: string): string {
    "could not convert string to float: '" + g + "'"
  }

  // ---------------------------------------------------------------------------
  // The retry policy

  /** What one attempt decides: sleep this long and try again, or finish. */
  datatype Step = Retry(wait: real) | Finish(result: Extraction)

  /** The body of the attempt loop for the reply to attempt number `attempt`. */
  function Respond(reply: Reply, attempt: nat, maxRetries: int, validJson: string -> bool): (s: Step)
    ensures s.Retry? ==> reply.RateLimited? && attempt < maxRetries && 1.0 < s.wait < 11.0
    ensures s.Finish? ==> !s.result.UnknownError?
    ensures s.Finish? && s.result.Json? ==> validJson(s.result.text) && IsTrimmed(s.result.text)
  {
    match reply
    case Text(t) =>
      var data := Strip(t);
      var cleaned := CleanJsonResponse(data);
      Finish(if validJson(cleaned) then Json(cleaned) else ParseFailure(data))
    case RateLimited(m) =>
      (match RetryDelay(m)
       case Unparsable(g) => Finish(Raised(FloatErrorMessage(g)))
       case NoDelay => Finish(RateLimitExceeded)
       case Seconds(d) =>
         if d != 0.0 && d < 10.0 && attempt < maxRetries then Retry(d + 1.0) else Finish(RateLimitExceeded))
    case OtherError(m) =>
      Finish(ProcessingError(ProcessingPrefix + m))
  }

  /** The retry rule of resumeparser.py:112-113: an attempt retries exactly
      when the backend is rate limited, the message advertises a delay `d`
      with `d != 0` and `d < 10`, and attempts remain; it then waits `d + 1`. */
  lemma RetryRule(reply: Reply, attempt: nat, maxRetries: int, validJson: string -> bool)
    ensures var s := Respond(reply, attempt, maxRetries, validJson);
            && (s.Retry? <==>
                  && reply.RateLimited?
                  && RetryDelay(reply.message).Seconds?
                  && RetryDelay(reply.message).value != 0.0
                  && RetryDelay(reply.message).value < 10.0
                  && attempt < maxRetries)
            && (s.Retry? ==> s.wait == RetryDelay(reply.message).value + 1.0)
  ensures var s := Respond(reply, attempt, maxRetries, validJson);
          var d := if reply.RateLimited? then RetryDelay(reply.message) else NoDelay;
          && (reply.RateLimited? && !d.Unparsable? && !s.Retry? ==> s == Finish(RateLimitExceeded))
          && (reply.RateLimited? && d.Unparsable? ==> s == Finish(Raised(FloatErrorMessage(d.group))))
  {
  }

  /** A text reply ends the call: with the cleaned text when it parses, and
      otherwise with the parse-failure object carrying the stripped but
      uncleaned text. */
  lemma TextReplyEndsCall(t: string, attempt: nat, maxRetries: int, validJson: string -> bool)
    ensures var s := Respond(Text(t), attempt, maxRetries, validJson);
            var cleaned := CleanJsonResponse(Strip(t));
            && (validJson(cleaned) ==> s == Finish(Json(cleaned)))
            && (!validJson(cleaned) ==> s == Finish(ParseFailure(Strip(t))))
  {
  }

  /** Any other exception ends the call with the processing-error object. */
  lemma OtherErrorEndsCall(m: string, attempt: nat, maxRetries: int, validJson: string -> bool)
    ensures Respond(OtherError(m), attempt, maxRetries, validJson) == Finish(ProcessingError(ProcessingPrefix + m))
  {
  }

  /** The delay of a message is the group of the leftmost match, once the
      search is allowed to run. */
  lemma DelayOfLeftmostMatch(msg: string, p: nat, g: string)
    requires Contains(msg, RetryDelayMarker) || Contains(msg, PleaseRetryMarker)
    requires p <= |msg| && MatchAt(msg, p) == Some(g)
    requires forall q :: 0 <= q < p ==> MatchAt(msg, q).None?
    ensures RetryDelay(msg) == DelayOfGroup(g)
  {
    SearchFindsFirst(msg, 0, p);
  }

  const PleaseRetryIn: string := "Please retry in "

  /** A message opening with "Please retry in ", a group over `[\d.]` and an
      `s` advertises what `float()` makes of the group. */
  lemma DelayOfPleaseRetry(g: string, rest: string)
    requires g != [] && IsDelayString(g)
    ensures RetryDelay(PleaseRetryIn + g + "s" + rest) == DelayOfGroup(g)
  {
    var m := PleaseRetryIn + g + "s" + rest;
    assert m[..|PleaseRetryIn|] == PleaseRetryIn;
    assert StartsWith(m, PleaseRetryMarker) by {
      assert m[..|PleaseRetryMarker|] == PleaseRetryIn[..|PleaseRetryMarker|];
    }
    assert StartsWith(m, "Please ") by {
      assert m[..7] == PleaseRetryIn[..7];
    }
    NoMatchInPlease(m);
    assert m[7..16] == PleaseRetryIn[7..16] == RetryIn;
    assert m[16..16 + |g|] == g && m[16 + |g|] == 's';
    MatchAtGroup(m, 7, g);
    DelayOfLeftmostMatch(m, 7, g);
  }

  /** A message opening with "retry in" in any case, a group and an `s`
      advertises what `float()` makes of the group, provided `retry_delay`
      appears after it. */
  lemma DelayOfAnyCase(head: string, g: string, rest: string)
    requires MatchesIgnoringCase(head, RetryIn) && g != [] && IsDelayString(g)
    requires Contains(rest, RetryDelayMarker)
    ensures RetryDelay(head + g + "s" + rest) == DelayOfGroup(g)
  {
    var front := head + g + "s";
    ContainsAfter(front, rest, RetryDelayMarker);
    MatchAtFront(head, g, rest);
    DelayOfLeftmostMatch(front + rest, 0, g);
  }

  lemma MatchAtFront(head: string, g: string, rest: string)
    requires MatchesIgnoringCase(head, RetryIn) && g != [] && IsDelayString(g)
    ensures MatchAt(head + g + "s" + rest, 0) == Some(g)
  {
    var front := head + g + "s";
    var m := front + rest;
    assert m[..|RetryIn|] == head by { assert front[..|RetryIn|] == head; }
    assert m[|RetryIn|..|RetryIn| + |g|] == g by { assert front[|RetryIn|..|RetryIn| + |g|] == g; }
    assert m[|RetryIn| + |g|] == front[|RetryIn| + |g|] == 's';
    MatchAtGroup(m, 0, g);
  }

  /** `float()` of three groups: 3.5, 0, and one it rejects. */
  lemma DecimalScenarios()
    ensures DelayOfGroup("3.5") == Seconds(3.5)
    ensures DelayOfGroup("0") == Seconds(0.0)
    ensures DelayOfGroup("1.2.3") == Unparsable("1.2.3")
  {
    assert WellFormedDecimal("3.5") && PointIndex("3.5") == 1;
    assert "3.5"[..1] == "3" && "3.5"[2..] == "5";
    assert WholeValue("3") == 3 && FractionValue("5") == 0.5;
    assert WellFormedDecimal("0") && PointIndex("0") == 1 && "0"[..1] == "0";
    assert CountPoints("1.2.3") == 2;
  }

  /** "Please retry in 3.5s." advertises 3.5 seconds. */
  lemma DelayOfExample(g: string, rest: string)
    requires g == "3.5" && rest == "."
    ensures RetryDelay(PleaseRetryIn + g + "s" + rest) == Seconds(3.5)
  {
    DecimalScenarios();
    DelayOfPleaseRetry(g, rest);
  }

  /** A delay of zero is read as zero seconds: "Please retry in 0s". */
  lemma DelayZeroExample(g: string, rest: string)
    requires g == "0" && rest == ""
    ensures RetryDelay(PleaseRetryIn + g + "s" + rest) == Seconds(0.0)
  {
    DecimalScenarios();
    DelayOfPleaseRetry(g, rest);
  }

  /** "Please retry in 1.2.3s" carries a group that `float()` rejects. */
  lemma DelayMalformedExample(g: string, rest: string)
    requires g == "1.2.3" && rest == ""
    ensures RetryDelay(PleaseRetryIn + g + "s" + rest) == Unparsable("1.2.3")
  {
    DecimalScenarios();
    DelayOfPleaseRetry(g, rest);
  }

  /** The markers are case-sensitive: a lower-case "please retry in" lets
      nothing through. */
  lemma DelayGateExample(m: string)
    requires m == "please retry in 3s"
    ensures RetryDelay(m) == NoDelay
  {
    forall k | 0 <= k < |m|
      ensures m[k] != RetryDelayMarker[5] && m[k] != PleaseRetryMarker[0]
    {
    }
    NotContainsMissingChar(m, RetryDelayMarker, 5);
    NotContainsMissingChar(m, PleaseRetryMarker, 0);
  }

  /** The outcome of a whole call, with how many times the backend was called
      and every wait, in order. */
  datatype Trace = Trace(result: Extraction, calls: nat, waits: seq<real>)

  /** Attempts `attempt .. last` of a loop in which attempt number `i` decides
      `step(i)`: a retry records its wait and goes on to the next attempt, a
      finish ends the loop with its result, and running past `last` ends it
      with `UnknownError`. */
  function Steps(step: nat -> Step, last: int, attempt: nat): (t: Trace)
    ensures attempt > last ==> t.calls == 0 && t.result == UnknownError && t.waits == []
    ensures attempt <= last ==> 1 <= t.calls <= last + 1 - attempt
    ensures t.calls - 1 <= |t.waits| <= t.calls
    decreases last - attempt
  {
    if attempt > last then Trace(UnknownError, 0, [])
    else match step(attempt)
      case Finish(r) => Trace(r, 1, [])
      case Retry(w) =>
        var rest := Steps(step, last, attempt + 1);
        Trace(rest.result, rest.calls + 1, [w] + rest.waits)
  }

  /** Calls go on exactly while attempts ask for a retry: if attempts
      `attempt .. k - 1` retry and attempt `k` finishes, there are
      `k - attempt + 1` calls, the waits are those of the retries, in order,
      and the result is that of attempt `k`. */
  lemma {:induction false} StepsStopAtFirstFinish(step: nat -> Step, last: int, attempt: nat, k: nat)
    requires attempt <= k <= last
    requires forall i :: attempt <= i < k ==> step(i).Retry?
    requires step(k).Finish?
    ensures var t := Steps(step, last, attempt);
            && t.calls == k - attempt + 1
            && t.result == step(k).result
            && |t.waits| == k - attempt
            && forall i :: 0 <= i < k - attempt ==> t.waits[i] == step(attempt + i).wait
    decreases k - attempt
  {
    if attempt < k {
      assert step(attempt).Retry?;
      StepsStopAtFirstFinish(step, last, attempt + 1, k);
      var t := Steps(step, last, attempt);
      var rest := Steps(step, last, attempt + 1);
      assert t.waits == [step(attempt).wait] + rest.waits;
      forall i | 0 <= i < k - attempt
        ensures t.waits[i] == step(attempt + i).wait
      {
        if i > 0 {
          assert t.waits[i] == rest.waits[i - 1];
          assert attempt + 1 + (i - 1) == attempt + i;
        }
      }
    }
  }

  /** Conversely, every call but the last was a retry whose wait is recorded,
      and the last call decided the result. */
  lemma {:induction false} StepsShape(step: nat -> Step, last: int, attempt: nat)
    requires attempt <= last && step(last as nat).Finish?
    ensures var t := Steps(step, last, attempt);
            && (forall i :: 0 <= i < t.calls - 1 ==> step(attempt + i) == Retry(t.waits[i]))
            && step(attempt + t.calls - 1) == Finish(t.result)
            && |t.waits| == t.calls - 1
    decreases last - attempt
  {
    var t := Steps(step, last, attempt);
    if step(attempt).Retry? {
      StepsShape(step, last, attempt + 1);
      var rest := Steps(step, last, attempt + 1);
      forall i | 0 <= i < t.calls - 1
        ensures step(attempt + i) == Retry(t.waits[i])
      {
        if i > 0 {
          assert t.waits[i] == rest.waits[i - 1];
          assert attempt + 1 + (i - 1) == attempt + i;
        }
      }
      assert attempt + 1 + rest.calls - 1 == attempt + t.calls - 1;
    }
  }

  /** Attempt number `i` of `ats_extractor`, given the backend's reply to it. */
  function Attempts(backend: nat -> Reply, validJson: string -> bool, maxRetries: int): nat -> Step {
    (i: nat) => Respond(backend(i), i, maxRetries, validJson)
  }

  /** What every attempt of `ats_extractor` guarantees: it retries only before
      the last attempt and after a wait between 1 and 11 seconds, never
      finishes with `UnknownError`, and finishes with JSON only when it parses. */
  ghost predicate WellBehaved(step: nat -> Step, last: int, validJson: string -> bool) {
    forall i: nat ::
      && (step(i).Retry? ==> i < last && 1.0 < step(i).wait < 11.0)
      && (step(i).Finish? ==> !step(i).result.UnknownError?)
      && (step(i).Finish? && step(i).result.Json? ==>
            validJson(step(i).result.text) && IsTrimmed(step(i).result.text))
  }

  lemma AttemptsWellBehaved(backend: nat -> Reply, validJson: string -> bool, maxRetries: int)
    ensures WellBehaved(Attempts(backend, validJson, maxRetries), maxRetries, validJson)
  {
    var step := Attempts(backend, validJson, maxRetries);
    forall i: nat
      ensures && (step(i).Retry? ==> i < maxRetries && 1.0 < step(i).wait < 11.0)
              && (step(i).Finish? ==> !step(i).result.UnknownError?)
              && (step(i).Finish? && step(i).result.Json? ==>
                    validJson(step(i).result.text) && IsTrimmed(step(i).result.text))
    {
      var s := Respond(backend(i), i, maxRetries, validJson);
      assert step(i) == s;
    }
  }

  /** A loop of well-behaved attempts that makes at least one attempt never
      ends in `UnknownError`, ends on a finish, waits between 1 and 11 seconds
      each time, and returns only JSON that parses. */
  lemma StepsFacts(step: nat -> Step, last: int, validJson: string -> bool)
    requires last >= 0 && WellBehaved(step, last, validJson)
    ensures var t := Steps(step, last, 0);
            && !t.result.UnknownError? && |t.waits| == t.calls - 1
            && (forall k :: 0 <= k < |t.waits| ==> 1.0 < t.waits[k] < 11.0)
            && (t.result.Json? ==> validJson(t.result.text) && IsTrimmed(t.result.text))
  {
    var t := Steps(step, last, 0);
    assert step(last as nat).Finish? by {
      assert !(last as nat < last);
    }
    StepsShape(step, last, 0);
    var final := t.calls - 1;
    assert step(final) == Finish(t.result);
    forall k | 0 <= k < |t.waits|
      ensures 1.0 < t.waits[k] < 11.0
    {
      assert step(k) == Retry(t.waits[k]);
    }
  }

  /** The loop `for attempt in range(max_retries + 1)` of `ats_extractor`. */
  function Run(backend: nat -> Reply, validJson: string -> bool, maxRetries: int): Trace {
    Steps(Attempts(backend, validJson, maxRetries), maxRetries, 0)
  }

  /** `ats_extractor` ends in `UnknownError` exactly when there are no
      attempts, calls the backend at most `max_retries + 1` times, waits
      between 1 and 11 seconds before each call but the first, and returns
      only JSON that parses. */
  lemma RunFacts(backend: nat -> Reply, validJson: string -> bool, maxRetries: int)
    ensures var t := Run(backend, validJson, maxRetries);
            && (t.result.UnknownError? <==> maxRetries < 0)
            && (maxRetries < 0 ==> t.calls == 0 && t.waits == [])
            && (maxRetries >= 0 ==> 1 <= t.calls <= maxRetries + 1 && |t.waits| == t.calls - 1)
            && (forall k :: 0 <= k < |t.waits| ==> 1.0 < t.waits[k] < 11.0)
            && (t.result.Json? ==> validJson(t.result.text) && IsTrimmed(t.result.text))
  {
    if maxRetries >= 0 {
      AttemptsWellBehaved(backend, validJson, maxRetries);
      StepsFacts(Attempts(backend, validJson, maxRetries), maxRetries, validJson);
    }
  }

  /** With the default of one retry, a rate limit advertising 3.5 seconds is
      retried after 4.5 seconds, and a second one ends the call. */
  lemma RetriedOnceExample(backend: nat -> Reply, validJson: string -> bool, g: string, rest: string)
    requires g == "3.5" && rest == "."
    requires backend(0) == RateLimited(PleaseRetryIn + g + "s" + rest)
    requires backend(1) == RateLimited(PleaseRetryIn + g + "s" + rest)
    ensures Run(backend, validJson, 1) == Trace(RateLimitExceeded, 2, [4.5])
  {
    DelayOfExample(g, rest);
    var step := Attempts(backend, validJson, 1);
    assert step(0) == Retry(4.5);
    assert step(1) == Finish(RateLimitExceeded);
    assert Steps(step, 1, 1) == Trace(RateLimitExceeded, 1, []);
  }

  /** A delay of zero counts as no delay: the call ends without a retry. */
  lemma ZeroDelayExample(backend: nat -> Reply, validJson: string -> bool, g: string, rest: string)
    requires g == "0" && rest == ""
    requires backend(0) == RateLimited(PleaseRetryIn + g + "s" + rest)
    ensures Run(backend, validJson, 1) == Trace(RateLimitExceeded, 1, [])
  {
    DelayZeroExample(g, rest);
    assert Attempts(backend, validJson, 1)(0) == Finish(RateLimitExceeded);
  }

  /** A long delay is not waited for: "Please retry in 45s" ends the call
      with the rate-limit object after one call and no sleep. */
  lemma LongDelayExample(backend: nat -> Reply, validJson: string -> bool, g: string, rest: string)
    requires g == "45" && rest == ""
    requires backend(0) == RateLimited(PleaseRetryIn + g + "s" + rest)
    ensures Run(backend, validJson, 1) == Trace(RateLimitExceeded, 1, [])
  {
    assert IsDigits(g);
    DecimalOfDigits(g);
    assert WholeValue(g) == 45 by {
      assert g[..1] == "4" && "4"[..0] == [];
    }
    DelayOfPleaseRetry(g, rest);
    assert Attempts(backend, validJson, 1)(0) == Finish(RateLimitExceeded);
  }

  /** A group `float()` rejects raises out of the call. */
  lemma MalformedDelayExample(backend: nat -> Reply, validJson: string -> bool, g: string, rest: string)
    requires g == "1.2.3" && rest == ""
    requires backend(0) == RateLimited(PleaseRetryIn + g + "s" + rest)
    ensures Run(backend, validJson, 1) == Trace(Raised(FloatErrorMessage(g)), 1, [])
  {
    DelayMalformedExample(g, rest);
    assert Attempts(backend, validJson, 1)(0) == Finish(Raised(FloatErrorMessage(g)));
  }

  /** Any other exception ends the call at once, after one call. */
  lemma OtherErrorExample(backend: nat -> Reply, validJson: string -> bool, maxRetries: int, m: string)
    requires maxRetries >= 0 && backend(0) == OtherError(m)
    ensures Run(backend, validJson, maxRetries) == Trace(ProcessingError(ProcessingPrefix + m), 1, [])
  {
    assert Attempts(backend, validJson, maxRetries)(0) == Finish(ProcessingError(ProcessingPrefix + m));
  }

  /** `n` copies of `x`. */
  function Repeat<T>(x: T, n: nat): (r: seq<T>)
    ensures |r| == n && forall k :: 0 <= k < n ==> r[k] == x
  {
    if n == 0 then [] else Repeat(x, n - 1) + [x]
  }

  /** The attempt loop of `ats_extractor`: attempt number `attempt` sends
      `fullPrompt` and decides `step(attempt)`; a retry sleeps its wait and goes
      on. It returns the result, every prompt it sent and every wait it slept. */
  method RetryLoop(fullPrompt: string, maxRetries: int, step: nat -> Step)
    returns (result: Extraction, prompts: seq<string>, waits: seq<real>)
    ensures var t := Steps(step, maxRetries, 0);
            result == t.result && |prompts| == t.calls && waits == t.waits
    ensures prompts == Repeat(fullPrompt, |prompts|)
  {
    prompts, waits := [], [];
    var attempt: nat := 0;
    while attempt <= maxRetries
      invariant |waits| == attempt
      invariant prompts == Repeat(fullPrompt, attempt)
      invariant var rest := Steps(step, maxRetries, attempt);
                Steps(step, maxRetries, 0) == Trace(rest.result, attempt + rest.calls, waits + rest.waits)
      decreases maxRetries - attempt
    {
      prompts := prompts + [fullPrompt];
      match step(attempt) {
        case Finish(r) =>
          result := r;
          return;
        case Retry(w) =>
          ghost var rest := Steps(step, maxRetries, attempt + 1);
          assert waits + ([w] + rest.waits) == (waits + [w]) + rest.waits;
          waits := waits + [w];
      }
      attempt := attempt + 1;
    }
    assert waits + [] == waits;
    result := UnknownError;
  }

  /** `ats_extractor(resume_data, max_retries, initial_delay)` with the backend
      and the JSON check as parameters: every call sends the template followed
      by the resume, and each attempt is handled as `Respond` says.
      `initialDelay` is accepted and unused, as in the source. */
  method AtsExtractor(resume: string, maxRetries: int, initialDelay: real,
                      backend: nat -> Reply, validJson: string -> bool)
    returns (result: Extraction, prompts: seq<string>, waits: seq<real>)
    ensures var t := Run(backend, validJson, maxRetries);
            result == t.result && |prompts| == t.calls && waits == t.waits
    ensures prompts == Repeat(FullPrompt(resume), |prompts|)
  {
    var fullPrompt := FullPrompt(resume);
    result, prompts, waits := RetryLoop(fullPrompt, maxRetries, Attempts(backend, validJson, maxRetries));
  }
}
