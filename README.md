# Resume parser — a Dafny model

A model of the core of *Resume-Parser-using-Gen-AI*, a small Flask
application that turns uploaded PDF resumes into structured JSON with a
generative-AI backend:

- `clean_json_response` (resumeparser.py) removes a Markdown ```` ```json ````
  fence and surrounding whitespace from the backend's answer
  (`CleanJson`, on top of the `str` helpers in `PyStrings`);
- `ats_extractor` (resumeparser.py) builds the extraction prompt, calls the
  backend, validates the answer as JSON and retries a rate-limited call only
  when the backend advertises a short delay (`Extractor`);
- `_read_file_from_path` and the `/process` handler `ats` (app.py) read the
  text of each uploaded PDF, call the extractor and sort each upload into the
  `results` or the `errors` dictionary of the rendered page (`App`).

The backend is a function from the index of a call to its reply (a text, a
`ResourceExhausted` error with its message, or any other error with its
message). Whether a string is JSON is decided by a `json.loads` function
given as a parameter. What the PDF library makes of a saved file is a
`Document`: either unreadable, or a list of pages, each with its text or
with a failed extraction. Sleeping is recorded as the list of waits, and the
prompts sent are returned by the extractor loop.

Files: `options.dfy` (Option), `py_strings.dfy` (PyStrings),
`clean_json.dfy` (CleanJson), `extractor.dfy` (Extractor), `app.dfy` (App).

Where the code behaves in ways a reader might not expect, the model follows
the code:

- A malformed delay group such as `1.2.3` makes `float()` raise a
  `ValueError` inside the `ResourceExhausted` handler. That exception escapes
  `ats_extractor` (modelled as `Raised`) and is caught by the generic handler
  of `ats`, so the extractor does not turn every failure into an error object.
- File names are not required to be distinct. An upload that reached
  `results` and a later upload with the same name that failed leave the name
  in both dictionaries (`App.DuplicateNameInBoth`). With distinct names each
  name is in at most one of them (`App.CollectDistinct`).
- The `json.JSONDecodeError` branch of `ats` cannot be reached: the extractor
  only returns text that `json.loads` accepted, or an error object it
  serialised itself (`App.ExtractedAnswerLoads`).
- `initial_delay` is accepted and unused; the wait is the advertised delay
  plus one second.
- In `_read_file_from_path` only building the reader and extracting each
  page's text are guarded; an exception raised while iterating
  `reader.pages` escapes the function and is reported by the generic handler
  of `ats` (`App.PageListingFailureShown`).

## Model

| member | source | states |
|---|---|---|
| PyStrings.Strip | resumeparser.py:24 | `str.strip()` leaves no whitespace at either end |
| PyStrings.StripIsSlice | resumeparser.py:24 | `strip()` keeps one contiguous piece of the text and removes only whitespace before and after it |
| CleanJson.DropOpeningFence | resumeparser.py:22 | the opening substitution never lengthens the text and leaves a text not starting with ```` ```json ```` unchanged |
| CleanJson.DropClosingFence | resumeparser.py:23 | the closing substitution never lengthens the text and leaves a text ending neither in ```` ``` ```` nor in ```` ``` ```` and a newline unchanged |
| CleanJson.CleanJsonResponse | resumeparser.py:20-24 | the cleaned text never begins or ends with whitespace |
| CleanJson.CleanOnlyStripsEnds | resumeparser.py:20-24 | the cleaned text is a contiguous piece of the input; only an opening fence with whitespace is cut before it and only whitespace with a closing fence (and one final newline) after it, so fences inside are kept; a leading ```` ```json ```` and a trailing ```` ``` ```` (or ```` ``` ```` and a newline) are each always cut, whether or not the other is present |
| CleanJson.CleanOpeningOnly | resumeparser.py:20-24 | an opening marker with no closing fence is removed and the rest is stripped |
| CleanJson.CleanClosingOnly | resumeparser.py:20-24 | a closing fence with no opening marker is removed and what precedes it is stripped |
| CleanJson.CleanOpeningOnlyExample | resumeparser.py:20-24 | ```` ```json{} ```` cleans to `{}` |
| CleanJson.CleanClosingOnlyExample | resumeparser.py:20-24 | `{}`, a newline and ```` ``` ```` cleans to `{}` |
| CleanJson.CleanFenced | resumeparser.py:20-24 | a trimmed body wrapped as ```` ```json ````, whitespace, body, whitespace, ```` ``` ```` cleans back to exactly the body |
| CleanJson.CleanFencedExample | resumeparser.py:20-24 | a fenced reply around `{"a":1}` cleans to `{"a":1}` |
| CleanJson.CleanUnfenced | resumeparser.py:20-24 | without a fence at either end, cleaning is `strip()` |
| CleanJson.CleanKeepsUpperCaseFence | resumeparser.py:22 | the opening pattern is case-sensitive: a text starting with ```` ```JSON ```` still starts with it after cleaning |
| Extractor.PromptCarriesResume | resumeparser.py:74 | the full prompt is the fixed template, the header and then the resume text verbatim |
| Extractor.MatchAt | resumeparser.py:106 | a match of `retry in ([\d.]+)s` at a position yields a non-empty group of digits and points, and only where the text at that position is "retry in" in some letter case, then exactly that group, then an `s` or `S` |
| Extractor.SearchRetryIn | resumeparser.py:106 | a found group is a non-empty run of digits and points; no group means the pattern matches at no position |
| Extractor.SearchFindsLeftmost | resumeparser.py:106 | when the search finds a group, it is the group of a match at some position and no match starts earlier |
| Extractor.SearchFindsFirst | resumeparser.py:106 | conversely, the leftmost match position determines what the search returns |
| Extractor.RetryDelay | resumeparser.py:102-108 | without either marker there is no delay; a delay read is never negative; a rejected group is one `float()` cannot parse |
| Extractor.DelayOfLeftmostMatch | resumeparser.py:105-108 | once a marker is present, the delay is what `float()` makes of the group of the leftmost case-insensitive `retry in <digits/dots>s` |
| Extractor.DelayOfPleaseRetry | resumeparser.py:105-108 | a message starting "Please retry in ", a group and `s` advertises that group's value |
| Extractor.NoMatchNoDelay | resumeparser.py:105-108 | a message in which `retry in ([\d.]+)s` matches at no position advertises no delay, whichever markers it holds |
| Extractor.DelayOfAnyCase | resumeparser.py:105-108 | "retry in" in any letter case at the start is found when `retry_delay` appears later in the message |
| Extractor.DecimalValue | resumeparser.py:108 | the value `float()` gives a group of digits and at most one point is never negative |
| Extractor.DecimalOfDigits | resumeparser.py:108 | `float()` of a non-empty run of digits is accepted and is the whole number the digits spell |
| Extractor.DecimalOfParts | resumeparser.py:108 | `float()` of `w.f` is accepted when `w` or `f` has a digit and is the whole part `w` plus the fraction `0.f` |
| Extractor.DecimalRejects | resumeparser.py:108 | `float()` rejects a group with two or more points, and a group made only of points, so the delay is unparsable |
| Extractor.DecimalScenarios | resumeparser.py:108 | `float()` reads `3.5` as 3.5 and `0` as 0, and rejects `1.2.3` |
| Extractor.DelayOfExample | resumeparser.py:105-108 | "Please retry in 3.5s." advertises 3.5 seconds |
| Extractor.DelayZeroExample | resumeparser.py:105-108 | "Please retry in 0s" advertises 0 seconds |
| Extractor.DelayMalformedExample | resumeparser.py:105-108 | "Please retry in 1.2.3s" carries a group `float()` rejects |
| Extractor.DelayGateExample | resumeparser.py:105 | the marker test is case-sensitive: "please retry in 3s" yields no delay |
| Extractor.Respond | resumeparser.py:78-136 | an attempt retries only on a rate limit before the last attempt, after a wait strictly between 1 and 11 seconds; it never finishes with the unknown error; JSON it returns parses and is trimmed |
| Extractor.RetryRule | resumeparser.py:112-113 | an attempt retries exactly when rate limited with an advertised delay that is non-zero and below 10 and attempts remain, and then waits the delay plus one second; a rate-limited attempt that does not retry returns the rate-limit object, unless `float()` rejects the group, in which case its `ValueError` escapes |
| Extractor.TextReplyEndsCall | resumeparser.py:83-97 | a text reply ends the call: the cleaned text when it parses, otherwise the parse-failure object with the stripped, uncleaned text |
| Extractor.OtherErrorEndsCall | resumeparser.py:129-136 | any other exception ends the call with the processing-error message prefixed to the exception text |
| Extractor.Steps | resumeparser.py:77 | no attempts give the unknown error with no calls; otherwise between 1 and the number of remaining attempts calls, and as many waits as calls or one fewer |
| Extractor.StepsStopAtFirstFinish | resumeparser.py:77-127 | if attempts `a .. k - 1` retry and attempt `k` finishes, the loop from `a` makes exactly `k - a + 1` calls, the result is attempt `k`'s and the waits are exactly the `k - a` retries' waits in order |
| Extractor.StepsShape | resumeparser.py:77-127 | conversely, every call but the last was a retry with the recorded wait and the last call decided the result |
| Extractor.AttemptsWellBehaved | resumeparser.py:77-136 | every attempt of `ats_extractor` retries only before the last one, with a bounded wait, and finishes only with a real outcome |
| Extractor.StepsFacts | resumeparser.py:77-142 | a loop of well-behaved attempts with at least one attempt never ends in the unknown error and every wait is between 1 and 11 seconds |
| Extractor.RunFacts | resumeparser.py:77-142 | the unknown error happens exactly when `max_retries < 0`; at most `max_retries + 1` calls; every wait strictly between 1 and 11 seconds; returned JSON parses |
| Extractor.RetriedOnceExample | resumeparser.py:77-127 | with one retry, two rate limits advertising 3.5 s give one wait of 4.5 s, two calls and the rate-limit object |
| Extractor.LongDelayExample | resumeparser.py:112-127 | "Please retry in 45s" is not waited for: one call, no wait, the rate-limit object |
| Extractor.ZeroDelayExample | resumeparser.py:112 | an advertised delay of 0 is treated as none: one call, no wait |
| Extractor.MalformedDelayExample | resumeparser.py:108 | a group `float()` rejects raises out of the call after one call |
| Extractor.OtherErrorExample | resumeparser.py:129-136 | another exception on the first call ends the call at once |
| Extractor.RetryLoop | resumeparser.py:77-142 | the loop returns the result, the calls and the waits of the attempt trace, and sends the same prompt on every call |
| Extractor.AtsExtractor | resumeparser.py:26-142 | the extractor's result, number of calls and waits are those of the retry policy, and every call sends the template followed by the resume |
| App.PagesTextAppend | app.py:74-82 | the text of two runs of pages is the text of the first followed by the text of the second |
| App.PageInPlace | app.py:74-82 | each page contributes its own text at its own place |
| App.FailedPageSkipped | app.py:76-80 | a page whose extraction fails contributes nothing and the following pages still count |
| App.ReadFileFromPath | app.py:60-82 | a reader that cannot be built gives the empty string; pages listed to the end give their texts concatenated in order; an exception while listing the pages escapes with its message |
| App.ErrorObject | resumeparser.py:94-142 | each error string the extractor serialises reads back as an object holding `error` |
| App.OutcomesSkipOnlyUnnamed | app.py:33-34 | exactly the uploads without a name are skipped |
| App.CollectKeys | app.py:32-56 | after the loop, the names in `results` and `errors` together are exactly the names of the named uploads |
| App.CollectDistinct | app.py:32-56 | with distinct names, no name is in both dictionaries and each named upload's entry is its own outcome |
| App.SameNameTwice | app.py:32-56 | two uploads under one name, one reaching `results` and the other `errors`, leave the name in both |
| App.DuplicateNameInBoth | app.py:36-56 | an upload that cannot be saved, under the name of an earlier one in `results`, puts the name in both dictionaries |
| App.EmptyObjectReply | resumeparser.py:83-89 | a reply `{}` is returned as `{}` |
| App.ReadableUploadStored | app.py:36-52 | an upload reading "resume" whose reply is `{}` reaches `results` as the empty object |
| App.BlankTextSkipsExtractor | app.py:41-43 | an empty or blank document text is reported as such, whatever the backend would reply |
| App.PageListingFailureShown | app.py:75 | an exception while listing the pages is reported with its text, whatever was read before and whatever the backend would reply |
| App.ExtractorErrorsShown | app.py:45-56 | each error object is shown by its `message`, or by its `error` when it has none; an escaped exception by its text |
| App.ResultsAreParsedJson | app.py:46-52 | only an answer that parses to something other than an object holding `error` reaches `results`, stored as parsed |
| App.ParsedAnswerRouted | app.py:49-52 | a JSON answer that parses to `v` reaches `results` as `v` unless `v` is an object holding `error`, which is shown by its `message`, else by its `error` |
| App.ExtractedAnswerLoads | app.py:53-54 | whatever the extractor returns loads, so the decode-error handler is never reached |
| App.HandleAnswer | app.py:45-56 | the answer is filed under the upload's name as its outcome says, nothing else changes |
| App.HandleUpload | app.py:33-56 | one pass of the loop files the upload's outcome under its name or skips an unnamed upload |
| App.Ats | app.py:22-58 | the rendered page: the no-files error when no upload has a name, otherwise each dictionary of the loop, or none when it is empty |

## Left out

- Loading `config.yaml` and configuring the Gemini SDK (resumeparser.py:9-18, 67-71): I/O, outside the model.
- The backend call itself: replaced by the function from call index to reply.
- `time.sleep` and the `print` calls: a sleep is recorded as a wait, output is not modelled.
- Flask, `request.files`, `render_template` and the index route: the page is the pair of dictionaries passed to the template.
- `os.path.join` and `doc.save`: saving is an input (`Stored`), either failed with its message or the saved document.
- The PDF library: its result is the `Document` input. `PdfStreamError` and any other failure while building the reader are the same `Unreadable` case, as in the code; a failure while iterating the pages is the `failure` of `Pages`.
- `json.loads` and `json.dumps`: `json.loads` is a function parameter; the error strings the extractor builds are modelled by the objects they read back as (`App.ErrorObject`), not as text.
- JSON values are objects with string members or other values; nested values and the exact text shown for a non-string `message` are not modelled.
- The order of dictionary entries is not modelled (maps).
- Extractor.DecimalValue: `\d` is taken as ASCII digits only and `float()` as exact real arithmetic, so Unicode digits and floating-point rounding are not modelled.
- App.Extract: `ats` is modelled through the function that the `Extractor.AtsExtractor` method implements, so the per-upload prompt and waits are not part of the page model.
- Exceptions raised by `response.text` or the backend other than rate limits are all the one `OtherError` reply.
