/** The Flask handler `ats` (app.py) and its page reader `_read_file_from_path`.

    An upload is its file name, what saving it did, and the backend's replies
    while its resume is extracted. What `PdfReader` makes of a saved file is a
    `Document`; what `json.loads` makes of a text is the parameter `loads`. */
module App {
  import opened PyStrings
  import opened CleanJson
  import opened Options
  import opened Extractor

  // ---------------------------------------------------------------------------
  // Reading a PDF

  /** What the PDF library makes of a saved file: either the reader cannot
      be built, or it lists `pages` (per page, the text `extract_text()`
      returns, None when that raises or returns None) and then either ends
      or raises `failure` while fetching the next page. */
  datatype Document =
    | Unreadable
    | Pages(pages: seq<Option<string>>, failure: Option<string>)

  /** What `_read_file_from_path` does: return a text, or let the exception
      raised while iterating `reader.pages` escape, with its message. */
  datatype ReadResult = ReadText(text: string) | ReadRaised(message: string)

  /** `page.extract_text() or ""`, with a failure read as `""`. */
  function PageText(page: Option<string>): string {
    match page
    case None => ""
    case Some(t) => t
  }

  /** The page texts, in order, with no separator. */
  function PagesText(pages: seq<Option<string>>): string {
    if pages == [] then "" else PageText(pages[0]) + PagesText(pages[1..])
  }

  /** The text of a whole batch of pages is the text of its first part
      followed by the text of the rest. */
  lemma {:induction false} PagesTextAppend(a: seq<Option<string>>, b: seq<Option<string>>)
    ensures PagesText(a + b) == PagesText(a) + PagesText(b)
    decreases |a|
  {
    if a == [] {
      assert a + b == b;
    } else {
      assert (a + b)[0] == a[0] && (a + b)[1..] == a[1..] + b;
      PagesTextAppend(a[1..], b);
    }
  }

  /** Every page contributes its own text at its own place. */
  lemma PageInPlace(before: seq<Option<string>>, page: Option<string>, after: seq<Option<string>>)
    ensures PagesText(before + [page] + after) == PagesText(before) + PageText(page) + PagesText(after)
  {
    PagesTextAppend(before + [page], after);
    PagesTextAppend(before, [page]);
    assert [page][1..] == [];
  }

  /** A page that fails contributes nothing, and the pages after it still
      count. */
  lemma FailedPageSkipped(before: seq<Option<string>>, after: seq<Option<string>>)
    ensures PagesText(before + [None] + after) == PagesText(before) + PagesText(after)
  {
    PageInPlace(before, None, after);
    assert PagesText(before) + "" == PagesText(before);
  }

  /** What `_read_file_from_path` does with a document. */
  function DocumentRead(doc: Document): ReadResult {
    match doc
    case Unreadable => ReadText("")
    case Pages(pages, None) => ReadText(PagesText(pages))
    case Pages(_, Some(m)) => ReadRaised(m)
  }

  /** `_read_file_from_path`: `""` when the reader cannot be built; the
      concatenation of the page texts, accumulated page by page, when the
      pages can be listed; and the escaping exception when listing them
      fails, whatever was read before. */
  method ReadFileFromPath(doc: Document) returns (r: ReadResult)
    ensures doc.Unreadable? ==> r == ReadText("")
    ensures doc.Pages? && doc.failure.None? ==> r == ReadText(PagesText(doc.pages))
    ensures doc.Pages? && doc.failure.Some? ==> r == ReadRaised(doc.failure.value)
  {
    match doc {
      case Unreadable =>
        return ReadText("");
      case Pages(pages, failure) =>
        var data := "";
        for i := 0 to |pages|
          invariant data == PagesText(pages[..i])
        {
          var text := PageText(pages[i]);
          PagesTextAppend(pages[..i], [pages[i]]);
          assert pages[..i + 1] == pages[..i] + [pages[i]];
          data := data + text;
        }
        assert pages[..|pages|] == pages;
        match failure {
          case None => r := ReadText(data);
          case Some(m) => r := ReadRaised(m);
        }
    }
  }

  // ---------------------------------------------------------------------------
  // Reading the extractor's answer

  /** A JSON value as far as `ats` looks into it: an object with its members
      (each member's value by the text the page shows for it), or any other
      value. */
  datatype JsonValue = Object(members: map<string, string>) | Other(text: string)

  /** What `json.loads` does with a text. */
  datatype Loaded = Value(value: JsonValue) | DecodeError(message: string)

  /** A text is valid JSON when `json.loads` accepts it. */
  function ValidJson(loads: string -> Loaded): string -> bool {
    (s: string) => loads(s).Value?
  }

  /** The object an error alternative of the extractor serialises, as
      `json.loads` reads it back. */
  function ErrorObject(e: Extraction): (v: JsonValue)
    requires !e.Json? && !e.Raised?
    ensures v.Object? && "error" in v.members
  {
    match e
    case ParseFailure(raw) => Object(map["error" := ParseFailureError, "raw_response" := raw])
    case RateLimitExceeded =>
      Object(map["error" := RateLimitError, "message" := RateLimitMessage, "suggestion" := RateLimitSuggestion])
    case ProcessingError(m) => Object(map["error" := ProcessingErrorError, "message" := m])
    case UnknownError => Object(map["error" := UnknownErrorError, "message" := UnknownErrorMessage])
  }

  /** `json.loads(extracted_data)` for a string the extractor returned. */
  function LoadExtraction(e: Extraction, loads: string -> Loaded): Loaded
    requires !e.Raised?
  {
    if e.Json? then loads(e.text) else Value(ErrorObject(e))
  }

  // ---------------------------------------------------------------------------
  // One upload

  /** What `doc.save(filepath)` did. */
  datatype Stored = NotSaved(error: string) | Saved(document: Document)

  /** An uploaded file: its name, what saving it did, and the backend's reply
      to each call made while its resume is extracted. */
  datatype Upload = Upload(filename: string, stored: Stored, replies: nat -> Reply)

  /** Where an upload ends up: nowhere, in `results`, or in `errors`. */
  datatype Outcome = Skipped | ToResults(value: JsonValue) | ToErrors(message: string)

  const NoTextMessage: string := "Failed to extract text from PDF file. The file may be corrupted or empty."
  const DecodeFailurePrefix: string := "Failed to parse response: "
  const ExceptionPrefix: string := "An error occurred while processing: "
  const GeneralKey: string := "_general"
  const NoFilesMessage: string := "No files were selected. Please select at least one PDF file."

  /** `ats_extractor(data)` with its default arguments, as `ats` sees it: the
      prompt carries `data`, and the backend's replies to it are `replies`. */
  function Extract(replies: nat -> Reply, loads: string -> Loaded): Extraction {
    Run(replies, ValidJson(loads), 1).result
  }

  /** A parsed answer: an object holding `error` is shown as an error, with
      its `message` member when it has one and its `error` member otherwise;
      anything else is a result. */
  function Route(v: JsonValue): Outcome {
    if v.Object? && "error" in v.members then
      ToErrors(if "message" in v.members then v.members["message"] else v.members["error"])
    else
      ToResults(v)
  }

  /** The body of the loop over `files` for one upload. */
  function UploadOutcome(u: Upload, loads: string -> Loaded): Outcome {
    if u.filename == "" then Skipped
    else match u.stored
      case NotSaved(m) => ToErrors(ExceptionPrefix + m)
      case Saved(doc) =>
        match DocumentRead(doc)
        case ReadRaised(m) => ToErrors(ExceptionPrefix + m)
        case ReadText(data) =>
          if data == "" || Strip(data) == "" then ToErrors(NoTextMessage)
          else AnswerOutcome(Extract(u.replies, loads), loads)
  }

  /** What `ats` does with the extractor's answer: an escaped exception is an
      error; otherwise the answer is parsed and routed. */
  function AnswerOutcome(e: Extraction, loads: string -> Loaded): Outcome {
    if e.Raised? then ToErrors(ExceptionPrefix + e.message)
    else match LoadExtraction(e, loads)
      case DecodeError(m) => ToErrors(DecodeFailurePrefix + m)
      case Value(v) => Route(v)
  }

  // ---------------------------------------------------------------------------
  // The batch

  /** The two dictionaries `ats` fills. */
  datatype Report = Report(results: map<string, JsonValue>, errors: map<string, string>)

  /** Writes one outcome under the upload's name. */
  function Record(r: Report, name: string, o: Outcome): Report {
    match o
    case Skipped => r
    case ToResults(v) => r.(results := r.results[name := v])
    case ToErrors(m) => r.(errors := r.errors[name := m])
  }

  /** The dictionaries after the loop has handled `files` in order, upload
      `u` having the outcome `outcome(u)`. */
  function Collect(files: seq<Upload>, outcome: Upload -> Outcome): Report
    decreases |files|
  {
    if files == [] then Report(map[], map[])
    else
      var last := files[|files| - 1];
      Record(Collect(files[..|files| - 1], outcome), last.filename, outcome(last))
  }

  /** The outcome of each upload in `ats`. */
  function Outcomes(loads: string -> Loaded): Upload -> Outcome {
    (u: Upload) => UploadOutcome(u, loads)
  }

  /** Exactly the uploads without a name are skipped. */
  ghost predicate SkipsOnlyUnnamed(outcome: Upload -> Outcome) {
    forall u: Upload :: outcome(u).Skipped? <==> u.filename == ""
  }

  lemma OutcomesSkipOnlyUnnamed(loads: string -> Loaded)
    ensures SkipsOnlyUnnamed(Outcomes(loads))
  {
    forall u: Upload
      ensures Outcomes(loads)(u).Skipped? <==> u.filename == ""
    {
      assert Outcomes(loads)(u) == UploadOutcome(u, loads);
    }
  }

  /** The names of the uploads that have one. */
  function Names(files: seq<Upload>): set<string> {
    set i | 0 <= i < |files| && files[i].filename != "" :: files[i].filename
  }

  lemma NamesOfPrefix(files: seq<Upload>)
    requires files != []
    ensures var last := files[|files| - 1];
            Names(files) == Names(files[..|files| - 1]) + (if last.filename == "" then {} else {last.filename})
  {
    var n := |files| - 1;
    var init := files[..n];
    forall k | k in Names(files)
      ensures k in Names(init) || (files[n].filename != "" && k == files[n].filename)
    {
      var i :| 0 <= i < |files| && files[i].filename != "" && files[i].filename == k;
      if i < n {
        assert init[i] == files[i];
      }
    }
    forall k | k in Names(init)
      ensures k in Names(files)
    {
      var i :| 0 <= i < |init| && init[i].filename != "" && init[i].filename == k;
      assert files[i] == init[i];
    }
  }

  /** Every named upload gets an entry, in `results` or in `errors`, under its
      name, and nothing else does: no entry for an unnamed upload. */
  lemma {:induction false} CollectKeys(files: seq<Upload>, outcome: Upload -> Outcome)
    requires SkipsOnlyUnnamed(outcome)
    ensures var r := Collect(files, outcome);
            r.results.Keys + r.errors.Keys == Names(files)
    decreases |files|
  {
    if files != [] {
      CollectKeys(files[..|files| - 1], outcome);
      NamesOfPrefix(files);
      assert outcome(files[|files| - 1]).Skipped? <==> files[|files| - 1].filename == "";
    }
  }

  /** No two named uploads share a name. */
  predicate DistinctNames(files: seq<Upload>) {
    forall i, j :: 0 <= i < j < |files| && files[i].filename != "" ==> files[i].filename != files[j].filename
  }

  /** The entry the dictionaries hold under `name`. */
  function Entry(r: Report, name: string): Outcome {
    if name in r.results then ToResults(r.results[name])
    else if name in r.errors then ToErrors(r.errors[name])
    else Skipped
  }

  /** With distinct names, no name is in both dictionaries, and each named
      upload's entry is its own outcome: what happened to one upload is
      recorded for it and does not disturb the others. */
  lemma {:induction false} CollectDistinct(files: seq<Upload>, outcome: Upload -> Outcome)
    requires SkipsOnlyUnnamed(outcome) && DistinctNames(files)
    ensures var r := Collect(files, outcome);
            && r.results.Keys !! r.errors.Keys
            && forall i :: 0 <= i < |files| && files[i].filename != "" ==>
                 Entry(r, files[i].filename) == outcome(files[i])
    decreases |files|
  {
    if files != [] {
      var n := |files| - 1;
      var init, last := files[..n], files[n];
      assert DistinctNames(init) by {
        forall i, j | 0 <= i < j < |init| && init[i].filename != ""
          ensures init[i].filename != init[j].filename
        {
          assert init[i] == files[i] && init[j] == files[j];
        }
      }
      CollectDistinct(init, outcome);
      CollectKeys(init, outcome);
      forall i | 0 <= i < |init| && init[i].filename != ""
        ensures init[i].filename != last.filename
      {
        assert files[i] == init[i];
      }
      assert last.filename != "" ==> last.filename !in Names(init);
      assert outcome(last).Skipped? <==> last.filename == "";
      var r := Collect(files, outcome);
      forall i | 0 <= i < |files| && files[i].filename != ""
        ensures Entry(r, files[i].filename) == outcome(files[i])
      {
        if i < n {
          assert files[i] == init[i];
          assert files[i].filename != last.filename;
        }
      }
    }
  }

  /** Two uploads under one name, the first reaching `results` and the second
      `errors`, leave that name in both dictionaries. */
  lemma SameNameTwice(first: Upload, second: Upload, outcome: Upload -> Outcome)
    requires first.filename == second.filename
    requires outcome(first).ToResults? && outcome(second).ToErrors?
    ensures var r := Collect([first, second], outcome);
            first.filename in r.results && first.filename in r.errors
  {
    assert [first, second][..1] == [first];
    assert [first][..0] == [];
  }

  /** A text reply of `{}` is answered with `{}`. */
  lemma EmptyObjectReply(replies: nat -> Reply, loads: string -> Loaded)
    requires replies(0) == Text("{}") && loads("{}") == Value(Object(map[]))
    ensures Extract(replies, loads) == Json("{}")
  {
    assert Strip("{}") == "{}" by {
      StripOfTrimmed("{}");
    }
    assert CleanJsonResponse("{}") == "{}" by {
      CleanUnfenced("{}");
      StripOfTrimmed("{}");
    }
    assert Attempts(replies, ValidJson(loads), 1)(0) == Finish(Json("{}"));
  }

  /** Names need not be distinct: an upload that cannot be saved, under the
      name of an earlier one that reached `results`, puts its error beside
      that result (`ReadableUploadStored` gives such an earlier upload). */
  lemma DuplicateNameInBoth(first: Upload, second: Upload, loads: string -> Loaded)
    requires first.filename == second.filename != ""
    requires UploadOutcome(first, loads).ToResults? && second.stored.NotSaved?
    ensures var r := Collect([first, second], Outcomes(loads));
            first.filename in r.results && first.filename in r.errors
  {
    assert Outcomes(loads)(first).ToResults?;
    assert Outcomes(loads)(second).ToErrors?;
    SameNameTwice(first, second, Outcomes(loads));
  }

  /** An upload reading "resume" whose first reply is `{}` reaches `results`. */
  lemma ReadableUploadStored(u: Upload, loads: string -> Loaded)
    requires u.filename != "" && u.stored == Saved(Pages([Some("resume")], None))
    requires u.replies(0) == Text("{}") && loads("{}") == Value(Object(map[]))
    ensures UploadOutcome(u, loads) == ToResults(Object(map[]))
  {
    assert DocumentRead(u.stored.document) == ReadText("resume") by {
      assert [Some("resume")][1..] == [];
    }
    assert Strip("resume") != "";
    EmptyObjectReply(u.replies, loads);
  }

  /** A document whose text is empty or blank is reported as such, whatever
      the backend would have replied: the extractor is not called for it. */
  lemma BlankTextSkipsExtractor(name: string, doc: Document, replies: nat -> Reply, loads: string -> Loaded)
    requires name != "" && DocumentRead(doc).ReadText? && Strip(DocumentRead(doc).text) == ""
    ensures UploadOutcome(Upload(name, Saved(doc), replies), loads) == ToErrors(NoTextMessage)
  {
  }

  /** When listing the pages raises, the upload is reported with the text
      of that exception, whatever pages were read before and whatever the
      backend would have replied. */
  lemma PageListingFailureShown(name: string, pages: seq<Option<string>>, m: string,
                                replies: nat -> Reply, loads: string -> Loaded)
    requires name != ""
    ensures UploadOutcome(Upload(name, Saved(Pages(pages, Some(m))), replies), loads) == ToErrors(ExceptionPrefix + m)
  {
  }

  /** Each error object of the extractor is shown by its `message` member, or
      by its `error` member when it has none; an exception that escaped the
      extractor is shown with its text. */
  lemma ExtractorErrorsShown(e: Extraction, loads: string -> Loaded)
    ensures e.ParseFailure? ==> AnswerOutcome(e, loads) == ToErrors(ParseFailureError)
    ensures e.RateLimitExceeded? ==> AnswerOutcome(e, loads) == ToErrors(RateLimitMessage)
    ensures e.ProcessingError? ==> AnswerOutcome(e, loads) == ToErrors(e.message)
    ensures e.UnknownError? ==> AnswerOutcome(e, loads) == ToErrors(UnknownErrorMessage)
    ensures e.Raised? ==> AnswerOutcome(e, loads) == ToErrors(ExceptionPrefix + e.message)
  {
  }

  /** Only JSON that parses, to something other than an object holding
      `error`, reaches `results`, and it is stored as parsed. */
  lemma ResultsAreParsedJson(e: Extraction, loads: string -> Loaded)
    requires AnswerOutcome(e, loads).ToResults?
    ensures e.Json? && loads(e.text) == Value(AnswerOutcome(e, loads).value)
    ensures !(AnswerOutcome(e, loads).value.Object? && "error" in AnswerOutcome(e, loads).value.members)
  {
  }

  /** Conversely, a JSON answer that parses to `v` is routed by `v` alone: an
      object holding `error` is shown by its `message` member, else by its
      `error` member, and anything else is stored in `results` as parsed. */
  lemma ParsedAnswerRouted(e: Extraction, loads: string -> Loaded, v: JsonValue)
    requires e.Json? && loads(e.text) == Value(v)
    ensures !(v.Object? && "error" in v.members) ==> AnswerOutcome(e, loads) == ToResults(v)
    ensures v.Object? && "error" in v.members ==>
              AnswerOutcome(e, loads) == ToErrors(if "message" in v.members then v.members["message"] else v.members["error"])
  {
  }

  /** The extractor returns JSON only when it parses, so the handler for a
      decode error (app.py:53-54) is never reached. */
  lemma ExtractedAnswerLoads(replies: nat -> Reply, loads: string -> Loaded)
    ensures var e := Extract(replies, loads);
            !e.Raised? ==> LoadExtraction(e, loads).Value?
  {
    RunFacts(replies, ValidJson(loads), 1);
  }

  predicate NoNamedFile(files: seq<Upload>) {
    forall i :: 0 <= i < |files| ==> files[i].filename == ""
  }

  /** What `render_template` receives: `data` and `errors`, each absent (None)
      or a dictionary. */
  datatype Page = Page(data: Option<map<string, JsonValue>>, errors: Option<map<string, string>>)

  /** The page `ats` renders for a batch. */
  function AtsPage(files: seq<Upload>, loads: string -> Loaded): Page {
    if NoNamedFile(files) then Page(Some(map[]), Some(map[GeneralKey := NoFilesMessage]))
    else
      var r := Collect(files, Outcomes(loads));
      Page(if r.results == map[] then None else Some(r.results),
           if r.errors == map[] then None else Some(r.errors))
  }

  /** The body of the loop of `ats` for one upload: files its outcome under
      its name, in `results` or in `errors`, or skips an unnamed upload. */
  method HandleUpload(doc: Upload, loads: string -> Loaded, results: map<string, JsonValue>, errors: map<string, string>)
    returns (results': map<string, JsonValue>, errors': map<string, string>)
    ensures Report(results', errors') == Record(Report(results, errors), doc.filename, UploadOutcome(doc, loads))
  {
    results', errors' := results, errors;
    if doc.filename == "" {
      return;
    }
    match doc.stored {
      case NotSaved(m) =>
        errors' := errors'[doc.filename := ExceptionPrefix + m];
      case Saved(d) =>
        var read := ReadFileFromPath(d);
        match read {
          case ReadRaised(m) =>
            errors' := errors'[doc.filename := ExceptionPrefix + m];
          case ReadText(data) =>
            if data == "" || Strip(data) == "" {
              errors' := errors'[doc.filename := NoTextMessage];
              return;
            }
            var extracted := Extract(doc.replies, loads);
            results', errors' := HandleAnswer(doc.filename, extracted, loads, results', errors');
        }
    }
  }

  /** Files the extractor's answer for one upload: parsed and routed by its
      `error` member, or, when the extractor raised, the exception text. */
  method HandleAnswer(name: string, extracted: Extraction, loads: string -> Loaded,
                      results: map<string, JsonValue>, errors: map<string, string>)
    returns (results': map<string, JsonValue>, errors': map<string, string>)
    ensures Report(results', errors') == Record(Report(results, errors), name, AnswerOutcome(extracted, loads))
  {
    results', errors' := results, errors;
    if extracted.Raised? {
      errors' := errors'[name := ExceptionPrefix + extracted.message];
      return;
    }
    match LoadExtraction(extracted, loads) {
      case DecodeError(m) =>
        errors' := errors'[name := DecodeFailurePrefix + m];
      case Value(parsed) =>
        if parsed.Object? && "error" in parsed.members {
          var shown := if "message" in parsed.members then parsed.members["message"] else parsed.members["error"];
          errors' := errors'[name := shown];
        } else {
          results' := results'[name := parsed];
        }
    }
  }

  /** The `/process` handler: checks that some file has a name, then handles
      the uploads in order. */
  method Ats(files: seq<Upload>, loads: string -> Loaded) returns (page: Page)
    ensures page == AtsPage(files, loads)
  {
    var results: map<string, JsonValue> := map[];
    var errors: map<string, string> := map[];
    if files == [] || forall i | 0 <= i < |files| :: files[i].filename == "" {
      errors := errors[GeneralKey := NoFilesMessage];
      return Page(Some(results), Some(errors));
    }
    for i := 0 to |files|
      invariant Report(results, errors) == Collect(files[..i], Outcomes(loads))
    {
      assert files[..i + 1][..i] == files[..i] && files[..i + 1][i] == files[i];
      results, errors := HandleUpload(files[i], loads, results, errors);
    }
    assert files[..|files|] == files;
    page := Page(if results == map[] then None else Some(results),
                 if errors == map[] then None else Some(errors));
  }
}
