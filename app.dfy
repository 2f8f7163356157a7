/** The HTTP request rules of the backend (`app.py`): the page anchor of a
    content path, the scan suffix and the queue message of an upload, and the
    validation and outcomes of the delete and chat requests. The blob store,
    the queue and the search index are reached through inputs. */
module App {
  import opened Strings
  import Utils
  import Indexing
  import Messages

  // ---------------------------------------------------------------------------
  // Responses

  /** A response body: success, an error message, the results of an upload,
      an error report holding the Python type of the exception, or the
      streamed answer. */
  datatype Body =
    | Success
    | ErrorText(message: string)
    | UploadResults(results: seq<FileResult>)
    | ErrorReport(errorType: string)
    | AnswerStream

  datatype Response = Response(status: nat, body: Body)

  /** What became of one uploaded file, under its name without the scan suffix. */
  datatype FileResult = Uploaded(filename: string) | UploadFailed(filename: string, error: string)

  // ---------------------------------------------------------------------------
  // content_file

  const PageAnchor: string := "#page="

  /** `content_file` drops everything from the last "#page=" on, when the
      first one is not at the very start. */
  function StripPageAnchor(path: string): (r: string)
    ensures IndexOf(path, PageAnchor) <= 0 ==> r == path
    ensures IndexOf(path, PageAnchor) > 0 ==> r == path[..LastIndexOf(path, PageAnchor)] && OccursAt(path, PageAnchor, |r|)
  {
    if IndexOf(path, PageAnchor) > 0 then path[..LastIndexOf(path, PageAnchor)] else path
  }

  /** A blob name followed by a page anchor comes back as the blob name, when
      the name is not empty and holds no '#'. */
  lemma StripPageAnchorOfLink(name: string, page: nat)
    requires |name| > 0 && NoChar(name, '#')
    ensures StripPageAnchor(name + PageAnchor + NatToString(page)) == name
  {
    var digits := NatToString(page);
    var path := name + PageAnchor + digits;
    assert OccursAt(path, PageAnchor, |name|) by {
      assert path[|name|..|name| + 6] == PageAnchor;
    }
    forall j | 0 <= j < |name| ensures !OccursAt(path, PageAnchor, j) {
      assert path[j] == name[j];
    }
    assert IndexOf(path, PageAnchor) == |name|;
    assert LastIndexOf(path, PageAnchor) == |name|;
    assert path[..|name|] == name;
  }

  // ---------------------------------------------------------------------------
  // upload_documents

  const ScanSuffix: string := ".v-scan"

  /** The name the client sends a file under: with ".v-scan" appended when it
      is to be scanned. */
  function ClientUploadName(filename: string, scan: bool): string
  {
    if scan then filename + ScanSuffix else filename
  }

  /** How `upload_documents` reads a sent name: a ".v-scan" ending marks a
      scan and is removed, exactly those seven characters. */
  function SplitScanSuffix(name: string): (r: (string, bool))
    ensures r.1 <==> EndsWith(name, ScanSuffix)
    ensures r.1 ==> name == r.0 + ScanSuffix
    ensures !r.1 ==> r.0 == name
  {
    if EndsWith(name, ScanSuffix) then
      var filename := name[..|name| - 7];
      assert name == filename + name[|name| - 7..];
      (filename, true)
    else (name, false)
  }

  /** Reading the sent name gives back the file name and the scan choice,
      unless an unscanned name itself ends in ".v-scan". */
  lemma SplitScanSuffixInverts(filename: string, scan: bool)
    requires !scan ==> !EndsWith(filename, ScanSuffix)
    ensures SplitScanSuffix(ClientUploadName(filename, scan)) == (filename, scan)
  {
    if scan {
      var name := filename + ScanSuffix;
      assert name[|name| - 7..] == ScanSuffix;
      assert name[..|name| - 7] == filename;
    }
  }

  /** The queue message that asks for a file to be processed. */
  datatype QueuePayload = QueuePayload(filename: string, sourcefile: string, id: string, vScan: bool)

  /** The source blob's `id` and `vscan` metadata. */
  datatype SourceBlob = SourceBlob(id: string, vscan: string)

  const SourcePrefix: string := "sourcefiles/"

  function Payload(filename: string, vScan: bool): (p: QueuePayload)
    ensures p.filename == filename && p.sourcefile == SourcePrefix + filename && p.vScan == vScan
    ensures p.id == Utils.FilenameToId(filename)
  {
    QueuePayload(filename, SourcePrefix + filename, Utils.FilenameToId(filename), vScan)
  }

  /** A queue message's id determines its file. */
  lemma PayloadIdIdentifiesFile(f: string, g: string, s: bool, t: bool)
    requires Payload(f, s).id == Payload(g, t).id
    ensures f == g
  {
    Utils.FilenameToIdInjective(f, g);
  }

  /** What the blob store and the queue do with one file: the errors the blob
      upload and the queue send raise, if any. */
  datatype Services = Services(uploadError: string -> Option<string>, sendError: string -> Option<string>)

  /** The effect of one file: its result, the source blobs and the queue. */
  function UploadOne(services: Services, name: string, blobs: map<string, SourceBlob>, queue: seq<QueuePayload>)
    : (FileResult, map<string, SourceBlob>, seq<QueuePayload>)
  {
    var (filename, vScan) := SplitScanSuffix(name);
    var id := Utils.FilenameToId(filename);
    match services.uploadError(filename)
    case Some(e) => (UploadFailed(filename, e), blobs, queue)
    case None =>
      var stored := blobs[SourcePrefix + filename := SourceBlob(id, if vScan then "1" else "0")];
      match services.sendError(filename)
      case Some(e) => (UploadFailed(filename, e), stored, queue)
      case None => (Uploaded(filename), stored, queue + [Payload(filename, vScan)])
  }

  /** The effect of the files `names[..n]`, file by file. */
  function UploadAll(services: Services, names: seq<string>, blobs: map<string, SourceBlob>, queue: seq<QueuePayload>)
    : (r: (seq<FileResult>, map<string, SourceBlob>, seq<QueuePayload>))
    ensures |r.0| == |names|
    decreases |names|
  {
    if names == [] then ([], blobs, queue)
    else
      var n := |names| - 1;
      var (results, blobs', queue') := UploadAll(services, names[..n], blobs, queue);
      var (result, blobs'', queue'') := UploadOne(services, names[n], blobs', queue');
      (results + [result], blobs'', queue'')
  }

  /** `upload_documents`: an empty form is refused with 400; otherwise each
      file is stored and queued in turn, and an error on one file is recorded
      as its result without stopping the others. */
  method UploadDocuments(services: Services, names: seq<string>, blobs: map<string, SourceBlob>, queue: seq<QueuePayload>)
    returns (response: Response, newBlobs: map<string, SourceBlob>, newQueue: seq<QueuePayload>)
    ensures names == [] ==> (response, newBlobs, newQueue) == (Response(400, ErrorText("request must be in formData")), blobs, queue)
    ensures names != [] ==>
      var (results, blobs', queue') := UploadAll(services, names, blobs, queue);
      (response, newBlobs, newQueue) == (Response(200, UploadResults(results)), blobs', queue')
  {
    if names == [] {
      return Response(400, ErrorText("request must be in formData")), blobs, queue;
    }
    var results: seq<FileResult> := [];
    newBlobs, newQueue := blobs, queue;
    for i := 0 to |names|
      invariant UploadAll(services, names[..i], blobs, queue) == (results, newBlobs, newQueue)
    {
      assert names[..i + 1][..i] == names[..i];
      var (filename, vScan) := SplitScanSuffix(names[i]);
      var fileId := Utils.FilenameToId(filename);
      var uploadError := services.uploadError(filename);
      if uploadError.Some? {
        results := results + [UploadFailed(filename, uploadError.value)];
      } else {
        newBlobs := newBlobs[SourcePrefix + filename := SourceBlob(fileId, if vScan then "1" else "0")];
        var sendError := services.sendError(filename);
        if sendError.Some? {
          results := results + [UploadFailed(filename, sendError.value)];
        } else {
          newQueue := newQueue + [QueuePayload(filename, SourcePrefix + filename, fileId, vScan)];
          results := results + [Uploaded(filename)];
        }
      }
    }
    assert names[..|names|] == names;
    response := Response(200, UploadResults(results));
  }

  /** One file's result is under its name without the scan suffix, and the
      file is queued exactly when it succeeded. */
  lemma UploadOneShape(services: Services, name: string, blobs: map<string, SourceBlob>, queue: seq<QueuePayload>)
    ensures var (result, _, queue') := UploadOne(services, name, blobs, queue);
      && result.filename == SplitScanSuffix(name).0
      && queue' == queue + (if result.Uploaded? then [Payload(result.filename, SplitScanSuffix(name).1)] else [])
  {
  }

  /** One result per file, in order, under the file's name without the scan
      suffix; a file is queued exactly when it succeeded. */
  lemma {:induction false} UploadResultsPerFile(services: Services, names: seq<string>, blobs: map<string, SourceBlob>,
                                               queue: seq<QueuePayload>)
    ensures var (results, _, queue') := UploadAll(services, names, blobs, queue);
      && |results| == |names|
      && (forall k :: 0 <= k < |names| ==> results[k].filename == SplitScanSuffix(names[k]).0)
      && |queue'| == |queue| + CountUploaded(results)
    decreases |names|
  {
    if names != [] {
      var n := |names| - 1;
      UploadResultsPerFile(services, names[..n], blobs, queue);
      var (results, blobs', queue') := UploadAll(services, names[..n], blobs, queue);
      var (result, _, queue'') := UploadOne(services, names[n], blobs', queue');
      UploadOneShape(services, names[n], blobs', queue');
      UploadResultsStep(names, queue, results, queue', result, queue'');
      assert UploadAll(services, names, blobs, queue).0 == results + [result];
      assert UploadAll(services, names, blobs, queue).2 == queue'';
    }
  }

  /** The results of all files but the last, followed by the last one's. */
  lemma UploadResultsStep(names: seq<string>, queue: seq<QueuePayload>, results: seq<FileResult>, queue': seq<QueuePayload>,
                          result: FileResult, queue'': seq<QueuePayload>)
    requires names != [] && |results| == |names| - 1
    requires forall k :: 0 <= k < |results| ==> results[k].filename == SplitScanSuffix(names[k]).0
    requires |queue'| == |queue| + CountUploaded(results)
    requires result.filename == SplitScanSuffix(names[|names| - 1]).0
    requires |queue''| == |queue'| + (if result.Uploaded? then 1 else 0)
    ensures var r := results + [result];
      && (forall k :: 0 <= k < |names| ==> r[k].filename == SplitScanSuffix(names[k]).0)
      && |queue''| == |queue| + CountUploaded(r)
  {
    var r := results + [result];
    CountUploadedSnoc(results, result);
    forall k | 0 <= k < |names| ensures r[k].filename == SplitScanSuffix(names[k]).0 {
      if k < |results| {
        assert r[k] == results[k];
      } else {
        assert k == |results|;
      }
    }
  }

  /** How many of the results are successes. */
  function CountUploaded(results: seq<FileResult>): nat
    decreases |results|
  {
    if results == [] then 0
    else CountUploaded(results[..|results| - 1]) + (if results[|results| - 1].Uploaded? then 1 else 0)
  }

  lemma CountUploadedSnoc(results: seq<FileResult>, result: FileResult)
    ensures CountUploaded(results + [result]) == CountUploaded(results) + (if result.Uploaded? then 1 else 0)
  {
    assert (results + [result])[..|results|] == results;
  }

  // ---------------------------------------------------------------------------
  // delete_documents

  /** A delete request: not JSON, or a JSON body with or without "filename". */
  datatype DeleteRequest = NotJsonDelete | DeleteJson(filename: Option<string>)

  /** An exception the search service raises on the batch. */
  datatype ServiceError = HttpResponseError(message: string) | OtherError(errorType: string)

  /** What the handler does: a response, or the exception raised on. */
  datatype Outcome = Respond(response: Response) | Reraise(error: ServiceError)

  /** The message the search service gives for an empty batch. */
  const NoActionsMessage: string := "No indexing actions found in the request"

  /** What precedes the file name in the delete filter. */
  const FilterPrefix: string := "sourcefile eq '"

  /** The search filter of a file's sections, with the name put in unescaped. */
  function DeleteFilter(filename: string): string
  {
    FilterPrefix + filename + "'"
  }

  /** The filter with every quote of the name doubled, as OData string
      literals need. */
  function EscapedDeleteFilter(filename: string): string
  {
    FilterPrefix + Utils.EscapeQuotes(filename) + "'"
  }

  /** How the search service reads a filter that starts `sourcefile eq '`:
      one comparison when the string literal closes at the end of the filter
      (`''` standing for a quote), the comparison followed by more filter
      text when the literal closes earlier, and otherwise not as a
      comparison at all. */
  datatype FilterReading = SourcefileEquals(value: string) | MoreAfter(value: string, rest: string) | NoLiteral

  function ReadFilter(filter: string): FilterReading
  {
    if |filter| < |FilterPrefix| || filter[..|FilterPrefix|] != FilterPrefix then NoLiteral
    else
      match Utils.ReadLiteral(filter[|FilterPrefix|..])
      case None => NoLiteral
      case Some((value, rest)) => if rest == "" then SourcefileEquals(value) else MoreAfter(value, rest)
  }

  /** What the search service answers for a filter: the ids it selects, or
      the exception it raises. */
  datatype SearchAnswer = Selects(ids: set<string>) | Raises(error: ServiceError)

  /** The ids of the sections of a file. */
  function MatchingIds(index: Indexing.Index, filename: string): set<string>
  {
    set id | id in index && index[id].sourcefile == filename
  }

  /** The `except` clauses: the "no indexing actions" HTTP error counts as
      success, another HTTP error is raised on, and any other exception
      gives 500. */
  function Handled(error: ServiceError): (r: Outcome)
    ensures r.Reraise? <==> error.HttpResponseError? && !Contains(error.message, NoActionsMessage)
    ensures r.Reraise? ==> r.error == error
    ensures r.Respond? ==> r.response.status in {200, 500}
  {
    match error
    case HttpResponseError(m) =>
      if Contains(m, NoActionsMessage) then Respond(Response(200, Success)) else Reraise(error)
    case OtherError(t) => Respond(Response(500, ErrorReport(t)))
  }

  /** The `try` block of `delete_documents` for one filter: the service
      selects the sections the filter reads as, and deletes them in one
      batch. A filter read as one comparison selects the sections of that
      file; for any other filter `otherFilter` is what the service answers.
      An empty batch makes the service raise its "no indexing actions" error;
      `serviceError` is what it raises on a non-empty batch. */
  function DeleteBySearch(filter: string, index: Indexing.Index, otherFilter: SearchAnswer, serviceError: Option<ServiceError>)
    : (Outcome, Indexing.Index)
  {
    var found := match ReadFilter(filter)
      case SourcefileEquals(value) => Selects(MatchingIds(index, value))
      case _ => otherFilter;
    match found
    case Raises(e) => (Handled(e), index)
    case Selects(ids) =>
      var batch := ids * index.Keys;
      if batch == {} then (Handled(HttpResponseError(NoActionsMessage)), index)
      else
        match serviceError
        case None => (Respond(Response(200, Success)), index - batch)
        case Some(e) => (Handled(e), index)
  }

  /** `delete_documents`: 415 unless JSON, 400 without a file name; otherwise
      the sections the unescaped filter selects are deleted. */
  function DeleteDocuments(request: DeleteRequest, index: Indexing.Index, otherFilter: SearchAnswer,
                           serviceError: Option<ServiceError>)
    : (Outcome, Indexing.Index)
  {
    match request
    case NotJsonDelete => (Respond(Response(415, ErrorText("request must be json"))), index)
    case DeleteJson(None) => (Respond(Response(400, ErrorText("filename is required"))), index)
    case DeleteJson(Some(filename)) => DeleteBySearch(DeleteFilter(filename), index, otherFilter, serviceError)
  }

  /** The unescaped filter reads as a comparison with exactly the file name
      when, and only when, the name has no quote. */
  lemma DeleteFilterReadsName(filename: string)
    ensures ReadFilter(DeleteFilter(filename)) == SourcefileEquals(filename) <==> NoChar(filename, '\'')
  {
    var filter := DeleteFilter(filename);
    assert filter[..|FilterPrefix|] == FilterPrefix;
    assert filter[|FilterPrefix|..] == filename + "'";
    if NoChar(filename, '\'') {
      Utils.EscapeQuotesPlain(filename);
      Utils.EscapeQuotesReadsBack(filename, "");
      assert filename + "'" == Utils.EscapeQuotes(filename) + "'" + "";
    } else if ReadFilter(filter) == SourcefileEquals(filename) {
      Utils.ReadLiteralLength(filename + "'");
      CountCharNone(filename, '\'');
      assert false;
    }
  }

  /** The escaped filter reads as a comparison with exactly the file name,
      whatever the name holds. */
  lemma EscapedDeleteFilterReadsName(filename: string)
    ensures ReadFilter(EscapedDeleteFilter(filename)) == SourcefileEquals(filename)
  {
    var filter := EscapedDeleteFilter(filename);
    assert filter[..|FilterPrefix|] == FilterPrefix;
    assert filter[|FilterPrefix|..] == Utils.EscapeQuotes(filename) + "'" + "";
    Utils.EscapeQuotesReadsBack(filename, "");
  }

  /** Deleting by a filter read as a comparison with a file name succeeds,
      leaves no section of that file and every other section as it was. */
  lemma DeleteByNameRemovesExactlyTheFile(filter: string, filename: string, index: Indexing.Index, otherFilter: SearchAnswer)
    requires ReadFilter(filter) == SourcefileEquals(filename)
    ensures var (outcome, updated) := DeleteBySearch(filter, index, otherFilter, None);
      && outcome == Respond(Response(200, Success))
      && (forall id :: id in updated ==> updated[id].sourcefile != filename)
      && (forall id :: id in index && index[id].sourcefile != filename ==> id in updated && updated[id] == index[id])
  {
    var batch := MatchingIds(index, filename) * index.Keys;
    if batch == {} {
      NoActionsMessageContained();
      forall id | id in index ensures index[id].sourcefile != filename {
        assert id !in batch;
      }
    }
  }

  /** A successful deletion of a file whose name has no quote leaves no
      section of the file and every other section as it was. */
  lemma DeleteRemovesExactlyTheFile(filename: string, index: Indexing.Index, otherFilter: SearchAnswer)
    requires NoChar(filename, '\'')
    ensures var (outcome, updated) := DeleteDocuments(DeleteJson(Some(filename)), index, otherFilter, None);
      && outcome == Respond(Response(200, Success))
      && (forall id :: id in updated ==> updated[id].sourcefile != filename)
      && (forall id :: id in index && index[id].sourcefile != filename ==> id in updated && updated[id] == index[id])
  {
    DeleteFilterReadsName(filename);
    DeleteByNameRemovesExactlyTheFile(DeleteFilter(filename), filename, index, otherFilter);
  }

  /** With the escaped filter, the deletion removes exactly the file's
      sections for every file name. */
  lemma EscapedDeleteRemovesExactlyTheFile(filename: string, index: Indexing.Index, otherFilter: SearchAnswer)
    ensures var (outcome, updated) := DeleteBySearch(EscapedDeleteFilter(filename), index, otherFilter, None);
      && outcome == Respond(Response(200, Success))
      && (forall id :: id in updated ==> updated[id].sourcefile != filename)
      && (forall id :: id in index && index[id].sourcefile != filename ==> id in updated && updated[id] == index[id])
  {
    EscapedDeleteFilterReadsName(filename);
    DeleteByNameRemovesExactlyTheFile(EscapedDeleteFilter(filename), filename, index, otherFilter);
  }

  /** Deleting a quote-free file name with no sections succeeds and changes
      nothing, whatever the service would have raised on a batch. */
  lemma DeleteOfUnknownFileSucceeds(filename: string, index: Indexing.Index, otherFilter: SearchAnswer,
                                    serviceError: Option<ServiceError>)
    requires NoChar(filename, '\'')
    requires forall id :: id in index ==> index[id].sourcefile != filename
    ensures DeleteDocuments(DeleteJson(Some(filename)), index, otherFilter, serviceError) == (Respond(Response(200, Success)), index)
  {
    DeleteFilterReadsName(filename);
    assert MatchingIds(index, filename) * index.Keys == {};
    NoActionsMessageContained();
  }

  /** As written, the name `it's.pdf` closes the filter's literal after "it";
      the rest of the filter is a syntax error to the service, whose HTTP
      error is raised on and nothing is deleted. */
  lemma QuotedNameDeleteIsRaised(index: Indexing.Index, syntaxError: ServiceError, serviceError: Option<ServiceError>)
    requires syntaxError.HttpResponseError? && !Contains(syntaxError.message, NoActionsMessage)
    ensures ReadFilter(DeleteFilter("it's.pdf")) == MoreAfter("it", "s.pdf'")
    ensures DeleteDocuments(DeleteJson(Some("it's.pdf")), index, Raises(syntaxError), serviceError) == (Reraise(syntaxError), index)
  {
    var filter := DeleteFilter("it's.pdf");
    assert filter[..|FilterPrefix|] == FilterPrefix;
    assert filter[|FilterPrefix|..] == "it's.pdf'";
    ReadLiteralSteps("it", "'s.pdf'");
    assert "it" + "'s.pdf'" == "it's.pdf'";
    assert "'s.pdf'"[1..] == "s.pdf'";
  }

  /** A file name that closes the filter's literal and adds a clause. */
  const InjectedName: string := "x' or sourcefile ne 'y"

  /** As written, the name `x' or sourcefile ne 'y` turns the filter into
      `sourcefile eq 'x' or sourcefile ne 'y'`: a successful deletion then
      leaves only the sections of file `y`. */
  lemma InjectedNameDeletesOtherFiles(index: Indexing.Index)
    ensures ReadFilter(DeleteFilter(InjectedName)) == MoreAfter("x", " or sourcefile ne 'y'")
    ensures var selected := set id | id in index && (index[id].sourcefile == "x" || index[id].sourcefile != "y");
      var (outcome, updated) := DeleteDocuments(DeleteJson(Some(InjectedName)), index, Selects(selected), None);
      && outcome == Respond(Response(200, Success))
      && forall id :: id in updated ==> updated[id].sourcefile == "y"
  {
    InjectedFilterReading();
    NoActionsMessageContained();
    var selected := set id | id in index && (index[id].sourcefile == "x" || index[id].sourcefile != "y");
    var updated := DeleteDocuments(DeleteJson(Some(InjectedName)), index, Selects(selected), None).1;
    var batch := selected * index.Keys;
    assert updated == if batch == {} then index else index - batch;
    forall id | id in updated ensures updated[id].sourcefile == "y" {
      assert id in index && updated[id] == index[id];
      assert id !in batch;
    }
  }

  lemma InjectedFilterReading()
    ensures ReadFilter(DeleteFilter(InjectedName)) == MoreAfter("x", " or sourcefile ne 'y'")
  {
    var filter := DeleteFilter(InjectedName);
    var tail := "' or sourcefile ne 'y'";
    assert filter[..|FilterPrefix|] == FilterPrefix;
    assert filter[|FilterPrefix|..] == "x" + tail;
    ReadLiteralSteps("x", tail);
    assert tail[1..] == " or sourcefile ne 'y'";
  }

  /** The service's "no indexing actions" error carries its own message. */
  lemma NoActionsMessageContained()
    ensures Contains(NoActionsMessage, NoActionsMessage)
  {
    assert OccursAt(NoActionsMessage, NoActionsMessage, 0);
  }

  /** Reading quote-free characters before a closing quote keeps them. */
  lemma {:induction false} ReadLiteralSteps(plain: string, tail: string)
    requires NoChar(plain, '\'') && tail != [] && tail[0] == '\'' && (|tail| < 2 || tail[1] != '\'')
    ensures Utils.ReadLiteral(plain + tail) == Some((plain, tail[1..]))
    decreases |plain|
  {
    if plain == [] {
      assert plain + tail == tail;
    } else {
      assert NoChar(plain[1..], '\'') by {
        forall j | 0 <= j < |plain[1..]| ensures plain[1..][j] != '\'' { assert plain[1..][j] == plain[j + 1]; }
      }
      ReadLiteralSteps(plain[1..], tail);
      Utils.ReadLiteralPlain(plain[0], plain[1..] + tail);
      assert plain + tail == [plain[0]] + (plain[1..] + tail);
      assert [plain[0]] + plain[1..] == plain;
    }
  }

  /** Only an HTTP error without the "no indexing actions" message is raised
      on, and it is one the service raised; a delete only removes sections,
      and a refused or failed one changes nothing. */
  lemma DeleteOutcomes(request: DeleteRequest, index: Indexing.Index, otherFilter: SearchAnswer, serviceError: Option<ServiceError>)
    ensures var (outcome, updated) := DeleteDocuments(request, index, otherFilter, serviceError);
      && (outcome.Reraise? ==>
            && outcome.error.HttpResponseError? && !Contains(outcome.error.message, NoActionsMessage)
            && (serviceError == Some(outcome.error) || otherFilter == Raises(outcome.error)))
      && (forall id :: id in updated ==> id in index && updated[id] == index[id])
      && (outcome.Respond? && outcome.response.status != 200 ==> updated == index)
      && (outcome.Respond? ==> outcome.response.status in {200, 400, 415, 500})
  {
    NoActionsMessageContained();
  }

  // ---------------------------------------------------------------------------
  // chat

  /** A chat request: not JSON, or a JSON body with or without "messages". */
  datatype ChatRequest = NotJsonChat | ChatJson(messages: Option<seq<Messages.Message>>)

  /** `chat`: 415 unless JSON; a body without "messages" fails inside the
      handler with a `KeyError`, 500; otherwise the answer is streamed, and an
      error while streaming ends the stream with an error line instead. */
  function ChatResponse(request: ChatRequest): (r: Response)
    ensures r.status == 200 <==> request.ChatJson? && request.messages.Some?
    ensures r.status in {200, 415, 500}
  {
    match request
    case NotJsonChat => Response(415, ErrorText("request must be json"))
    case ChatJson(None) => Response(500, ErrorReport("<class 'KeyError'>"))
    case ChatJson(Some(_)) => Response(200, AnswerStream)
  }
}
