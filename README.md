# azure-llm-base: a verified model of the retrieval and ingestion core

This project models the logic of a retrieval-augmented chat backend and the
upload screens of its client. The backend ingests documents into a search
index and answers questions over them.

Ingestion covers two pipelines, a file analysed by Form Recognizer and a
scanned file read page by page by a vision model. Both pipelines:

- turn a document into a page map (one text per page, with running offsets);
- cut the concatenated text into overlapping sections (`split_text`);
- give each section a deterministic id and a source page;
- embed the sections under a retry policy;
- upsert them into the index in batches of at most 1000;
- index a summary of the file beside its content.

Chat covers:

- assembling the prompt under a token budget;
- choosing the search query;
- formatting the source lines;
- extracting follow-up questions;
- diverting the streamed answer once follow-up questions begin.

Around these sit smaller parts:

- the message list builder;
- file ids (Base16 of UTF-8) and search filters;
- the request rules of the HTTP endpoints;
- the upload table's validation and list updates;
- the document picker's dropdowns.

Every external service is an input. This covers:

- the analysis result;
- the vision model's reading of each page;
- the embedding attempts;
- the search results;
- the blob store and the search index, which are maps;
- the summary.

The tokenizer and the Unicode normalizer are abstract functions.

One module per source area:

| module | file | models |
|---|---|---|
| `Strings` | strings.dfy | the Python string methods the core uses, `html.escape` |
| `Retry` | retry.dfy | the tenacity policy: retry only on a rate limit, stop after N attempts |
| `Utils` | utils.dfy | `filename_to_id`, `build_filters`, `nonewlines` |
| `Messages` | message_builder.dfy | the message list, inserts, token counts |
| `Splitter` | splitter.dfy | `split_text` with `find_page`, shared by both pipelines |
| `Indexing` | indexing.dfy | section documents, ids, batching and upserts (`index_document`) |
| `SingleFileUpload` | single_file_upload.dfy | page map from an analysis result, `table_to_html`, blob names, `run` |
| `SingleFileScanUpload` | single_file_scan_upload.dfy | page images, `scan_page_images`, scan blobs, `run` with cleanup |
| `Chat` | chat.dfy | prompt assembly, search query, follow-ups, stream diversion |
| `App` | app.dfy | `content_file`, `upload_documents`, `delete_documents`, `chat` |
| `UploadTable` | upload_table.dfy | `verify`, `getMB`, file type, delete/toggle/process updates |
| `DocumentInput` | document_input.dfy | category and document options, category reset |

Where the source works in place, the model does too:

- the splitter, the page-text builder, the table writer, the batch loop and the chat loops are methods with loop invariants;
- `table_chars` is an `array`;
- `MessageBuilder` and the scan uploader are classes.

Each such method is proved equal to a specification function. The properties are proved about that function.

## Model

| member | source | states |
|---|---|---|
| Strings.HtmlEscapeRoundTrip | app/backend/llm/singlefileupload.py:84 | escaped cell content holds no `<`, `>`, `"` or `'` and unescapes back to the original text |
| Strings.SplitJoin | app/backend/llm/chat.py:126 | lines joined by a separator they do not contain split back into the same lines |
| Retry.CallWithRetry | app/backend/llm/singlefileupload.py:134-139 | attempts are made in order while rate limited and below the ceiling; the outcome is the last attempt's value or error, or giving up |
| Retry.RetriedGivesUp | app/backend/llm/singlefilescanupload.py:93-98 | the wrapper gives up exactly when every attempt the ceiling allows is rate limited |
| Retry.RetriedSettles | app/backend/llm/singlefilescanupload.py:143-148 | otherwise it returns the value of, or re-raises the error of, the first attempt that is not rate limited |
| Utils.FilenameToId | app/backend/utils/__init__.py:7-9 | the id has two hexadecimal digits per UTF-8 byte of the name |
| Utils.Utf8RoundTrip | app/backend/utils/__init__.py:8 | decoding the UTF-8 encoding of a text gives the text back |
| Utils.Base16RoundTrip | app/backend/utils/__init__.py:8 | decoding the Base16 (section 8 of RFC 4648) encoding of bytes gives the bytes back |
| Utils.FilenameToIdDecodes | app/backend/utils/__init__.py:7-9 | an id decodes back to the file name's bytes and so to the file name |
| Utils.FilenameToIdInjective | app/backend/utils/__init__.py:7-9 | two different file names never share an id |
| Utils.EscapeQuotes | app/backend/utils/__init__.py:35 | doubling quotes lengthens the text by its number of quotes |
| Utils.EscapeQuotesReadsBack | app/backend/utils/__init__.py:32-36 | an escaped category, read as an OData literal, is exactly the category, so a quote cannot end the literal early |
| Utils.BuildFilters | app/backend/utils/__init__.py:29-41 | no filter exactly when there are no excluded categories and no source files; otherwise the category clauses in order, then the source file clause, joined by " and " |
| Utils.NonNewlines | app/backend/utils/__init__.py:44-45 | same length, no line break left, every line break a space and every other character unchanged |
| Messages.InsertPosition | app/backend/utils/message_builder.py:52-54 | where `list.insert` puts an element: the index itself when in range, the end when past it, counted from the end when negative, clamped at 0 |
| Messages.InsertAt | app/backend/utils/message_builder.py:52-54 | the list grows by one, the new element sits at the position and the others keep their order around it |
| Messages.RemoveInserted | app/backend/utils/message_builder.py:52-54 | removing the inserted element gives the old list back |
| Messages.InsertKeepsFirst | app/backend/utils/message_builder.py:43-54 | an insert at index 1 or more leaves the system message first |
| Messages.TokenCount | app/backend/utils/message_builder.py:37-41 | a message count is always at least 2 |
| Messages.MessageTokenCount | app/backend/utils/message_builder.py:38-40 | a message's count is 2 plus the encoded lengths of its role and its content |
| Messages.NumTokensFromMessage | app/backend/utils/message_builder.py:23-41 | the loop's sum is the count over the message's values and is at least 2 |
| Messages.MessageBuilder.constructor | app/backend/utils/message_builder.py:17-21 | a new builder holds exactly the system message with normalized content |
| Messages.MessageBuilder.InsertMessage | app/backend/utils/message_builder.py:43-54 | the list becomes the old list with the message inserted at the `list.insert` position; role as given, content normalized |
| Messages.MessageBuilder.CountTokensForMessage | app/backend/utils/message_builder.py:56-57 | 2 plus the encoded lengths of role and content |
| Splitter.FindPage | app/backend/llm/singlefileupload.py:159-167 | the first page whose offset range holds the offset, or the last page when none does |
| Splitter.PageOwnership | app/backend/llm/singlefileupload.py:159-167 | in a page map with running offsets, the page found holds the character at that offset |
| Splitter.SectionEnd | app/backend/llm/singlefileupload.py:174-197 | the end lies past the overlap, within the text, and no more than the search limit plus one past the nominal end; short tails end at the text's end |
| Splitter.SectionEndBoundary | app/backend/llm/singlefileupload.py:180-194 | the end is just after the first sentence ending past the nominal end, else after the last word break before the limit, else at the limit |
| Splitter.SectionStart | app/backend/llm/singlefileupload.py:199-211 | the start is at most one past the loop position, and a section is at most 1000 + 2·100 characters long |
| Splitter.SectionStartBoundary | app/backend/llm/singlefileupload.py:199-211 | the start is at 0, just after a sentence ending or word break, or just after the search bound; it is after the last sentence ending when there is one |
| Splitter.NextStart | app/backend/llm/singlefileupload.py:216-229 | the next loop position always advances and stays an overlap before the end; in an open table it moves back to the table; it agrees with the source's rule whenever that rule advances |
| Splitter.Cuts | app/backend/llm/singlefileupload.py:173-232 | the sections are in bounds, at most 1200 characters, each starting no later than one past the previous end less the overlap, the last ending at the text's end; none exactly when the rest is within the overlap |
| Splitter.FindSectionEnd | app/backend/llm/singlefileupload.py:174-197 | the forward scan computes the section end |
| Splitter.FindSectionStart | app/backend/llm/singlefileupload.py:199-211 | the backward scan computes the section start |
| Splitter.NextSectionStart | app/backend/llm/singlefileupload.py:216-229 | the table rule computes the advancing next loop position |
| Splitter.SplitText | app/backend/llm/singlefileupload.py:153-232 | the loop yields the sections of the page map, each the text between its cut and tagged with the page of its first character |
| Splitter.NoSectionForShortText | app/backend/llm/singlefileupload.py:173-232 | no section exactly when the text has at most 100 characters; otherwise the first section starts at 0 |
| Splitter.SectionsCoverText | app/backend/llm/singlefileupload.py:173-232 | every character of a text longer than the overlap lies in some section |
| Splitter.SectionPagesOwnStart | app/backend/llm/singlefileupload.py:213-214 | each section's page is the page holding its first character |
| Splitter.CutsAsWritten | app/backend/llm/singlefileupload.py:173-229 | where the source's loop ends, its cuts lie within the text |
| Splitter.CutsAgreeAsWritten | app/backend/llm/singlefileupload.py:216-229 | where every position of the source's own rule advances, the bounded pull-back cuts exactly the source's sections |
| Splitter.SectionsAgreeAsWritten | app/backend/llm/singlefileupload.py:153-232 | where the source's loop ends on a document, `Sections` is what it yields |
| Splitter.TablePullBackStalls | app/backend/llm/singlefileupload.py:216-229 | on a 700-character text with an unclosed table at 250, the source's rule goes from 0 to 250 and then stays at 250; the corrected rule goes on to 600; the source's positions from 0 do not all advance |
| Indexing.SectionIdInjective | app/backend/llm/singlefileupload.py:247 | when neither file id nor tag contains '-', a section id determines file id, tag and section number |
| Indexing.UploadInBatches | app/backend/llm/singlefileupload.py:258-273 | the batches concatenate to the sections in order; none is empty, none holds more than 1000, and all but the last are full |
| Indexing.UploadBatches | app/backend/llm/singlefileupload.py:261-273 | uploading the batches one after the other is uploading all sections in order |
| Indexing.UploadHolds | app/backend/llm/singlefileupload.py:265 | after an upsert a key holds the last uploaded document with that key, or its old document when none was uploaded |
| Indexing.UploadAllFlatten | app/backend/llm/singlefileupload.py:261-273 | uploading batches equals uploading their concatenation |
| Indexing.UploadDistinctKeepsAll | app/backend/llm/singlefileupload.py:265 | with distinct ids every uploaded document ends up under its own id |
| Indexing.BuildSectionDocs | app/backend/llm/singlefileupload.py:244-256 | the loop builds one document per section in order, or propagates the first error |
| Indexing.PrefixError | app/backend/llm/singlefileupload.py:244-256 | an error at section i after i good sections is the error of the whole build |
| Indexing.IndexDocument | app/backend/llm/singlefileupload.py:234-273 | the index is upserted with all section documents, or the first error comes back with nothing uploaded |
| Indexing.SectionDocsShape | app/backend/llm/singlefileupload.py:244-256 | one document per section, document k being that of section k |
| Indexing.SectionDocShape | app/backend/llm/singlefileupload.py:246-255 | a section's document carries the id `{file_id}-{tag}-{i}`, the section text, its embedding, its named source page and the file's fields |
| Indexing.SectionDocsOk | app/backend/llm/singlefileupload.py:244-256 | the build succeeds exactly when every section's document does |
| Indexing.SectionDocsUnnamed | app/backend/llm/singlefileupload.py:251 | when no source page can be named, the first section raises; no sections raise nothing |
| Indexing.IndexKeepsEverySection | app/backend/llm/singlefileupload.py:247-265 | with dash-free file id and tag every section keeps its own index entry |
| Indexing.TaggedSectionsKept | app/backend/llm/singlefileupload.py:326-345 | with the summary sections tagged apart from the content, both kinds are kept after the summary upload |
| Indexing.SummaryOverwritesContentAsWritten | app/backend/llm/singlefileupload.py:336-345 | with both tagged "page", summary section k gets the id of content section k and replaces it; every summary section and every content section past the summary's count is kept |
| Indexing.ShortSummaryIsNotIndexed | app/backend/llm/singlefileupload.py:341-343 | a summary of at most 100 characters gives no section |
| SingleFileUpload.BlobNameFromFilePage | app/backend/llm/singlefileupload.py:44-47 | a blob name exists exactly when the file name has exactly one '.' |
| SingleFileUpload.BlobNameReplacesExtension | app/backend/llm/singlefileupload.py:44-47 | the blob name is the stem, "-page", the page number and ".txt" |
| SingleFileUpload.BlobNameInjective | app/backend/llm/singlefileupload.py:44-47 | distinct pages get distinct blob names |
| SingleFileUpload.SortByColumnProperties | app/backend/llm/singlefileupload.py:65-68 | the cells of a row come out sorted by column, as a permutation, and stable within equal columns |
| SingleFileUpload.InRow | app/backend/llm/singlefileupload.py:66 | the cells picked are of that row and come from the table |
| SingleFileUpload.BuildCellHtml | app/backend/llm/singlefileupload.py:74-84 | the loop body writes the reference HTML of a cell (`th` for headers, spans above one only, escaped content) |
| SingleFileUpload.AppendCells | app/backend/llm/singlefileupload.py:73-84 | the inner loop appends the HTML of the row's cells in order |
| SingleFileUpload.TableToHtml | app/backend/llm/singlefileupload.py:61-87 | the accumulated string is the reference HTML: `<table>`, one `<tr>` per row index in order, `</table>` |
| SingleFileUpload.RowCellsAreTheRow | app/backend/llm/singlefileupload.py:64-70 | each row's cells are exactly that row's cells, sorted by column and otherwise in table order |
| SingleFileUpload.TablesOnPage | app/backend/llm/singlefileupload.py:98-102 | the tables picked are on the page and come from the result |
| SingleFileUpload.MarkAt | app/backend/llm/singlefileupload.py:108-114 | a position's mark is a table covering it with no later table covering it, or -1 |
| SingleFileUpload.MarkTableChars | app/backend/llm/singlefileupload.py:104-114 | the fresh array holds the mark of every page position |
| SingleFileUpload.MarksMeaning | app/backend/llm/singlefileupload.py:104-114 | a position is unmarked exactly when no table covers it, and otherwise marked with the last covering table |
| SingleFileUpload.BuildPageText | app/backend/llm/singlefileupload.py:116-126 | the loop builds the page body followed by a space |
| SingleFileUpload.ExtractPageText | app/backend/llm/singlefileupload.py:97-126 | one iteration of the page loop computes that page's text |
| SingleFileUpload.GetDocumentText | app/backend/llm/singlefileupload.py:89-132 | the method builds the page map of the analysis result |
| SingleFileUpload.PageMapShape | app/backend/llm/singlefileupload.py:119-130 | one entry per page, numbered from 0, each offset the total length of the earlier page texts |
| SingleFileUpload.TableWrittenOnce | app/backend/llm/singlefileupload.py:118-124 | each marked table's HTML is written exactly once, at its first marked position, and nowhere else |
| SingleFileUpload.UnmarkedPageCopiesContent | app/backend/llm/singlefileupload.py:119-121 | unmarked characters are copied in order |
| SingleFileUpload.PageWithoutTables | app/backend/llm/singlefileupload.py:97-126 | a page without tables is its content span followed by a space |
| SingleFileUpload.SectionDocsBadName | app/backend/llm/singlefileupload.py:251 | a file name without exactly one '.' raises at the first section, and only when there is one |
| SingleFileUpload.FileIdHasNoDash | app/backend/utils/__init__.py:7-9 | a file id contains no '-' |
| SingleFileUpload.UploadBlobs | app/backend/llm/singlefileupload.py:53-59 | every page's text blob is stored; a file name without one '.' raises when there is a page |
| SingleFileUpload.StoredBlobsHoldPages | app/backend/llm/singlefileupload.py:53-59 | with distinct page numbers each page's blob holds its text and the file id |
| SingleFileUpload.StoreBlobsKeepsOthers | app/backend/llm/singlefileupload.py:53-59 | a name that is no page's blob name keeps what it held |
| SingleFileUpload.Run | app/backend/llm/singlefileupload.py:313-347 | blobs, content sections, then summary sections, a raising step leaving the later ones undone |
| SingleFileUpload.RunSummaryOverwritesContent | app/backend/llm/singlefileupload.py:326-345 | after a successful run every summary section is in the index under its id; content section k is replaced by summary section k for each k the summary has; the other content sections are kept |
| SingleFileScanUpload.TempImagePathInjective | app/backend/llm/singlefilescanupload.py:51-52 | distinct pages of a file never share an image path |
| SingleFileScanUpload.ImagesInPageOrder | app/backend/llm/singlefilescanupload.py:74-91 | one image per page, in page order, each at its own path |
| SingleFileScanUpload.ScanPageImages | app/backend/llm/singlefilescanupload.py:128-141 | the loop reads each image in turn and builds the page map, or propagates the first error |
| SingleFileScanUpload.ScannedTextsShape | app/backend/llm/singlefilescanupload.py:128-141 | the scan succeeds exactly when every image is read, text k being what image k reads |
| SingleFileScanUpload.ScanPagesShape | app/backend/llm/singlefilescanupload.py:128-141 | one entry per image keeping its page number, offsets the running sum of earlier text lengths |
| SingleFileScanUpload.ScanPrefixError | app/backend/llm/singlefilescanupload.py:131-132 | an error at image i after i good reads is the error of the whole scan |
| SingleFileScanUpload.UploadBlobs | app/backend/llm/singlefilescanupload.py:54-72 | every page's image and then its text are stored |
| SingleFileScanUpload.PageBlobNameInjective | app/backend/llm/singlefilescanupload.py:56-68 | a page blob name determines its page and its extension |
| SingleFileScanUpload.StoredScanBlobsHoldPages | app/backend/llm/singlefilescanupload.py:54-72 | with distinct page numbers each page's `.png` blob holds its image and `.txt` blob its text |
| SingleFileScanUpload.StoreScanBlobsKeepsOthers | app/backend/llm/singlefilescanupload.py:54-72 | names of no page's blobs keep what they held |
| SingleFileScanUpload.ScanSectionsNamedByIndex | app/backend/llm/singlefilescanupload.py:253-265 | section k gets id `{file_id}-page-k` and source page `{filename}-pagek.txt` from its section index, its text, and the copied summary and assessment flags |
| SingleFileScanUpload.ScanSectionDocsOk | app/backend/llm/singlefilescanupload.py:253-265 | building the scanned sections fails only on an embedding |
| SingleFileScanUpload.ScanUploader.constructor | app/backend/llm/singlefilescanupload.py:36-40 | the uploader starts over the files its temporary directory holds |
| SingleFileScanUpload.ScanUploader.SplitPdfIntoImages | app/backend/llm/singlefilescanupload.py:74-91 | one image per page, all written into the temporary directory |
| SingleFileScanUpload.ScanUploader.Cleanup | app/backend/llm/singlefilescanupload.py:366-368 | the temporary directory ends empty |
| SingleFileScanUpload.ScanUploader.Run | app/backend/llm/singlefilescanupload.py:329-375 | the temporary directory ends empty on success and on every error, and the error is handed back unchanged with the later steps undone |
| SingleFileScanUpload.ScannedPagesNumbered | app/backend/llm/singlefilescanupload.py:334-337 | a successful scan has one page per document page, numbered from 0, with running offsets |
| SingleFileScanUpload.RunStoresEveryPage | app/backend/llm/singlefilescanupload.py:337-340 | past the scan, every page's image and text are stored under their own names |
| SingleFileScanUpload.RunSummaryOverwritesContent | app/backend/llm/singlefilescanupload.py:345-364 | after a successful run every summary section is in the index under its id; content section k is replaced by summary section k for each k the summary has; the other content sections are kept |
| Chat.KeptWithinBudget | app/backend/llm/chat.py:237-252 | once any history is kept, the user message's tokens plus the kept messages' stay within the budget |
| Chat.KeptIsMaximal | app/backend/llm/chat.py:242-248 | the next older message would have overflowed the budget |
| Chat.AddFewShots | app/backend/llm/chat.py:231-232 | the examples, inserted in reverse at position 1, end up in their own order after the system message |
| Chat.AddHistory | app/backend/llm/chat.py:241-252 | the kept suffix of the history is inserted oldest first between the examples and the user message |
| Chat.StartPrompt | app/backend/llm/chat.py:228-239 | before the history the builder holds the system message, the examples and the user message |
| Chat.GetMessagesFromHistory | app/backend/llm/chat.py:228-253 | the method returns the prompt: system message, examples in order, kept history oldest first, user message last |
| Chat.HistoryMessagesShape | app/backend/llm/chat.py:228-253 | the prompt's parts by position, the history part a contiguous suffix of all but the last history message |
| Chat.HistoryMessagesLength | app/backend/llm/chat.py:241-252 | the number of history messages in the prompt is the number kept |
| Chat.HistoryWithinBudget | app/backend/llm/chat.py:237-252 | the prompt's history fits within 32000 tokens with the user message, and one more message would not fit |
| Chat.GetSearchQuery | app/backend/llm/chat.py:255-266 | the function call's query unless "0", else the message text unless it strips to "0", else the user's question |
| Chat.SearchQueryIsNeverNoResponse | app/backend/llm/chat.py:255-266 | "0" is searched only when the user asked "0" |
| Chat.SourceLineIsOneLine | app/backend/llm/chat.py:79-85 | a source line starts with "sourcepage: " and has no line break |
| Chat.SourcesSplitBack | app/backend/llm/chat.py:126-136 | the user message ends with the source lines, which split back line by line |
| Chat.TextBeforeFollowups | app/backend/llm/chat.py:269 | the text before the first "<<": a prefix without "<<", the whole text when there is none |
| Chat.MatchAt | app/backend/llm/chat.py:269 | a match of `<<([^>]+)>>` opens with "<<", closes with ">>" and has a non-empty group |
| Chat.FindFollowups | app/backend/llm/chat.py:269 | every question found is non-empty and holds no '>' |
| Chat.FollowupsRoundTrip | app/backend/llm/chat.py:269 | questions written in double angle brackets are found again, in order |
| Chat.NoMarkerNoQuestions | app/backend/llm/chat.py:269 | with no "<<" the text is kept whole and there is no question |
| Chat.WithContent | app/backend/llm/chat.py:187 | rewriting an event's delta leaves it with that content |
| Chat.RunWithStreaming | app/backend/llm/chat.py:155-206 | the loop yields the context event, the forwarded events, and the follow-up event |
| Chat.NextEvent | app/backend/llm/chat.py:180-193 | one loop turn passes on at most one event and updates the flag and buffer as the diversion rule says |
| Chat.StreamFraming | app/backend/llm/chat.py:164-206 | exactly one context event, first; one follow-up event, last, exactly when text was held back |
| Chat.EventWithoutChoicesIsDropped | app/backend/llm/chat.py:180 | an event without choices changes nothing |
| Chat.HeldBackOnceStarted | app/backend/llm/chat.py:190-191 | after diversion starts, an event without "<<" is held back, not passed on |
| Chat.MarkerCutsEvent | app/backend/llm/chat.py:183-189 | an event with "<<" passes on only its non-empty text before the "<<" and holds back the rest |
| Chat.NoSuggestionsForwardsAll | app/backend/llm/chat.py:179-193 | with suggestions off every event with choices is passed on unchanged and nothing is held back |
| Chat.ForwardedShowNoMarker | app/backend/llm/chat.py:179-193 | with suggestions on, no event passed on shows a "<<" |
| App.StripPageAnchor | app/backend/app.py:74-76 | before the last "#page=" when the first one is past the start, else the path unchanged |
| App.StripPageAnchorOfLink | app/backend/app.py:74-76 | a blob name plus a page anchor comes back as the blob name |
| App.SplitScanSuffix | app/backend/app.py:157-161 | a ".v-scan" ending marks a scan and exactly those seven characters go; other names are unchanged |
| App.SplitScanSuffixInverts | app/backend/app.py:157-161 | reading the client's sent name gives back the file name and the scan choice |
| App.Payload | app/backend/app.py:162-180 | the queue message carries the name, "sourcefiles/" plus the name, the file id and the scan flag |
| App.PayloadIdIdentifiesFile | app/backend/app.py:162 | a queue message's id determines its file |
| App.UploadDocuments | app/backend/app.py:146-185 | no files gives 400; otherwise 200 with the results of the files in order |
| App.UploadOneShape | app/backend/app.py:151-184 | a file's result is under its name without the suffix, and it is queued exactly when it succeeded |
| App.UploadResultsPerFile | app/backend/app.py:150-185 | one result per file in order, and one queue message per success |
| App.Handled | app/backend/app.py:250-257 | an exception is raised on exactly when it is an HTTP error without the "no indexing actions" message; otherwise 200 or 500 |
| App.DeleteFilterReadsName | app/backend/app.py:232 | the unescaped filter reads as a comparison with exactly the file name if and only if the name has no quote |
| App.EscapedDeleteFilterReadsName | app/backend/app.py:232 | with the name's quotes doubled, the filter reads as a comparison with exactly the name, for every name |
| App.DeleteByNameRemovesExactlyTheFile | app/backend/app.py:233-249 | a filter read as one file name deletes every section of that file and nothing else, and succeeds |
| App.DeleteRemovesExactlyTheFile | app/backend/app.py:224-249 | for a name without a quote, a successful delete leaves no section of the file and every other section as it was |
| App.EscapedDeleteRemovesExactlyTheFile | app/backend/app.py:232-249 | with the escaped filter, the delete removes exactly the file's sections for every name |
| App.DeleteOfUnknownFileSucceeds | app/backend/app.py:250-252 | deleting a quote-free name with no sections succeeds and changes nothing |
| App.QuotedNameDeleteIsRaised | app/backend/app.py:232-254 | `it's.pdf` closes the filter's literal after "it"; the service's syntax error is re-raised and nothing is deleted |
| App.InjectedNameDeletesOtherFiles | app/backend/app.py:232-249 | the name `x' or sourcefile ne 'y` adds a clause to the filter, and a successful delete leaves only the sections of file `y` |
| App.DeleteOutcomes | app/backend/app.py:224-257 | only an HTTP error without the "no indexing actions" message is re-raised, and only one the service raised; a delete only removes sections; a refused delete changes nothing |
| App.ChatResponse | app/backend/app.py:123-142 | 200 exactly for a JSON request with messages |
| UploadTable.FileTypeIsLastSegment | app/frontend/src/components/MultiFileUploadTable/MultiFileUploadTable.tsx:40 | the file type is what follows the last '.', or the whole name |
| UploadTable.TooLargeThreshold | app/frontend/src/components/MultiFileUploadTable/MultiFileUploadTable.tsx:28-30 | a file shows as over 10 MB exactly from 10491003 bytes on |
| UploadTable.VerifyFirstFailureWins | app/frontend/src/components/MultiFileUploadTable/MultiFileUploadTable.tsx:50-67 | each status holds exactly when the earlier checks pass and its own fails; ready when all pass |
| UploadTable.InitialList | app/frontend/src/components/MultiFileUploadTable/MultiFileUploadTable.tsx:34-46 | one row per picked file in order, not scanned, with the status `verify` gives |
| UploadTable.Without | app/frontend/src/components/MultiFileUploadTable/MultiFileUploadTable.tsx:93 | the rows kept are exactly those with another name |
| UploadTable.WithoutAppend | app/frontend/src/components/MultiFileUploadTable/MultiFileUploadTable.tsx:93 | the rows kept keep their order |
| UploadTable.DeleteRow | app/frontend/src/components/MultiFileUploadTable/MultiFileUploadTable.tsx:89-94 | a one-row table reloads the page; otherwise every row of that name goes |
| UploadTable.ToggleScan | app/frontend/src/components/MultiFileUploadTable/MultiFileUploadTable.tsx:143 | the toggle keeps the number of rows |
| UploadTable.ToggleChangesOnlyScan | app/frontend/src/components/MultiFileUploadTable/MultiFileUploadTable.tsx:142-143 | only `scan` changes, only on rows of that name; a second toggle overrides the first |
| UploadTable.WithStatus | app/frontend/src/components/MultiFileUploadTable/MultiFileUploadTable.tsx:72 | every row gets the status and keeps everything else |
| UploadTable.SentNames | app/frontend/src/api/api.ts:39 | one sent name per row |
| UploadTable.ProcessFilesKeepsRows | app/frontend/src/components/MultiFileUploadTable/MultiFileUploadTable.tsx:69-75 | the rows stay and only their status changes: unchanged when `getToken` throws, left "uploading" when `uploadDocumentsApi` throws, "processing" after it returns; the server reads each sent name back as the row's name and scan choice |
| DocumentInput.FirstIndex | app/frontend/src/components/DocumentInput/DocumentInput.tsx:25 | the first position of the option, or -1 exactly when absent |
| DocumentInput.FirstOccurrences | app/frontend/src/components/DocumentInput/DocumentInput.tsx:25 | the same options, each once at its first occurrence, in order |
| DocumentInput.CategoryOptions | app/frontend/src/components/DocumentInput/DocumentInput.tsx:20-26 | no document list gives no options; at most one option per document |
| DocumentInput.CategoryOptionsAreTheCategories | app/frontend/src/components/DocumentInput/DocumentInput.tsx:20-26 | every document's category is offered and nothing else is |
| DocumentInput.CategoryOptionsFirstOccurrenceOrder | app/frontend/src/components/DocumentInput/DocumentInput.tsx:25 | no option twice, in order of first occurrence |
| DocumentInput.DocumentOption | app/frontend/src/components/DocumentInput/DocumentInput.tsx:29-31 | keyed by id, shown as title then "(filename)" |
| DocumentInput.OptionsOf | app/frontend/src/components/DocumentInput/DocumentInput.tsx:27-31 | the options are exactly the documents of the chosen category |
| DocumentInput.OptionsOfAppend | app/frontend/src/components/DocumentInput/DocumentInput.tsx:27-31 | they keep the documents' order |
| DocumentInput.FindById | app/frontend/src/components/DocumentInput/DocumentInput.tsx:64 | finds a document with the id, and none exactly when no document has it |
| DocumentInput.ChosenDocumentIsFound | app/frontend/src/components/DocumentInput/DocumentInput.tsx:63-64 | an offered document is always found (the non-null assertion holds) and with distinct ids it is the one offered |
| DocumentInput.CategorySelectionRule | app/frontend/src/components/DocumentInput/DocumentInput.tsx:52-60 | clearing resets to "Default"/"Select Category" and disables the document dropdown; a chosen category enables it unless named "Default" |

## Left out

- External services are inputs: Form Recognizer's result, the vision model's reading of each image (always a text or an error: a reply without text, on which `len` raises a TypeError, is not modelled), every embedding attempt, the search results (captions only), the blob store, the queue and the search index.
- Retry waits (random exponential back-off, `time.sleep`) are not modelled; the attempt ceilings and the rate-limit-only rule are.
- The summary from the assistants API (thread polling and `eval` of model text) is an input record with title, category and summary.
- The tokenizer and NFC normalization are abstract functions passed in.
- PDF rendering, `encode_image` and image bytes are not modelled; an image stands for its path.
- `os.listdir` and `os.remove` are modelled as the temporary file set becoming empty.
- In the scan pipeline the PDF is split into images before the `try`, so an error there skips cleanup; the model follows this.
- The queue worker (`app/backend/tasks.py`), configuration, logging, assistant lookup and the tool schema have no modelled logic.
- The HTTP framework, routing and async generators are not modelled; a stream is a finite sequence of events.
- The stream's ndjson formatting and its error line are not modelled.
- React rendering, hooks and the loading flag are not modelled; an undefined file list is not modelled.
- `acceptedFileTypes` is the parameter `accepted`.
- Document metadata carries only the fields the picker reads.
- A function call's arguments are modelled as already parsed into an optional query.
- UploadTable.GetMB: the two-decimal display value is stated over integers (hundredths of a MiB), the only value the 10 MB test needs.
- Strings.Strip removes ASCII whitespace only, not every Unicode space.
- Chat.Count counts a message as 2 plus its two encoded values, which `Messages.MessageTokenCount` links to the summed loop.
- Chat.FindFollowups scans suffixes recursively instead of running a regex engine; it finds the matches `re.findall` finds.
- SingleFileUpload.GetDocumentText: requires every page's first span to lie inside the content; the source raises IndexError otherwise, and that error path is not modelled.
- SingleFileUpload.ExtractPageText: the same in-content requirement.
- SingleFileUpload.PageMapShape: the same in-content requirement.
- SingleFileUpload.PageWithoutTables: the same in-content requirement.
- SingleFileUpload.Run: the same in-content requirement on the analysis result.
- SingleFileUpload.RunSummaryOverwritesContent: the same in-content requirement.
- SingleFileUpload.Run: indexes the summary under the content's ids, as the code does (see Findings); the collision-free scheme is proved apart, in Indexing.TaggedSectionsKept.
- SingleFileScanUpload.ScanUploader.Run: the same ids as the code, with the same overwrite (see Findings).
- Splitter.SplitText: the table pull-back is taken only when it moves past the loop position, so the model's loop ends on texts where the source loops for ever (see Findings); where the source's loop ends the two agree (Splitter.SectionsAgreeAsWritten). Both pipelines index the sections of this loop.
- App.DeleteDocuments: the search service's reading of a filter is modelled only for a single `sourcefile eq` comparison; for any other filter, its answer (the ids it selects or the error it raises) is the input `otherFilter`. The validating search after the deletion is not modelled.
- App.DeleteRemovesExactlyTheFile: stated only for a file name without a quote; a quote ends the filter's literal early (see Findings).
- App.DeleteOfUnknownFileSucceeds: the same quote-free requirement.
- App.UploadDocuments: `names` is the list of files the handler's loop visits. `files.items()` on the request's multi-dict yields one file per form key, and the client sends every file under the key "document", so the handler may see only the first; that framework behaviour is not modelled. App.UploadResultsPerFile and UploadTable.ProcessFilesKeepsRows hold for the files the handler visits.
- Indexing.Upload: every upload call succeeds. A service error part way through the batches is not modelled. A document whose result reports no success is only logged by the source, and the model stores it.
- SingleFileUpload.UploadBlobs: storing a blob never fails in the model; a failure part way through the pages is not modelled.
- SingleFileScanUpload.UploadBlobs: the same; no image or text blob store fails.
- Utils.FilenameToId: a lone surrogate, on which the source's UTF-8 encoding raises UnicodeEncodeError, cannot occur in a Dafny string, so that error is not modelled.
- Behaviour the code has that a reader might not expect; the model follows the code:
  - a text of at most 100 characters gives no section;
  - the trailing section after the loop of `split_text` is never emitted, because the loop always ends with the start an overlap before the end;
  - the scan pipeline names a section's source page by the section index, not its page;
  - the delete filter puts the file name in unescaped, so a quote in the name changes the filter (see Findings);
  - a summary of at most 100 characters is never indexed;
  - after diversion starts, an event with a further "<<" still passes on its text before it;
  - a category named "Default" disables the document dropdown;
  - deleting from a one-row table reloads the page whichever row is deleted;
  - both status updates of `processFiles` start from the rows as they were before.

## Findings

| source | as written | input that shows it | evidently intended | confidence | as-written member | corrected member |
|---|---|---|---|---|---|---|
| app/backend/llm/singlefileupload.py:216-229 | the next start `min(end - 100, start + last_table_start)` uses the pulled-back section start, which can fall back to the loop position itself | 250 letters, `<table>`, 443 more letters (700 characters): the loop position goes 0, 250, 250, … and never ends | the pull-back bounded so the loop always advances, as the comment at 221-223 says | not executed | Splitter.TablePullBackStalls | Splitter.NextStart |
| app/backend/llm/singlefileupload.py:247 | `run` (SingleFileUpload.Run) indexes content and summary sections under the same ids `{file_id}-page-{i}` | any file with at least one content section and a summary over 100 characters: the summary's section 0 overwrites content section 0 | summary sections under ids of their own, so every content section stays in the index | not executed | SingleFileUpload.RunSummaryOverwritesContent | Indexing.TaggedSectionsKept |
| app/backend/llm/singlefilescanupload.py:255 | `run` (SingleFileScanUpload.ScanUploader.Run) indexes content and summary sections under the same ids `{file_id}-page-{i}` | any scanned file with at least one content section and a summary over 100 characters: the summary's section 0 overwrites content section 0 | summary sections under ids of their own, so every content section stays in the index | not executed | SingleFileScanUpload.RunSummaryOverwritesContent | Indexing.TaggedSectionsKept |
| app/backend/app.py:232 | the file name goes into the filter `sourcefile eq '{filename}'` without doubling its quotes | `it's.pdf`: the literal closes after "it", the service fails on the rest, and the error is raised on | the name's quotes doubled, as app/backend/utils/__init__.py:35 does for categories, so the filter selects exactly the file | not executed | App.QuotedNameDeleteIsRaised | App.EscapedDeleteRemovesExactlyTheFile |
| app/backend/app.py:232 | the same unescaped filter | `x' or sourcefile ne 'y`: the filter becomes `sourcefile eq 'x' or sourcefile ne 'y'`, and the delete removes every section not of file `y` | the same escaping | not executed | App.InjectedNameDeletesOtherFiles | App.EscapedDeleteRemovesExactlyTheFile |
