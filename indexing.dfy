/** What both ingestion pipelines hand to the search index: the section
    documents, the batches of at most 1000 in which `index_document` uploads
    them, and the effect of an upload on the index, which stores documents by
    key and replaces a document whose key is already present.
 */
module Indexing {
  import opened Strings
  import opened Splitter
  import Retry

  /** A search-index document of one section. `isAssessment` is present only
      for sections of scanned files. The embedding vector is opaque here. */
  datatype SearchDocument = SearchDocument(
    id: string,
    content: string,
    title: string,
    category: string,
    sourcepage: string,
    sourcefile: string,
    isSummary: bool,
    isAssessment: Option<bool>,
    embedding: seq<real>)

  /** An operation that either produces a value or raises `error`. */
  datatype Result<T> = Ok(value: T) | Err(error: string)

  const BatchSize: nat := 1000

  /** `f"{file_id}-{tag}-{i}"`, the id of section `i` of a file. */
  function SectionId(fileId: string, tag: string, i: nat): string
  {
    fileId + "-" + tag + "-" + NatToString(i)
  }

  lemma JoinThree(a: string, b: string, c: string)
    ensures Join([a, b, c], "-") == a + "-" + b + "-" + c
  {
    assert [a, b, c][1..] == [b, c];
    assert [b, c][1..] == [c];
    assert Join([b, c], "-") == b + "-" + c;
  }

  lemma DigitsHaveNoDash(s: string)
    requires IsDigits(s)
    ensures NoChar(s, '-')
  {
  }

  /** When neither the file id nor the tag contains '-', the id determines
      the file id, the tag and the section number. */
  lemma SectionIdInjective(f1: string, t1: string, i: nat, f2: string, t2: string, j: nat)
    requires NoChar(f1, '-') && NoChar(t1, '-') && NoChar(f2, '-') && NoChar(t2, '-')
    requires SectionId(f1, t1, i) == SectionId(f2, t2, j)
    ensures f1 == f2 && t1 == t2 && i == j
  {
    DigitsHaveNoDash(NatToString(i));
    DigitsHaveNoDash(NatToString(j));
    JoinThree(f1, t1, NatToString(i));
    JoinThree(f2, t2, NatToString(j));
    SplitJoin([f1, t1, NatToString(i)], '-');
    SplitJoin([f2, t2, NatToString(j)], '-');
    NatToStringInjective(i, j);
  }

  /** The concatenation of the batches, in order. */
  function Flatten<T>(batches: seq<seq<T>>): seq<T>
    decreases |batches|
  {
    if batches == [] then [] else batches[0] + Flatten(batches[1..])
  }

  lemma {:induction false} FlattenSnoc<T>(batches: seq<seq<T>>, b: seq<T>)
    ensures Flatten(batches + [b]) == Flatten(batches) + b
    decreases |batches|
  {
    if batches == [] {
      assert [b][1..] == [];
    } else {
      assert (batches + [b])[1..] == batches[1..] + [b];
      FlattenSnoc(batches[1..], b);
    }
  }

  /** The running count modulo `BatchSize` goes up by one, or wraps to 0
      when a batch is full. */
  lemma BatchCountStep(i: nat)
    ensures (i + 1) % BatchSize == if i % BatchSize == BatchSize - 1 then 0 else i % BatchSize + 1
  {
  }

  /** The upload loop of `index_document`: a batch is sent whenever the
      running count reaches a multiple of `BatchSize`, and the remainder is
      sent only when it is not empty. Every section is sent exactly once and
      in order, every batch but the last is full, and no batch is empty. */
  method UploadInBatches<T>(sections: seq<T>) returns (batches: seq<seq<T>>)
    ensures Flatten(batches) == sections
    ensures forall k :: 0 <= k < |batches| ==> 1 <= |batches[k]| <= BatchSize
    ensures forall k :: 0 <= k < |batches| - 1 ==> |batches[k]| == BatchSize
  {
    batches := [];
    var batch: seq<T> := [];
    var i := 0;
    while i < |sections|
      invariant 0 <= i <= |sections|
      invariant Flatten(batches) + batch == sections[..i]
      invariant |batch| == i % BatchSize
      invariant forall k :: 0 <= k < |batches| ==> |batches[k]| == BatchSize
    {
      assert sections[..i + 1] == sections[..i] + [sections[i]];
      ConcatAssoc(Flatten(batches), batch, [sections[i]]);
      BatchCountStep(i);
      batch := batch + [sections[i]];
      i := i + 1;
      if i % BatchSize == 0 {
        FlattenSnoc(batches, batch);
        batches := batches + [batch];
        batch := [];
      }
    }
    assert sections[..i] == sections;
    if |batch| > 0 {
      FlattenSnoc(batches, batch);
      batches := batches + [batch];
    }
  }

  // ---------------------------------------------------------------------------
  // The index

  type Index = map<string, SearchDocument>

  /** `upload_documents`: each document is stored under its id, replacing any
      document with the same id; later documents win. */
  function Upload(index: Index, docs: seq<SearchDocument>): Index
    decreases |docs|
  {
    if docs == [] then index else Upload(index[docs[0].id := docs[0]], docs[1..])
  }

  function UploadAll(index: Index, batches: seq<seq<SearchDocument>>): Index
    decreases |batches|
  {
    if batches == [] then index else UploadAll(Upload(index, batches[0]), batches[1..])
  }

  /** After an upload, a key holds the last uploaded document with that key,
      or what it held before when none was uploaded. */
  lemma {:induction false} UploadHolds(index: Index, docs: seq<SearchDocument>, key: string)
    ensures key in Upload(index, docs) <==> key in index || exists k :: 0 <= k < |docs| && docs[k].id == key
    ensures (exists k :: 0 <= k < |docs| && docs[k].id == key)
      ==> exists k :: (0 <= k < |docs| && docs[k].id == key && Upload(index, docs)[key] == docs[k]
                       && forall j :: k < j < |docs| ==> docs[j].id != key)
    ensures (forall k :: 0 <= k < |docs| ==> docs[k].id != key) && key in index
      ==> Upload(index, docs)[key] == index[key]
    decreases |docs|
  {
    if docs != [] {
      var next := index[docs[0].id := docs[0]];
      UploadHolds(next, docs[1..], key);
      assert forall k :: 1 <= k < |docs| ==> docs[k] == docs[1..][k - 1];
      if exists k :: 1 <= k < |docs| && docs[k].id == key {
        var k' :| 0 <= k' < |docs[1..]| && docs[1..][k'].id == key && Upload(next, docs[1..])[key] == docs[1..][k']
          && forall j :: k' < j < |docs[1..]| ==> docs[1..][j].id != key;
        assert docs[k' + 1] == docs[1..][k'];
        assert forall j :: k' + 1 < j < |docs| ==> docs[j] == docs[1..][j - 1];
      } else if docs[0].id == key {
        assert forall j :: 0 < j < |docs| ==> docs[j].id != key;
      }
    }
  }

  /** Uploading batches is uploading their concatenation. */
  lemma {:induction false} UploadAllFlatten(index: Index, batches: seq<seq<SearchDocument>>)
    ensures UploadAll(index, batches) == Upload(index, Flatten(batches))
    decreases |batches|
  {
    if batches != [] {
      UploadAllFlatten(Upload(index, batches[0]), batches[1..]);
      UploadConcat(index, batches[0], Flatten(batches[1..]));
    }
  }

  lemma {:induction false} UploadConcat(index: Index, a: seq<SearchDocument>, b: seq<SearchDocument>)
    ensures Upload(index, a + b) == Upload(Upload(index, a), b)
    decreases |a|
  {
    if a != [] {
      assert (a + b)[0] == a[0];
      assert (a + b)[1..] == a[1..] + b;
      UploadConcat(index[a[0].id := a[0]], a[1..], b);
    } else {
      assert a + b == b;
    }
  }

  /** When the ids of the uploaded documents are pairwise distinct, every
      document ends up in the index under its own id. */
  lemma UploadDistinctKeepsAll(index: Index, docs: seq<SearchDocument>)
    requires forall j, k :: 0 <= j < k < |docs| ==> docs[j].id != docs[k].id
    ensures forall k :: 0 <= k < |docs| ==> docs[k].id in Upload(index, docs) && Upload(index, docs)[docs[k].id] == docs[k]
  {
    forall k | 0 <= k < |docs|
      ensures docs[k].id in Upload(index, docs) && Upload(index, docs)[docs[k].id] == docs[k]
    {
      UploadHolds(index, docs, docs[k].id);
    }
  }

  /** The upload calls of `index_document`, one batch after the other. */
  method UploadBatches(index: Index, batches: seq<seq<SearchDocument>>) returns (updated: Index)
    ensures updated == Upload(index, Flatten(batches))
  {
    updated := index;
    for b := 0 to |batches|
      invariant updated == Upload(index, Flatten(batches[..b]))
    {
      ghost var done := batches[..b];
      assert batches[..b + 1] == done + [batches[b]];
      FlattenSnoc(done, batches[b]);
      UploadConcat(index, Flatten(done), batches[b]);
      updated := Upload(updated, batches[b]);
    }
    assert batches[..|batches|] == batches;
  }

  // ---------------------------------------------------------------------------
  // Section documents

  /** `embed(text)(k)` is what the embedding service does on attempt `k` for `text`. */
  type Embedder = string -> nat -> Retry.Attempt<seq<real>>

  /** How a pipeline names the source page of section `i`; `None` when the
      naming raises. */
  type SourcePager = (nat, Chunk) -> Option<string>

  /** The fields that `index_document` copies onto every section of a call,
      with the tag of the section ids. */
  datatype Fields = Fields(
    title: string,
    category: string,
    sourcefile: string,
    fileId: string,
    tag: string,
    isSummary: bool,
    isAssessment: Option<bool>)

  /** The tag of the section ids in both pipelines. */
  const PageTag: string := "page"

  /** The tag the summary sections need so as not to collide with the content
      sections (see `SummaryOverwritesContentAsWritten`); neither
      pipeline uses it (see `TaggedSectionsKept`). */
  const SummaryTag: string := "summary"

  /** What `compute_embedding` raises once its retries are exhausted. */
  const RetryErrorName: string := "RetryError"

  /** What a source page naming that fails raises. */
  const ValueErrorName: string := "ValueError"

  /** The embedding of one text under the 15-attempt retry policy. */
  function Embedding(embed: Embedder, content: string): Result<seq<real>>
  {
    match Retry.Retried(embed(content), Retry.EmbeddingAttempts)
    case Done(v) => Ok(v)
    case Failed(e) => Err(e)
    case GaveUp => Err(RetryErrorName)
  }

  /** The document of section `i`; its source page is named (and may raise)
      before the embedding is requested. */
  function SectionDoc(fields: Fields, sourcepage: SourcePager, embed: Embedder, i: nat, chunk: Chunk): Result<SearchDocument>
  {
    match sourcepage(i, chunk)
    case None => Err(ValueErrorName)
    case Some(page) =>
      match Embedding(embed, chunk.content)
      case Err(e) => Err(e)
      case Ok(v) => Ok(SearchDocument(SectionId(fields.fileId, fields.tag, i), chunk.content, fields.title, fields.category,
                                      page, fields.sourcefile, fields.isSummary, fields.isAssessment, v))
  }

  /** The documents of all sections in order, or the first error. */
  function SectionDocs(fields: Fields, sourcepage: SourcePager, embed: Embedder, chunks: seq<Chunk>): Result<seq<SearchDocument>>
    decreases |chunks|
  {
    if chunks == [] then Ok([])
    else
      var n := |chunks| - 1;
      match SectionDocs(fields, sourcepage, embed, chunks[..n])
      case Err(e) => Err(e)
      case Ok(docs) =>
        match SectionDoc(fields, sourcepage, embed, n, chunks[n])
        case Err(e) => Err(e)
        case Ok(d) => Ok(docs + [d])
  }

  /** Step 1 of `index_document`: one document per section, in order; the
      first error raised propagates. */
  method BuildSectionDocs(fields: Fields, sourcepage: SourcePager, embed: Embedder, chunks: seq<Chunk>)
    returns (r: Result<seq<SearchDocument>>)
    ensures r == SectionDocs(fields, sourcepage, embed, chunks)
  {
    var sections: seq<SearchDocument> := [];
    for i := 0 to |chunks|
      invariant SectionDocs(fields, sourcepage, embed, chunks[..i]) == Ok(sections)
    {
      assert chunks[..i + 1][..i] == chunks[..i];
      var chunk := chunks[i];
      ghost var expected := SectionDoc(fields, sourcepage, embed, i, chunk);
      var page := sourcepage(i, chunk);
      if page.None? {
        PrefixError(fields, sourcepage, embed, chunks, i);
        return Err(ValueErrorName);
      }
      var attempt, _ := Retry.CallWithRetry(embed(chunk.content), Retry.EmbeddingAttempts);
      if attempt.Failed? {
        assert expected == Err(attempt.error);
        PrefixError(fields, sourcepage, embed, chunks, i);
        return Err(attempt.error);
      } else if attempt.GaveUp? {
        assert expected == Err(RetryErrorName);
        PrefixError(fields, sourcepage, embed, chunks, i);
        return Err(RetryErrorName);
      }
      var section := SearchDocument(SectionId(fields.fileId, fields.tag, i), chunk.content, fields.title, fields.category,
                                    page.value, fields.sourcefile, fields.isSummary, fields.isAssessment, attempt.value);
      assert expected == Ok(section);
      sections := sections + [section];
    }
    assert chunks[..|chunks|] == chunks;
    r := Ok(sections);
  }

  /** An error at section `i`, after `i` documents were built, is the error of all sections. */
  lemma {:induction false} PrefixError(fields: Fields, sourcepage: SourcePager, embed: Embedder, chunks: seq<Chunk>, i: nat)
    requires i < |chunks|
    requires SectionDocs(fields, sourcepage, embed, chunks[..i]).Ok?
    requires SectionDoc(fields, sourcepage, embed, i, chunks[i]).Err?
    ensures SectionDocs(fields, sourcepage, embed, chunks) == Err(SectionDoc(fields, sourcepage, embed, i, chunks[i]).error)
    decreases |chunks|
  {
    var n := |chunks| - 1;
    assert chunks[..i + 1][..i] == chunks[..i];
    if i < n {
      assert chunks[..n][..i] == chunks[..i];
      PrefixError(fields, sourcepage, embed, chunks[..n], i);
    }
  }

  /** `index_document`: the sections of the page map become documents, which
      are uploaded in batches once all of them are built; an error raised
      while building them propagates before anything is uploaded. */
  method IndexDocument(index: Index, fields: Fields, sourcepage: SourcePager, embed: Embedder, pageMap: seq<Page>)
    returns (r: Result<Index>)
    ensures var docs := SectionDocs(fields, sourcepage, embed, Sections(pageMap));
      r == if docs.Ok? then Ok(Upload(index, docs.value)) else Err(docs.error)
  {
    var chunks := SplitText(pageMap);
    var built := BuildSectionDocs(fields, sourcepage, embed, chunks);
    if built.Err? {
      return Err(built.error);
    }
    var batches := UploadInBatches(built.value);
    var updated := UploadBatches(index, batches);
    r := Ok(updated);
  }

  /** The documents built for the sections: one per section, in order, each
      the document of its section number and section. */
  lemma {:induction false} SectionDocsShape(fields: Fields, sourcepage: SourcePager, embed: Embedder, chunks: seq<Chunk>)
    requires SectionDocs(fields, sourcepage, embed, chunks).Ok?
    ensures var docs := SectionDocs(fields, sourcepage, embed, chunks).value;
      && |docs| == |chunks|
      && forall k :: 0 <= k < |docs| ==> SectionDoc(fields, sourcepage, embed, k, chunks[k]) == Ok(docs[k])
    decreases |chunks|
  {
    if chunks != [] {
      var n := |chunks| - 1;
      SectionDocsShape(fields, sourcepage, embed, chunks[..n]);
      assert forall k :: 0 <= k < n ==> chunks[..n][k] == chunks[k];
    }
  }

  /** A section's document: its id numbers it, it carries the section's
      text and embedding, the source page named for it, and the call's fields. */
  lemma SectionDocShape(fields: Fields, sourcepage: SourcePager, embed: Embedder, i: nat, chunk: Chunk)
    requires SectionDoc(fields, sourcepage, embed, i, chunk).Ok?
    ensures var d := SectionDoc(fields, sourcepage, embed, i, chunk).value;
      && d.id == SectionId(fields.fileId, fields.tag, i)
      && d.content == chunk.content
      && sourcepage(i, chunk) == Some(d.sourcepage)
      && d.sourcefile == fields.sourcefile && d.title == fields.title && d.category == fields.category
      && d.isSummary == fields.isSummary && d.isAssessment == fields.isAssessment
      && Embedding(embed, chunk.content) == Ok(d.embedding)
  {
  }

  /** The documents are built exactly when every section's document is. */
  lemma {:induction false} SectionDocsOk(fields: Fields, sourcepage: SourcePager, embed: Embedder, chunks: seq<Chunk>)
    ensures SectionDocs(fields, sourcepage, embed, chunks).Ok?
        <==> forall k :: 0 <= k < |chunks| ==> SectionDoc(fields, sourcepage, embed, k, chunks[k]).Ok?
    decreases |chunks|
  {
    if chunks != [] {
      SectionDocsOk(fields, sourcepage, embed, chunks[..|chunks| - 1]);
      SectionDocsOkStep(fields, sourcepage, embed, chunks, chunks[..|chunks| - 1]);
    }
  }

  lemma SectionDocsOkStep(fields: Fields, sourcepage: SourcePager, embed: Embedder, chunks: seq<Chunk>, prefix: seq<Chunk>)
    requires chunks != [] && prefix == chunks[..|chunks| - 1]
    requires SectionDocs(fields, sourcepage, embed, prefix).Ok?
        <==> forall k :: 0 <= k < |prefix| ==> SectionDoc(fields, sourcepage, embed, k, prefix[k]).Ok?
    ensures SectionDocs(fields, sourcepage, embed, chunks).Ok?
        <==> forall k :: 0 <= k < |chunks| ==> SectionDoc(fields, sourcepage, embed, k, chunks[k]).Ok?
  {
    var n := |chunks| - 1;
    assert SectionDocs(fields, sourcepage, embed, chunks).Ok?
        <==> SectionDocs(fields, sourcepage, embed, prefix).Ok? && SectionDoc(fields, sourcepage, embed, n, chunks[n]).Ok?;
    if SectionDocs(fields, sourcepage, embed, chunks).Ok? {
      forall k | 0 <= k < |chunks| ensures SectionDoc(fields, sourcepage, embed, k, chunks[k]).Ok? {
        if k < n {
          assert prefix[k] == chunks[k];
        } else {
          assert k == n;
        }
      }
    } else if SectionDocs(fields, sourcepage, embed, prefix).Ok? {
      assert !SectionDoc(fields, sourcepage, embed, n, chunks[n]).Ok?;
    } else {
      var k :| 0 <= k < |prefix| && !SectionDoc(fields, sourcepage, embed, k, prefix[k]).Ok?;
      assert prefix[k] == chunks[k];
    }
  }

  /** When no section's source page can be named, the first section raises;
      with no sections nothing is built and nothing raises. */
  lemma {:induction false} SectionDocsUnnamed(fields: Fields, sourcepage: SourcePager, embed: Embedder, chunks: seq<Chunk>)
    requires forall i: nat, c: Chunk :: sourcepage(i, c) == None
    ensures SectionDocs(fields, sourcepage, embed, chunks) == if chunks == [] then Ok([]) else Err(ValueErrorName)
    decreases |chunks|
  {
    if chunks != [] {
      SectionDocsUnnamed(fields, sourcepage, embed, chunks[..|chunks| - 1]);
    }
  }

  /** When neither the file id nor the tag contains '-', every uploaded
      section keeps its own entry in the index. */
  lemma IndexKeepsEverySection(index: Index, fields: Fields, sourcepage: SourcePager, embed: Embedder, chunks: seq<Chunk>)
    requires NoChar(fields.fileId, '-') && NoChar(fields.tag, '-')
    requires SectionDocs(fields, sourcepage, embed, chunks).Ok?
    ensures var docs := SectionDocs(fields, sourcepage, embed, chunks).value;
      forall k :: 0 <= k < |docs| ==> docs[k].id in Upload(index, docs) && Upload(index, docs)[docs[k].id] == docs[k]
  {
    var docs := SectionDocs(fields, sourcepage, embed, chunks).value;
    SectionDocsShape(fields, sourcepage, embed, chunks);
    forall j, k | 0 <= j < k < |docs| ensures docs[j].id != docs[k].id {
      SectionDocShape(fields, sourcepage, embed, j, chunks[j]);
      SectionDocShape(fields, sourcepage, embed, k, chunks[k]);
      if docs[j].id == docs[k].id {
        SectionIdInjective(fields.fileId, fields.tag, j, fields.fileId, fields.tag, k);
      }
    }
    UploadDistinctKeepsAll(index, docs);
  }

  // ---------------------------------------------------------------------------
  // Content and summary sections of one file

  /** The corrected id scheme: content sections tagged `PageTag` and summary
      sections tagged `SummaryTag` never share an id, so uploading the summary
      after the content leaves every content section in place. */
  lemma TaggedSectionsKept(index: Index, content: Fields, summary: Fields, contentPager: SourcePager, summaryPager: SourcePager,
                           embed: Embedder, chunks: seq<Chunk>, summaryChunks: seq<Chunk>)
    requires content.fileId == summary.fileId && NoChar(content.fileId, '-')
    requires content.tag == PageTag && summary.tag == SummaryTag
    requires SectionDocs(content, contentPager, embed, chunks).Ok?
    requires SectionDocs(summary, summaryPager, embed, summaryChunks).Ok?
    ensures var docs := SectionDocs(content, contentPager, embed, chunks).value;
      var summaryDocs := SectionDocs(summary, summaryPager, embed, summaryChunks).value;
      var final := Upload(Upload(index, docs), summaryDocs);
      && (forall k :: 0 <= k < |docs| ==> docs[k].id in final && final[docs[k].id] == docs[k])
      && (forall k :: 0 <= k < |summaryDocs| ==> summaryDocs[k].id in final && final[summaryDocs[k].id] == summaryDocs[k])
  {
    var docs := SectionDocs(content, contentPager, embed, chunks).value;
    var summaryDocs := SectionDocs(summary, summaryPager, embed, summaryChunks).value;
    var indexed := Upload(index, docs);
    IndexKeepsEverySection(index, content, contentPager, embed, chunks);
    IndexKeepsEverySection(indexed, summary, summaryPager, embed, summaryChunks);
    SectionDocsShape(content, contentPager, embed, chunks);
    SectionDocsShape(summary, summaryPager, embed, summaryChunks);
    forall k | 0 <= k < |docs|
      ensures docs[k].id in Upload(indexed, summaryDocs) && Upload(indexed, summaryDocs)[docs[k].id] == docs[k]
    {
      SectionDocShape(content, contentPager, embed, k, chunks[k]);
      forall j | 0 <= j < |summaryDocs| ensures summaryDocs[j].id != docs[k].id {
        SectionDocShape(summary, summaryPager, embed, j, summaryChunks[j]);
        if summaryDocs[j].id == docs[k].id {
          SectionIdInjective(content.fileId, SummaryTag, j, content.fileId, PageTag, k);
        }
      }
      UploadHolds(indexed, summaryDocs, docs[k].id);
    }
  }

  /** As written, both pipelines give the summary sections the ids
      `{file_id}-page-{i}` of the content sections: uploading the summary
      after the content replaces content section `k` by summary section `k`
      for every `k` the summary has, and keeps every other content section and
      every summary section under its own id. */
  lemma SummaryOverwritesContentAsWritten(index: Index, content: Fields, summary: Fields, contentPager: SourcePager,
                                          summaryPager: SourcePager, embed: Embedder, chunks: seq<Chunk>, summaryChunks: seq<Chunk>)
    requires content.fileId == summary.fileId && NoChar(content.fileId, '-')
    requires content.tag == PageTag && summary.tag == PageTag
    requires !content.isSummary && summary.isSummary
    requires SectionDocs(content, contentPager, embed, chunks).Ok?
    requires SectionDocs(summary, summaryPager, embed, summaryChunks).Ok?
    ensures var docs := SectionDocs(content, contentPager, embed, chunks).value;
      var summaryDocs := SectionDocs(summary, summaryPager, embed, summaryChunks).value;
      var final := Upload(Upload(index, docs), summaryDocs);
      && (forall k :: 0 <= k < |summaryDocs| ==> summaryDocs[k].id in final && final[summaryDocs[k].id] == summaryDocs[k])
      && (forall k :: 0 <= k < |docs| && k < |summaryDocs| ==>
            docs[k].id == summaryDocs[k].id && final[docs[k].id] == summaryDocs[k] && final[docs[k].id] != docs[k])
      && (forall k :: |summaryDocs| <= k < |docs| ==> docs[k].id in final && final[docs[k].id] == docs[k])
  {
    var docs := SectionDocs(content, contentPager, embed, chunks).value;
    var summaryDocs := SectionDocs(summary, summaryPager, embed, summaryChunks).value;
    var indexed := Upload(index, docs);
    IndexKeepsEverySection(index, content, contentPager, embed, chunks);
    IndexKeepsEverySection(indexed, summary, summaryPager, embed, summaryChunks);
    SectionDocsShape(content, contentPager, embed, chunks);
    SectionDocsShape(summary, summaryPager, embed, summaryChunks);
    forall k | 0 <= k < |docs| && k < |summaryDocs|
      ensures docs[k].id == summaryDocs[k].id && Upload(indexed, summaryDocs)[docs[k].id] == summaryDocs[k]
      ensures Upload(indexed, summaryDocs)[docs[k].id] != docs[k]
    {
      SectionDocShape(content, contentPager, embed, k, chunks[k]);
      SectionDocShape(summary, summaryPager, embed, k, summaryChunks[k]);
    }
    forall k | |summaryDocs| <= k < |docs|
      ensures docs[k].id in Upload(indexed, summaryDocs) && Upload(indexed, summaryDocs)[docs[k].id] == docs[k]
    {
      SectionDocShape(content, contentPager, embed, k, chunks[k]);
      forall j | 0 <= j < |summaryDocs| ensures summaryDocs[j].id != docs[k].id {
        SectionDocShape(summary, summaryPager, embed, j, summaryChunks[j]);
        if summaryDocs[j].id == docs[k].id {
          SectionIdInjective(content.fileId, PageTag, j, content.fileId, PageTag, k);
        }
      }
      UploadHolds(indexed, summaryDocs, docs[k].id);
    }
  }

  // ---------------------------------------------------------------------------
  // The summary of a file

  /** What the summarization assistant returns. */
  datatype Summary = Summary(title: string, category: string, summary: string)

  /** What `run` returns: the summary's fields with the file name and id. */
  datatype RunOutput = RunOutput(title: string, category: string, summary: string, filename: string, id: string)

  /** The one-page map that holds the summary text. */
  function SummaryPages(summary: Summary): seq<Page>
  {
    [Page(0, 0, summary.summary)]
  }

  /** A summary of at most 100 characters yields no summary section. */
  lemma ShortSummaryIsNotIndexed(summary: Summary)
    requires |summary.summary| <= SectionOverlap
    ensures Sections(SummaryPages(summary)) == []
  {
    assert AllText(SummaryPages(summary)) == summary.summary by {
      assert SummaryPages(summary)[..0] == [];
    }
    NoSectionForShortText(summary.summary);
  }
}
