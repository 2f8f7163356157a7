/** The scanning ingestion pipeline (`SingleFileScanUpload`): the PDF is
    rendered to one image per page in a temporary directory, every image is
    read by the vision model, the page images and texts are stored as blobs,
    and the pages and the summary are indexed as sections. The splitter and
    the section documents are shared with the text pipeline. */
module SingleFileScanUpload {
  import opened Strings
  import opened Splitter
  import opened Indexing
  import Retry
  import Utils

  /** The directory the page images are written to. */
  const TempDir: string := "temp"

  /** The category `run` gives every section of a scanned file. */
  const ScanCategory: string := "Business Summary Document"

  // ---------------------------------------------------------------------------
  // Page images

  /** `get_temp_image_path`. */
  function TempImagePath(filename: string, page: int): string
  {
    TempDir + "/" + filename + "-" + IntToString(page) + ".png"
  }

  /** The image path names the page: distinct pages of one file never share
      an image file. */
  lemma TempImagePathInjective(filename: string, p: int, q: int)
    requires TempImagePath(filename, p) == TempImagePath(filename, q)
    ensures p == q
  {
    var a := TempImagePath(filename, p);
    var b := TempImagePath(filename, q);
    var k := |TempDir + "/" + filename + "-"|;
    assert |IntToString(p)| == |IntToString(q)| by {
      assert |a| == k + |IntToString(p)| + 4;
      assert |b| == k + |IntToString(q)| + 4;
    }
    assert a[k..k + |IntToString(p)|] == IntToString(p);
    assert b[k..k + |IntToString(q)|] == IntToString(q);
    IntToStringInjective(p, q);
  }

  /** One rendered page: its number and the path of its image. */
  datatype Image = Image(pageNum: nat, imageFile: string)

  /** The images `split_pdf_into_images` lists for a document of `pageCount`
      pages. */
  function ImagesOf(filename: string, pageCount: nat): seq<Image>
  {
    seq(pageCount, p requires 0 <= p => Image(p, TempImagePath(filename, p)))
  }

  /** The image files of a list of images. */
  function ImageFiles(images: seq<Image>): set<string>
  {
    set k | 0 <= k < |images| :: images[k].imageFile
  }

  lemma ImagesOfSnoc(filename: string, n: nat)
    ensures ImagesOf(filename, n + 1) == ImagesOf(filename, n) + [Image(n, TempImagePath(filename, n))]
  {
  }

  /** One more image adds its file. */
  lemma ImageFilesSnoc(images: seq<Image>, image: Image)
    ensures ImageFiles(images + [image]) == ImageFiles(images) + {image.imageFile}
  {
    var longer := images + [image];
    forall path | path in ImageFiles(longer) ensures path in ImageFiles(images) + {image.imageFile} {
      var k :| 0 <= k < |longer| && longer[k].imageFile == path;
      if k < |images| {
        assert longer[k] == images[k];
      }
    }
    forall path | path in ImageFiles(images) ensures path in ImageFiles(longer) {
      var k :| 0 <= k < |images| && images[k].imageFile == path;
      assert longer[k] == images[k];
    }
    assert longer[|images|] == image;
  }

  /** The image list has one entry per page, already in page order, so the
      final sort by page number leaves it as it is; each page has its own
      image file. */
  lemma ImagesInPageOrder(filename: string, pageCount: nat)
    ensures var images := ImagesOf(filename, pageCount);
      && |images| == pageCount
      && (forall k :: 0 <= k < pageCount ==> images[k].pageNum == k && images[k].imageFile == TempImagePath(filename, k))
      && (forall j, k :: 0 <= j < k < pageCount ==> images[j].pageNum < images[k].pageNum)
      && (forall j, k :: 0 <= j < k < pageCount ==> images[j].imageFile != images[k].imageFile)
  {
    var images := ImagesOf(filename, pageCount);
    forall j, k | 0 <= j < k < pageCount ensures images[j].imageFile != images[k].imageFile {
      if images[j].imageFile == images[k].imageFile {
        TempImagePathInjective(filename, j, k);
      }
    }
  }

  // ---------------------------------------------------------------------------
  // scan_page_images

  /** `scan(path)(k)` is what the vision service does on attempt `k` for the
      image at `path`. */
  type Scanner = string -> nat -> Retry.Attempt<string>

  /** The text read from one image under the 30-attempt retry policy. */
  function ScanText(scan: Scanner, imageFile: string): Result<string>
  {
    match Retry.Retried(scan(imageFile), Retry.VisionAttempts)
    case Done(t) => Ok(t)
    case Failed(e) => Err(e)
    case GaveUp => Err(RetryErrorName)
  }

  /** The texts of all images in order, or the first error. */
  function ScannedTexts(scan: Scanner, images: seq<Image>): (r: Result<seq<string>>)
    ensures r.Ok? ==> |r.value| == |images|
    decreases |images|
  {
    if images == [] then Ok([])
    else
      var n := |images| - 1;
      match ScannedTexts(scan, images[..n])
      case Err(e) => Err(e)
      case Ok(texts) =>
        match ScanText(scan, images[n].imageFile)
        case Err(e) => Err(e)
        case Ok(t) => Ok(texts + [t])
  }

  /** The page map of the scanned texts: entry `k` keeps image `k`'s page
      number and starts where the earlier texts end. */
  function ScanPages(images: seq<Image>, texts: seq<string>): seq<Page>
    requires |images| == |texts|
    decreases |images|
  {
    if images == [] then []
    else
      var n := |images| - 1;
      var before := ScanPages(images[..n], texts[..n]);
      before + [Page(images[n].pageNum, |AllText(before)|, texts[n])]
  }

  /** What `scan_page_images` returns, or the first error it raises. */
  function ScannedPages(scan: Scanner, images: seq<Image>): Result<seq<Page>>
  {
    match ScannedTexts(scan, images)
    case Err(e) => Err(e)
    case Ok(texts) => Ok(ScanPages(images, texts))
  }

  /** `scan_page_images`: each image is read in turn and appended to the page
      map with the running offset. */
  method ScanPageImages(images: seq<Image>, scan: Scanner) returns (r: Result<seq<Page>>)
    ensures r == ScannedPages(scan, images)
  {
    var pageMap: seq<Page> := [];
    var offset := 0;
    ghost var texts: seq<string> := [];
    for i := 0 to |images|
      invariant ScannedTexts(scan, images[..i]) == Ok(texts)
      invariant |texts| == i
      invariant pageMap == ScanPages(images[..i], texts)
      invariant offset == |AllText(pageMap)|
    {
      assert images[..i + 1][..i] == images[..i];
      var image := images[i];
      ghost var expected := ScanText(scan, image.imageFile);
      var attempt, _ := Retry.CallWithRetry(scan(image.imageFile), Retry.VisionAttempts);
      if attempt.Failed? {
        assert expected == Err(attempt.error);
        ScanPrefixError(scan, images, i);
        return Err(attempt.error);
      } else if attempt.GaveUp? {
        assert expected == Err(RetryErrorName);
        ScanPrefixError(scan, images, i);
        return Err(RetryErrorName);
      }
      assert expected == Ok(attempt.value);
      var next := pageMap + [Page(image.pageNum, offset, attempt.value)];
      assert next[..|pageMap|] == pageMap;
      assert AllText(next) == AllText(pageMap) + attempt.value;
      texts := texts + [attempt.value];
      assert texts[..i] == texts[..|texts| - 1];
      pageMap := next;
      offset := offset + |attempt.value|;
    }
    assert images[..|images|] == images;
    r := Ok(pageMap);
  }

  /** An error at image `i`, after `i` images were read, is the error of the
      whole scan. */
  lemma {:induction false} ScanPrefixError(scan: Scanner, images: seq<Image>, i: nat)
    requires i < |images|
    requires ScannedTexts(scan, images[..i]).Ok?
    requires ScanText(scan, images[i].imageFile).Err?
    ensures ScannedTexts(scan, images) == Err(ScanText(scan, images[i].imageFile).error)
    decreases |images|
  {
    var n := |images| - 1;
    assert images[..i + 1][..i] == images[..i];
    if i < n {
      assert images[..n][..i] == images[..i];
      ScanPrefixError(scan, images[..n], i);
    }
  }

  /** The scan succeeds exactly when every image is read, and then text `k`
      is what image `k` reads. */
  lemma {:induction false} ScannedTextsShape(scan: Scanner, images: seq<Image>)
    ensures ScannedTexts(scan, images).Ok? <==> forall k :: 0 <= k < |images| ==> ScanText(scan, images[k].imageFile).Ok?
    ensures ScannedTexts(scan, images).Ok? ==>
      forall k :: 0 <= k < |images| ==> ScanText(scan, images[k].imageFile) == Ok(ScannedTexts(scan, images).value[k])
    decreases |images|
  {
    if images != [] {
      var n := |images| - 1;
      var prefix := images[..n];
      ScannedTextsShape(scan, prefix);
      forall k | 0 <= k < n ensures prefix[k] == images[k] {
      }
    }
  }

  /** The scanned page map has one entry per image, in order, keeping each
      image's page number and text, and its offsets are the running total of
      the earlier texts' lengths. */
  lemma {:induction false} ScanPagesShape(images: seq<Image>, texts: seq<string>)
    requires |images| == |texts|
    ensures var pages := ScanPages(images, texts);
      && |pages| == |images|
      && WellFormed(pages)
      && forall k :: 0 <= k < |pages| ==> pages[k].pageNum == images[k].pageNum && pages[k].pageText == texts[k]
    decreases |images|
  {
    if images != [] {
      var n := |images| - 1;
      var before := ScanPages(images[..n], texts[..n]);
      ScanPagesShape(images[..n], texts[..n]);
      WellFormedAppend(before, Page(images[n].pageNum, |AllText(before)|, texts[n]));
      assert forall k :: 0 <= k < n ==> images[..n][k] == images[k] && texts[..n][k] == texts[k];
    }
  }

  // ---------------------------------------------------------------------------
  // upload_blobs

  /** A stored blob: a page image (standing for the bytes of the file at that
      path) or a page text, each with its `id` metadata. */
  datatype ScanBlob = ImageBlob(imageFile: string, fileId: string) | TextBlob(text: string, fileId: string)

  type ScanStore = map<string, ScanBlob>

  /** The stem of a page's two blob names. */
  function PageBlobStem(filename: string, pageNum: int): string
  {
    filename + "-page" + IntToString(pageNum)
  }

  /** The store after uploading one page's image and then its text. */
  function StorePage(store: ScanStore, filename: string, fileId: string, page: Page): ScanStore
  {
    var stem := PageBlobStem(filename, page.pageNum);
    store[stem + ".png" := ImageBlob(TempImagePath(filename, page.pageNum), fileId)]
         [stem + ".txt" := TextBlob(page.pageText, fileId)]
  }

  /** The store after uploading every page's image and text, later pages
      overwriting earlier ones of the same name. */
  function StoreScanBlobs(store: ScanStore, filename: string, fileId: string, pages: seq<Page>): ScanStore
    decreases |pages|
  {
    if pages == [] then store
    else
      var n := |pages| - 1;
      StorePage(StoreScanBlobs(store, filename, fileId, pages[..n]), filename, fileId, pages[n])
  }

  /** `upload_blobs`: for each page, its image and then its text. */
  method UploadBlobs(store: ScanStore, filename: string, pages: seq<Page>, fileId: string) returns (updated: ScanStore)
    ensures updated == StoreScanBlobs(store, filename, fileId, pages)
  {
    updated := store;
    for i := 0 to |pages|
      invariant updated == StoreScanBlobs(store, filename, fileId, pages[..i])
    {
      assert pages[..i + 1][..i] == pages[..i];
      var blobName := PageBlobStem(filename, pages[i].pageNum);
      updated := updated[blobName + ".png" := ImageBlob(TempImagePath(filename, pages[i].pageNum), fileId)];
      updated := updated[blobName + ".txt" := TextBlob(pages[i].pageText, fileId)];
    }
    assert pages[..|pages|] == pages;
  }

  /** A blob name determines its page number and its extension. */
  lemma PageBlobNameInjective(filename: string, p: int, q: int, e: string, f: string)
    requires |e| == 4 && |f| == 4
    requires PageBlobStem(filename, p) + e == PageBlobStem(filename, q) + f
    ensures p == q && e == f
  {
    var a := PageBlobStem(filename, p) + e;
    var b := PageBlobStem(filename, q) + f;
    var k := |filename + "-page"|;
    assert |IntToString(p)| == |IntToString(q)| by {
      assert |a| == k + |IntToString(p)| + 4;
      assert |b| == k + |IntToString(q)| + 4;
    }
    assert a[k..k + |IntToString(p)|] == IntToString(p);
    assert b[k..k + |IntToString(q)|] == IntToString(q);
    IntToStringInjective(p, q);
    assert a[|a| - 4..] == e && b[|b| - 4..] == f;
  }

  /** A page's ".png" blob holds its image and its ".txt" blob its text,
      both with the file id. */
  predicate HoldsPage(stored: ScanStore, filename: string, fileId: string, page: Page)
  {
    var stem := PageBlobStem(filename, page.pageNum);
    && Lookup(stored, stem + ".png") == Some(ImageBlob(TempImagePath(filename, page.pageNum), fileId))
    && Lookup(stored, stem + ".txt") == Some(TextBlob(page.pageText, fileId))
  }

  /** Storing another page's blobs leaves a page's blobs in place. */
  lemma HoldsPageAfterOther(stored: ScanStore, filename: string, fileId: string, page: Page, other: Page)
    requires HoldsPage(stored, filename, fileId, page)
    requires page.pageNum != other.pageNum
    ensures HoldsPage(StorePage(stored, filename, fileId, other), filename, fileId, page)
  {
    var mine := PageBlobStem(filename, page.pageNum);
    var stem := PageBlobStem(filename, other.pageNum);
    if mine + ".png" == stem + ".png" {
      PageBlobNameInjective(filename, page.pageNum, other.pageNum, ".png", ".png");
    }
    if mine + ".png" == stem + ".txt" {
      PageBlobNameInjective(filename, page.pageNum, other.pageNum, ".png", ".txt");
    }
    if mine + ".txt" == stem + ".png" {
      PageBlobNameInjective(filename, page.pageNum, other.pageNum, ".txt", ".png");
    }
    if mine + ".txt" == stem + ".txt" {
      PageBlobNameInjective(filename, page.pageNum, other.pageNum, ".txt", ".txt");
    }
  }

  /** A page's own blobs hold it once it is stored. */
  lemma HoldsStoredPage(stored: ScanStore, filename: string, fileId: string, page: Page)
    ensures HoldsPage(StorePage(stored, filename, fileId, page), filename, fileId, page)
  {
    var stem := PageBlobStem(filename, page.pageNum);
    assert (stem + ".png")[|stem| + 1] != (stem + ".txt")[|stem| + 1];
  }

  /** When the page numbers are distinct, every page's image and text are
      stored under its own two names. */
  lemma {:induction false} StoredScanBlobsHoldPages(store: ScanStore, filename: string, fileId: string, pages: seq<Page>)
    requires forall j, k :: 0 <= j < k < |pages| ==> pages[j].pageNum != pages[k].pageNum
    ensures forall k :: 0 <= k < |pages| ==> HoldsPage(StoreScanBlobs(store, filename, fileId, pages), filename, fileId, pages[k])
    decreases |pages|
  {
    if pages != [] {
      var n := |pages| - 1;
      var prefix := pages[..n];
      var before := StoreScanBlobs(store, filename, fileId, prefix);
      assert forall k :: 0 <= k < n ==> prefix[k] == pages[k];
      StoredScanBlobsHoldPages(store, filename, fileId, prefix);
      StorePageHoldsAll(before, filename, fileId, pages);
    }
  }

  /** Storing the last page keeps the earlier pages' blobs and adds its own. */
  lemma StorePageHoldsAll(before: ScanStore, filename: string, fileId: string, pages: seq<Page>)
    requires pages != []
    requires forall j, k :: 0 <= j < k < |pages| ==> pages[j].pageNum != pages[k].pageNum
    requires forall k :: 0 <= k < |pages| - 1 ==> HoldsPage(before, filename, fileId, pages[k])
    ensures forall k :: 0 <= k < |pages| ==> HoldsPage(StorePage(before, filename, fileId, pages[|pages| - 1]), filename, fileId, pages[k])
  {
    var n := |pages| - 1;
    HoldsStoredPage(before, filename, fileId, pages[n]);
    forall k | 0 <= k < n
      ensures HoldsPage(StorePage(before, filename, fileId, pages[n]), filename, fileId, pages[k])
    {
      HoldsPageAfterOther(before, filename, fileId, pages[k], pages[n]);
    }
  }

  /** A name that is no page's blob name keeps what it held, or stays
      absent. */
  lemma {:induction false} StoreScanBlobsKeepsOthers(store: ScanStore, filename: string, fileId: string, pages: seq<Page>, name: string)
    requires forall k :: 0 <= k < |pages| ==>
      name != PageBlobStem(filename, pages[k].pageNum) + ".png" && name != PageBlobStem(filename, pages[k].pageNum) + ".txt"
    ensures Lookup(StoreScanBlobs(store, filename, fileId, pages), name) == Lookup(store, name)
    decreases |pages|
  {
    if pages != [] {
      var n := |pages| - 1;
      var prefix := pages[..n];
      assert forall k :: 0 <= k < n ==> prefix[k] == pages[k];
      StoreScanBlobsKeepsOthers(store, filename, fileId, prefix, name);
      StorePageKeepsOthers(StoreScanBlobs(store, filename, fileId, prefix), filename, fileId, pages[n], name);
    }
  }

  /** Storing one page leaves every other name as it was. */
  lemma StorePageKeepsOthers(stored: ScanStore, filename: string, fileId: string, page: Page, name: string)
    requires name != PageBlobStem(filename, page.pageNum) + ".png" && name != PageBlobStem(filename, page.pageNum) + ".txt"
    ensures Lookup(StorePage(stored, filename, fileId, page), name) == Lookup(stored, name)
  {
  }

  // ---------------------------------------------------------------------------
  // index_document

  /** This pipeline names a section's source page after the section's own
      index, not after the page the section starts on; the naming never
      raises. */
  function ScanSource(filename: string): SourcePager
  {
    (i: nat, chunk: Chunk) => Some(filename + "-page" + NatToString(i) + ".txt")
  }

  /** The fields `index_document` copies onto every section; `is_assessment`
      is always given. */
  function ScanFields(title: string, category: string, filename: string, fileId: string, isSummary: bool, isAssessment: bool): Fields
  {
    Fields(title, category, filename, fileId, PageTag, isSummary, Some(isAssessment))
  }

  /** Section `k` of a scanned file is named after `k`: its id is
      `{file_id}-page-{k}` and its source page `{filename}-page{k}.txt`;
      `is_summary` and `is_assessment` are copied onto it. */
  lemma ScanSectionsNamedByIndex(title: string, category: string, filename: string, fileId: string, isSummary: bool,
                                 isAssessment: bool, embed: Embedder, chunks: seq<Chunk>)
    requires SectionDocs(ScanFields(title, category, filename, fileId, isSummary, isAssessment), ScanSource(filename), embed, chunks).Ok?
    ensures var docs := SectionDocs(ScanFields(title, category, filename, fileId, isSummary, isAssessment), ScanSource(filename), embed, chunks).value;
      && |docs| == |chunks|
      && forall k :: 0 <= k < |docs| ==>
        && docs[k].id == fileId + "-page-" + NatToString(k)
        && docs[k].sourcepage == filename + "-page" + NatToString(k) + ".txt"
        && docs[k].content == chunks[k].content
        && docs[k].isSummary == isSummary && docs[k].isAssessment == Some(isAssessment)
  {
    var fields := ScanFields(title, category, filename, fileId, isSummary, isAssessment);
    SectionDocsShape(fields, ScanSource(filename), embed, chunks);
    var docs := SectionDocs(fields, ScanSource(filename), embed, chunks).value;
    forall k | 0 <= k < |docs|
      ensures docs[k].id == fileId + "-page-" + NatToString(k)
      ensures docs[k].sourcepage == filename + "-page" + NatToString(k) + ".txt"
      ensures docs[k].content == chunks[k].content
      ensures docs[k].isSummary == isSummary && docs[k].isAssessment == Some(isAssessment)
    {
      SectionDocShape(fields, ScanSource(filename), embed, k, chunks[k]);
    }
  }

  /** Building the documents of a scanned file fails only on an embedding:
      it succeeds exactly when every section's embedding does. */
  lemma ScanSectionDocsOk(fields: Fields, filename: string, embed: Embedder, chunks: seq<Chunk>)
    ensures SectionDocs(fields, ScanSource(filename), embed, chunks).Ok?
        <==> forall k :: 0 <= k < |chunks| ==> Embedding(embed, chunks[k].content).Ok?
  {
    SectionDocsOk(fields, ScanSource(filename), embed, chunks);
  }

  // ---------------------------------------------------------------------------
  // run

  /** The fields of the content sections. */
  function ContentFields(filename: string, summary: Summary): Fields
  {
    ScanFields(summary.title, ScanCategory, filename, Utils.FilenameToId(filename), false, false)
  }

  /** The fields of the summary sections: the same ids `{file_id}-page-{i}`
      as the content sections. */
  function SummaryFields(filename: string, summary: Summary): Fields
  {
    Fields(summary.title, ScanCategory, filename, Utils.FilenameToId(filename), PageTag, true, Some(false))
  }

  /** The effect of `run` on the blob store and the index, and its result,
      for a document of `pageCount` pages. Steps that raise leave the later
      steps undone. */
  function RunEffect(filename: string, pageCount: nat, scan: Scanner, summary: Summary, store: ScanStore, index: Index,
                     embed: Embedder): (Result<RunOutput>, ScanStore, Index)
  {
    var fileId := Utils.FilenameToId(filename);
    match ScannedPages(scan, ImagesOf(filename, pageCount))
    case Err(e) => (Err(e), store, index)
    case Ok(pageMap) =>
      var stored := StoreScanBlobs(store, filename, fileId, pageMap);
      match SectionDocs(ContentFields(filename, summary), ScanSource(filename), embed, Sections(pageMap))
      case Err(e) => (Err(e), stored, index)
      case Ok(docs) =>
        var indexed := Upload(index, docs);
        match SectionDocs(SummaryFields(filename, summary), ScanSource(filename), embed, Sections(SummaryPages(summary)))
        case Err(e) => (Err(e), stored, indexed)
        case Ok(summaryDocs) =>
          (Ok(RunOutput(summary.title, summary.category, summary.summary, filename, fileId)), stored, Upload(indexed, summaryDocs))
  }

  /** The pipeline's one piece of state: the files in the temporary
      directory. */
  class ScanUploader {
    var tempFiles: set<string>

    /** An uploader over a temporary directory that already holds `existing`. */
    constructor (existing: set<string>)
      ensures tempFiles == existing
    {
      tempFiles := existing;
    }

    /** `split_pdf_into_images` minus the rendering: one image per page,
        each written to the temporary directory. */
    method SplitPdfIntoImages(filename: string, pageCount: nat) returns (images: seq<Image>)
      modifies this
      ensures images == ImagesOf(filename, pageCount)
      ensures tempFiles == old(tempFiles) + ImageFiles(images)
    {
      images := [];
      for pageNum := 0 to pageCount
        invariant images == ImagesOf(filename, pageNum)
        invariant tempFiles == old(tempFiles) + ImageFiles(images)
      {
        var imagePath := TempImagePath(filename, pageNum);
        ImagesOfSnoc(filename, pageNum);
        ImageFilesSnoc(images, Image(pageNum, imagePath));
        images := images + [Image(pageNum, imagePath)];
        tempFiles := tempFiles + {imagePath};
      }
    }

    /** Removing every file of the temporary directory. */
    method Cleanup()
      modifies this
      ensures tempFiles == {}
    {
      tempFiles := {};
    }

    /** `run`: the file id; the page images; the scanned page map; the page
        blobs; the content sections; the summary sections. The temporary
        directory is emptied whether a step raises or not, and an error is
        handed back unchanged. Downloading the file and summarizing it are
        inputs here (`pageCount`, `summary`). */
    method Run(filename: string, pageCount: nat, scan: Scanner, summary: Summary, store: ScanStore, index: Index,
               embed: Embedder)
      returns (r: Result<RunOutput>, newStore: ScanStore, newIndex: Index)
      modifies this
      ensures tempFiles == {}
      ensures (r, newStore, newIndex) == RunEffect(filename, pageCount, scan, summary, store, index, embed)
    {
      var fileId := Utils.FilenameToId(filename);
      var images := SplitPdfIntoImages(filename, pageCount);
      newStore, newIndex := store, index;
      var scanned := ScanPageImages(images, scan);
      if scanned.Err? {
        Cleanup();
        return Err(scanned.error), newStore, newIndex;
      }
      var pageMap := scanned.value;
      newStore := UploadBlobs(store, filename, pageMap, fileId);
      var content := IndexDocument(index, ContentFields(filename, summary), ScanSource(filename), embed, pageMap);
      if content.Err? {
        Cleanup();
        return Err(content.error), newStore, newIndex;
      }
      newIndex := content.value;
      var summarized := IndexDocument(newIndex, SummaryFields(filename, summary), ScanSource(filename), embed, SummaryPages(summary));
      if summarized.Err? {
        Cleanup();
        return Err(summarized.error), newStore, newIndex;
      }
      newIndex := summarized.value;
      Cleanup();
      r := Ok(RunOutput(summary.title, summary.category, summary.summary, filename, fileId));
    }
  }

  /** A successful scan has one page per page of the document, numbered
      from 0, with consistent offsets. */
  lemma ScannedPagesNumbered(filename: string, pageCount: nat, scan: Scanner)
    requires ScannedPages(scan, ImagesOf(filename, pageCount)).Ok?
    ensures var pageMap := ScannedPages(scan, ImagesOf(filename, pageCount)).value;
      && |pageMap| == pageCount
      && WellFormed(pageMap)
      && forall k :: 0 <= k < pageCount ==> pageMap[k].pageNum == k
  {
    var images := ImagesOf(filename, pageCount);
    var texts := ScannedTexts(scan, images).value;
    ImagesInPageOrder(filename, pageCount);
    ScanPagesShape(images, texts);
  }

  /** A run that gets past the scan stores every page's image and text under
      its own names. */
  lemma RunStoresEveryPage(filename: string, pageCount: nat, scan: Scanner, store: ScanStore)
    requires ScannedPages(scan, ImagesOf(filename, pageCount)).Ok?
    ensures var pageMap := ScannedPages(scan, ImagesOf(filename, pageCount)).value;
      forall k :: 0 <= k < |pageMap| ==>
        HoldsPage(StoreScanBlobs(store, filename, Utils.FilenameToId(filename), pageMap), filename, Utils.FilenameToId(filename), pageMap[k])
  {
    var pageMap := ScannedPages(scan, ImagesOf(filename, pageCount)).value;
    ScannedPagesNumbered(filename, pageCount, scan);
    assert forall j, k :: 0 <= j < k < |pageMap| ==> pageMap[j].pageNum != pageMap[k].pageNum;
    StoredScanBlobsHoldPages(store, filename, Utils.FilenameToId(filename), pageMap);
  }

  /** A successful run leaves every summary section under its own id; it
      replaces content section `k` by summary section `k` for every `k` the
      summary has, and keeps the file's other content sections. */
  lemma RunSummaryOverwritesContent(filename: string, pageCount: nat, scan: Scanner, summary: Summary, store: ScanStore,
                                    index: Index, embed: Embedder)
    requires RunEffect(filename, pageCount, scan, summary, store, index, embed).0.Ok?
    ensures var pageMap := ScannedPages(scan, ImagesOf(filename, pageCount)).value;
      var docs := SectionDocs(ContentFields(filename, summary), ScanSource(filename), embed, Sections(pageMap)).value;
      var summaryDocs := SectionDocs(SummaryFields(filename, summary), ScanSource(filename), embed, Sections(SummaryPages(summary))).value;
      var final := RunEffect(filename, pageCount, scan, summary, store, index, embed).2;
      && (forall k :: 0 <= k < |summaryDocs| ==> summaryDocs[k].id in final && final[summaryDocs[k].id] == summaryDocs[k])
      && (forall k :: 0 <= k < |docs| && k < |summaryDocs| ==>
            docs[k].id == summaryDocs[k].id && final[docs[k].id] == summaryDocs[k] && final[docs[k].id] != docs[k])
      && (forall k :: |summaryDocs| <= k < |docs| ==> docs[k].id in final && final[docs[k].id] == docs[k])
  {
    var pageMap := ScannedPages(scan, ImagesOf(filename, pageCount)).value;
    assert NoChar(Utils.FilenameToId(filename), '-');
    SummaryOverwritesContentAsWritten(index, ContentFields(filename, summary), SummaryFields(filename, summary), ScanSource(filename),
                                      ScanSource(filename), embed, Sections(pageMap), Sections(SummaryPages(summary)));
  }
}
