/** The upload table of the upload page (`MultiFileUploadTable`): each picked
    file's type, size check and status, and the list updates for deleting a
    row, toggling the scan choice and uploading. The React state is modelled
    as the list each update produces; `accepted` is the list of accepted file
    types, whose contents are not part of this model. */
module UploadTable {
  import opened Strings
  import App
  import DocumentInput

  type byte = bv8

  datatype Status = Status(state: string, message: string)

  /** A row of the table. */
  datatype DocumentUpload = DocumentUpload(filename: string, fileContent: seq<byte>, filesize: nat, filetype: string,
                                           status: Status, scan: bool)

  /** A picked file: its name and its bytes. */
  datatype PickedFile = PickedFile(name: string, buffer: seq<byte>)

  // ---------------------------------------------------------------------------
  // File type

  function Last<T>(s: seq<T>): T
    requires |s| >= 1
  {
    s[|s| - 1]
  }

  /** `name.split(".").pop()`. */
  function FileType(name: string): string
  {
    Last(Split(name, '.'))
  }

  /** The file type is what follows the last '.', or the whole name when it
      has none. */
  lemma {:induction false} FileTypeIsLastSegment(name: string)
    ensures NoChar(FileType(name), '.') && EndsWith(name, FileType(name))
    ensures NoChar(name, '.') ==> FileType(name) == name
    ensures !NoChar(name, '.') ==> |FileType(name)| < |name| && name[|name| - |FileType(name)| - 1] == '.'
    decreases |name|
  {
    var i := IndexOf(name, ['.']);
    if i < 0 {
      forall j | 0 <= j < |name| ensures name[j] != '.' {
        OccursAtChar(name, '.', j);
      }
    } else {
      OccursAtChar(name, '.', i);
      var rest := name[i + 1..];
      assert Split(name, '.') == [name[..i]] + Split(rest, '.');
      assert FileType(name) == FileType(rest);
      FileTypeIsLastSegment(rest);
      var r := FileType(rest);
      assert name[|name| - |r|..] == rest[|rest| - |r|..];
      if NoChar(rest, '.') {
        assert name[|name| - |r| - 1] == name[i];
      } else {
        assert name[|name| - |r| - 1] == rest[|rest| - |r| - 1];
      }
    }
  }

  // ---------------------------------------------------------------------------
  // Size

  const MiB: nat := 1048576

  /** `Math.round(100 * bytes / 1024 / 1024)`: the size in hundredths of a
      megabyte, halves rounded up. Dividing by powers of two is exact in
      floating point, so this is the integer the source computes. */
  function Hundredths(bytes: nat): nat
  {
    (100 * bytes + MiB / 2) / MiB
  }

  /** `getMB`: megabytes to two decimals. */
  function GetMB(bytes: nat): real
  {
    Hundredths(bytes) as real / 100.0
  }

  /** A file is over the 10 MB limit exactly from 10491003 bytes on: below
      that it shows as at most 10.00 MB. */
  lemma TooLargeThreshold(bytes: nat)
    ensures GetMB(bytes) > 10.0 <==> bytes >= 10491003
  {
    var h := Hundredths(bytes);
    assert GetMB(bytes) > 10.0 <==> h > 1000;
    if bytes >= 10491003 {
      assert 100 * bytes + MiB / 2 >= 1001 * MiB;
    } else {
      assert 100 * bytes + MiB / 2 < 1001 * MiB;
    }
  }

  // ---------------------------------------------------------------------------
  // Verification

  const MissingType: Status := Status("error", "Error: File type not found")
  const TypeNotAccepted: Status := Status("error", "Error: File type not accepted")
  const TooLarge: Status := Status("error", "Error: File size too large")
  const NameExists: Status := Status("error", "Error: File with this name already exists")
  const Tabular: Status := Status("error", "Error: Tabular data is not yet supported")
  const Ready: Status := Status("ready", "Ready to upload")

  const TabularTypes: seq<string> := ["csv", "xls", "xlsx"]

  function Filenames(existing: seq<DocumentInput.DocumentMetaData>): (r: seq<string>)
    ensures |r| == |existing| && forall k :: 0 <= k < |r| ==> r[k] == existing[k].filename
  {
    seq(|existing|, k requires 0 <= k < |existing| => existing[k].filename)
  }

  /** `verify`: the checks in order, the first that fails deciding the status. */
  function Verify(file: DocumentUpload, accepted: seq<string>, existing: seq<DocumentInput.DocumentMetaData>): Status
  {
    if file.filetype == "" then MissingType
    else if file.filetype !in accepted then TypeNotAccepted
    else if GetMB(file.filesize) > 10.0 then TooLarge
    else if file.filename in Filenames(existing) then NameExists
    else if file.filetype in TabularTypes then Tabular
    else Ready
  }

  /** Each status is given exactly when its check fails and every earlier one
      passes; a ready file has an accepted, non-tabular type, a size under
      10491003 bytes and a name no existing document has. */
  lemma VerifyFirstFailureWins(file: DocumentUpload, accepted: seq<string>, existing: seq<DocumentInput.DocumentMetaData>)
    ensures var r := Verify(file, accepted, existing);
      && (r == MissingType <==> file.filetype == "")
      && (r == TypeNotAccepted <==> file.filetype != "" && file.filetype !in accepted)
      && (r == TooLarge <==> file.filetype != "" && file.filetype in accepted && file.filesize >= 10491003)
      && (r == NameExists <==>
            file.filetype != "" && file.filetype in accepted && file.filesize < 10491003
            && exists d :: d in existing && d.filename == file.filename)
      && (r == Ready <==>
            file.filetype in accepted && file.filetype != "" && file.filesize < 10491003
            && (forall d :: d in existing ==> d.filename != file.filename) && file.filetype !in TabularTypes)
  {
    TooLargeThreshold(file.filesize);
    var names := Filenames(existing);
    if file.filename in names {
      var k :| 0 <= k < |names| && names[k] == file.filename;
      assert existing[k] in existing;
    }
    forall d | d in existing && d.filename == file.filename ensures file.filename in names {
      var k :| 0 <= k < |existing| && existing[k] == d;
      assert names[k] == file.filename;
    }
  }

  // ---------------------------------------------------------------------------
  // The list updates

  /** The row of a picked file, before its status is set. */
  function NewRow(f: PickedFile): DocumentUpload
  {
    DocumentUpload(f.name, f.buffer, |f.buffer|, FileType(f.name), Status("", ""), false)
  }

  /** The initial list: one row per picked file, in order, not to be scanned,
      with the status `verify` gives it. */
  function InitialList(files: seq<PickedFile>, accepted: seq<string>, existing: seq<DocumentInput.DocumentMetaData>)
    : (r: seq<DocumentUpload>)
    ensures |r| == |files|
    ensures forall k :: 0 <= k < |r| ==>
      && r[k].filename == files[k].name && r[k].fileContent == files[k].buffer && r[k].filesize == |files[k].buffer|
      && r[k].filetype == FileType(files[k].name) && !r[k].scan
      && r[k].status == Verify(r[k], accepted, existing)
  {
    seq(|files|, k requires 0 <= k < |files| => NewRow(files[k]).(status := Verify(NewRow(files[k]), accepted, existing)))
  }

  /** The effect of the delete button of a row. */
  datatype DeleteEffect = ReloadPage | Rows(rows: seq<DocumentUpload>)

  /** The rows not named `filename`, in order. */
  function Without(rows: seq<DocumentUpload>, filename: string): (r: seq<DocumentUpload>)
    ensures |r| <= |rows|
    ensures forall x :: x in r <==> x in rows && x.filename != filename
    decreases |rows|
  {
    if rows == [] then []
    else
      var n := |rows| - 1;
      assert rows == rows[..n] + [rows[n]];
      var prior := Without(rows[..n], filename);
      if rows[n].filename != filename then prior + [rows[n]] else prior
  }

  lemma WithoutSnoc(rows: seq<DocumentUpload>, x: DocumentUpload, filename: string)
    ensures Without(rows + [x], filename) == Without(rows, filename) + (if x.filename != filename then [x] else [])
  {
    assert (rows + [x])[..|rows|] == rows;
  }

  /** Removing rows from two lists is removing them from each: the rows kept
      keep their order. */
  lemma {:induction false} WithoutAppend(a: seq<DocumentUpload>, b: seq<DocumentUpload>, filename: string)
    ensures Without(a + b, filename) == Without(a, filename) + Without(b, filename)
    decreases |b|
  {
    if b == [] {
      assert a + b == a;
    } else {
      var n := |b| - 1;
      assert a + b == (a + b[..n]) + [b[n]];
      assert b == b[..n] + [b[n]];
      WithoutSnoc(a + b[..n], b[n], filename);
      WithoutSnoc(b[..n], b[n], filename);
      WithoutAppend(a, b[..n], filename);
    }
  }

  lemma WithoutOne(x: DocumentUpload, filename: string)
    ensures Without([x], filename) == if x.filename != filename then [x] else []
  {
    assert [x][..0] == [];
  }

  /** The delete button: the page reloads when the table has a single row,
      whichever row it is; otherwise every row of that name goes. */
  function DeleteRow(rows: seq<DocumentUpload>, filename: string): (r: DeleteEffect)
    ensures r == ReloadPage <==> |rows| == 1
    ensures r.Rows? ==> forall x :: x in r.rows <==> x in rows && x.filename != filename
  {
    if |rows| == 1 then ReloadPage else Rows(Without(rows, filename))
  }

  /** The scan toggle: the rows of that name take the new choice, an unset
      choice counting as off. */
  function ToggleScan(rows: seq<DocumentUpload>, filename: string, checked: Option<bool>): (r: seq<DocumentUpload>)
    ensures |r| == |rows|
  {
    seq(|rows|, k requires 0 <= k < |rows| =>
      if rows[k].filename == filename then rows[k].(scan := checked == Some(true)) else rows[k])
  }

  /** The toggle changes nothing but `scan`, and only on the rows of that
      name; toggling again undoes the first toggle, the last choice winning. */
  lemma ToggleChangesOnlyScan(rows: seq<DocumentUpload>, filename: string, checked: Option<bool>, again: Option<bool>)
    ensures var r := ToggleScan(rows, filename, checked);
      && (forall k :: 0 <= k < |rows| ==> r[k].(scan := rows[k].scan) == rows[k])
      && (forall k :: 0 <= k < |rows| && rows[k].filename != filename ==> r[k] == rows[k])
      && (forall k :: 0 <= k < |rows| && rows[k].filename == filename ==> (r[k].scan <==> checked == Some(true)))
      && ToggleScan(r, filename, again) == ToggleScan(rows, filename, again)
  {
  }

  const Uploading: Status := Status("uploading", "Uploading...")
  const Processing: Status := Status("processing", "Processing...")

  function WithStatus(rows: seq<DocumentUpload>, status: Status): (r: seq<DocumentUpload>)
    ensures |r| == |rows|
    ensures forall k :: 0 <= k < |rows| ==> r[k].status == status && r[k].(status := rows[k].status) == rows[k]
  {
    seq(|rows|, k requires 0 <= k < |rows| => rows[k].(status := status))
  }

  /** The names the rows are sent under: ".v-scan" appended to those to be
      scanned. */
  function SentNames(rows: seq<DocumentUpload>): (r: seq<string>)
    ensures |r| == |rows|
  {
    seq(|rows|, k requires 0 <= k < |rows| => App.ClientUploadName(rows[k].filename, rows[k].scan))
  }

  /** How the calls of `processFiles` end: `getToken` throws (only called
      when there is a client), `uploadDocumentsApi` throws (a non-OK response
      or a failed request), or both return. */
  datatype UploadCall = TokenFails | UploadFails | UploadReturns

  /** `processFiles`: the names sent, if the request is made, and the rows
      the table shows at the end. Both status updates start from the rows as
      they were before; a call that throws leaves the later steps undone. */
  function ProcessFiles(rows: seq<DocumentUpload>, call: UploadCall): (Option<seq<string>>, seq<DocumentUpload>)
  {
    match call
    case TokenFails => (None, rows)
    case UploadFails => (Some(SentNames(rows)), WithStatus(rows, Uploading))
    case UploadReturns => (Some(SentNames(rows)), WithStatus(rows, Processing))
  }

  /** Every row still stands and only its status changes: unchanged when
      the token cannot be had, left "uploading" when the upload throws, and
      "processing" after an upload that returns. When the request is made,
      the server reads every sent name back as the row's name and scan
      choice, unless an unscanned name itself ends in ".v-scan". */
  lemma ProcessFilesKeepsRows(rows: seq<DocumentUpload>, call: UploadCall)
    ensures var (sent, shown) := ProcessFiles(rows, call);
      && |shown| == |rows|
      && (forall k :: 0 <= k < |rows| ==> shown[k].(status := rows[k].status) == rows[k])
      && (call == TokenFails ==> sent == None && shown == rows)
      && (call == UploadFails ==> forall k :: 0 <= k < |rows| ==> shown[k].status == Uploading)
      && (call == UploadReturns ==> forall k :: 0 <= k < |rows| ==> shown[k].status == Processing)
      && (call != TokenFails && (forall k :: 0 <= k < |rows| && !rows[k].scan ==> !EndsWith(rows[k].filename, App.ScanSuffix)) ==>
          sent.Some? && |sent.value| == |rows| &&
          forall k :: 0 <= k < |rows| ==> App.SplitScanSuffix(sent.value[k]) == (rows[k].filename, rows[k].scan))
  {
    forall k | 0 <= k < |rows| && (!rows[k].scan ==> !EndsWith(rows[k].filename, App.ScanSuffix))
      ensures App.SplitScanSuffix(SentNames(rows)[k]) == (rows[k].filename, rows[k].scan)
    {
      App.SplitScanSuffixInverts(rows[k].filename, rows[k].scan);
    }
  }
}
