/**
 * The actions of `SSRSController`: the connection check page, the batch upload
 * of report files, the download of all or selected reports, and the export of
 * report metadata as CSV or a workbook. Each action's page or file is a value;
 * the flash messages it leaves in `TempData` are part of that value.
 */
module Controller {
  import opened Wrappers
  import opened Strings
  import opened Soap
  import opened Catalog
  import opened Service
  import opened Xml
  import Base64

  // ---------------------------------------------------------------------------
  // CheckConnection

  /** The view `CheckConnection` renders: the index page with its flash
      messages, or the upload page with the shared data sources and the root's
      children. */
  datatype ConnectionPage =
    | IndexPage(successMsg: Option<string>, errorMsg: string)
    | UploadPage(dataSources: seq<CatalogItem>, folders: seq<CatalogItem>)

  const CouldNotConnect: string := "\U{274C} Could not connect to SSRS. Check credentials or URL."
  const ConnectionSuccessful: string := "\U{2705} Connection successful!"

  /** `CheckConnection`: a false check shows an error and stops; a true check
      sets the success message, then lists the shared data sources and the root
      folder. A failure anywhere shows its message on the index page, next to
      the success message when that was already set. */
  function CheckConnectionAction(w: World, serverUrl: string, username: string, password: string): (p: ConnectionPage)
    ensures var c := Connect(serverUrl, username, password);
      CheckConnection(c, w) == Success(false) ==> p == IndexPage(None, CouldNotConnect)
    ensures var c := Connect(serverUrl, username, password);
      CheckConnection(c, w).Failure? ==> p == IndexPage(None, CheckConnection(c, w).error)
    ensures var c := Connect(serverUrl, username, password);
      p.UploadPage? <==>
        CheckConnection(c, w) == Success(true)
        && ListItems(c, w, "/", DataSources).Success? && ListChildren(c, w, "/").Success?
    ensures var c := Connect(serverUrl, username, password);
      p.UploadPage? ==>
        && p.dataSources == ListItems(c, w, "/", DataSources).value
        && p.folders == ListChildren(c, w, "/").value
    ensures p.IndexPage? && p.successMsg.Some? ==> p.successMsg.value == ConnectionSuccessful
  {
    var c := Connect(serverUrl, username, password);
    match CheckConnection(c, w)
    case Failure(m) => IndexPage(None, m)
    case Success(false) => IndexPage(None, CouldNotConnect)
    case Success(true) =>
      match ListItems(c, w, "/", DataSources)
      case Failure(m) => IndexPage(Some(ConnectionSuccessful), m)
      case Success(dataSources) =>
        match ListChildren(c, w, "/")
        case Failure(m) => IndexPage(Some(ConnectionSuccessful), m)
        case Success(folders) => UploadPage(dataSources, folders)
  }

  /** The upload page offers shared data sources only, and none of its
      records, data sources or folder items, carries a data source path. */
  lemma UploadPageContents(w: World, serverUrl: string, username: string, password: string)
    requires CheckConnectionAction(w, serverUrl, username, password).UploadPage?
    ensures var p := CheckConnectionAction(w, serverUrl, username, password);
      && (forall i :: 0 <= i < |p.dataSources| ==> p.dataSources[i].typeName == "DataSource")
      && (forall i :: 0 <= i < |p.dataSources| ==> p.dataSources[i].dataSourcePath == "")
      && (forall i :: 0 <= i < |p.folders| ==> p.folders[i].dataSourcePath == "")
  {
    var c := Connect(serverUrl, username, password);
    var sources := SendSoap(c, w, ListChildrenEnvelope("/", IsRecursive(DataSources)));
    var children := SendSoap(c, w, ListChildrenEnvelope("/", IsRecursive(AllChildren)));
    var sourceElements := CatalogElements(w.parse(sources.value).root);
    var childElements := CatalogElements(w.parse(children.value).root);
    SelectKeepsType(sourceElements, DataSources);
    SelectLeavesDataSourcePath(sourceElements, DataSources);
    SelectLeavesDataSourcePath(childElements, AllChildren);
  }

  // ---------------------------------------------------------------------------
  // UploadReports

  /** An uploaded form file: its client file name and its content. */
  datatype UploadedFile = UploadedFile(fileName: string, content: seq<Service.byte>)

  /** A flash message, under the `TempData` key the action uses. */
  datatype Flash = ErrorMsg(text: string) | UploadMsg(text: string)

  const MaxFiles: nat := 200
  const NoFilesMessage: string := "Please select at least one .rdl file."

  /** The files a batch attempts: the first 200, in order. */
  function Attempted(files: seq<UploadedFile>): (r: seq<UploadedFile>)
    ensures |r| == if |files| > MaxFiles then MaxFiles else |files|
    ensures r <= files
  {
    if |files| > MaxFiles then files[..MaxFiles] else files
  }

  /** Whether the upload of one file succeeds; the report is named after the
      file without its directory and extension. */
  function UploadSucceeds(c: Connection, w: World, folderPath: Option<string>, file: UploadedFile,
                          dataSourcePath: Option<string>, overwrite: bool): bool
  {
    Upload(c, w, folderPath, Some(FileNameWithoutExtension(file.fileName)), file.content, dataSourcePath, overwrite).Success?
  }

  function UploadOutcomes(c: Connection, w: World, folderPath: Option<string>, files: seq<UploadedFile>,
                          dataSourcePath: Option<string>, overwrite: bool): (os: seq<bool>)
    ensures |os| == |files|
  {
    if files == [] then []
    else UploadOutcomes(c, w, folderPath, files[..|files| - 1], dataSourcePath, overwrite)
         + [UploadSucceeds(c, w, folderPath, files[|files| - 1], dataSourcePath, overwrite)]
  }

  /** How many of the outcomes are successes. */
  function CountTrue(bs: seq<bool>): (n: nat)
    ensures n <= |bs|
  {
    if bs == [] then 0
    else CountTrue(bs[..|bs| - 1]) + (if bs[|bs| - 1] then 1 else 0)
  }

  /** All files succeed exactly when the count is the batch size, and none
      does exactly when it is zero. */
  lemma {:induction false} CountTrueExtremes(bs: seq<bool>)
    ensures CountTrue(bs) == |bs| <==> forall i :: 0 <= i < |bs| ==> bs[i]
    ensures CountTrue(bs) == 0 <==> forall i :: 0 <= i < |bs| ==> !bs[i]
  {
    if bs != [] {
      var init := bs[..|bs| - 1];
      CountTrueExtremes(init);
      assert forall i :: 0 <= i < |init| ==> init[i] == bs[i];
    }
  }

  /** The summary: the success count always, the failure count only when some
      file failed. */
  function UploadSummary(succeeded: nat, failed: nat): string
  {
    "\U{2705} Uploaded " + NatToString(succeeded) + " reports successfully. "
      + (if failed > 0 then NatToString(failed) + " failed (see logs)." else "")
  }

  /** `t` occurs in `s`. */
  predicate Contains(s: string, t: string)
  {
    exists k :: 0 <= k <= |s| && t <= s[k..]
  }

  /** With failures, the summary ends with their count and mentions them. */
  lemma SummaryStatesFailures(succeeded: nat, failed: nat)
    requires failed > 0
    ensures var s := UploadSummary(succeeded, failed);
      var tail := NatToString(failed) + " failed (see logs).";
      |tail| <= |s| && s[|s| - |tail|..] == tail && Contains(s, "failed")
  {
    var head := "\U{2705} Uploaded " + NatToString(succeeded) + " reports successfully. ";
    var digits := NatToString(failed);
    var rest := " failed (see logs).";
    var tail := digits + rest;
    var s := head + tail;
    assert UploadSummary(succeeded, failed) == s;
    assert s[|s| - |tail|..] == tail;
    var k := |head| + |digits| + 1;
    assert s[k..] == rest[1..];
    assert "failed" == rest[1..][..6];
  }

  /** A text without the letter 'i' does not contain "failed". */
  lemma WithoutLetterNoFailed(s: string)
    requires 'i' !in s
    ensures !Contains(s, "failed")
  {
    forall k | 0 <= k <= |s| ensures !("failed" <= s[k..]) {
      if k + 2 < |s| {
        assert s[k + 2] in s;
        assert s[k..][2] == s[k + 2];
      }
    }
  }

  lemma DigitsWithoutLetter(n: nat)
    ensures 'i' !in NatToString(n)
  {
  }

  /** Without failures, the summary does not mention any. */
  lemma SummaryQuietWithoutFailures(succeeded: nat)
    ensures !Contains(UploadSummary(succeeded, 0), "failed")
  {
    var head, digits, rest := "\U{2705} Uploaded ", NatToString(succeeded), " reports successfully. ";
    DigitsWithoutLetter(succeeded);
    assert 'i' !in head;
    assert 'i' !in rest;
    assert UploadSummary(succeeded, 0) == head + digits + rest + "";
    WithoutLetterNoFailed(head + digits + rest + "");
  }

  /** One file of the batch: its report is named after the file. */
  method UploadFile(c: Connection, w: World, folderPath: Option<string>, file: UploadedFile,
                    dataSourcePath: Option<string>, overwrite: bool) returns (ok: bool)
    ensures ok == UploadSucceeds(c, w, folderPath, file, dataSourcePath, overwrite)
  {
    var outcome := UploadReport(c, w, folderPath, Some(FileNameWithoutExtension(file.fileName)), file.content,
                                dataSourcePath, overwrite);
    ok := outcome.Success?;
  }

  /** The outcomes of one more file. */
  lemma UploadOutcomesStep(c: Connection, w: World, folderPath: Option<string>, files: seq<UploadedFile>,
                           dataSourcePath: Option<string>, overwrite: bool, i: int)
    requires 0 <= i < |files|
    ensures UploadOutcomes(c, w, folderPath, files[..i + 1], dataSourcePath, overwrite)
            == UploadOutcomes(c, w, folderPath, files[..i], dataSourcePath, overwrite)
               + [UploadSucceeds(c, w, folderPath, files[i], dataSourcePath, overwrite)]
  {
    assert files[..i + 1][..i] == files[..i];
  }

  /** One more outcome adds one to the count exactly when it is a success. */
  lemma CountTrueStep(bs: seq<bool>, b: bool)
    ensures CountTrue(bs + [b]) == CountTrue(bs) + if b then 1 else 0
  {
    assert (bs + [b])[..|bs|] == bs;
  }

  /** The loop of `UploadReports`: each file is uploaded in turn and counted
      as exactly one success or one failure; a failure does not stop the
      files after it. */
  method UploadEach(c: Connection, w: World, folderPath: Option<string>, files: seq<UploadedFile>,
                    dataSourcePath: Option<string>, overwrite: bool)
    returns (successCount: nat, failCount: nat)
    ensures successCount == CountTrue(UploadOutcomes(c, w, folderPath, files, dataSourcePath, overwrite))
    ensures successCount + failCount == |files|
  {
    successCount, failCount := 0, 0;
    ghost var os: seq<bool> := [];
    for i := 0 to |files|
      invariant os == UploadOutcomes(c, w, folderPath, files[..i], dataSourcePath, overwrite)
      invariant successCount == CountTrue(os)
      invariant successCount + failCount == i
    {
      var ok := UploadFile(c, w, folderPath, files[i], dataSourcePath, overwrite);
      UploadOutcomesStep(c, w, folderPath, files, dataSourcePath, overwrite, i);
      CountTrueStep(os, ok);
      os := os + [ok];
      if ok {
        successCount := successCount + 1;
      } else {
        failCount := failCount + 1;
      }
    }
    assert files[..|files|] == files;
  }

  /** `UploadReports`: no file list, or an empty one, is an error; otherwise the
      first 200 files are uploaded one by one and the summary is left for the
      index page. */
  method UploadReports(w: World, folderPath: Option<string>, files: Option<seq<UploadedFile>>,
                       serverUrl: string, username: string, password: string,
                       dataSourcePath: Option<string>, overwrite: bool)
    returns (flash: Flash, successCount: nat, failCount: nat)
    ensures files.None? || files.value == [] ==> flash == ErrorMsg(NoFilesMessage) && successCount == 0 && failCount == 0
    ensures files.Some? && files.value != [] ==>
      var attempted := Attempted(files.value);
      var c := Connect(serverUrl, username, password);
      && successCount == CountTrue(UploadOutcomes(c, w, folderPath, attempted, dataSourcePath, overwrite))
      && successCount + failCount == |attempted|
      && flash == UploadMsg(UploadSummary(successCount, failCount))
  {
    if files.None? || files.value == [] {
      return ErrorMsg(NoFilesMessage), 0, 0;
    }
    var list := files.value;
    if |list| > MaxFiles {
      list := list[..MaxFiles];
    }
    var c := Connect(serverUrl, username, password);
    successCount, failCount := UploadEach(c, w, folderPath, list, dataSourcePath, overwrite);
    flash := UploadMsg(UploadSummary(successCount, failCount));
  }

  // ---------------------------------------------------------------------------
  // DownloadAll and DownloadSelected

  /** One entry of the ZIP archive a download returns. */
  datatype ZipEntry = ZipEntry(name: string, content: seq<Service.byte>)

  const NothingToDownload: string := "\U{26A0}\U{FE0F} No reports found to download in the selected folder."
  const NothingSelected: string := "\U{26A0}\U{FE0F} No reports selected for download."

  /** `DownloadAll`: the folder's reports as archive entries; an empty
      dictionary is an error, and so is a failed listing. */
  method DownloadAll(w: World, folderPath: string, serverUrl: string, username: string, password: string)
    returns (r: Result<map<string, seq<Service.byte>>>)
    ensures var listed := ListChildren(Connect(serverUrl, username, password), w, folderPath);
      listed.Failure? ==> r == Failure("\U{274C} Download failed: Download failed: " + listed.error)
    ensures var c := Connect(serverUrl, username, password);
      var listed := ListChildren(c, w, folderPath);
      listed.Success? ==>
        var m := Downloaded(c, w, OfType(listed.value, "Report"));
        r == if |m| == 0 then Failure(NothingToDownload) else Success(m)
  {
    var c := Connect(serverUrl, username, password);
    var reports := DownloadReports(c, w, folderPath);
    if reports.Failure? {
      return Failure("\U{274C} Download failed: " + reports.error);
    }
    if |reports.value| == 0 {
      return Failure(NothingToDownload);
    }
    r := Success(reports.value);
  }

  /** The path a selected report is fetched from: the folder, '/', the name. A
      missing folder concatenates as empty. */
  function SelectedPath(folderPath: Option<string>, name: string): string
  {
    (if folderPath.Some? then folderPath.value else "") + "/" + name
  }

  /** The path is the folder, then '/', then the name. */
  lemma SelectedPathParts(folderPath: Option<string>, name: string)
    ensures var p := SelectedPath(folderPath, name);
      && |p| == |name| + 1 + (if folderPath.Some? then |folderPath.value| else 0)
      && p[|p| - |name|..] == name && p[|p| - |name| - 1] == '/'
      && (folderPath.Some? ==> folderPath.value <= p)
  {
    var p := SelectedPath(folderPath, name);
    assert p[|p| - |name|..] == name;
  }

  function SelectedOutcomes(c: Connection, w: World, folderPath: Option<string>, names: seq<string>): (os: seq<Outcome>)
    ensures |os| == |names|
  {
    if names == [] then []
    else
      var last := names[|names| - 1];
      SelectedOutcomes(c, w, folderPath, names[..|names| - 1]) + [(last, Fetched(c, w, SelectedPath(folderPath, last)))]
  }

  /** The outcome at each position is the fetch of the name at that position. */
  lemma {:induction false} SelectedOutcomesAt(c: Connection, w: World, folderPath: Option<string>, names: seq<string>, i: int)
    requires 0 <= i < |names|
    ensures SelectedOutcomes(c, w, folderPath, names)[i] == (names[i], Fetched(c, w, SelectedPath(folderPath, names[i])))
  {
    var init := names[..|names| - 1];
    var before := SelectedOutcomes(c, w, folderPath, init);
    var last := (names[|names| - 1], Fetched(c, w, SelectedPath(folderPath, names[|names| - 1])));
    assert SelectedOutcomes(c, w, folderPath, names) == before + [last];
    if i < |names| - 1 {
      SelectedOutcomesAt(c, w, folderPath, init, i);
      assert init[i] == names[i];
      assert (before + [last])[i] == before[i];
    }
  }

  /** The outcomes of one more name. */
  lemma SelectedOutcomesStep(c: Connection, w: World, folderPath: Option<string>, names: seq<string>, i: int)
    requires 0 <= i < |names|
    ensures SelectedOutcomes(c, w, folderPath, names[..i + 1])
         == SelectedOutcomes(c, w, folderPath, names[..i]) + [(names[i], Fetched(c, w, SelectedPath(folderPath, names[i])))]
  {
    assert names[..i + 1][..i] == names[..i];
  }

  /** One more outcome adds its entry when it holds a definition. */
  lemma EntriesStep(os: seq<Outcome>, o: Outcome)
    ensures Entries(os + [o]) == Entries(os) + (if o.1.Some? then [ZipEntry(EntryName(o.0), o.1.value)] else [])
  {
    assert (os + [o])[..|os|] == os;
  }

  /** The archive entries the selection loop writes: one `<name>.rdl` per
      fetched definition, in order; a name whose fetch fails is skipped. */
  function Entries(os: seq<Outcome>): (es: seq<ZipEntry>)
    ensures |es| <= |os|
  {
    if os == [] then []
    else
      var last := os[|os| - 1];
      Entries(os[..|os| - 1]) + (if last.1.Some? then [ZipEntry(EntryName(last.0), last.1.value)] else [])
  }

  /** Every entry comes from a fetched definition, and every fetched
      definition has its entry. */
  lemma {:induction false} EntriesExactlyFetched(os: seq<Outcome>, e: ZipEntry)
    ensures e in Entries(os) <==> exists i :: 0 <= i < |os| && os[i].1.Some? && e == ZipEntry(EntryName(os[i].0), os[i].1.value)
  {
    if os != [] {
      var init := os[..|os| - 1];
      EntriesExactlyFetched(init, e);
      if exists i :: 0 <= i < |init| && init[i].1.Some? && e == ZipEntry(EntryName(init[i].0), init[i].1.value) {
        var i :| 0 <= i < |init| && init[i].1.Some? && e == ZipEntry(EntryName(init[i].0), init[i].1.value);
        assert os[i] == init[i];
      }
      if exists i :: 0 <= i < |os| && os[i].1.Some? && e == ZipEntry(EntryName(os[i].0), os[i].1.value) {
        var i :| 0 <= i < |os| && os[i].1.Some? && e == ZipEntry(EntryName(os[i].0), os[i].1.value);
        if i < |init| {
          assert init[i] == os[i];
        }
      }
    }
  }

  /** The archive of a selection names the same files as the dictionary the
      same outcomes would fill, though it keeps duplicates the dictionary merges. */
  lemma EntriesNameCollectedKeys(os: seq<Outcome>, k: string)
    ensures k in Collect(os) <==> exists e :: e in Entries(os) && e.name == k
  {
    CollectKeys(os, k);
    if FetchedUnder(os, k) {
      var i :| 0 <= i < |os| && os[i].1.Some? && EntryName(os[i].0) == k;
      EntriesExactlyFetched(os, ZipEntry(k, os[i].1.value));
    }
    if exists e :: e in Entries(os) && e.name == k {
      var e :| e in Entries(os) && e.name == k;
      EntriesExactlyFetched(os, e);
    }
  }

  /** The retrieval of one selected name, written out in the action itself:
      the escaped path of the name under the folder in a GetItemDefinition
      call, the response parsed, the first `Definition` found by local name and
      its text decoded. A step that throws is caught and the name skipped. */
  method FetchSelected(c: Connection, w: World, folderPath: Option<string>, name: string) returns (o: Outcome)
    ensures o == (name, Fetched(c, w, SelectedPath(folderPath, name)))
  {
    var itemPath := (if folderPath.Some? then folderPath.value else "") + "/" + name;
    var sent := SendSoap(c, w, GetItemDefinitionEnvelope(itemPath));
    if sent.Failure? {
      return (name, None);
    }
    var doc := w.parse(sent.value);
    if doc.Malformed? {
      return (name, None);
    }
    var definition := FindByLocalName(doc.root, "Definition");
    if definition.None? {
      return (name, None);
    }
    o := (name, Base64.Decode(Value(definition.value)));
  }

  /** `DownloadSelected`: no selection is an error; otherwise each selected name
      is fetched from the folder and written to the archive when it has a
      definition. */
  method DownloadSelected(w: World, folderPath: Option<string>, selectedReports: Option<seq<string>>,
                          serverUrl: string, username: string, password: string)
    returns (r: Result<seq<ZipEntry>>)
    ensures selectedReports.None? || selectedReports.value == [] ==> r == Failure(NothingSelected)
    ensures selectedReports.Some? && selectedReports.value != [] ==>
      r == Success(Entries(SelectedOutcomes(Connect(serverUrl, username, password), w, folderPath, selectedReports.value)))
  {
    if selectedReports.None? || selectedReports.value == [] {
      return Failure(NothingSelected);
    }
    var names := selectedReports.value;
    var c := Connect(serverUrl, username, password);
    var archive: seq<ZipEntry> := [];
    ghost var os: seq<Outcome> := [];
    for i := 0 to |names|
      invariant os == SelectedOutcomes(c, w, folderPath, names[..i])
      invariant archive == Entries(os)
    {
      var outcome := FetchSelected(c, w, folderPath, names[i]);
      SelectedOutcomesStep(c, w, folderPath, names, i);
      EntriesStep(os, outcome);
      os := os + [outcome];
      if outcome.1.Some? {
        archive := archive + [ZipEntry(EntryName(outcome.0), outcome.1.value)];
      }
    }
    assert names[..|names|] == names;
    r := Success(archive);
  }

  // ---------------------------------------------------------------------------
  // GenerateCsv

  const CsvHeader: string := "Report Name,Path,Data Source Path,Created Date,Modified Date"

  function OrEmpty(s: Option<string>): string
  {
    if s.Some? then s.value else ""
  }

  /** The five cells of a report's row; a missing date is empty. */
  function CsvFields(r: CatalogItem): (fs: seq<string>)
    ensures |fs| == 5
  {
    [r.name, r.path, r.dataSourcePath, OrEmpty(r.createdDate), OrEmpty(r.modifiedDate)]
  }

  function Quoted(f: string): string
  {
    "\"" + f + "\""
  }

  /** Cells written in double quotes and separated by commas, as they are,
      without doubling embedded quotes. */
  function QuotedCells(fs: seq<string>): string
    requires |fs| >= 1
  {
    if |fs| == 1 then Quoted(fs[0]) else Quoted(fs[0]) + "," + QuotedCells(fs[1..])
  }

  function CsvRow(r: CatalogItem): string
  {
    QuotedCells(CsvFields(r))
  }

  /** The rows of the reports, each ended by the newline. */
  function CsvRows(reports: seq<CatalogItem>, newline: string): string
  {
    if reports == [] then "" else CsvRow(reports[0]) + newline + CsvRows(reports[1..], newline)
  }

  /** The document `GenerateCsv` encodes: the header line, then one line per
      report, in order. */
  function Csv(reports: seq<CatalogItem>, newline: string): string
  {
    CsvHeader + newline + CsvRows(reports, newline)
  }

  lemma {:induction false} CsvRowsAppend(reports: seq<CatalogItem>, r: CatalogItem, newline: string)
    ensures CsvRows(reports + [r], newline) == CsvRows(reports, newline) + CsvRow(r) + newline
  {
    var row := CsvRow(r) + newline;
    if reports == [] {
      assert reports + [r] == [r];
      assert [r][1..] == [];
      assert CsvRows([r], newline) == row + "";
    } else {
      var xs := reports + [r];
      assert xs[0] == reports[0];
      assert xs[1..] == reports[1..] + [r];
      var head := CsvRow(reports[0]) + newline;
      calc {
        CsvRows(xs, newline);
        head + CsvRows(reports[1..] + [r], newline);
        { CsvRowsAppend(reports[1..], r, newline); }
        head + (CsvRows(reports[1..], newline) + row);
        (head + CsvRows(reports[1..], newline)) + row;
        CsvRows(reports, newline) + row;
      }
    }
  }

  /** `GenerateCsv`: the header and one row per report appended to a builder,
      each with `AppendLine`'s newline. */
  method GenerateCsv(reports: seq<CatalogItem>, newline: string) returns (text: string)
    ensures text == Csv(reports, newline)
  {
    text := CsvHeader + newline;
    for i := 0 to |reports|
      invariant text == CsvHeader + newline + CsvRows(reports[..i], newline)
    {
      CsvRowsAppend(reports[..i], reports[i], newline);
      assert reports[..i + 1] == reports[..i] + [reports[i]];
      text := text + CsvRow(reports[i]) + newline;
    }
    assert reports[..|reports|] == reports;
  }

  // A reader for the document: each cell runs from an opening quote to the
  // next quote.

  /** The text up to the first '"', and what follows that quote. */
  function UntilQuote(s: string): (r: Option<(string, string)>)
    ensures r.Some? ==> |r.value.1| < |s|
  {
    if s == [] then None
    else if s[0] == '"' then Some(([], s[1..]))
    else match UntilQuote(s[1..])
      case None => None
      case Some((f, rest)) => Some(([s[0]] + f, rest))
  }

  function ReadQuoted(s: string): (r: Option<(string, string)>)
    ensures r.Some? ==> |r.value.1| < |s|
  {
    if s == [] || s[0] != '"' then None else UntilQuote(s[1..])
  }

  /** `k` quoted cells separated by commas. */
  function ReadCells(s: string, k: nat): (r: Option<(seq<string>, string)>)
    requires k >= 1
    ensures r.Some? ==> |r.value.0| == k && |r.value.1| < |s|
    decreases k
  {
    match ReadQuoted(s)
    case None => None
    case Some((f, rest)) =>
      if k == 1 then Some(([f], rest))
      else if rest != [] && rest[0] == ',' then
        match ReadCells(rest[1..], k - 1)
        case None => None
        case Some((fs, rest')) => Some(([f] + fs, rest'))
      else None
  }

  /** Rows of five cells, each ended by the newline, up to the end of the text. */
  function ReadRows(s: string, newline: string): Option<seq<seq<string>>>
    decreases |s|
  {
    if s == [] then Some([])
    else match ReadCells(s, 5)
      case None => None
      case Some((fs, rest)) =>
        if newline <= rest then
          match ReadRows(rest[|newline|..], newline)
          case None => None
          case Some(rows) => Some([fs] + rows)
        else None
  }

  /** The rows of a document after its header line. */
  function ReadCsv(s: string, newline: string): Option<seq<seq<string>>>
  {
    var head := CsvHeader + newline;
    if head <= s then ReadRows(s[|head|..], newline) else None
  }

  lemma {:induction false} UntilQuoteReads(f: string, rest: string)
    requires '"' !in f
    ensures UntilQuote(f + "\"" + rest) == Some((f, rest))
  {
    if f != [] {
      assert (f + "\"" + rest)[1..] == f[1..] + "\"" + rest;
      UntilQuoteReads(f[1..], rest);
      assert [f[0]] + f[1..] == f;
    } else {
      assert f + "\"" + rest == "\"" + rest;
    }
  }

  lemma ReadQuotedReads(f: string, rest: string)
    requires '"' !in f
    ensures ReadQuoted(Quoted(f) + rest) == Some((f, rest))
  {
    assert (Quoted(f) + rest)[1..] == f + "\"" + rest;
    UntilQuoteReads(f, rest);
  }

  /** No cell holds a double quote. */
  predicate Unquoted(fs: seq<string>)
  {
    forall i :: 0 <= i < |fs| ==> '"' !in fs[i]
  }

  lemma QuotedCellsCons(fs: seq<string>, rest: string)
    requires |fs| >= 2
    ensures QuotedCells(fs) + rest == Quoted(fs[0]) + ("," + (QuotedCells(fs[1..]) + rest))
  {
  }

  /** One quoted cell and a comma, then the remaining cells. */
  lemma ReadCellsCons(s: string, k: nat, f: string, tail: string, fs: seq<string>, rest: string)
    requires k >= 2
    requires ReadQuoted(s) == Some((f, "," + tail))
    requires ReadCells(tail, k - 1) == Some((fs, rest))
    ensures ReadCells(s, k) == Some(([f] + fs, rest))
  {
    assert ("," + tail)[1..] == tail;
  }

  lemma {:induction false} ReadCellsReads(fs: seq<string>, rest: string)
    requires |fs| >= 1 && Unquoted(fs)
    ensures ReadCells(QuotedCells(fs) + rest, |fs|) == Some((fs, rest))
    decreases |fs|
  {
    if |fs| == 1 {
      ReadQuotedReads(fs[0], rest);
      assert [fs[0]] == fs;
    } else {
      var tail := QuotedCells(fs[1..]) + rest;
      QuotedCellsCons(fs, rest);
      ReadQuotedReads(fs[0], "," + tail);
      assert Unquoted(fs[1..]) by {
        forall i | 0 <= i < |fs| - 1 ensures '"' !in fs[1..][i] {
          assert fs[1..][i] == fs[i + 1];
        }
      }
      ReadCellsReads(fs[1..], rest);
      ReadCellsCons(QuotedCells(fs) + rest, |fs|, fs[0], tail, fs[1..], rest);
      assert [fs[0]] + fs[1..] == fs;
    }
  }

  /** Every cell of every row, as written. */
  function AllFields(reports: seq<CatalogItem>): (rows: seq<seq<string>>)
    ensures |rows| == |reports|
  {
    seq(|reports|, i requires 0 <= i < |reports| => CsvFields(reports[i]))
  }

  lemma AllFieldsCons(reports: seq<CatalogItem>)
    requires reports != []
    ensures AllFields(reports) == [CsvFields(reports[0])] + AllFields(reports[1..])
  {
    var tail := AllFields(reports[1..]);
    forall i | 0 <= i < |reports| ensures AllFields(reports)[i] == ([CsvFields(reports[0])] + tail)[i] {
      if i > 0 {
        assert reports[1..][i - 1] == reports[i];
      }
    }
  }

  /** One row written by the document is read as its cells. */
  lemma ReadRowsStep(fs: seq<string>, rest: string, newline: string)
    requires |fs| == 5 && Unquoted(fs)
    ensures var rows := ReadRows(rest, newline);
      ReadRows(QuotedCells(fs) + (newline + rest), newline) == if rows.Some? then Some([fs] + rows.value) else None
  {
    var s := QuotedCells(fs) + (newline + rest);
    ReadCellsReads(fs, newline + rest);
    assert ReadCells(s, 5) == Some((fs, newline + rest));
    assert (newline + rest)[|newline|..] == rest;
    assert s != [];
  }

  lemma CsvRowsCons(reports: seq<CatalogItem>, newline: string)
    requires reports != []
    ensures CsvRows(reports, newline)
         == QuotedCells(CsvFields(reports[0])) + (newline + CsvRows(reports[1..], newline))
  {
  }

  lemma {:induction false} ReadRowsReads(reports: seq<CatalogItem>, newline: string)
    requires forall i :: 0 <= i < |reports| ==> Unquoted(CsvFields(reports[i]))
    ensures ReadRows(CsvRows(reports, newline), newline) == Some(AllFields(reports))
  {
    if reports != [] {
      var fs := CsvFields(reports[0]);
      var rest := CsvRows(reports[1..], newline);
      assert Unquoted(fs);
      forall i | 0 <= i < |reports| - 1 ensures Unquoted(CsvFields(reports[1..][i])) {
        assert reports[1..][i] == reports[i + 1];
      }
      ReadRowsReads(reports[1..], newline);
      calc {
        ReadRows(CsvRows(reports, newline), newline);
        { CsvRowsCons(reports, newline); }
        ReadRows(QuotedCells(fs) + (newline + rest), newline);
        { ReadRowsStep(fs, rest, newline); }
        Some([fs] + AllFields(reports[1..]));
        { AllFieldsCons(reports); }
        Some(AllFields(reports));
      }
    }
  }

  /** Reading the document back gives every cell of every report, in order,
      provided no cell holds a double quote. */
  lemma CsvRoundTrip(reports: seq<CatalogItem>, newline: string)
    requires forall i :: 0 <= i < |reports| ==> Unquoted(CsvFields(reports[i]))
    ensures ReadCsv(Csv(reports, newline), newline) == Some(AllFields(reports))
  {
    var head := CsvHeader + newline;
    var s := Csv(reports, newline);
    assert s[..|head|] == head;
    assert s[|head|..] == CsvRows(reports, newline);
    ReadRowsReads(reports, newline);
  }

  /** Quotes are not doubled, so a name holding one breaks its row: the
      document of a single report named `x"y` does not read back. */
  lemma EmbeddedQuoteBreaksRow()
    ensures ReadCsv(Csv([CatalogItem("x\"y", "/x", "Report", "", None, None)], "\n"), "\n") == None
  {
    var r := CatalogItem("x\"y", "/x", "Report", "", None, None);
    var head := CsvHeader + "\n";
    var s := Csv([r], "\n");
    var fs := CsvFields(r);
    var row := CsvRows([r], "\n");
    assert s[..|head|] == head && s[|head|..] == row;
    assert [r][0] == r && [r][1..] == [];
    assert CsvRows([], "\n") == "";
    assert row == CsvRow(r) + "\n" + "";
    assert row == QuotedCells(fs) + "\n";
    var rest := "y\"" + "," + QuotedCells(fs[1..]) + "\n";
    assert row == "\"" + ("x" + "\"" + rest);
    UntilQuoteReads("x", rest);
    assert row[1..] == "x" + "\"" + rest;
    assert ReadQuoted(row) == Some(("x", rest));
    assert ReadCells(row, 5) == None;
  }

  // ---------------------------------------------------------------------------
  // ExportReports

  /** The file `ExportReports` returns, or the error it leaves for the index page. */
  datatype Export =
    | ExportError(message: string)
    | CsvFile(text: string)
    | Workbook(rows: seq<CatalogItem>)

  const NothingToExport: string := "\U{26A0}\U{FE0F} No reports found to export."

  predicate IsCsvFormat(format: string)
  {
    ToLower(format) == "csv"
  }

  /** The CSV format is chosen by "csv" in any letter case, and by nothing else. */
  lemma CsvFormatIsCaseInsensitive(format: string)
    ensures IsCsvFormat(format) <==>
      |format| == 3 && format[0] in {'c', 'C'} && format[1] in {'s', 'S'} && format[2] in {'v', 'V'}
  {
    if |format| == 3 {
      var l := ToLower(format);
      assert l == [ToLowerChar(format[0]), ToLowerChar(format[1]), ToLowerChar(format[2])];
    }
  }

  /** `ExportReports`: the folder's reports with their dates, recursively; an
      empty list or a failed listing is an error; otherwise a CSV document when
      the format is "csv" in any case, a workbook of the same rows otherwise. */
  function ExportReports(w: World, folderPath: string, serverUrl: string, username: string, password: string,
                         format: string, newline: string): (r: Export)
    ensures var listed := ListItems(Connect(serverUrl, username, password), w, folderPath, ReportsDetailed);
      listed.Failure? ==> r == ExportError("\U{274C} Export failed: " + listed.error)
    ensures var listed := ListItems(Connect(serverUrl, username, password), w, folderPath, ReportsDetailed);
      listed == Success([]) ==> r == ExportError(NothingToExport)
    ensures var listed := ListItems(Connect(serverUrl, username, password), w, folderPath, ReportsDetailed);
      r.CsvFile? <==> listed.Success? && listed.value != [] && IsCsvFormat(format)
    ensures var listed := ListItems(Connect(serverUrl, username, password), w, folderPath, ReportsDetailed);
      r.CsvFile? ==> r.text == Csv(listed.value, newline)
    ensures var listed := ListItems(Connect(serverUrl, username, password), w, folderPath, ReportsDetailed);
      r.Workbook? ==> r.rows == listed.value && r.rows != [] && !IsCsvFormat(format)
  {
    match ListItems(Connect(serverUrl, username, password), w, folderPath, ReportsDetailed)
    case Failure(m) => ExportError("\U{274C} Export failed: " + m)
    case Success(reports) =>
      if reports == [] then ExportError(NothingToExport)
      else if IsCsvFormat(format) then CsvFile(Csv(reports, newline))
      else Workbook(reports)
  }
}
