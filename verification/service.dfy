/**
 * The batch operations of `SSRSServices`: fetching one report definition,
 * downloading every report of a folder into a name-to-bytes dictionary, and
 * uploading one report (optionally rebound to a shared data source).
 */
module Service {
  import opened Wrappers
  import opened Strings
  import opened Xml
  import opened Soap
  import opened Catalog
  import Rdl
  import Base64

  type byte = Base64.byte

  /** One GetItemDefinition round trip, as `DownloadReportsAsync` and the
      controller's `DownloadSelected` both perform it: the item path is escaped,
      the first element whose local name is `Definition` is looked up in any
      namespace, and its text is decoded from base64. `Success(None)` is a
      response without such an element; a failed call, an unparsable response
      or text that is not base64 is a `Failure`. */
  function RetrieveDefinition(c: Connection, w: World, itemPath: string): (r: Result<Option<seq<byte>>>)
    ensures var sent := SendSoap(c, w, GetItemDefinitionEnvelope(itemPath));
      sent.Failure? ==> r == Failure(sent.error)
    ensures var sent := SendSoap(c, w, GetItemDefinitionEnvelope(itemPath));
      r.Success? ==> sent.Success? && w.parse(sent.value).Parsed?
    ensures var sent := SendSoap(c, w, GetItemDefinitionEnvelope(itemPath));
      r == Success(None) <==>
        sent.Success? && w.parse(sent.value).Parsed? && FindByLocalName(w.parse(sent.value).root, "Definition").None?
    ensures var sent := SendSoap(c, w, GetItemDefinitionEnvelope(itemPath));
      sent.Success? && w.parse(sent.value).Malformed? ==> r == Failure(w.parse(sent.value).message)
    ensures var sent := SendSoap(c, w, GetItemDefinitionEnvelope(itemPath));
      r.Success? && r.value.Some? <==>
        && sent.Success? && w.parse(sent.value).Parsed?
        && var d := FindByLocalName(w.parse(sent.value).root, "Definition");
           d.Some? && Base64.Decode(Value(d.value)).Some?
    ensures var sent := SendSoap(c, w, GetItemDefinitionEnvelope(itemPath));
      r.Success? && r.value.Some? ==>
        r.value.value == Base64.Decode(Value(FindByLocalName(w.parse(sent.value).root, "Definition").value)).value
    ensures var sent := SendSoap(c, w, GetItemDefinitionEnvelope(itemPath));
      (&& sent.Success? && w.parse(sent.value).Parsed?
       && FindByLocalName(w.parse(sent.value).root, "Definition").Some?
       && Base64.Decode(Value(FindByLocalName(w.parse(sent.value).root, "Definition").value)).None?)
      ==> r == Failure("The input is not a valid Base-64 string")
  {
    match SendSoap(c, w, GetItemDefinitionEnvelope(itemPath))
    case Failure(m) => Failure(m)
    case Success(body) =>
      match w.parse(body)
      case Malformed(m) => Failure(m)
      case Parsed(root) =>
        match FindByLocalName(root, "Definition")
        case None => Success(None)
        case Some(d) =>
          match Base64.Decode(Value(d))
          case None => Failure("The input is not a valid Base-64 string")
          case Some(bytes) => Success(Some(bytes))
  }

  /** A server that answers with the base64 encoding of a definition hands back
      exactly that definition. */
  lemma RetrievesEncodedDefinition(c: Connection, w: World, itemPath: string, definition: seq<byte>)
    requires var sent := SendSoap(c, w, GetItemDefinitionEnvelope(itemPath));
      && sent.Success?
      && w.parse(sent.value).Parsed?
      && var d := FindByLocalName(w.parse(sent.value).root, "Definition");
         d.Some? && Value(d.value) == Base64.Encode(definition)
    ensures RetrieveDefinition(c, w, itemPath) == Success(Some(definition))
  {
    Base64.RoundTrip(definition);
  }

  /** The definition a retrieval yields, when it yields one. */
  function Fetched(c: Connection, w: World, itemPath: string): Option<seq<byte>>
  {
    match RetrieveDefinition(c, w, itemPath)
    case Success(Some(bytes)) => Some(bytes)
    case _ => None
  }

  /** One retrieval as `DownloadReportsAsync` performs it: the GetItemDefinition
      call, the parse, the lookup of `Definition` by local name and the base64
      decoding. Any step that throws skips the report, and so does a response
      without a definition. */
  method FetchDefinition(c: Connection, w: World, itemPath: string) returns (r: Option<seq<byte>>)
    ensures r == Fetched(c, w, itemPath)
  {
    var sent := SendSoap(c, w, GetItemDefinitionEnvelope(itemPath));
    if sent.Failure? {
      return None;
    }
    var doc := w.parse(sent.value);
    if doc.Malformed? {
      return None;
    }
    var definition := FindByLocalName(doc.root, "Definition");
    if definition.None? {
      return None;
    }
    r := Base64.Decode(Value(definition.value));
  }

  /** The archive or dictionary entry of a report. */
  function EntryName(name: string): string
  {
    name + ".rdl"
  }

  /** What the fetch loop sees of each report: its name and the definition
      fetched for it, if any. */
  type Outcome = (string, Option<seq<byte>>)

  function Outcomes(c: Connection, w: World, reports: seq<CatalogItem>): (os: seq<Outcome>)
    ensures |os| == |reports|
  {
    if reports == [] then []
    else
      var last := reports[|reports| - 1];
      Outcomes(c, w, reports[..|reports| - 1]) + [(last.name, Fetched(c, w, last.path))]
  }

  /** The outcome at each position is the fetch of the report at that position. */
  lemma {:induction false} OutcomesAt(c: Connection, w: World, reports: seq<CatalogItem>, i: int)
    requires 0 <= i < |reports|
    ensures Outcomes(c, w, reports)[i] == (reports[i].name, Fetched(c, w, reports[i].path))
  {
    var init := reports[..|reports| - 1];
    var before := Outcomes(c, w, init);
    var last := (reports[|reports| - 1].name, Fetched(c, w, reports[|reports| - 1].path));
    assert Outcomes(c, w, reports) == before + [last];
    if i < |reports| - 1 {
      OutcomesAt(c, w, init, i);
      assert init[i] == reports[i];
      assert (before + [last])[i] == before[i];
    }
  }

  /** The outcomes of one more report. */
  lemma OutcomesStep(c: Connection, w: World, reports: seq<CatalogItem>, i: int)
    requires 0 <= i < |reports|
    ensures Outcomes(c, w, reports[..i + 1]) == Outcomes(c, w, reports[..i]) + [(reports[i].name, Fetched(c, w, reports[i].path))]
  {
    assert reports[..i + 1][..i] == reports[..i];
  }

  /** The dictionary the fetch loop fills, one outcome after the other: a
      fetched definition sets the entry of its report, replacing any earlier
      one with the same name; a failed or empty fetch leaves the dictionary as
      it is. */
  function Collect(os: seq<Outcome>): map<string, seq<byte>>
  {
    if os == [] then map[]
    else
      var m := Collect(os[..|os| - 1]);
      var last := os[|os| - 1];
      if last.1.Some? then m[EntryName(last.0) := last.1.value] else m
  }

  /** One more outcome sets its entry when it holds a definition. */
  lemma CollectStep(os: seq<Outcome>, o: Outcome)
    ensures Collect(os + [o]) == if o.1.Some? then Collect(os)[EntryName(o.0) := o.1.value] else Collect(os)
  {
    assert (os + [o])[..|os|] == os;
  }

  /** Some outcome of the list is a fetched definition under entry name `k`. */
  predicate FetchedUnder(os: seq<Outcome>, k: string)
  {
    exists i :: 0 <= i < |os| && os[i].1.Some? && EntryName(os[i].0) == k
  }

  lemma FetchedUnderStep(os: seq<Outcome>, k: string)
    requires os != []
    ensures var last := os[|os| - 1];
      FetchedUnder(os, k) <==> FetchedUnder(os[..|os| - 1], k) || (last.1.Some? && EntryName(last.0) == k)
  {
    var init := os[..|os| - 1];
    if FetchedUnder(init, k) {
      var i :| 0 <= i < |init| && init[i].1.Some? && EntryName(init[i].0) == k;
      assert os[i] == init[i];
    }
    if FetchedUnder(os, k) {
      var i :| 0 <= i < |os| && os[i].1.Some? && EntryName(os[i].0) == k;
      if i < |init| {
        assert init[i] == os[i];
      }
    }
  }

  /** The keys are exactly the entry names of the reports whose definition was fetched. */
  lemma {:induction false} CollectKeys(os: seq<Outcome>, k: string)
    ensures k in Collect(os) <==> FetchedUnder(os, k)
  {
    if os != [] {
      CollectKeys(os[..|os| - 1], k);
      FetchedUnderStep(os, k);
    }
  }

  /** Each entry holds the definition of the last report fetched under that name. */
  lemma {:induction false} CollectLastWins(os: seq<Outcome>, i: nat)
    requires i < |os| && os[i].1.Some?
    requires forall j :: i < j < |os| && os[j].1.Some? ==> EntryName(os[j].0) != EntryName(os[i].0)
    ensures EntryName(os[i].0) in Collect(os)
    ensures Collect(os)[EntryName(os[i].0)] == os[i].1.value
  {
    var last := |os| - 1;
    if i < last {
      var init := os[..last];
      assert init[i] == os[i];
      forall j | i < j < |init| && init[j].1.Some?
        ensures EntryName(init[j].0) != EntryName(init[i].0)
      {
        assert init[j] == os[j];
      }
      CollectLastWins(init, i);
    }
  }

  /** The dictionary `DownloadReportsAsync` builds from a list of reports. */
  function Downloaded(c: Connection, w: World, reports: seq<CatalogItem>): map<string, seq<byte>>
  {
    Collect(Outcomes(c, w, reports))
  }

  /** `DownloadReportsAsync`: the immediate children of the folder are listed
      (not recursively), the reports among them are fetched one by one, and
      a report that fails is skipped. Only a failed listing fails the call,
      with `Download failed: <message>`. */
  method DownloadReports(c: Connection, w: World, folderPath: string) returns (r: Result<map<string, seq<byte>>>)
    ensures var listed := ListChildren(c, w, folderPath);
      listed.Failure? ==> r == Failure("Download failed: " + listed.error)
    ensures var listed := ListChildren(c, w, folderPath);
      listed.Success? ==> r == Success(Downloaded(c, w, OfType(listed.value, "Report")))
  {
    var listed := ListChildren(c, w, folderPath);
    if listed.Failure? {
      return Failure("Download failed: " + listed.error);
    }
    var reports := OfType(listed.value, "Report");
    var result: map<string, seq<byte>> := map[];
    ghost var os: seq<Outcome> := [];
    var i := 0;
    while i < |reports|
      invariant 0 <= i <= |reports|
      invariant os == Outcomes(c, w, reports[..i])
      invariant result == Collect(os)
    {
      var report := reports[i];
      var fetched := FetchDefinition(c, w, report.path);
      OutcomesStep(c, w, reports, i);
      CollectStep(os, (report.name, fetched));
      os := os + [(report.name, fetched)];
      if fetched.Some? {
        result := result[EntryName(report.name) := fetched.value];
      }
      i := i + 1;
    }
    assert reports[..|reports|] == reports;
    r := Success(result);
  }

  /** The parent folder of an upload: a missing folder is "/", any other has
      all its trailing '/' removed, so "/" itself becomes "". */
  function NormalFolder(folderPath: Option<string>): (r: string)
    ensures folderPath.None? ==> r == "/"
    ensures folderPath.Some? ==> r <= folderPath.value && (r == [] || r[|r| - 1] != '/')
    ensures folderPath.Some? ==> forall i :: |r| <= i < |folderPath.value| ==> folderPath.value[i] == '/'
  {
    match folderPath
    case None => "/"
    case Some(f) => TrimEnd(f, '/')
  }

  /** The root folder given as "/" is sent as the empty parent. */
  lemma RootFolderSentEmpty()
    ensures NormalFolder(Some("/")) == "" && NormalFolder(None) == "/"
  {
    assert TrimEnd("/", '/') == TrimEnd([], '/');
  }

  /** The report name of an upload: a missing name is `UnnamedReport`, any
      other is trimmed of surrounding white space. */
  function NormalName(reportName: Option<string>): string
  {
    match reportName
    case None => "UnnamedReport"
    case Some(n) => Trim(n)
  }

  /** A given name is sent without surrounding white space, and empty only when blank. */
  lemma NormalNameTrimmed(n: string)
    ensures var r := NormalName(Some(n));
      && (r == [] <==> IsBlank(n))
      && (r != [] ==> !IsWhiteSpace(r[0]) && !IsWhiteSpace(r[|r| - 1]))
  {
    TrimEmptyIffBlank(n);
    TrimHasNoOuterWhiteSpace(n);
  }

  /** The definition an upload sends: rebound when a shared data source path
      is given and not blank, as given otherwise. */
  function UploadedDefinition(w: World, reportDef: seq<byte>, dataSourcePath: Option<string>): (r: Result<seq<byte>>)
    ensures IsNullOrWhiteSpace(dataSourcePath) ==> r == Success(reportDef)
    ensures !IsNullOrWhiteSpace(dataSourcePath) ==> r == Rdl.Replaced(w, reportDef, dataSourcePath.value)
  {
    if IsNullOrWhiteSpace(dataSourcePath) then Success(reportDef)
    else Rdl.Replaced(w, reportDef, dataSourcePath.value)
  }

  /** The message an upload failure carries. */
  function UploadError(name: string, message: string): string
  {
    "Upload failed for '" + name + "': " + message
  }

  /** `UploadReportAsync`: the envelope it posts and the server accepts, or the
      error it fails with, which always names the normalised report. */
  function Upload(c: Connection, w: World, folderPath: Option<string>, reportName: Option<string>,
                  reportDef: seq<byte>, dataSourcePath: Option<string>, overwrite: bool): (r: Result<Envelope>)
    ensures r.Failure? ==> UploadError(NormalName(reportName), "") <= r.error
    ensures r.Success? ==> SendSoap(c, w, r.value).Success?
    ensures var definition := UploadedDefinition(w, reportDef, dataSourcePath);
      definition.Failure? ==> r == Failure(UploadError(NormalName(reportName), definition.error))
    ensures var definition := UploadedDefinition(w, reportDef, dataSourcePath);
      definition.Success? ==>
        var sent := SendSoap(c, w, CreateReportEnvelope(NormalName(reportName), NormalFolder(folderPath), overwrite,
                                                        definition.value));
        sent.Failure? ==> r == Failure(UploadError(NormalName(reportName), sent.error))
  {
    var name := NormalName(reportName);
    match UploadedDefinition(w, reportDef, dataSourcePath)
    case Failure(m) => Failure(UploadError(name, m))
    case Success(definition) =>
      var e := CreateReportEnvelope(name, NormalFolder(folderPath), overwrite, definition);
      match SendSoap(c, w, e)
      case Failure(m) => Failure(UploadError(name, m))
      case Success(_) => Success(e)
  }

  /** An upload succeeds exactly when the definition could be prepared and the
      server accepted the CreateCatalogItem call. */
  lemma UploadSucceedsWhenAccepted(c: Connection, w: World, folderPath: Option<string>, reportName: Option<string>,
                                   reportDef: seq<byte>, dataSourcePath: Option<string>, overwrite: bool)
    ensures var definition := UploadedDefinition(w, reportDef, dataSourcePath);
      Upload(c, w, folderPath, reportName, reportDef, dataSourcePath, overwrite).Success? <==>
        definition.Success?
        && SendSoap(c, w, CreateReportEnvelope(NormalName(reportName), NormalFolder(folderPath), overwrite,
                                               definition.value)).Success?
  {
  }

  /** What a successful upload posted: the normalised name and parent, the
      overwrite flag, and a definition that decodes to the given bytes when
      no data source path is given, or to the rewritten document otherwise. */
  lemma UploadSendsDefinition(c: Connection, w: World, folderPath: Option<string>, reportName: Option<string>,
                              reportDef: seq<byte>, dataSourcePath: Option<string>, overwrite: bool)
    requires Upload(c, w, folderPath, reportName, reportDef, dataSourcePath, overwrite).Success?
    ensures var e := Upload(c, w, folderPath, reportName, reportDef, dataSourcePath, overwrite).value;
      && e.operation == "CreateCatalogItem"
      && |e.fields| == 6
      && Unescape(e.fields[1].text) == NormalName(reportName)
      && Unescape(e.fields[2].text) == NormalFolder(folderPath)
      && (e.fields[3].text == "true" <==> overwrite)
      && (IsNullOrWhiteSpace(dataSourcePath) ==> Base64.Decode(e.fields[4].text) == Some(reportDef))
      && (!IsNullOrWhiteSpace(dataSourcePath) ==>
            && w.load(reportDef).Parsed?
            && Base64.Decode(e.fields[4].text)
               == Some(w.save(Rdl.RebindDocument(w.load(reportDef).root, dataSourcePath.value))))
  {
    var definition := UploadedDefinition(w, reportDef, dataSourcePath).value;
    CreateReportReadsBack(NormalName(reportName), NormalFolder(folderPath), overwrite, definition);
  }

  /** `UploadReportAsync` as written: the parameters are normalised in place,
      the definition replaced when rebinding, then the envelope is posted. */
  method UploadReport(c: Connection, w: World, folderPath: Option<string>, reportName: Option<string>,
                      reportDef: seq<byte>, dataSourcePath: Option<string>, overwrite: bool) returns (r: Result<Envelope>)
    ensures r == Upload(c, w, folderPath, reportName, reportDef, dataSourcePath, overwrite)
  {
    var folder := if folderPath.Some? then TrimEnd(folderPath.value, '/') else "/";
    var name := if reportName.Some? then Trim(reportName.value) else "UnnamedReport";
    var definition := reportDef;
    if !IsNullOrWhiteSpace(dataSourcePath) {
      var rebound := Rdl.ReplaceRdlDataSource(w, definition, dataSourcePath.value);
      if rebound.Failure? {
        return Failure(UploadError(name, rebound.error));
      }
      definition := rebound.value;
    }
    var e := CreateReportEnvelope(name, folder, overwrite, definition);
    var sent := SendSoap(c, w, e);
    if sent.Failure? {
      return Failure(UploadError(name, sent.error));
    }
    r := Success(e);
  }
}
