# SSRSHelper core, modelled in Dafny

SSRSHelper is a small ASP.NET tool for SQL Server Reporting Services (SSRS).
It talks to the ReportService2010 SOAP endpoint of a report server, with
basic credentials. It can:

- check that the server answers;
- list the catalog (folders, reports, shared data sources);
- upload batches of `.rdl` report definitions, optionally rebinding each one
  to a shared data source first;
- download all or selected reports as `.rdl` files;
- export report metadata as CSV or a workbook.

This project models the two core files of that tool:

- `SSRSServices` (transport, catalog listings, download, upload and the RDL
  rewriter);
- `SSRSController` (the actions built on them).

It also proves what their callers rely on.

Modules, one per file:

- `Wrappers`: `Option` and `Result`.
- `Strings`: the .NET string operations the code uses, written out. These are
  `TrimEnd('/')`, `Trim()`, `ToLower()`, integer formatting,
  `Path.GetFileNameWithoutExtension` and `SecurityElement.Escape`.
- `Base64`: `Convert.ToBase64String` and `Convert.FromBase64String`.
- `Xml`: an XML document as a value tree (element name = namespace + local
  name, attributes, children, text). It provides `Descendants()` in document
  order, `Element(name)` and `Value`.
- `Soap`: the connection context, the three request envelopes,
  `SendSoapAsync` and `ExtractFault`. The server and the XML library's
  parse, load and save are functions of a `World` value that every operation
  receives.
- `Catalog`: `ListChildrenAsync` and the three filtered listings that share
  its parser, and `CheckConnectionAsync`.
- `Rdl`: `ReplaceRdlDataSource`. The in-place walk (`RebindTree`) is proved
  to compute a structural rewrite (`Rebound`). Properties of that rewrite are
  proved as lemmas.
- `Service`: `DownloadReportsAsync` and `UploadReportAsync`.
- `Controller`: the actions `CheckConnection`, `UploadReports`,
  `DownloadAll`, `DownloadSelected` and `ExportReports`, and `GenerateCsv`.

Each action's result is a value: the view it renders, the flash message it
leaves, or the file it returns. The loops of the source (the upload batch,
the download loops, the CSV builder, the RDL walk) are methods with
invariants. Each method is proved against a function that specifies it.

Two behaviours of the code are easy to misread:

- `DownloadReportsAsync` lists only the folder's immediate children, with
  `Recursive` false (`ReportHelper/Service/SSRSServices.cs:334`, via line 92).
- `CheckConnectionAsync` reports `false` only when the root lists no item.
  A failed call is an error, not `false`.

## Model

| member | source | states |
|---|---|---|
| Strings.TrimEnd | ReportHelper/Service/SSRSServices.cs:19 | The result is a prefix of the input that does not end in the trimmed character, and every character dropped is that character. |
| Strings.TrimEndAbsorbsTrailing | ReportHelper/Service/SSRSServices.cs:19 | Appending any number of the trimmed character to the input leaves the result unchanged. |
| Strings.TrimEndIdempotent | ReportHelper/Service/SSRSServices.cs:146 | Trimming an already trimmed string changes nothing. |
| Strings.TrimTrailingWhiteSpace | ReportHelper/Service/SSRSServices.cs:147 | A prefix of the input with no trailing white space; only white space is dropped. |
| Strings.TrimLeadingWhiteSpace | ReportHelper/Service/SSRSServices.cs:147 | A suffix of the input with no leading white space; only white space is dropped. |
| Strings.Trim | ReportHelper/Service/SSRSServices.cs:147 | `Trim()`: trailing, then leading white space removed. Its properties are stated by the three lemmas below. |
| Strings.TrimHasNoOuterWhiteSpace | ReportHelper/Service/SSRSServices.cs:147 | A non-empty trimmed name neither starts nor ends with white space. |
| Strings.TrimEmptyIffBlank | ReportHelper/Service/SSRSServices.cs:147 | Trimming yields the empty string exactly when the input is all white space. |
| Strings.TrimIsInfix | ReportHelper/Service/SSRSServices.cs:147 | The trimmed name is a contiguous part of the input, framed by a blank prefix and a blank suffix. |
| Strings.IsNullOrWhiteSpace | ReportHelper/Service/SSRSServices.cs:149 | `string.IsNullOrWhiteSpace`: a missing path, or one made only of white space. `Service.UploadedDefinition` states how it selects the rebinding. |
| Strings.ToLower | ReportHelper/Controllers/SSRSController.cs:131 | Same length as the input, with each character lowered on its own. |
| Strings.ToLowerChar | ReportHelper/Controllers/SSRSController.cs:131 | A lower-case letter comes only from itself or its upper-case form. |
| Strings.NatToString | ReportHelper/Controllers/SSRSController.cs:75 | The digits of a count: at least one, and no leading zero. |
| Strings.NatToStringRoundTrip | ReportHelper/Controllers/SSRSController.cs:75 | Reading the digits of a count back gives the count. |
| Strings.IntToString | ReportHelper/Service/SSRSServices.cs:46 | The `(int)StatusCode` text in the fault message. Its reading back is stated by `Strings.IntToStringReadsBack`. |
| Strings.IntToStringReadsBack | ReportHelper/Service/SSRSServices.cs:46 | A status code is written as a minus sign exactly when negative, then digits that read back to its magnitude. |
| Strings.LastIndexOfAny | ReportHelper/Controllers/SSRSController.cs:65 | The index of the last separator, none after it; -1 when there is no separator. |
| Strings.FileNameIsLastSegment | ReportHelper/Controllers/SSRSController.cs:65 | The file name is the suffix after the last '/' or '\\' and contains neither. |
| Strings.FileNameWithoutExtension | ReportHelper/Controllers/SSRSController.cs:65 | `Path.GetFileNameWithoutExtension`: the file name up to its last '.'. `Strings.ExtensionDropped` states it. |
| Strings.ExtensionDropped | ReportHelper/Controllers/SSRSController.cs:65 | The report name is the file name up to its last '.', or all of it when it has no '.'. |
| Strings.Escape | ReportHelper/Service/SSRSServices.cs:159-160 | The escaped text contains no '<', '>', '"' or '\''. |
| Strings.UnescapeEscapeChar | ReportHelper/Service/SSRSServices.cs:159-160 | Unescaping the escape of a character gives the character back. |
| Strings.EscapeRoundTrip | ReportHelper/Service/SSRSServices.cs:159-160 | Unescaping an escaped name or path gives it back unchanged. |
| Base64.SextetOfCharOf | ReportHelper/Service/SSRSServices.cs:162 | The alphabet's character for a six-bit value maps back to that value. |
| Base64.EncodeGroup | ReportHelper/Service/SSRSServices.cs:162 | One to three bytes become four characters, padded with '=' for a short group. |
| Base64.Encode | ReportHelper/Service/SSRSServices.cs:162 | The encoding's length is a multiple of four. |
| Base64.EncodeAlphabet | ReportHelper/Service/SSRSServices.cs:162 | Every character of the encoding is from the base64 alphabet or '='. |
| Base64.EncodedLength | ReportHelper/Service/SSRSServices.cs:162 | n bytes encode to exactly 4 * ceil(n / 3) characters. |
| Base64.GroupRoundTrip | ReportHelper/Service/SSRSServices.cs:362 | Decoding the encoding of one group of one to three bytes gives the group back. |
| Base64.GroupsRoundTrip | ReportHelper/Service/SSRSServices.cs:362 | Decoding the encodings of consecutive groups gives the bytes back. |
| Base64.Decode | ReportHelper/Service/SSRSServices.cs:362 | `Convert.FromBase64String`: skipped characters removed, then groups of four decoded. A success has a length that is a multiple of four. |
| Base64.RoundTrip | ReportHelper/Service/SSRSServices.cs:362 | Decoding the encoding of any byte sequence succeeds and gives the sequence back. |
| Xml.Descendants | ReportHelper/Service/SSRSServices.cs:102 | `Descendants()`: the elements of a forest in document order, each element before its children. The lemmas below state its shape. |
| Xml.DescendantsAppend | ReportHelper/Service/SSRSServices.cs:102 | The descendants of two node lists are the descendants of the first, then those of the second. |
| Xml.DescendantsOfElement | ReportHelper/Service/SSRSServices.cs:102 | An element comes first in document order, before its children's descendants. |
| Xml.DescendantsOwner | ReportHelper/Service/SSRSServices.cs:102 | Every descendant of a list of nodes is a descendant of one of its members. |
| Xml.DescendantsOfMember | ReportHelper/Service/SSRSServices.cs:102 | The descendants of a member of a list are descendants of the list. |
| Xml.OnlyNamedAppend | ReportHelper/Service/SSRSServices.cs:102 | Filtering by name distributes over concatenation. |
| Xml.OnlyNamedEmpty | ReportHelper/Service/SSRSServices.cs:102 | Filtering yields nothing exactly when no element has the name. |
| Xml.FirstNamed | ReportHelper/Service/SSRSServices.cs:396 | The position of the first child with the name, none before it; the length when there is none. |
| Xml.ChildElementFound | ReportHelper/Service/SSRSServices.cs:105-107 | `Element(name)` finds a child of that name, and finds none exactly when no child has the name. |
| Xml.ValueOfTextElement | ReportHelper/Service/SSRSServices.cs:399 | An element holding only a text node has that text as its value. |
| Xml.FindByLocalName | ReportHelper/Service/SSRSServices.cs:63 | `Descendants().FirstOrDefault(e => e.Name.LocalName == local)`. `Xml.FindByLocalNameIsFirst` states it. |
| Xml.FindByLocalNameIsFirst | ReportHelper/Service/SSRSServices.cs:63 | The lookup by local name finds the first such descendant in document order, in any namespace, or reports that there is none. |
| Soap.Connect | ReportHelper/Service/SSRSServices.cs:17-21 | The constructor: the endpoint and the credentials every call sends. `Soap.EndpointOfServer` states what the endpoint is. |
| Soap.EndpointOfServer | ReportHelper/Service/SSRSServices.cs:17-21 | The endpoint is the server URL without its trailing '/', then `/ReportService2010.asmx`; the credentials are those given. |
| Soap.EndpointIgnoresTrailingSlashes | ReportHelper/Service/SSRSServices.cs:19 | Server URLs that differ only in trailing '/' reach the same endpoint. |
| Soap.ListChildrenEnvelope | ReportHelper/Service/SSRSServices.cs:87-95 | ListChildren carries the item path verbatim, and `Recursive` is "true" exactly when asked for. |
| Soap.GetItemDefinitionReadsBack | ReportHelper/Service/SSRSServices.cs:343-350 | GetItemDefinition carries the escaped path, which unescapes to the path and holds no markup character. |
| Soap.CreateReportReadsBack | ReportHelper/Service/SSRSServices.cs:154-166 | CreateCatalogItem carries the six fields in order: type Report, name and parent that unescape to those given, the overwrite flag, a definition that base64-decodes to the bytes given, and empty properties. |
| Soap.ExtractFault | ReportHelper/Service/SSRSServices.cs:58-66 | An unparsable body, or one without a `faultstring`, is its own fault text. |
| Soap.FaultIsFirstFaultstring | ReportHelper/Service/SSRSServices.cs:63 | The fault is the text of the first `faultstring` element in document order, whatever its namespace. |
| Soap.SendSoap | ReportHelper/Service/SSRSServices.cs:23-56 | A call succeeds exactly when a response arrives with a 2xx status, and it then returns the body verbatim. |
| Soap.FaultSurfacesInError | ReportHelper/Service/SSRSServices.cs:40-47 | A non-2xx response fails with `SSRS returned <status>: <fault>`, where the fault is `ExtractFault` of the body. A missing response fails with the transport's message. |
| Catalog.CatalogElements | ReportHelper/Service/SSRSServices.cs:101-102 | Every element a listing parses is a `CatalogItem` in the ReportServer namespace. |
| Catalog.Select | ReportHelper/Service/SSRSServices.cs:101-109 | A listing yields at most one record per `CatalogItem` element. |
| Catalog.SelectAllChildren | ReportHelper/Service/SSRSServices.cs:101-109 | The general listing yields one record per element, in order, with its `Name`, `Path` and `TypeName` ("" when missing). |
| Catalog.SelectKeepsType | ReportHelper/Service/SSRSServices.cs:267-276 | A filtered listing yields records of its own type only. |
| Catalog.SelectLeavesDataSourcePath | ReportHelper/Service/SSRSServices.cs:103-108 | No listing fills in the data source path of a record. |
| Catalog.OfType | ReportHelper/Service/SSRSServices.cs:335 | The items kept are exactly those of the given type. |
| Catalog.OfTypeAppend | ReportHelper/Service/SSRSServices.cs:335 | The filter works on each part of a list separately, so kept items stay in order, duplicates included. |
| Catalog.OfTypeOne | ReportHelper/Service/SSRSServices.cs:335 | A single item is kept exactly when it has the type. |
| Catalog.FilteredListingsAgree | ReportHelper/Service/SSRSServices.cs:306-317 | A filtered listing, with dates ignored, equals the general listing restricted to its type, in the same order. |
| Catalog.ListItems | ReportHelper/Service/SSRSServices.cs:246-286 | A listing succeeds exactly when the call succeeds and the response parses. A failed call, or a response that does not parse, fails with the listing's error prefix followed by the underlying message. Only the data-source and detailed-report listings are recursive. |
| Catalog.ListChildren | ReportHelper/Service/SSRSServices.cs:83-116 | `ListChildrenAsync`: the general listing, not recursive, with the failure message passed on unchanged. |
| Catalog.CheckConnection | ReportHelper/Service/SSRSServices.cs:68-81 | The check is true exactly when the root lists at least one item; a failed listing is passed on as an error. |
| Catalog.EmptyRootFailsCheck | ReportHelper/Service/SSRSServices.cs:74 | A reachable root that holds no item gives `false`. |
| Rdl.NewReference | ReportHelper/Service/SSRSServices.cs:399 | The new element is a `DataSourceReference` whose value is the shared data source path. |
| Rdl.WithoutAll | ReportHelper/Service/SSRSServices.cs:393 | Exactly the children not of the name remain. With `Rdl.WithoutAllAppend` and `Rdl.WithoutAllOne`, they stay in their order, duplicates included. |
| Rdl.WithoutFirst | ReportHelper/Service/SSRSServices.cs:396 | The first child of the name is removed when there is one. The children before it and after it keep their order. Nothing changes when there is none. |
| Rdl.Rebound | ReportHelper/Service/SSRSServices.cs:389-400 | The rewrite keeps text and every element's name and attributes, and changes the number of children only of `DataSource` elements. |
| Rdl.ReboundAll | ReportHelper/Service/SSRSServices.cs:389-400 | Rewriting a list of children keeps its length. |
| Rdl.NameKept | ReportHelper/Service/SSRSServices.cs:389-400 | A rewritten node has any given name exactly when the original had it. |
| Rdl.ReboundAllAppend | ReportHelper/Service/SSRSServices.cs:389-400 | Rewriting distributes over concatenated child lists. |
| Rdl.WithoutAllCommutes | ReportHelper/Service/SSRSServices.cs:393 | Removing all elements of a name before or after the rewrite of the children gives the same list. |
| Rdl.WithoutFirstCommutes | ReportHelper/Service/SSRSServices.cs:396 | Removing the first element of a name before or after the rewrite gives the same list. |
| Rdl.KeptCommutes | ReportHelper/Service/SSRSServices.cs:392-399 | What a `DataSource` keeps does not depend on whether its children were already rewritten. |
| Rdl.RemoveAll | ReportHelper/Service/SSRSServices.cs:393 | The in-place removal loop leaves exactly the children without the name. |
| Rdl.RemoveFirst | ReportHelper/Service/SSRSServices.cs:396 | The in-place removal leaves the children without the first one of the name. |
| Rdl.RebindTree | ReportHelper/Service/SSRSServices.cs:389-400 | The walk, which handles a `DataSource` before the ones nested in it, computes the rewrite. |
| Rdl.RebindChildren | ReportHelper/Service/SSRSServices.cs:389-400 | Walking a child list rewrites each child in place, in order. |
| Rdl.Replaced | ReportHelper/Service/SSRSServices.cs:381-410 | Rebinding succeeds exactly when the definition loads. Otherwise it fails with `Error while updating RDL data source: <message>`. |
| Rdl.ReplaceRdlDataSource | ReportHelper/Service/SSRSServices.cs:381-410 | The method loads, walks in the root's namespace and saves, with the result `Replaced` specifies. |
| Rdl.WithoutAllNoop | ReportHelper/Service/SSRSServices.cs:393 | Removing a name that no child has changes nothing. |
| Rdl.WithoutAllAppend | ReportHelper/Service/SSRSServices.cs:393 | Removing the elements of a name works on each part of a list separately, so the kept children stay in order. |
| Rdl.WithoutAllOne | ReportHelper/Service/SSRSServices.cs:393 | A single child is removed exactly when it has the name. |
| Rdl.WithoutAllAfterFirst | ReportHelper/Service/SSRSServices.cs:393-396 | Removing every reference after removing the first one removes every reference. |
| Rdl.WithoutAllKeepsOthers | ReportHelper/Service/SSRSServices.cs:393 | Removing one name keeps every element of another name. |
| Rdl.WithoutFirstCount | ReportHelper/Service/SSRSServices.cs:396 | Removing the first element of a name leaves one fewer of that name, or none if there was none. |
| Rdl.ReboundAllKeepsNamed | ReportHelper/Service/SSRSServices.cs:389-400 | The rewritten children hold as many elements of each name as before. |
| Rdl.DataSourceChildren | ReportHelper/Service/SSRSServices.cs:392-399 | A rewritten `DataSource` has no `ConnectionProperties` left. Its last child is the new reference to the path, and before it there is one `DataSourceReference` fewer than there was. |
| Rdl.DataSourceKeepsOthers | ReportHelper/Service/SSRSServices.cs:392-399 | Apart from references, a rewritten `DataSource` has its rewritten children without the connection properties, in their original order. |
| Rdl.EveryDataSourceRebound | ReportHelper/Service/SSRSServices.cs:389-400 | Every `DataSource` of the rewritten document, at any depth, has no connection properties and ends with the new reference. |
| Rdl.OccurrencesWithoutAll | ReportHelper/Service/SSRSServices.cs:393 | Removing every element of a name keeps the count of another name when those elements hold none of it. |
| Rdl.OccurrencesWithoutFirst | ReportHelper/Service/SSRSServices.cs:396 | Removing the first element of a name keeps the count of another name when the elements of that name hold none of it. |
| Rdl.DataSourceKeepsOccurrences | ReportHelper/Service/SSRSServices.cs:392-399 | A rewritten `DataSource` holds as many elements of another name as before, when the children it drops hold none. |
| Rdl.ReboundKeepsOccurrences | ReportHelper/Service/SSRSServices.cs:389-400 | The rewrite keeps, at every depth, the count of every name other than the two it removes, provided the dropped subtrees hold none. |
| Rdl.NoDataSourceUnchanged | ReportHelper/Service/SSRSServices.cs:389-400 | On a tree without `DataSource` elements the rewrite is the identity. |
| Rdl.KeptOfRebound | ReportHelper/Service/SSRSServices.cs:392-399 | Children without connection properties or references, followed by the new reference, keep everything but that reference when rebound again. |
| Rdl.DataSourceFixed | ReportHelper/Service/SSRSServices.cs:392-399 | A `DataSource` whose children are already rewritten, hold neither connection properties nor references, and end with the new reference is left as it is. |
| Rdl.ReboundAllFixed | ReportHelper/Service/SSRSServices.cs:389-400 | A child list whose members are fixed by the rewrite is fixed. |
| Rdl.DataSourceIdempotent | ReportHelper/Service/SSRSServices.cs:392-399 | Rebinding a `DataSource` with at most one reference twice is rebinding it once. |
| Rdl.RebindIdempotent | ReportHelper/Service/SSRSServices.cs:389-400 | Rewriting twice with the same path gives the same tree as rewriting once, when every `DataSource` holds at most one reference. |
| Rdl.ReferenceFixed | ReportHelper/Service/SSRSServices.cs:399 | A reference element is left as it is by the rewrite. |
| Rdl.RebindTwoReferences | ReportHelper/Service/SSRSServices.cs:396-399 | A `DataSource` holding two references keeps the second and gains the new one. |
| Rdl.TwoReferencesNotIdempotent | ReportHelper/Service/SSRSServices.cs:396 | With two references the rewrite is not idempotent: a second pass drops the reference the first one added. |
| Service.RetrieveDefinition | ReportHelper/Service/SSRSServices.cs:343-364 | A failed call and an unparsable response are passed on. No definition is found exactly when no element has the local name `Definition`. A definition is found exactly when that element exists and its text decodes as base64, and it is the decoded text. Text that is not base64 is a failure. |
| Service.RetrievesEncodedDefinition | ReportHelper/Service/SSRSServices.cs:358-363 | A server that sends the base64 encoding of a definition yields exactly that definition. |
| Service.Fetched | ReportHelper/Service/SSRSServices.cs:343-364 | The definition one retrieval yields, or nothing when any step throws or no definition is found. |
| Service.FetchDefinition | ReportHelper/Service/SSRSServices.cs:343-364 | The retrieval loop body: the GetItemDefinition call, the parse, the lookup of `Definition` by local name and the decoding. Each step that throws skips the report. The result is `Service.Fetched`. |
| Service.Outcomes | ReportHelper/Service/SSRSServices.cs:339-370 | The fetch loop over the listed reports yields one outcome per report. |
| Service.OutcomesAt | ReportHelper/Service/SSRSServices.cs:339-370 | The download loop fetches each listed report from its own path, in order. |
| Service.Collect | ReportHelper/Service/SSRSServices.cs:360-364 | The dictionary the loop fills: a fetched definition sets `<name>.rdl`. Its keys and values are stated by the two lemmas below. |
| Service.CollectKeys | ReportHelper/Service/SSRSServices.cs:363 | The dictionary has a key `<name>.rdl` exactly when some report of that name was fetched. |
| Service.CollectLastWins | ReportHelper/Service/SSRSServices.cs:363 | The entry under a key is the last definition fetched for that name. |
| Service.Downloaded | ReportHelper/Service/SSRSServices.cs:334-370 | The dictionary of a list of reports: the outcomes of fetching each one, collected. |
| Service.DownloadReports | ReportHelper/Service/SSRSServices.cs:328-380 | A failed listing fails with `Download failed: <message>`. Otherwise the result is the dictionary of the folder's reports, with failed fetches skipped. |
| Service.NormalFolder | ReportHelper/Service/SSRSServices.cs:146 | A missing folder is "/". Any other loses exactly its trailing '/'. |
| Service.RootFolderSentEmpty | ReportHelper/Service/SSRSServices.cs:146 | The root given as "/" is sent as the empty parent. |
| Service.NormalName | ReportHelper/Service/SSRSServices.cs:147 | A missing report name is `UnnamedReport`, and any other is trimmed. `Service.NormalNameTrimmed` states the result. |
| Service.NormalNameTrimmed | ReportHelper/Service/SSRSServices.cs:147 | A given report name is sent without surrounding white space, and is empty exactly when it is blank. |
| Service.UploadedDefinition | ReportHelper/Service/SSRSServices.cs:149-152 | The definition is rebound exactly when the data source path is neither missing nor blank. |
| Service.Upload | ReportHelper/Service/SSRSServices.cs:137-178 | A failure's message is `Upload failed for '<name>': ` followed by the cause. The cause is the rebinding error when the definition cannot be prepared, and the call's error when the server refuses. A success is an envelope the server accepted. |
| Service.UploadSucceedsWhenAccepted | ReportHelper/Service/SSRSServices.cs:149-169 | An upload succeeds exactly when the definition can be prepared and the server accepts the CreateCatalogItem call. |
| Service.UploadSendsDefinition | ReportHelper/Service/SSRSServices.cs:146-166 | A successful upload sent the normalised name and parent and the overwrite flag. Its definition decodes to the given bytes, or to the rebound document when a data source path was given. |
| Service.UploadReport | ReportHelper/Service/SSRSServices.cs:137-178 | The method, which normalises its parameters in place, has the outcome `Upload` specifies. |
| Controller.CheckConnectionAction | ReportHelper/Controllers/SSRSController.cs:16-38 | A false check shows the connection error; a failure shows its message. The upload page is shown exactly when the check and both root listings succeed, and it shows their results. |
| Controller.UploadPageContents | ReportHelper/Controllers/SSRSController.cs:27-31 | The upload page offers only shared data sources, and none of its data sources or folder items carries a data source path. |
| Controller.Attempted | ReportHelper/Controllers/SSRSController.cs:51-52 | A batch attempts the first 200 files in order, or all of them when there are fewer. |
| Controller.CountTrueExtremes | ReportHelper/Controllers/SSRSController.cs:56-73 | The success count equals the batch size exactly when every file succeeded, and is zero exactly when none did. |
| Controller.UploadSummary | ReportHelper/Controllers/SSRSController.cs:75 | The upload summary text, which opens with the success count. The two lemmas below state what it says about failures. |
| Controller.SummaryStatesFailures | ReportHelper/Controllers/SSRSController.cs:75 | With failures, the summary ends with their count and mentions "failed". |
| Controller.SummaryQuietWithoutFailures | ReportHelper/Controllers/SSRSController.cs:75 | Without failures, the summary does not mention any. |
| Controller.UploadFile | ReportHelper/Controllers/SSRSController.cs:61-67 | One file is uploaded under its file name without directory and extension. |
| Controller.UploadEach | ReportHelper/Controllers/SSRSController.cs:56-73 | Each file is uploaded in turn. The success count is the number of files whose upload succeeds, and successes plus failures equal the batch size. |
| Controller.UploadReports | ReportHelper/Controllers/SSRSController.cs:41-83 | No file list, or an empty one, gives the "select at least one" error and uploads nothing. Otherwise the attempted files are counted and summarised. |
| Controller.DownloadAll | ReportHelper/Controllers/SSRSController.cs:224-257 | A failed listing gives `❌ Download failed: Download failed: <message>`. An empty dictionary gives the nothing-to-download warning. Otherwise the dictionary of the folder's reports is returned. |
| Controller.SelectedPathParts | ReportHelper/Controllers/SSRSController.cs:281 | A selected report's path is the folder, then '/', then the name. |
| Controller.SelectedPath | ReportHelper/Controllers/SSRSController.cs:281 | The path of a selected report: the folder (empty when missing), '/', the name. |
| Controller.SelectedOutcomesAt | ReportHelper/Controllers/SSRSController.cs:273-303 | Each selected name is fetched from its own path, in order. |
| Controller.Entries | ReportHelper/Controllers/SSRSController.cs:289-297 | The archive entries the selection loop writes, at most one per outcome. |
| Controller.EntriesExactlyFetched | ReportHelper/Controllers/SSRSController.cs:289-302 | The archive holds an entry `<name>.rdl` exactly for each fetched definition, and for nothing else. |
| Controller.EntriesNameCollectedKeys | ReportHelper/Controllers/SSRSController.cs:294 | The archive of a selection names exactly the files the bulk download's dictionary would hold for the same outcomes. |
| Controller.FetchSelected | ReportHelper/Controllers/SSRSController.cs:275-297 | The loop body: the escaped path of the name under the folder in a GetItemDefinition call, the parse, the `Definition` lookup and the decoding, with any throwing step skipping the name. The outcome is the fetch from `SelectedPath`. |
| Controller.DownloadSelected | ReportHelper/Controllers/SSRSController.cs:259-313 | No selection gives the nothing-selected warning. Otherwise the archive is exactly the entries of the names fetched, in selection order. |
| Controller.CsvFields | ReportHelper/Controllers/SSRSController.cs:156 | A row has five cells. |
| Controller.CsvRowsAppend | ReportHelper/Controllers/SSRSController.cs:154-157 | One more report appends exactly its row and a newline. |
| Controller.Csv | ReportHelper/Controllers/SSRSController.cs:149-160 | The CSV document: the header line, then one line per report. `Controller.GenerateCsv` computes it, and `Controller.CsvRoundTrip` reads it back. |
| Controller.GenerateCsv | ReportHelper/Controllers/SSRSController.cs:149-160 | The builder loop produces the header line, then one row per report, in order. |
| Controller.ReadCellsReads | ReportHelper/Controllers/SSRSController.cs:156 | Reading a quoted row gives its cells back when none holds a quote. |
| Controller.ReadRowsReads | ReportHelper/Controllers/SSRSController.cs:154-157 | Reading the rows gives every report's cells back, in order. |
| Controller.CsvRoundTrip | ReportHelper/Controllers/SSRSController.cs:149-160 | Reading a CSV document back gives every cell of every report, provided no cell holds a double quote. |
| Controller.EmbeddedQuoteBreaksRow | ReportHelper/Controllers/SSRSController.cs:156 | Quotes are not doubled, so a report named `x"y` gives a document that does not read back. |
| Controller.CsvFormatIsCaseInsensitive | ReportHelper/Controllers/SSRSController.cs:131 | CSV is chosen by "csv" in any letter case, and by nothing else. |
| Controller.ExportReports | ReportHelper/Controllers/SSRSController.cs:117-148 | A failed listing gives `❌ Export failed: <message>`, and no reports gives the nothing-to-export warning. Otherwise the result is a CSV file exactly when the format is "csv" in any case, and a workbook of the same rows otherwise. |

## Left out

- HTTP is not modelled. `HttpClient`, basic credentials, pre-authentication and the UTF-8 `text/xml` content are replaced by the `World`'s `net` function. A request is the endpoint, the credentials, the SOAPAction header and the envelope's fields, not its literal XML text.
- The XML library is not modelled. `XDocument.Parse`, `Load` and `Save` are the `World`'s `parse`, `load` and `save`, treated as given functions. Parse errors are their messages.
- Asynchrony and logging (`async`/`await`, NLog) are left out. They do not change what is returned.
- The byte layout of the Excel workbook (`GenerateExcel`, ClosedXML) is left out. The workbook is modelled as the rows it is filled from.
- The ZIP format is left out. An archive is its sequence of entries, and the dictionary is a `map`.
- File names with `DateTime.Now`, content types, `TempData`/`ViewBag` plumbing, and the views are left out. The flash messages are part of each action's result.
- `GetReportsList` (the JSON listing behind the folder browser) is left out. It is a thin wrapper over the `Reports` listing, which is modelled in `Catalog.ListItems`.
- The `Index` action, `Upload.js` and `Program.cs` are not part of this model.
- Dead code is not modelled: `GetRdlDataSourceNames` is never called, and the commented-out variants of the service and the controller do nothing.
- Null arguments the framework could bind (a null `serverUrl` or `format`) are left out, together with the outer `catch` blocks that would report them. Null folder paths, report names, data source paths, file lists and selections are modelled as `Option`.
- A failure to read an uploaded file (`CopyToAsync`) is left out. A file is its content.
- Strings.ToLower: lowers ASCII letters only, not the culture-sensitive mapping of other Unicode letters.
- Strings.FileNameIsLastSegment: drive prefixes such as `C:` and platform-specific separators of `Path.GetFileNameWithoutExtension` are not modelled; '/' and '\\' are the separators.
- Base64.Decode: skips only space, tab, CR and LF, and accepts non-zero unused bits in a padded group. Its handling of unusual padding may differ from .NET's, and its failure text is a fixed message rather than .NET's.
- Controller.GenerateCsv: produces the text, not its UTF-8 bytes. `AppendLine`'s newline is a parameter.
- Rdl.ReboundKeepsOccurrences: holds only when the `ConnectionProperties` and replaced `DataSourceReference` subtrees contain no element of the counted name, since the rewrite drops those subtrees.
- Rdl.RebindIdempotent: holds only when every `DataSource` has at most one `DataSourceReference`. `Rdl.TwoReferencesNotIdempotent` shows that it fails otherwise.
- Service.Upload: its success value is the envelope that was accepted, not `void`. The server's reply body is not modelled, because the source discards it.
- Controller.UploadPageContents: does not state that the folder list is non-empty. The check (line 21) and the folder listing (line 30) are separate calls, and the server may answer them differently. The model asks the same `World` both times, so it cannot show an upload page whose root was emptied between the two calls.
- XML comments and processing instructions are not node kinds of `Xml.Node`. `XDocument.Load` and `Save` keep them, including inside a `DataSource`. The rewrite passes them by, so the model does not say they survive.
- The model assumes the server and the XML library answer the same request the same way every time. A retry or a second call is a call to the same function.
