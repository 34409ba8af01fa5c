/**
 * Transport: the connection context of an `SSRSServices` instance, the SOAP
 * envelopes the client builds, and `SendSoapAsync` with its fault extraction.
 * HTTP and the XML library are collaborators, given as the functions of a
 * `World`: the server's reply to each request, and the library's parser and
 * serialiser.
 */
module Soap {
  import opened Wrappers
  import opened Strings
  import opened Xml
  import Base64

  /** Namespace of the ReportService2010 catalog operations. */
  const ReportServerNs: string := "http://schemas.microsoft.com/sqlserver/reporting/2010/03/01/ReportServer"

  /** Path of the SOAP endpoint under the report server URL. */
  const EndpointSuffix: string := "/ReportService2010.asmx"

  /** The connection context: the endpoint and the credentials sent with every call. */
  datatype Connection = Connection(serviceUrl: string, username: string, password: string)

  /** `new SSRSServices(reportServerUrl, username, password)`: the endpoint is the
      server URL with all its trailing '/' removed, then `/ReportService2010.asmx`. */
  function Connect(reportServerUrl: string, username: string, password: string): Connection
  {
    Connection(TrimEnd(reportServerUrl, '/') + EndpointSuffix, username, password)
  }

  /** The endpoint ends with the service path, and what precedes it is the
      server URL without any of its trailing '/'. */
  lemma EndpointOfServer(reportServerUrl: string, username: string, password: string)
    ensures var c := Connect(reportServerUrl, username, password);
      && |c.serviceUrl| >= |EndpointSuffix|
      && c.serviceUrl[|c.serviceUrl| - |EndpointSuffix|..] == EndpointSuffix
      && (var base := c.serviceUrl[..|c.serviceUrl| - |EndpointSuffix|];
          && base <= reportServerUrl
          && (base == [] || base[|base| - 1] != '/')
          && forall i :: |base| <= i < |reportServerUrl| ==> reportServerUrl[i] == '/')
      && c.username == username && c.password == password
  {
    var base := TrimEnd(reportServerUrl, '/');
    var url := base + EndpointSuffix;
    assert url[..|url| - |EndpointSuffix|] == base;
  }

  /** A server URL with one or many trailing '/' gives the same endpoint as without. */
  lemma EndpointIgnoresTrailingSlashes(reportServerUrl: string, k: nat, username: string, password: string)
    ensures Connect(reportServerUrl + Repeat('/', k), username, password)
         == Connect(reportServerUrl, username, password)
  {
    TrimEndAbsorbsTrailing(reportServerUrl, '/', k);
  }

  /** One child of the operation element: its tag and the text interpolated into it. */
  datatype Field = Field(tag: string, text: string)

  /** A request envelope: the operation element in the ReportServer namespace and
      its fields, in the order the template writes them. */
  datatype Envelope = Envelope(operation: string, fields: seq<Field>)

  /** The SOAPAction header value for an operation. */
  function SoapAction(operation: string): string
  {
    ReportServerNs + "/" + operation
  }

  /** One HTTP POST: endpoint, basic credentials, SOAPAction header and envelope. */
  datatype Request = Request(endpoint: string, username: string, password: string, soapAction: string, envelope: Envelope)

  /** What comes back: a status and a body, or the exception thrown when no response arrives. */
  datatype Reply = Response(status: int, body: string) | NoResponse(message: string)

  /** The collaborators of the client: the server, and the XML library's
      `XDocument.Parse`, `XDocument.Load` and `XDocument.Save`. */
  datatype World = World(
    net: Request -> Reply,
    parse: string -> Parsed,
    load: seq<Base64.byte> -> Parsed,
    save: Node -> seq<Base64.byte>)

  function BoolText(b: bool): string
  {
    if b then "true" else "false"
  }

  /** ListChildren; the item path is interpolated without escaping. */
  function ListChildrenEnvelope(itemPath: string, recursive: bool): (e: Envelope)
    ensures e.operation == "ListChildren"
    ensures |e.fields| == 2 && e.fields[0] == Field("ItemPath", itemPath)
    ensures e.fields[1].tag == "Recursive" && (e.fields[1].text == "true" <==> recursive)
  {
    Envelope("ListChildren", [Field("ItemPath", itemPath), Field("Recursive", BoolText(recursive))])
  }

  /** GetItemDefinition; the item path is escaped. */
  function GetItemDefinitionEnvelope(itemPath: string): Envelope
  {
    Envelope("GetItemDefinition", [Field("ItemPath", Escape(itemPath))])
  }

  /** The server reads back the item path it was sent, and the escaped text
      holds none of the characters markup gives a meaning to. */
  lemma GetItemDefinitionReadsBack(itemPath: string)
    ensures var e := GetItemDefinitionEnvelope(itemPath);
      && e.operation == "GetItemDefinition"
      && |e.fields| == 1 && e.fields[0].tag == "ItemPath"
      && Unescape(e.fields[0].text) == itemPath
      && forall i :: 0 <= i < |e.fields[0].text| ==> e.fields[0].text[i] !in {'<', '>', '"', '\''}
  {
    EscapeRoundTrip(itemPath);
  }

  /** CreateCatalogItem for a report: name and parent escaped, the definition in base64. */
  function CreateReportEnvelope(name: string, parent: string, overwrite: bool, definition: seq<Base64.byte>): Envelope
  {
    Envelope("CreateCatalogItem", [
      Field("ItemType", "Report"),
      Field("Name", Escape(name)),
      Field("Parent", Escape(parent)),
      Field("Overwrite", BoolText(overwrite)),
      Field("Definition", Base64.Encode(definition)),
      Field("Properties", "")])
  }

  /** The server reads back each field it was sent: the name and the parent
      unescaped, the overwrite flag, and the definition base64-decoded. */
  lemma CreateReportReadsBack(name: string, parent: string, overwrite: bool, definition: seq<Base64.byte>)
    ensures var e := CreateReportEnvelope(name, parent, overwrite, definition);
      && e.operation == "CreateCatalogItem" && |e.fields| == 6
      && e.fields[0] == Field("ItemType", "Report")
      && e.fields[1].tag == "Name" && Unescape(e.fields[1].text) == name
      && e.fields[2].tag == "Parent" && Unescape(e.fields[2].text) == parent
      && e.fields[3].tag == "Overwrite" && (e.fields[3].text == "true" <==> overwrite)
      && e.fields[4].tag == "Definition" && Base64.Decode(e.fields[4].text) == Some(definition)
      && e.fields[5] == Field("Properties", "")
  {
    EscapeRoundTrip(name);
    EscapeRoundTrip(parent);
    Base64.RoundTrip(definition);
  }

  /** The request `SendSoapAsync` posts for an envelope. */
  function RequestFor(c: Connection, e: Envelope): Request
  {
    Request(c.serviceUrl, c.username, c.password, SoapAction(e.operation), e)
  }

  /** `ExtractFault`: the text of the first element in document order whose local
      name is `faultstring`, in any namespace; the raw body when there is none
      or the body does not parse. */
  function ExtractFault(w: World, body: string): (fault: string)
    ensures w.parse(body).Malformed? ==> fault == body
    ensures w.parse(body).Parsed? && FindByLocalName(w.parse(body).root, "faultstring").None? ==> fault == body
  {
    match w.parse(body)
    case Malformed(_) => body
    case Parsed(root) =>
      match FindByLocalName(root, "faultstring")
      case Some(e) => Value(e)
      case None => body
  }

  /** The fault is the text of the first `faultstring` element, whatever its namespace. */
  lemma FaultIsFirstFaultstring(w: World, body: string, k: nat)
    requires w.parse(body).Parsed?
    requires var es := Descendants([w.parse(body).root]);
      k < |es| && HasLocalName(es[k], "faultstring")
      && forall j :: 0 <= j < k ==> !HasLocalName(es[j], "faultstring")
    ensures ExtractFault(w, body) == Value(Descendants([w.parse(body).root])[k])
  {
    var es := Descendants([w.parse(body).root]);
    var r := FindByLocalName(w.parse(body).root, "faultstring");
    FindByLocalNameIsFirst(w.parse(body).root, "faultstring");
    assert es[k] in es;
    var k' :| 0 <= k' < |es| && es[k'] == r.value && HasLocalName(r.value, "faultstring")
      && forall j :: 0 <= j < k' ==> !HasLocalName(es[j], "faultstring");
    assert k' == k;
  }

  /** `HttpResponseMessage.IsSuccessStatusCode`. */
  predicate IsSuccessStatusCode(status: int)
  {
    200 <= status <= 299
  }

  /** `SendSoapAsync`: one POST, no retry. A success status returns the body
      verbatim; any other status fails with `SSRS returned <code>: <fault>`; a
      missing response fails with the transport's message. */
  function SendSoap(c: Connection, w: World, e: Envelope): (r: Result<string>)
    ensures r.Success? <==> w.net(RequestFor(c, e)).Response? && IsSuccessStatusCode(w.net(RequestFor(c, e)).status)
    ensures r.Success? ==> r.value == w.net(RequestFor(c, e)).body
  {
    match w.net(RequestFor(c, e))
    case NoResponse(m) => Failure(m)
    case Response(status, body) =>
      if IsSuccessStatusCode(status) then Success(body)
      else Failure("SSRS returned " + IntToString(status) + ": " + ExtractFault(w, body))
  }

  /** A non-success status yields an error naming the status and quoting the
      fault of the body, which `FaultIsFirstFaultstring` identifies; a missing
      response yields the transport's message. */
  lemma FaultSurfacesInError(c: Connection, w: World, e: Envelope)
    ensures var reply := w.net(RequestFor(c, e));
      reply.Response? && !IsSuccessStatusCode(reply.status) ==>
        SendSoap(c, w, e) == Failure("SSRS returned " + IntToString(reply.status) + ": " + ExtractFault(w, reply.body))
    ensures var reply := w.net(RequestFor(c, e));
      reply.NoResponse? ==> SendSoap(c, w, e) == Failure(reply.message)
  {
  }
}
