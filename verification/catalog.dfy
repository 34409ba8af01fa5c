/**
 * Catalog navigation: the ListChildren request and the four parsers that turn
 * its response into `SSRSItemsModel` records (all children, shared data
 * sources, reports with dates, reports with the modification date), and the
 * connection check built on them.
 */
module Catalog {
  import opened Wrappers
  import opened Xml
  import opened Soap

  /** `SSRSItemsModel`: name, path, type name, data source path (always "" here),
      and the optional creation and modification dates. */
  datatype CatalogItem = CatalogItem(
    name: string,
    path: string,
    typeName: string,
    dataSourcePath: string,
    createdDate: Option<string>,
    modifiedDate: Option<string>)

  /** The four listings that share the ListChildren response parser. */
  datatype Listing =
    | AllChildren      // ListChildrenAsync
    | DataSources      // ListDataSourcesAsync
    | ReportsDetailed  // GetReportsDetailedAsync
    | Reports          // GetReportsAsync

  /** A name in the ReportServer namespace. */
  function RsName(local: string): Name
  {
    Name(ReportServerNs, local)
  }

  /** `x.Element(ns + local)?.Value`. */
  function ChildValue(e: Node, local: string): Option<string>
    requires e.Element?
  {
    match ChildElement(e, RsName(local))
    case Some(c) => Some(Value(c))
    case None => None
  }

  /** `x.Element(ns + local)?.Value ?? ""`. */
  function ChildValueOr(e: Node, local: string): string
    requires e.Element?
  {
    match ChildValue(e, local)
    case Some(v) => v
    case None => ""
  }

  /** The `CatalogItem` elements of a response, in document order. */
  function CatalogElements(root: Node): (es: seq<Node>)
    ensures forall i :: 0 <= i < |es| ==> IsNamed(es[i], RsName("CatalogItem"))
  {
    OnlyNamed(Descendants([root]), RsName("CatalogItem"))
  }

  /** The type name a filtered listing keeps. */
  function ListingType(listing: Listing): string
    requires listing != AllChildren
  {
    if listing == DataSources then "DataSource" else "Report"
  }

  /** The `Where` clause: `x.Element(ns + "TypeName")?.Value == type`. */
  predicate Keeps(e: Node, listing: Listing)
    requires e.Element?
  {
    listing == AllChildren || ChildValue(e, "TypeName") == Some(ListingType(listing))
  }

  /** The `Select` clause of each listing. */
  function Project(e: Node, listing: Listing): CatalogItem
    requires e.Element?
  {
    var name := ChildValueOr(e, "Name");
    var path := ChildValueOr(e, "Path");
    match listing
    case AllChildren => CatalogItem(name, path, ChildValueOr(e, "TypeName"), "", None, None)
    case DataSources => CatalogItem(name, path, "DataSource", "", None, None)
    case ReportsDetailed =>
      CatalogItem(name, path, "Report", "", ChildValue(e, "CreationDate"), ChildValue(e, "ModifiedDate"))
    case Reports => CatalogItem(name, path, "Report", "", None, Some(ChildValueOr(e, "ModifiedDate")))
  }

  /** `Where(...).Select(...)` over a list of elements. */
  function Select(es: seq<Node>, listing: Listing): (items: seq<CatalogItem>)
    requires forall i :: 0 <= i < |es| ==> es[i].Element?
    ensures |items| <= |es|
  {
    if es == [] then []
    else (if Keeps(es[0], listing) then [Project(es[0], listing)] else []) + Select(es[1..], listing)
  }

  /** The general listing has one record per element, in order, carrying the
      element's `Name`, `Path` and `TypeName` children, "" for a missing one. */
  lemma {:induction false} SelectAllChildren(es: seq<Node>)
    requires forall i :: 0 <= i < |es| ==> es[i].Element?
    ensures var items := Select(es, AllChildren);
      && |items| == |es|
      && forall i :: 0 <= i < |es| ==> items[i] == Project(es[i], AllChildren)
  {
    if es != [] {
      SelectAllChildren(es[1..]);
      var tail := Select(es[1..], AllChildren);
      var items := [Project(es[0], AllChildren)] + tail;
      assert Select(es, AllChildren) == items;
      forall i | 0 <= i < |es| ensures items[i] == Project(es[i], AllChildren) {
        if i > 0 {
          assert items[i] == tail[i - 1];
          assert es[1..][i - 1] == es[i];
        }
      }
    }
  }

  /** A filtered listing yields records of its type only. */
  lemma {:induction false} SelectKeepsType(es: seq<Node>, listing: Listing)
    requires listing != AllChildren
    requires forall i :: 0 <= i < |es| ==> es[i].Element?
    ensures forall i :: 0 <= i < |Select(es, listing)| ==> Select(es, listing)[i].typeName == ListingType(listing)
  {
    if es != [] {
      SelectKeepsType(es[1..], listing);
      var head := if Keeps(es[0], listing) then [Project(es[0], listing)] else [];
      var tail := Select(es[1..], listing);
      assert Select(es, listing) == head + tail;
      forall i | |head| <= i < |head| + |tail| ensures (head + tail)[i] == tail[i - |head|] {
      }
    }
  }

  /** No listing fills in a data source path. */
  lemma {:induction false} SelectLeavesDataSourcePath(es: seq<Node>, listing: Listing)
    requires forall i :: 0 <= i < |es| ==> es[i].Element?
    ensures forall i :: 0 <= i < |Select(es, listing)| ==> Select(es, listing)[i].dataSourcePath == ""
  {
    if es != [] {
      SelectLeavesDataSourcePath(es[1..], listing);
      var head := if Keeps(es[0], listing) then [Project(es[0], listing)] else [];
      var tail := Select(es[1..], listing);
      assert Select(es, listing) == head + tail;
      forall i | |head| <= i < |head| + |tail| ensures (head + tail)[i] == tail[i - |head|] {
      }
    }
  }

  /** The records a listing response yields, one per kept `CatalogItem` element, in document order. */
  function ParseListing(root: Node, listing: Listing): seq<CatalogItem>
  {
    Select(CatalogElements(root), listing)
  }

  /** The items of a given type name, in order. */
  function OfType(items: seq<CatalogItem>, typeName: string): (r: seq<CatalogItem>)
    ensures |r| <= |items|
    ensures forall x :: x in r <==> x in items && x.typeName == typeName
  {
    if items == [] then []
    else (if items[0].typeName == typeName then [items[0]] else []) + OfType(items[1..], typeName)
  }

  /** The filter works on each part of a list separately, so the items kept
      stay in their order, duplicates included. */
  lemma {:induction false} OfTypeAppend(a: seq<CatalogItem>, b: seq<CatalogItem>, typeName: string)
    ensures OfType(a + b, typeName) == OfType(a, typeName) + OfType(b, typeName)
  {
    if a == [] {
      assert a + b == b;
    } else {
      assert (a + b)[0] == a[0] && (a + b)[1..] == a[1..] + b;
      OfTypeAppend(a[1..], b, typeName);
    }
  }

  /** A single item is kept exactly when it has the type. */
  lemma OfTypeOne(x: CatalogItem, typeName: string)
    ensures OfType([x], typeName) == if x.typeName == typeName then [x] else []
  {
    assert [x][1..] == [];
  }

  /** An item with its dates dropped. */
  function WithoutDates(it: CatalogItem): CatalogItem
  {
    it.(createdDate := None, modifiedDate := None)
  }

  function AllWithoutDates(items: seq<CatalogItem>): (r: seq<CatalogItem>)
    ensures |r| == |items|
  {
    if items == [] then [] else [WithoutDates(items[0])] + AllWithoutDates(items[1..])
  }

  /** Every filtered listing keeps exactly the items of the general listing whose
      type name is the listing's type, in the same order; only the dates differ. */
  lemma {:induction false} FilteredListingsAgree(es: seq<Node>, listing: Listing)
    requires listing != AllChildren
    requires forall i :: 0 <= i < |es| ==> es[i].Element?
    ensures AllWithoutDates(Select(es, listing)) == OfType(Select(es, AllChildren), ListingType(listing))
  {
    if es != [] {
      FilteredListingsAgree(es[1..], listing);
      var e := es[0];
      var general := Project(e, AllChildren);
      assert Keeps(e, listing) <==> general.typeName == ListingType(listing);
      if Keeps(e, listing) {
        assert WithoutDates(Project(e, listing)) == general;
        assert AllWithoutDates([Project(e, listing)] + Select(es[1..], listing))
          == [general] + AllWithoutDates(Select(es[1..], listing));
      } else {
        assert [] + Select(es[1..], listing) == Select(es[1..], listing);
      }
      assert Select(es, AllChildren) == [general] + Select(es[1..], AllChildren);
    }
  }

  /** ListChildren is recursive for the data-source and report-metadata listings only. */
  function IsRecursive(listing: Listing): bool
  {
    listing == DataSources || listing == ReportsDetailed
  }

  /** The prefix each listing puts in front of the message of a failure. */
  function ErrorPrefix(listing: Listing): string
  {
    match listing
    case AllChildren => ""
    case DataSources => "Failed to list shared data sources: "
    case ReportsDetailed => "Failed to fetch report metadata: "
    case Reports => "Failed to fetch reports: "
  }

  /** A listing call: one ListChildren request (the path interpolated unescaped),
      the response parsed, the records extracted. A transport failure or an
      unparsable response fails the whole call. */
  function ListItems(c: Connection, w: World, path: string, listing: Listing): (r: Result<seq<CatalogItem>>)
    ensures var sent := SendSoap(c, w, ListChildrenEnvelope(path, IsRecursive(listing)));
      r.Success? <==> sent.Success? && w.parse(sent.value).Parsed?
    ensures var sent := SendSoap(c, w, ListChildrenEnvelope(path, IsRecursive(listing)));
      sent.Failure? ==> r.error == ErrorPrefix(listing) + sent.error
    ensures var sent := SendSoap(c, w, ListChildrenEnvelope(path, IsRecursive(listing)));
      sent.Success? && w.parse(sent.value).Malformed? ==> r == Failure(ErrorPrefix(listing) + w.parse(sent.value).message)
    ensures var sent := SendSoap(c, w, ListChildrenEnvelope(path, IsRecursive(listing)));
      r.Success? ==> r.value == ParseListing(w.parse(sent.value).root, listing)
  {
    match SendSoap(c, w, ListChildrenEnvelope(path, IsRecursive(listing)))
    case Failure(m) => Failure(ErrorPrefix(listing) + m)
    case Success(body) =>
      match w.parse(body)
      case Malformed(m) => Failure(ErrorPrefix(listing) + m)
      case Parsed(root) => Success(ParseListing(root, listing))
  }

  /** `ListChildrenAsync(path)`. */
  function ListChildren(c: Connection, w: World, path: string): Result<seq<CatalogItem>>
  {
    ListItems(c, w, path, AllChildren)
  }

  /** `CheckConnectionAsync`: true iff listing "/" yields at least one item; a
      listing failure is an error, not false. */
  function CheckConnection(c: Connection, w: World): (r: Result<bool>)
    ensures r.Success? <==> ListChildren(c, w, "/").Success?
    ensures r.Success? ==> (r.value <==> |ListChildren(c, w, "/").value| > 0)
    ensures r.Failure? ==> r.error == ListChildren(c, w, "/").error
  {
    match ListChildren(c, w, "/")
    case Success(items) => Success(|items| > 0)
    case Failure(m) => Failure(m)
  }

  /** A reachable root catalog that holds no item fails the check. */
  lemma EmptyRootFailsCheck(c: Connection, w: World)
    requires ListChildren(c, w, "/") == Success([])
    ensures CheckConnection(c, w) == Success(false)
  {
  }
}
