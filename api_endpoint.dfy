/**
 * The description of one request to the Unsplash search endpoint: a path,
 * an HTTP method, the ordered query items and the headers.
 */
module APIEndpoint {
  import opened Wrappers
  import Decimal

  const SearchPhotosPath := "search/photos"

  datatype HTTPMethod = Get

  /** A URL query item; its value may be absent. */
  datatype QueryItem = QueryItem(name: string, value: Option<string>)

  datatype APIEndPoint = APIEndPoint(
    path: string,
    httpMethod: HTTPMethod,
    queryItems: Option<seq<QueryItem>>,
    headers: Option<map<string, string>>)

  /** An optional search parameter under the name the API knows it by. */
  datatype Param = Param(name: string, value: Option<string>)

  /** The optional parameters of a search, in the order they are appended. */
  function OptionalParams(
    orderBy: Option<string>, collections: Option<string>, contentFilter: Option<string>,
    color: Option<string>, orientation: Option<string>): seq<Param>
  {
    [Param("order_by", orderBy), Param("collections", collections),
     Param("content_filter", contentFilter), Param("color", color),
     Param("orientation", orientation)]
  }

  /** One query item per parameter that has a value, in parameter order. */
  function PresentItems(ps: seq<Param>): seq<QueryItem>
  {
    if ps == [] then []
    else if ps[0].value.Some? then [QueryItem(ps[0].name, ps[0].value)] + PresentItems(ps[1..])
    else PresentItems(ps[1..])
  }

  /** The item a single optional parameter contributes. */
  function ItemIf(name: string, v: Option<string>): seq<QueryItem>
  {
    if v.Some? then [QueryItem(name, v)] else []
  }

  lemma OptionalParamsItems(
    orderBy: Option<string>, collections: Option<string>, contentFilter: Option<string>,
    color: Option<string>, orientation: Option<string>)
    ensures PresentItems(OptionalParams(orderBy, collections, contentFilter, color, orientation)) ==
      ItemIf("order_by", orderBy) + ItemIf("collections", collections) + ItemIf("content_filter", contentFilter)
      + ItemIf("color", color) + ItemIf("orientation", orientation)
  {
    OptionalParamsItemsNested(orderBy, collections, contentFilter, color, orientation);
    ConcatAssociates(
      ItemIf("order_by", orderBy), ItemIf("collections", collections), ItemIf("content_filter", contentFilter),
      ItemIf("color", color), ItemIf("orientation", orientation));
  }

  lemma ConcatAssociates<T>(a: seq<T>, b: seq<T>, c: seq<T>, d: seq<T>, e: seq<T>)
    ensures a + (b + (c + (d + e))) == a + b + c + d + e
  {
    calc {
      a + (b + (c + (d + e)));
      a + (b + (c + d + e));
      a + (b + c + d + e);
      a + b + c + d + e;
    }
  }

  lemma OptionalParamsItemsNested(
    orderBy: Option<string>, collections: Option<string>, contentFilter: Option<string>,
    color: Option<string>, orientation: Option<string>)
    ensures PresentItems(OptionalParams(orderBy, collections, contentFilter, color, orientation)) ==
      ItemIf("order_by", orderBy) + (ItemIf("collections", collections)
      + (ItemIf("content_filter", contentFilter) + (ItemIf("color", color) + ItemIf("orientation", orientation))))
  {
    var p1 := [Param("orientation", orientation)];
    var p2 := [Param("color", color)] + p1;
    var p3 := [Param("content_filter", contentFilter)] + p2;
    var p4 := [Param("collections", collections)] + p3;
    var p5 := [Param("order_by", orderBy)] + p4;
    assert p5 == OptionalParams(orderBy, collections, contentFilter, color, orientation);
    PresentItemsCons(Param("orientation", orientation), []);
    assert p1 == [Param("orientation", orientation)] + [];
    assert PresentItems(p1) == ItemIf("orientation", orientation);
    PresentItemsCons(Param("color", color), p1);
    PresentItemsCons(Param("content_filter", contentFilter), p2);
    PresentItemsCons(Param("collections", collections), p3);
    PresentItemsCons(Param("order_by", orderBy), p4);
  }

  lemma DropPrefix<T>(a: seq<T>, b: seq<T>)
    ensures |a + b| == |a| + |b| && (a + b)[|a|..] == b
  {
  }

  lemma PresentItemsCons(p: Param, rest: seq<Param>)
    ensures PresentItems([p] + rest) == ItemIf(p.name, p.value) + PresentItems(rest)
  {
    assert ([p] + rest)[1..] == rest;
  }

  /** How many parameters have a value. */
  function CountPresent(ps: seq<Param>): nat
  {
    if ps == [] then 0 else (if ps[0].value.Some? then 1 else 0) + CountPresent(ps[1..])
  }

  /** One `if let` step of `searchPhotos`: append the item when the parameter has a value. */
  method AppendIfPresent(items: seq<QueryItem>, name: string, v: Option<string>) returns (r: seq<QueryItem>)
    ensures r == items + ItemIf(name, v)
    ensures |r| == |items| + (if v.Some? then 1 else 0) && r[..|items|] == items
  {
    r := items;
    if v.Some? {
      r := r + [QueryItem(name, v)];
    }
  }

  /**
   * `APIEndPoint.searchPhotos`: the three mandatory items, then one item per
   * optional parameter that was given, then the authorization header built
   * from the configured access key.
   */
  method SearchPhotos(
    accessKey: string,
    query: string,
    page: int := 1,
    perPage: int := 10,
    orderBy: Option<string> := None,
    collections: Option<string> := None,
    contentFilter: Option<string> := None,
    color: Option<string> := None,
    orientation: Option<string> := None)
    returns (e: APIEndPoint)
    ensures e.path == SearchPhotosPath && e.httpMethod == Get
    ensures e.headers == Some(map["Authorization" := "Client-ID " + accessKey])
    ensures e.queryItems.Some?
    ensures var items := e.queryItems.value;
      var ps := OptionalParams(orderBy, collections, contentFilter, color, orientation);
      && |items| == 3 + CountPresent(ps)
      && items[0] == QueryItem("query", Some(query))
      && items[1] == QueryItem("page", Some(Decimal.IntToString(page)))
      && items[2] == QueryItem("per_page", Some(Decimal.IntToString(perPage)))
      && items[3..] == PresentItems(ps)
  {
    var queryItems := [
      QueryItem("query", Some(query)),
      QueryItem("page", Some(Decimal.IntToString(page))),
      QueryItem("per_page", Some(Decimal.IntToString(perPage)))
    ];
    ghost var base := queryItems;
    queryItems := AppendIfPresent(queryItems, "order_by", orderBy);
    queryItems := AppendIfPresent(queryItems, "collections", collections);
    queryItems := AppendIfPresent(queryItems, "content_filter", contentFilter);
    queryItems := AppendIfPresent(queryItems, "color", color);
    queryItems := AppendIfPresent(queryItems, "orientation", orientation);
    ghost var tail := ItemIf("order_by", orderBy) + ItemIf("collections", collections)
      + ItemIf("content_filter", contentFilter) + ItemIf("color", color) + ItemIf("orientation", orientation);
    DropPrefix(base, tail);
    ghost var ps := OptionalParams(orderBy, collections, contentFilter, color, orientation);
    OptionalParamsItems(orderBy, collections, contentFilter, color, orientation);
    PresentItemsLength(ps);
    var headers := map["Authorization" := "Client-ID " + accessKey];
    e := APIEndPoint(SearchPhotosPath, Get, Some(queryItems), Some(headers));
  }

  lemma {:induction false} PresentItemsLength(ps: seq<Param>)
    ensures |PresentItems(ps)| == CountPresent(ps)
  {
    if ps != [] { PresentItemsLength(ps[1..]); }
  }

  /**
   * A parameter contributes an item exactly when it has a value, and the
   * item carries that value unchanged.
   */
  lemma {:induction false} PresentItemsMembership(ps: seq<Param>, name: string, v: string)
    ensures QueryItem(name, Some(v)) in PresentItems(ps) <==> Param(name, Some(v)) in ps
  {
    if ps != [] {
      PresentItemsMembership(ps[1..], name, v);
      assert ps == [ps[0]] + ps[1..];
    }
  }

  /** No item ever has an absent value, and every item comes from a parameter with that name and value. */
  lemma {:induction false} PresentItemsHaveValues(ps: seq<Param>)
    ensures forall it :: it in PresentItems(ps) ==> it.value.Some? && Param(it.name, it.value) in ps
  {
    if ps != [] {
      PresentItemsHaveValues(ps[1..]);
      assert ps == [ps[0]] + ps[1..];
    }
  }

  /** Items keep the order of their parameters: the item for `ps[i]` precedes that for `ps[j]`. */
  lemma PresentItemsOrder(ps: seq<Param>, i: nat, j: nat)
    requires i < j < |ps| && ps[i].value.Some? && ps[j].value.Some?
    ensures var a, b := |PresentItems(ps[..i])|, |PresentItems(ps[..j])|;
      && a < b < |PresentItems(ps)|
      && PresentItems(ps)[a] == QueryItem(ps[i].name, ps[i].value)
      && PresentItems(ps)[b] == QueryItem(ps[j].name, ps[j].value)
  {
    PresentItemsSplit(ps[..i], ps[i..j]);
    assert ps[..i] + ps[i..j] == ps[..j];
    assert ps[i..j][0] == ps[i];
    PresentItemsAt(ps, i);
    PresentItemsAt(ps, j);
  }

  /** The item for a present parameter `ps[k]` stands after the items of the parameters before it. */
  lemma {:induction false} PresentItemsAt(ps: seq<Param>, k: nat)
    requires k < |ps| && ps[k].value.Some?
    ensures |PresentItems(ps[..k])| < |PresentItems(ps)|
    ensures PresentItems(ps)[|PresentItems(ps[..k])|] == QueryItem(ps[k].name, ps[k].value)
  {
    PresentItemsSplit(ps[..k], ps[k..]);
    assert ps[..k] + ps[k..] == ps;
    assert ps[k..][0] == ps[k];
  }

  lemma {:induction false} PresentItemsSplit(xs: seq<Param>, ys: seq<Param>)
    ensures PresentItems(xs + ys) == PresentItems(xs) + PresentItems(ys)
  {
    if xs != [] {
      PresentItemsSplit(xs[1..], ys);
      assert (xs + ys)[1..] == xs[1..] + ys;
    } else {
      assert xs + ys == ys;
    }
  }

  /** With no optional parameter the endpoint has exactly the three mandatory items. */
  method DefaultSearch(accessKey: string, query: string) returns (e: APIEndPoint)
    ensures e.queryItems == Some([
      QueryItem("query", Some(query)),
      QueryItem("page", Some("1")),
      QueryItem("per_page", Some("10"))])
  {
    e := SearchPhotos(accessKey, query);
    OptionalParamsItems(None, None, None, None, None);
    PresentItemsLength(OptionalParams(None, None, None, None, None));
    var items := e.queryItems.value;
    assert items == [items[0], items[1], items[2]];
    assert Decimal.IntToString(1) == "1";
    assert Decimal.IntToString(10) == "10" by {
      assert Decimal.NatToString(10) == Decimal.NatToString(1) + [Decimal.DigitChar(0)];
    }
  }
}
