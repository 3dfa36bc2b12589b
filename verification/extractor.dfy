/**
 The per-element extraction routine `scrape_search_element`: one raw result
 element becomes one result record, or nothing when reading the element fails.
 */
module Extractor {

  import opened Options

  /** One decoded `name=value` pair of a link's query string, in order of appearance. */
  datatype Param = Param(name: string, value: string)

  /**
   The `a[href]` sub-element of a result: its raw `href` attribute together
   with the path and query parameters that URL parsing yields for it.
   */
  datatype Link = Link(href: string, path: string, query: seq<Param>)

  /**
   A raw result element as the browser hands it over. `Readable` carries the
   text of the first `h3` sub-element and the first link sub-element, each
   absent when the element has none; `Unreadable` stands for an element on
   which one of the reads, or the parsing of its `href`, raised an exception.
   */
  datatype Element = Readable(title: Option<string>, link: Option<Link>) | Unreadable

  /** One row of the output: the five columns of the result file. */
  datatype Record = Record(
    searchTerm: string,
    rank: int,
    title: Option<string>,
    url: Option<string>,
    pageNumber: int)

  /** The path of the search engine's redirect wrapper. */
  const RedirectPath := "/url"

  /** The query parameter of the redirect wrapper that names the true destination. */
  const TargetParam := "q"

  /** True iff some parameter is called `name`. */
  predicate HasParam(query: seq<Param>, name: string)
  {
    exists i :: 0 <= i < |query| && query[i].name == name
  }

  /**
   The first value given for `name`, as `parse_qs(query)[name][0]` reads it;
   `None` when no parameter carries that name.
   */
  function FirstValue(query: seq<Param>, name: string): (r: Option<string>)
    ensures r.None? <==> !HasParam(query, name)
    ensures r.Some? ==> exists i :: 0 <= i < |query| && query[i].name == name && query[i].value == r.value
                                    && forall j :: 0 <= j < i ==> query[j].name != name
    decreases |query|
  {
    if |query| == 0 then None
    else if query[0].name == name then Some(query[0].value)
    else
      var r := FirstValue(query[1..], name);
      assert forall i :: 1 <= i < |query| ==> query[i] == query[1..][i - 1];
      r
  }

  /**
   The destination URL of a result. An empty `href` is never parsed, so it is
   kept as it is; a non-empty one whose path is the redirect path and which
   names a target is unwrapped to the first target value; anything else is
   kept raw; no link at all gives no URL.
   */
  function ResolveUrl(link: Option<Link>): (r: Option<string>)
    ensures r.None? <==> link.None?
    ensures link.Some? && (link.value.href == "" || link.value.path != RedirectPath
                           || !HasParam(link.value.query, TargetParam))
            ==> r == Some(link.value.href)
    ensures link.Some? && link.value.href != "" && link.value.path == RedirectPath
            && HasParam(link.value.query, TargetParam)
            ==> exists i :: 0 <= i < |link.value.query| && link.value.query[i].name == TargetParam
                            && r == Some(link.value.query[i].value)
                            && forall j :: 0 <= j < i ==> link.value.query[j].name != TargetParam
  {
    match link
    case None => None
    case Some(l) =>
      if l.href != "" && l.path == RedirectPath then
        match FirstValue(l.query, TargetParam)
        case Some(target) => Some(target)
        case None => Some(l.href)
      else Some(l.href)
  }

  /**
   `scrape_search_element`: the record for one element at the given rank, or
   `None` when reading the element raised.
   */
  function ScrapeElement(e: Element, rank: int, searchTerm: string, pageNumber: int): (r: Option<Record>)
    ensures r.None? <==> e.Unreadable?
    ensures r.Some? ==> r.value.searchTerm == searchTerm && r.value.rank == rank
                        && r.value.pageNumber == pageNumber
                        && r.value.title == e.title && r.value.url == ResolveUrl(e.link)
  {
    match e
    case Unreadable => None
    case Readable(title, link) => Some(Record(searchTerm, rank, title, ResolveUrl(link), pageNumber))
  }

  /**
   True iff the destination holds none of the characters URL parsing would
   change or act on inside a query value: a parameter separator, a fragment
   mark, a percent escape, a plus sign, or a tab, carriage return or line
   feed (which URL splitting removes wherever they occur).
   */
  predicate PlainTarget(target: string)
  {
    forall i :: 0 <= i < |target| ==> target[i] !in "&;#%+\t\r\n"
  }

  /**
   The redirect wrapper `/url?q=<target>&sa=X` the search engine puts around
   a destination, together with the parameters `parse_qs` reads from it for a
   plain destination: a blank `q=` is dropped, so an empty destination leaves
   only `sa`.
   */
  function Wrap(target: string): Link
  {
    Link(RedirectPath + "?" + TargetParam + "=" + target + "&sa=X", RedirectPath,
         (if target == "" then [] else [Param(TargetParam, target)]) + [Param("sa", "X")])
  }

  /**
   Unwrapping undoes the search engine's wrapping for every plain, non-empty
   destination; an empty destination names no target, so the raw wrapper is
   kept.
   */
  lemma UnwrapRedirect(target: string)
    requires PlainTarget(target)
    ensures target != "" ==> ResolveUrl(Some(Wrap(target))) == Some(target)
    ensures target == "" ==> ResolveUrl(Some(Wrap(target))) == Some("/url?q=&sa=X")
  {
    if target == "" {
      assert Wrap(target).query == [Param("sa", "X")];
      assert !HasParam(Wrap(target).query, TargetParam);
      assert RedirectPath + "?" + TargetParam + "=" + target + "&sa=X" == "/url?q=&sa=X";
    }
  }

  /** A link whose path is not the redirect path is kept verbatim. */
  lemma DirectLinkUnchanged(l: Link)
    requires l.path != RedirectPath
    ensures ResolveUrl(Some(l)) == Some(l.href)
  {
  }

  /** An empty `href` is kept as the empty string, whatever its parse would say. */
  lemma EmptyHrefKept(path: string, query: seq<Param>)
    ensures ResolveUrl(Some(Link("", path, query))) == Some("")
  {
  }

  /** `/url?q=https://example.com&sa=X` resolves to `https://example.com`. */
  lemma RedirectExample()
    ensures ResolveUrl(Some(Link("/url?q=https://example.com&sa=X", "/url",
                                 [Param("q", "https://example.com"), Param("sa", "X")])))
            == Some("https://example.com")
  {
  }

  /** An element without a title sub-element still yields a record, with no title. */
  lemma MissingTitleStillEmitted(link: Option<Link>, rank: int, searchTerm: string, pageNumber: int)
    ensures ScrapeElement(Readable(None, link), rank, searchTerm, pageNumber)
            == Some(Record(searchTerm, rank, None, ResolveUrl(link), pageNumber))
  {
  }
}
