/** The two layout links of components/LayoutToggleServer.js. */
module LayoutToggle {
  import opened Wrappers
  import opened Text

  /** `searchParams.get('page') || '1'`. */
  function PageOf(param: Option<string>): (page: string)
    ensures Truthy(param) ==> page == param.value
    ensures !Truthy(param) ==> page == "1"
  {
    OrElse(param, "1")
  }

  /** `/user/${username}?layout=${layout}` followed by `&page=${page}`
      unless the page is "1". */
  function Href(username: string, layout: string, page: string): (h: string)
    ensures var base := "/user/" + username + "?layout=" + layout;
      |h| >= |base| && h[..|base|] == base &&
      (page == "1" <==> h == base) &&
      (page != "1" ==> h[|base|..] == "&page=" + page)
  {
    var base := "/user/" + username + "?layout=" + layout;
    base + (if page != "1" then "&page=" + page else "")
  }

  /** Different pages give different links. */
  lemma HrefPageInjective(username: string, layout: string, p: string, q: string)
    requires Href(username, layout, p) == Href(username, layout, q)
    ensures p == q
  {
    var base := "/user/" + username + "?layout=" + layout;
    if p != "1" && q != "1" {
      assert "&page=" + p == "&page=" + q;
      assert p == ("&page=" + p)[6..];
      assert q == ("&page=" + q)[6..];
    }
  }

  datatype Link = Link(href: string, active: bool)

  /** The single-column link and the grid link, in that order; a link is
      highlighted exactly when it is the current layout. */
  function Links(username: string, currentLayout: string, pageParam: Option<string>): (ls: seq<Link>)
    ensures |ls| == 2
    ensures ls[0].href == Href(username, "single", PageOf(pageParam))
    ensures ls[1].href == Href(username, "grid", PageOf(pageParam))
    ensures ls[0].active <==> currentLayout == "single"
    ensures ls[1].active <==> currentLayout == "grid"
    ensures !(ls[0].active && ls[1].active)
  {
    var page := PageOf(pageParam);
    [Link(Href(username, "single", page), currentLayout == "single"),
     Link(Href(username, "grid", page), currentLayout == "grid")]
  }

  /** Without a page parameter the links are the bare layout URLs. */
  lemma DefaultPageLinks(username: string, currentLayout: string)
    ensures Links(username, currentLayout, None)[0].href == "/user/" + username + "?layout=single"
    ensures Links(username, currentLayout, None)[1].href == "/user/" + username + "?layout=grid"
  {
  }
}
