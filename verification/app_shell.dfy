/** The application shell: the current page name, the document-level click
    handler that turns an in-app link into a page name, and the dispatch
    from page name to the view rendered. In this shell the history,
    locations and search names render placeholder views, and every other
    name renders the record page. */
module AppShell {
  import opened Records

  /** The page shown on start. */
  const InitialPage: string := "record"

  datatype View = RecordView | HistoryPlaceholder | LocationsPlaceholder | SearchPlaceholder

  /** `renderPage`: the four known names, and the record page for every
      other name. */
  function RenderPage(name: string): (v: View)
    ensures v == HistoryPlaceholder <==> name == "history"
    ensures v == LocationsPlaceholder <==> name == "locations"
    ensures v == SearchPlaceholder <==> name == "search"
    ensures v == RecordView <==> name != "history" && name != "locations" && name != "search"
  {
    if name == "record" then RecordView
    else if name == "history" then HistoryPlaceholder
    else if name == "locations" then LocationsPlaceholder
    else if name == "search" then SearchPlaceholder
    else RecordView
  }

  /** What a click lands on: no enclosing anchor, or the nearest anchor with
      its `href` attribute, if it has one. */
  datatype Click = NoAnchor | Anchor(href: Option<string>)

  /** `handleNavigation`: an anchor whose `href` starts with '/' yields the
      whole `href` minus its first character; a non-empty name becomes the
      current page, and anything else leaves the page as it was. */
  function Navigate(current: string, click: Click): (page: string)
    ensures click.NoAnchor? ==> page == current
    ensures click.Anchor? && click.href.None? ==> page == current
    ensures click.Anchor? && click.href.Some? ==>
      var h := click.href.value;
      page == if |h| > 1 && h[0] == '/' then h[1..] else current
  {
    match click
    case NoAnchor => current
    case Anchor(None) => current
    case Anchor(Some(h)) =>
      if |h| > 0 && h[0] == '/' then
        var name := h[1..];
        if name != "" then name else current
      else current
  }

  function Run(current: string, clicks: seq<Click>): (page: string)
    decreases |clicks|
  {
    if clicks == [] then current else Run(Navigate(current, clicks[0]), clicks[1..])
  }

  /** Each sidebar link shows its page, from whatever page was current. */
  lemma SidebarLinks(current: string)
    ensures RenderPage(Navigate(current, Anchor(Some("/record")))) == RecordView
    ensures RenderPage(Navigate(current, Anchor(Some("/history")))) == HistoryPlaceholder
    ensures RenderPage(Navigate(current, Anchor(Some("/locations")))) == LocationsPlaceholder
    ensures RenderPage(Navigate(current, Anchor(Some("/search")))) == SearchPlaceholder
  {
  }

  /** The page name keeps every segment after the leading slash, so a nested
      path such as "/history/1" names no known page and shows the record
      page; a bare "/" leaves the page unchanged. */
  lemma NestedPathsFallBack(current: string)
    ensures Navigate(current, Anchor(Some("/history/1"))) == "history/1"
    ensures RenderPage(Navigate(current, Anchor(Some("/history/1")))) == RecordView
    ensures Navigate(current, Anchor(Some("/"))) == current
  {
  }

  /** Pages reached from `current` by the clicks in `rest`, all of which
      are among `clicks`: either `current` itself or the tail of a clicked
      `href`. */
  lemma {:induction false} RunFrom(current: string, rest: seq<Click>, clicks: seq<Click>)
    requires forall c :: c in rest ==> c in clicks
    ensures var page := Run(current, rest);
      page == current ||
      exists c :: c in clicks && c.Anchor? && c.href.Some? && c.href.value == "/" + page
    decreases |rest|
  {
    if rest != [] {
      var next := Navigate(current, rest[0]);
      assert rest[0] in clicks;
      RunFrom(next, rest[1..], clicks);
      if next != current {
        assert rest[0].href.value == "/" + next;
      }
    }
  }

  /** Whatever is clicked, the current page is "record" or the tail of some
      clicked `href` that started with '/'; it is never empty. */
  lemma PageComesFromAClick(clicks: seq<Click>)
    ensures var page := Run(InitialPage, clicks);
      && page != ""
      && (page == InitialPage ||
          exists c :: c in clicks && c.Anchor? && c.href.Some? && c.href.value == "/" + page)
  {
    RunFrom(InitialPage, clicks, clicks);
    NeverEmpty(InitialPage, clicks);
  }

  lemma {:induction false} NeverEmpty(current: string, clicks: seq<Click>)
    requires current != ""
    ensures Run(current, clicks) != ""
    decreases |clicks|
  {
    if clicks != [] {
      NeverEmpty(Navigate(current, clicks[0]), clicks[1..]);
    }
  }
}
