/** What the scraper can read off a rendered page once the browser has loaded it: the title,
    two meta tags and the anchors, in document order. The browser itself is not modelled;
    these values stand for what its queries return. */
module Pages {
  import opened Wrappers
  import opened Text

  /** An `<a>` element: its `href` attribute, its visible text (`None` when `inner_text()`
      raises), and the `title` attribute of the first `span[title]` inside it. */
  datatype Anchor = Anchor(href: Option<string>, text: Option<string>, spanTitle: Option<string>)

  /** A loaded page: `page.title()`, the `content` of `meta[property="og:description"]` and of
      `meta[property="og:type"]` (`None` when absent or unreadable), and its anchors. */
  datatype Page = Page(title: string, description: Option<string>, ogType: Option<string>, anchors: seq<Anchor>)

  /** The CSS selector `a[href*='<part>']`: the anchor has an `href` holding `part`. An empty
      `part` matches no anchor. */
  predicate HrefContains(a: Anchor, part: string) {
    part != "" && a.href.Some? && Contains(a.href.value, part)
  }

  /** Anchor `i` is the first one the selector for `part` matches. */
  predicate FirstMatchAt(anchors: seq<Anchor>, part: string, i: int) {
    && 0 <= i < |anchors| && HrefContains(anchors[i], part)
    && forall k :: 0 <= k < i ==> !HrefContains(anchors[k], part)
  }

  /** Only one anchor is the first match. */
  lemma FirstMatchAtUnique(anchors: seq<Anchor>, part: string, i: int, j: int)
    requires FirstMatchAt(anchors, part, i) && FirstMatchAt(anchors, part, j)
    ensures i == j
  {
  }

  /** `page.locator("a[href*='<part>']").first`: the first anchor the selector matches. */
  function FirstMatching(anchors: seq<Anchor>, part: string): (r: Option<Anchor>)
    ensures r.Some? ==> exists i :: FirstMatchAt(anchors, part, i) && anchors[i] == r.value
    ensures r.None? <==> forall i :: 0 <= i < |anchors| ==> !HrefContains(anchors[i], part)
  {
    if anchors == [] then None
    else if HrefContains(anchors[0], part) then
      assert FirstMatchAt(anchors, part, 0);
      Some(anchors[0])
    else
      var r := FirstMatching(anchors[1..], part);
      assert forall i :: 1 <= i < |anchors| ==> anchors[i] == anchors[1..][i - 1];
      if r.Some? then
        var j :| FirstMatchAt(anchors[1..], part, j) && anchors[1..][j] == r.value;
        assert FirstMatchAt(anchors, part, j + 1);
        r
      else
        r
  }
}
