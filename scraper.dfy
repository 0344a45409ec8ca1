/** `scrape_single_url`: the record one URL produces. The browser is not modelled; a `Session`
    holds what its calls return, and `ScrapeRecord` is the record the source builds from them.
    `ScrapeData` is that record as the mutable dictionary the source fills in field by field. */
module Scraper {
  import opened Wrappers
  import opened Text
  import opened JsonSearch
  import opened UrlKinds
  import opened Pages
  import opened Probes
  import opened Sniffer

  /** The record's `status`. */
  datatype Status = Starting | Skipped | Succeeded | FailedNoAuthor | Errored {
    function Text(): string {
      match this
      case Starting => "Starting"
      case Skipped => "Skipped"
      case Succeeded => "Success"
      case FailedNoAuthor => "Failed (No Author)"
      case Errored => "Error"
    }
  }

  /** What the browser gives back while one URL is scraped.
      `loads`: `page.goto(url)` returns instead of raising.
      `responses`: the responses that arrive while the listener is attached.
      `page`: the page once it has settled.
      `reelsLoads`: `page.goto` of the author's reels page returns instead of raising.
      `landedUrl`, `reelsPage`: `page.url` and the page after that navigation. */
  datatype Session = Session(
    loads: bool,
    responses: seq<Response>,
    page: Page,
    reelsLoads: bool,
    landedUrl: string,
    reelsPage: Page)

  /** The result dictionary. `author` holds whatever was stored there: `JNull` for `None`, a
      string from the page, or the value found in a response. */
  datatype Record = Record(
    url: string,
    kind: UrlKind,
    author: Json,
    followers: string,
    likes: string,
    views: string,
    status: Status)

  const NotAvailable: string := "N/A"
  const PhotoViews: string := "N/A (Photo)"
  const HiddenViews: string := "Hidden (Main Grid)"
  const MissingViews: string := "Not Found"

  /** The dictionary as first built. */
  function Initial(url: string): Record {
    Record(url, IdentifyUrlType(url), JNull, NotAvailable, NotAvailable, NotAvailable, Starting)
  }

  // ---------------------------------------------------------------- the field probes

  /** The follower count of a profile page: from the first `/followers/` link, if any. */
  function ProfileFollowersOf(page: Page): string {
    match FirstMatching(page.anchors, "/followers/")
    case Some(link) => ProfileFollowers(link).GetOr(NotAvailable)
    case None => NotAvailable
  }

  /** The follower count read on a post's or reel's last page: the span title only. */
  function ContentFollowersOf(page: Page): string {
    ContentFollowers(page).GetOr(NotAvailable)
  }

  /** The likes figure: read from a non-empty description that matches the likes pattern. */
  function LikesOf(page: Page): (likes: string)
    ensures likes == NotAvailable || (page.description.Some? && LikesMatch(page.description.value, likes))
    ensures forall g :: page.description.Some? && LikesMatch(page.description.value, g) ==> likes == g
  {
    match page.description
    case Some(d) =>
      if d != "" then
        assert forall g :: LikesMatch(d, g) ==> LikesFromDescription(d) == Some(g) by {
          forall g | LikesMatch(d, g)
            ensures LikesFromDescription(d) == Some(g)
          {
            LikesComplete(d, g);
          }
        }
        LikesFromDescription(d).GetOr(NotAvailable)
      else NotAvailable
    case None => NotAvailable
  }

  /** One step of the author fallback chain: a probe is consulted, and its answer stored, only
      while the stored author is false-valued. */
  function Fallback(author: Json, probe: Option<string>): (a: Json)
    ensures Truthy(author) ==> a == author
    ensures !Truthy(author) && probe.Some? ==> a == JString(probe.value)
    ensures !Truthy(author) && probe.None? ==> a == author
  {
    if !Truthy(author) && probe.Some? then JString(probe.value) else author
  }

  /** The author fallback chain on what the three sources give: the captured username, then
      the title probe, then the `/reels/` links probe. */
  function AuthorChain(captured: Json, fromTitle: Option<string>, fromLinks: Option<string>): Json {
    var fromNetwork := if Truthy(captured) then captured else JNull;
    Fallback(Fallback(fromNetwork, fromTitle), fromLinks)
  }

  /** The author of a post or reel. */
  function ResolveAuthor(captured: Json, page: Page): Json {
    AuthorChain(captured, AuthorFromTitle(page.title), ReelsAuthor(page.anchors))
  }

  /** A probe that answers with a non-empty string. */
  predicate Names(probe: Option<string>) {
    probe.Some? && probe.value != ""
  }

  /** The chain takes the first source that names someone, and ends with a truthy author
      exactly when one of the three does. */
  lemma AuthorFallbackOrder(captured: Json, fromTitle: Option<string>, fromLinks: Option<string>)
    ensures var a := AuthorChain(captured, fromTitle, fromLinks);
      && (Truthy(captured) ==> a == captured)
      && (!Truthy(captured) && Names(fromTitle) ==> a == JString(fromTitle.value))
      && (!Truthy(captured) && !Names(fromTitle) && Names(fromLinks) ==> a == JString(fromLinks.value))
      && (Truthy(a) <==> Truthy(captured) || Names(fromTitle) || Names(fromLinks))
  {
  }

  /** A post is treated as a video when its `og:type` says so; a reel always is. */
  predicate IsVideo(kind: UrlKind, page: Page) {
    kind == Reel || (page.ogType.Some? && page.ogType.value != "" && Contains(page.ogType.value, "video"))
  }

  /** The view figure read off the first card linking to the shortcode on the author's reels
      page: `Not Found` when no such card turns up or its text cannot be read, `N/A` when its
      text has no digit, else the card probe's figure (its first line holding a digit,
      stripped). */
  function CardViews(code: string, reelsPage: Page): (views: string)
    ensures views == MissingViews || views == NotAvailable || HasDigit(views)
    ensures var card := FirstMatching(reelsPage.anchors, code);
      && (views == MissingViews <==> card.None? || card.value.text.None?)
      && (views == NotAvailable <==> card.Some? && card.value.text.Some? && !HasDigit(card.value.text.value))
      && (HasDigit(views) <==> card.Some? && card.value.text.Some? && HasDigit(card.value.text.value))
      && (HasDigit(views) ==> CardFigure(card.value.text.value) == Some(views))
  {
    SentinelsHaveNoDigit();
    match FirstMatching(reelsPage.anchors, code)
    case None => MissingViews
    case Some(card) =>
      match card.text
      case None => MissingViews
      case Some(text) =>
        CardFigureShape(text);
        CardFigure(text).GetOr(NotAvailable)
  }

  /** The views of a video: hidden exactly when the reels page redirects elsewhere, else what
      the card gives. */
  function VideoViews(code: string, s: Session): (views: string)
    ensures views == HiddenViews || views == MissingViews || views == NotAvailable || HasDigit(views)
    ensures views == HiddenViews <==> !Contains(s.landedUrl, "/reels/")
    ensures Contains(s.landedUrl, "/reels/") ==> views == CardViews(code, s.reelsPage)
  {
    SentinelsHaveNoDigit();
    if !Contains(s.landedUrl, "/reels/") then HiddenViews else CardViews(code, s.reelsPage)
  }

  // ---------------------------------------------------------------- the record

  /** The branch for posts and reels, from the dictionary as first built. */
  function ContentRecord(d: Record, s: Session): (r: Record)
    requires Contains(d.url, "/reel/") || Contains(d.url, "/p/")
    ensures r.url == d.url && r.kind == d.kind
  {
    if !s.loads then d.(status := Errored)
    else
      var author := ResolveAuthor(CaptureAll(JNull, s.responses), s.page);
      var d1 := d.(likes := LikesOf(s.page), author := author);
      if !Truthy(author) then d1.(status := FailedNoAuthor)
      else Published(d1, Shortcode(d.url), s)
  }

  /** How a post or reel whose author is known ends: a photo is done on its own page; a video
      needs its author's reels page, for the views and the follower count. */
  function Published(d: Record, code: string, s: Session): Record {
    if IsVideo(d.kind, s.page) then
      if !s.reelsLoads then d.(status := Errored)
      else d.(views := VideoViews(code, s), followers := ContentFollowersOf(s.reelsPage), status := Succeeded)
    else
      d.(views := PhotoViews, followers := ContentFollowersOf(s.page), status := Succeeded)
  }

  /** The record `scrape_single_url` returns for a URL that is not blank. */
  function ScrapeRecord(url: string, s: Session): (r: Record)
    ensures r.url == url && r.kind == IdentifyUrlType(url)
  {
    var d := Initial(url);
    if d.kind.IsSkipped() then d.(status := Skipped)
    else if d.kind == Profile then
      if !s.loads then d.(status := Errored)
      else d.(followers := ProfileFollowersOf(s.page), author := JString(ProfileAuthor(url)), status := Succeeded)
    else ContentRecord(d, s)
  }

  /** `scrape_single_url`: nothing for a blank URL, else the record. */
  function Scrape(url: string, s: Session): (r: Option<Record>)
    ensures r.None? <==> StripSpace(url) == ""
    ensures r.Some? ==> r.value.url == url && r.value.kind == IdentifyUrlType(url)
  {
    if StripSpace(url) == "" then None else Some(ScrapeRecord(url, s))
  }

  // ---------------------------------------------------------------- properties of the record

  /** SYSTEM and UNKNOWN URLs are skipped before any page is opened: the record is the initial
      one marked Skipped, whatever the browser would have returned. */
  lemma SkippedIgnoresSession(url: string, s: Session, s': Session)
    requires IdentifyUrlType(url).IsSkipped()
    ensures ScrapeRecord(url, s) == ScrapeRecord(url, s')
    ensures var r := ScrapeRecord(url, s);
      && r.status == Skipped && r.author == JNull
      && r.followers == NotAvailable && r.likes == NotAvailable && r.views == NotAvailable
  {
  }

  /** A failed first navigation leaves the initial record marked Error. */
  lemma FailedLoadIsError(url: string, s: Session)
    requires !IdentifyUrlType(url).IsSkipped() && !s.loads
    ensures ScrapeRecord(url, s) == Initial(url).(status := Errored)
  {
  }

  /** The fixed texts the views field can hold. */
  predicate IsViewsSentinel(v: string) {
    v == NotAvailable || v == PhotoViews || v == HiddenViews || v == MissingViews
  }

  /** No fixed text of the views field holds a digit, so none is mistaken for a figure. */
  lemma SentinelsHaveNoDigit()
    ensures !HasDigit(NotAvailable) && !HasDigit(PhotoViews) && !HasDigit(HiddenViews) && !HasDigit(MissingViews)
  {
    forall i | 0 <= i < |NotAvailable|
      ensures !IsDigit(NotAvailable[i])
    {
    }
    forall i | 0 <= i < |PhotoViews|
      ensures !IsDigit(PhotoViews[i])
    {
    }
    forall i | 0 <= i < |HiddenViews|
      ensures !IsDigit(HiddenViews[i])
    {
    }
    forall i | 0 <= i < |MissingViews|
      ensures !IsDigit(MissingViews[i])
    {
    }
  }

  /** How the post and reel branch ends, starting from the dictionary as first built. */
  lemma ContentRecordShape(d: Record, s: Session)
    requires Contains(d.url, "/reel/") || Contains(d.url, "/p/")
    requires d.author == JNull && d.status == Starting
    requires d.followers == NotAvailable && d.likes == NotAvailable && d.views == NotAvailable
    ensures var r := ContentRecord(d, s); var video := IsVideo(d.kind, s.page);
      && (r.status == Succeeded <==> s.loads && Truthy(r.author) && (video ==> s.reelsLoads))
      && (r.status == FailedNoAuthor <==> s.loads && !Truthy(r.author))
      && (r.status == Errored <==> !s.loads || (Truthy(r.author) && video && !s.reelsLoads))
      && (IsViewsSentinel(r.views) || HasDigit(r.views))
      && (video ==> r.views != PhotoViews)
      && (r.status == Succeeded && !video ==> r.views == PhotoViews)
      && (r.status == Succeeded && video && !Contains(s.landedUrl, "/reels/") ==> r.views == HiddenViews)
  {
    SentinelsHaveNoDigit();
  }

  /** The status says how the scrape ended: never Starting; Success only with a truthy
      author; for posts and reels that did not fail, Success exactly when an author was found;
      a profile that loads always succeeds. */
  lemma StatusMatchesAuthor(url: string, s: Session)
    ensures var r := ScrapeRecord(url, s);
      && r.status != Starting
      && (r.status == Succeeded ==> Truthy(r.author))
      && (r.status == FailedNoAuthor <==> !r.kind.IsSkipped() && r.kind != Profile && s.loads && !Truthy(r.author))
      && (r.kind == Profile ==> (r.status == Succeeded <==> s.loads))
      && ((r.kind == Reel || r.kind == Post) && r.status != Errored ==> (r.status == Succeeded <==> Truthy(r.author)))
  {
    var kind := IdentifyUrlType(url);
    if kind == Profile {
      if s.loads {
        ProfileAuthorNonEmpty(url);
      }
    } else if kind == Reel || kind == Post {
      ScrapeRecordOfContent(url, s);
      ContentRecordShape(Initial(url), s);
    }
  }

  /** The views field is one of the four sentinels or a figure holding a digit; a reel is
      never reported as a photo; a successful photo post always is; a video whose reels page
      redirects elsewhere is reported hidden. */
  lemma ViewsShape(url: string, s: Session)
    ensures var r := ScrapeRecord(url, s);
      && (IsViewsSentinel(r.views) || HasDigit(r.views))
      && (r.kind == Reel ==> r.views != PhotoViews)
      && (r.status == Succeeded && r.kind == Post && !IsVideo(Post, s.page) ==> r.views == PhotoViews)
      && ((r.kind == Reel || r.kind == Post) && r.status == Succeeded && IsVideo(r.kind, s.page) && !Contains(s.landedUrl, "/reels/")
        ==> r.views == HiddenViews)
  {
    var kind := IdentifyUrlType(url);
    if kind == Reel || kind == Post {
      ScrapeRecordOfContent(url, s);
      ContentRecordShape(Initial(url), s);
    }
  }

  /** For a post or reel that loads, the author is the first truthy username any inspected
      response yields, else what the page probes give, in their order. */
  lemma ContentAuthorFromFirstFind(url: string, s: Session)
    requires (IdentifyUrlType(url) == Reel || IdentifyUrlType(url) == Post) && s.loads
    ensures ScrapeRecord(url, s).author == ResolveAuthor(FirstTruthy(Finds(s.responses)), s.page)
  {
    ScrapeRecordOfContent(url, s);
    ContentRecordAuthor(Initial(url), s);
    CaptureIsFirstFind(s.responses);
  }

  /** A post or reel goes through the content branch. */
  lemma ScrapeRecordOfContent(url: string, s: Session)
    requires IdentifyUrlType(url) == Reel || IdentifyUrlType(url) == Post
    ensures Contains(url, "/reel/") || Contains(url, "/p/")
    ensures ScrapeRecord(url, s) == ContentRecord(Initial(url), s)
  {
  }

  /** The author a loaded post or reel ends up with is the chain's answer. */
  lemma ContentRecordAuthor(d: Record, s: Session)
    requires Contains(d.url, "/reel/") || Contains(d.url, "/p/")
    requires s.loads
    ensures ContentRecord(d, s).author == ResolveAuthor(CaptureAll(JNull, s.responses), s.page)
  {
  }

  /** The likes field is `N/A` or the figure the description starts with; a post or reel that
      loads reports the figure whenever its description matches the pattern; other URLs keep
      `N/A`. */
  lemma LikesShape(url: string, s: Session)
    ensures var r := ScrapeRecord(url, s);
      r.likes == NotAvailable || (s.page.description.Some? && LikesMatch(s.page.description.value, r.likes))
    ensures var r := ScrapeRecord(url, s);
      !((r.kind == Reel || r.kind == Post) && s.loads) ==> r.likes == NotAvailable
    ensures forall g ::
      (IdentifyUrlType(url) == Reel || IdentifyUrlType(url) == Post) && s.loads
      && s.page.description.Some? && LikesMatch(s.page.description.value, g)
      ==> ScrapeRecord(url, s).likes == g
  {
    var kind := IdentifyUrlType(url);
    if (kind == Reel || kind == Post) && s.loads {
      ScrapeRecordOfContent(url, s);
      ContentRecordLikes(Initial(url), s);
    }
  }

  /** A loaded post or reel keeps the likes the description gives. */
  lemma ContentRecordLikes(d: Record, s: Session)
    requires Contains(d.url, "/reel/") || Contains(d.url, "/p/")
    requires s.loads
    ensures ContentRecord(d, s).likes == LikesOf(s.page)
  {
  }

  /** A profile URL `<prefix><handle>` followed by slashes that loads is scraped as a success
      with that handle as its author. */
  lemma ProfileRecordOfHandle(prefix: string, handle: string, slashes: string, s: Session)
    requires handle != "" && '/' !in handle
    requires prefix == "" || prefix[|prefix| - 1] == '/'
    requires forall k :: 0 <= k < |slashes| ==> slashes[k] == '/'
    requires IdentifyUrlType(prefix + handle + slashes) == Profile && s.loads
    ensures var r := ScrapeRecord(prefix + handle + slashes, s);
      r.author == JString(handle) && r.status == Succeeded && r.followers == ProfileFollowersOf(s.page)
  {
    ProfileRecord(prefix + handle + slashes, s);
    ProfileAuthorOfHandleUrl(prefix, handle, slashes);
  }

  lemma ProfileRecord(url: string, s: Session)
    requires IdentifyUrlType(url) == Profile && s.loads
    ensures var r := ScrapeRecord(url, s);
      r.author == JString(ProfileAuthor(url)) && r.status == Succeeded && r.followers == ProfileFollowersOf(s.page)
  {
  }

  /** Where a loaded post's or reel's followers and views come from: a successful video reads
      both off its author's reels page, a successful photo reads its followers off its own
      page, and a record that did not succeed keeps both at `N/A`. */
  lemma ContentRecordFields(url: string, s: Session)
    requires (IdentifyUrlType(url) == Reel || IdentifyUrlType(url) == Post) && s.loads
    ensures var r := ScrapeRecord(url, s); var video := IsVideo(r.kind, s.page);
      && (r.status == Succeeded && video ==>
            r.views == VideoViews(Shortcode(url), s) && r.followers == ContentFollowersOf(s.reelsPage))
      && (r.status == Succeeded && !video ==> r.followers == ContentFollowersOf(s.page))
      && (r.status != Succeeded ==> r.followers == NotAvailable && r.views == NotAvailable)
  {
    ScrapeRecordOfContent(url, s);
  }

  /** A profile record never reads views or likes. */
  lemma ProfileKeepsViews(url: string, s: Session)
    requires IdentifyUrlType(url) == Profile
    ensures ScrapeRecord(url, s).views == NotAvailable && ScrapeRecord(url, s).likes == NotAvailable
  {
  }

  // ---------------------------------------------------------------- the imperative scrape

  /** The fields of a dictionary that no branch has filled in yet. */
  predicate Unfilled(d: Record) {
    d.author == JNull && d.followers == NotAvailable && d.likes == NotAvailable
    && d.views == NotAvailable && d.status == Starting
  }

  /** The `data` dictionary of `scrape_single_url`. */
  class ScrapeData {
    var url: string
    var kind: UrlKind
    var author: Json
    var followers: string
    var likes: string
    var views: string
    var status: Status

    function Snapshot(): Record
      reads this
    {
      Record(url, kind, author, followers, likes, views, status)
    }

    constructor (url: string)
      ensures Snapshot() == Initial(url)
    {
      this.url := url;
      kind := IdentifyUrlType(url);
      author := JNull;
      followers := NotAvailable;
      likes := NotAvailable;
      views := NotAvailable;
      status := Starting;
    }

    /** The PROFILE branch. */
    method ScrapeProfile(s: Session)
      requires Unfilled(Snapshot())
      modifies this
      ensures Snapshot() == (if !s.loads then old(Snapshot()).(status := Errored)
        else old(Snapshot()).(followers := ProfileFollowersOf(s.page), author := JString(ProfileAuthor(url)), status := Succeeded))
    {
      if !s.loads {
        status := Errored;
        return;
      }
      ReadProfileFollowers(s.page);
      author := JString(ProfileAuthor(url));
      status := Succeeded;
    }

    /** The follower count of a profile page, read into a record that has none yet. */
    method ReadProfileFollowers(page: Page)
      requires followers == NotAvailable
      modifies this
      ensures Snapshot() == old(Snapshot()).(followers := ProfileFollowersOf(page))
    {
      var link := FirstMatching(page.anchors, "/followers/");
      if link.Some? {
        var count := ProfileFollowers(link.value);
        if count.Some? {
          followers := count.value;
        }
      }
    }

    /** The REEL and POST branch. */
    method ScrapeContent(s: Session)
      requires Unfilled(Snapshot()) && (Contains(url, "/reel/") || Contains(url, "/p/"))
      modifies this
      ensures Snapshot() == ContentRecord(old(Snapshot()), s)
    {
      var code := Shortcode(url);
      if !s.loads {
        status := Errored;
        return;
      }
      var captured := new Capture();
      captured.Listen(s.responses);

      likes := LikesOf(s.page);
      FillAuthor(captured.username, s.page);

      if Truthy(author) {
        Publish(code, s);
      } else {
        status := FailedNoAuthor;
      }
    }

    /** The rest of the branch once an author is known. */
    method Publish(code: string, s: Session)
      requires views == NotAvailable && followers == NotAvailable
      modifies this
      ensures Snapshot() == Published(old(Snapshot()), code, s)
    {
      var current := s.page;
      if IsVideo(kind, s.page) {
        if !s.reelsLoads {
          status := Errored;
          return;
        }
        current := s.reelsPage;
        ReadViews(code, s);
      } else {
        views := PhotoViews;
      }
      var count := ContentFollowers(current);
      if count.Some? {
        followers := count.value;
      }
      status := Succeeded;
    }

    /** The author fallback chain on a record with no author yet. */
    method FillAuthor(captured: Json, page: Page)
      requires author == JNull
      modifies this
      ensures Snapshot() == old(Snapshot()).(author := ResolveAuthor(captured, page))
    {
      if Truthy(captured) {
        author := captured;
      }
      if !Truthy(author) {
        var fromTitle := AuthorFromTitle(page.title);
        if fromTitle.Some? {
          author := JString(fromTitle.value);
        }
      }
      if !Truthy(author) {
        var fromLinks := ScanReelsLinks(page.anchors);
        if fromLinks.Some? {
          author := JString(fromLinks.value);
        }
      }
    }

    /** The views of a video, read once its author's reels page is open. */
    method ReadViews(code: string, s: Session)
      requires views == NotAvailable
      modifies this
      ensures Snapshot() == old(Snapshot()).(views := VideoViews(code, s))
    {
      if !Contains(s.landedUrl, "/reels/") {
        views := HiddenViews;
      } else {
        var card := FirstMatching(s.reelsPage.anchors, code);
        if card.None? || card.value.text.None? {
          views := MissingViews;
        } else {
          var figure := FirstDigitLine(card.value.text.value);
          if figure.Some? {
            views := figure.value;
          }
        }
      }
    }
  }

  /** `scrape_single_url`, filling in a fresh dictionary. */
  method ScrapeSingleUrl(url: string, s: Session) returns (result: Option<ScrapeData>)
    ensures result.None? <==> StripSpace(url) == ""
    ensures result.Some? ==> fresh(result.value) && result.value.Snapshot() == ScrapeRecord(url, s)
  {
    if url == "" || StripSpace(url) == "" {
      return None;
    }
    var data := new ScrapeData(url);
    if data.kind.IsSkipped() {
      data.status := Skipped;
    } else if data.kind == Profile {
      data.ScrapeProfile(s);
    } else {
      ContentHasMarker(url);
      data.ScrapeContent(s);
    }
    return Some(data);
  }
}
