/** The page probes of `scrape_single_url`, each a total function that either finds its value
    or finds nothing: likes from the description meta, the author from the page title, the
    author from `/reels/` links, the view figure from a reel's card, and the follower count. */
module Probes {
  import opened Wrappers
  import opened Text
  import opened Pages

  // ---------------------------------------------------------------- likes: ^([0-9,.]+[KkMm]?) likes

  predicate IsCountChar(c: char) {
    IsDigit(c) || c == ',' || c == '.'
  }

  predicate IsUnitChar(c: char) {
    c == 'K' || c == 'k' || c == 'M' || c == 'm'
  }

  /** A figure `[0-9,.]+[KkMm]?`. */
  predicate IsLikesFigure(g: string) {
    && |g| >= 1
    && (forall k :: 0 <= k < |g| - 1 ==> IsCountChar(g[k]))
    && (IsCountChar(g[|g| - 1]) || (|g| >= 2 && IsUnitChar(g[|g| - 1])))
  }

  /** The pattern matches at the start of `desc` with `g` as its group. */
  predicate LikesMatch(desc: string, g: string) {
    IsLikesFigure(g) && OccursAt(desc, g + " likes", 0)
  }

  /** The length of the longest prefix of `s` made of count characters. */
  function CountRun(s: string): (n: nat)
    ensures n <= |s|
    ensures forall k :: 0 <= k < n ==> IsCountChar(s[k])
    ensures n == |s| || !IsCountChar(s[n])
  {
    if s != [] && IsCountChar(s[0]) then 1 + CountRun(s[1..]) else 0
  }

  /** The likes figure at the head of the `og:description` content: the greedy run of count
      characters, then an optional unit, then " likes". */
  function LikesFromDescription(desc: string): (r: Option<string>)
    ensures r.Some? ==> LikesMatch(desc, r.value)
  {
    var n := CountRun(desc);
    if n == 0 then None
    else if n < |desc| && IsUnitChar(desc[n]) && OccursAt(desc, " likes", n + 1) then
      assert desc[..n + 1 + 6] == desc[..n + 1] + " likes";
      Some(desc[..n + 1])
    else if OccursAt(desc, " likes", n) then
      assert desc[..n + 6] == desc[..n] + " likes";
      Some(desc[..n])
    else None
  }

  /** Whenever the pattern matches, the probe reports exactly that match's group (so the group
      is unique, and the greedy scan never misses it). */
  lemma LikesComplete(desc: string, g: string)
    requires LikesMatch(desc, g)
    ensures LikesFromDescription(desc) == Some(g)
  {
    var n := CountRun(desc);
    var whole := g + " likes";
    assert desc[..|whole|] == whole;
    assert forall k :: 0 <= k < |g| ==> desc[k] == g[k];
    assert desc[|g|] == ' ';
    if IsCountChar(g[|g| - 1]) {
      assert n == |g|;
      assert desc[n..n + 6] == " likes";
      assert desc[..n] == g;
    } else {
      assert n == |g| - 1;
      assert desc[n + 1..n + 7] == " likes";
      assert desc[..n + 1] == g;
    }
  }

  // ---------------------------------------------------------------- author: \(@(.*?)\)

  /** The title regex matches at `i` with group `g`: "(@", then `g`, which holds neither a ')'
      nor a line break (the lazy group stops at the first ')', and '.' stops at a line break),
      then ")". */
  predicate HandleMatch(s: string, i: nat, g: string) {
    OccursAt(s, "(@" + g + ")", i) && ')' !in g && '\n' !in g
  }

  /** No match starts in `from..i`. */
  ghost predicate NoHandleBetween(s: string, from: nat, i: nat) {
    forall k: nat, g :: from <= k < i ==> !HandleMatch(s, k, g)
  }

  /** The first index at or after `from` holding ')' or a line break, or `|s|`. */
  function FirstStop(s: string, from: nat): (j: nat)
    requires from <= |s|
    ensures from <= j <= |s|
    ensures j < |s| ==> s[j] == ')' || s[j] == '\n'
    ensures forall k :: from <= k < j ==> s[k] != ')' && s[k] != '\n'
    decreases |s| - from
  {
    if from == |s| || s[from] == ')' || s[from] == '\n' then from else FirstStop(s, from + 1)
  }

  /** The group of the match starting at `i`, if one starts there. */
  function HandleAt(s: string, i: nat): (r: Option<string>)
    ensures r.Some? ==> HandleMatch(s, i, r.value)
    ensures forall g :: HandleMatch(s, i, g) ==> r == Some(g)
  {
    if OccursAt(s, "(@", i) then
      var j := FirstStop(s, i + 2);
      if j < |s| && s[j] == ')' then
        var g := s[i + 2..j];
        assert s[i..j + 1] == "(@" + g + ")" by {
          assert s[i..i + 2] == "(@";
        }
        assert forall g' :: HandleMatch(s, i, g') ==> g' == g by {
          forall g' | HandleMatch(s, i, g') ensures g' == g {
            HandleMatchEndsAtStop(s, i, g');
          }
        }
        Some(g)
      else
        assert forall g :: !HandleMatch(s, i, g) by {
          forall g | HandleMatch(s, i, g) ensures false {
            HandleMatchEndsAtStop(s, i, g);
          }
        }
        None
    else
      assert forall g :: !HandleMatch(s, i, g) by {
        forall g | HandleMatch(s, i, g) ensures false {
          HandleMatchEndsAtStop(s, i, g);
        }
      }
      None
  }

  /** A match at `i` closes at the first ')' or line break after "(@", which is a ')'; so a
      match at `i` has one group. */
  lemma HandleMatchEndsAtStop(s: string, i: nat, g: string)
    requires HandleMatch(s, i, g)
    ensures i + 2 <= |s| && OccursAt(s, "(@", i)
    ensures var j := FirstStop(s, i + 2); j == i + 2 + |g| && j < |s| && s[j] == ')' && g == s[i + 2..j]
  {
    var e := i + 2 + |g|;
    var m := "(@" + g + ")";
    assert s[i..e + 1] == m;
    forall k | 0 <= k < |m|
      ensures s[i + k] == m[k]
    {
      assert s[i..e + 1][k] == s[i + k];
    }
    assert s[i..i + 2] == "(@" by {
      assert m[0] == '(' && m[1] == '@';
    }
    assert s[e] == ')' by {
      assert m[|m| - 1] == ')';
    }
    forall k | 0 <= k < |g|
      ensures s[i + 2 + k] == g[k]
    {
      assert m[2 + k] == g[k];
    }
    assert s[i + 2..e] == g;
    forall k | i + 2 <= k < e
      ensures s[k] != ')' && s[k] != '\n'
    {
      assert s[k] == g[k - i - 2];
    }
  }

  function HandleFrom(s: string, from: nat): (r: Option<string>)
    ensures r.Some? ==> exists i: nat :: from <= i && HandleMatch(s, i, r.value) && NoHandleBetween(s, from, i)
    ensures r.None? ==> NoHandleBetween(s, from, |s|)
    decreases |s| - from
  {
    if from >= |s| then None
    else if HandleAt(s, from).Some? then
      assert NoHandleBetween(s, from, from);
      HandleAt(s, from)
    else
      var r := HandleFrom(s, from + 1);
      if r.Some? then
        assert exists i: nat :: from <= i && HandleMatch(s, i, r.value) && NoHandleBetween(s, from, i) by {
          var i: nat :| from + 1 <= i && HandleMatch(s, i, r.value) && NoHandleBetween(s, from + 1, i);
          assert NoHandleBetween(s, from, i);
        }
        r
      else
        r
  }

  /** `re.search(r'\(@(.*?)\)', title)`: the group of the leftmost match. */
  function TitleHandle(title: string): (r: Option<string>)
    ensures r.Some? ==> exists i: nat :: HandleMatch(title, i, r.value) && NoHandleBetween(title, 0, i)
    ensures r.None? ==> forall i: nat, g :: !HandleMatch(title, i, g)
  {
    var r := HandleFrom(title, 0);
    assert forall i: nat, g :: HandleMatch(title, i, g) ==> i < |title|;
    r
  }

  // ---------------------------------------------------------------- author: ^(.*?)\son\sInstagram

  /** " on Instagram" (each space any whitespace) starts at `k`. */
  predicate OnInstagramAt(s: string, k: nat) {
    && k + 13 <= |s| && IsSpace(s[k]) && s[k + 1] == 'o' && s[k + 2] == 'n' && IsSpace(s[k + 3])
    && s[k + 4..k + 13] == "Instagram"
  }

  function InstagramSuffixFrom(s: string, k: nat): (r: Option<nat>)
    requires k <= |s| && '\n' !in s[..k]
    ensures r.Some? ==> k <= r.value <= |s| && '\n' !in s[..r.value] && OnInstagramAt(s, r.value)
    ensures r.Some? ==> forall j :: k <= j < r.value ==> !OnInstagramAt(s, j)
    ensures r.None? ==> forall j :: k <= j <= |s| && '\n' !in s[..j] ==> !OnInstagramAt(s, j)
    decreases |s| - k
  {
    if OnInstagramAt(s, k) then Some(k)
    else if k == |s| then None
    else if s[k] == '\n' then
      assert forall j :: k < j <= |s| ==> s[..j][k] == '\n';
      None
    else
      assert s[..k + 1] == s[..k] + [s[k]];
      InstagramSuffixFrom(s, k + 1)
  }

  /** `re.search(r'^(.*?)\son\sInstagram', title)`: the shortest line-break-free head of the
      title that " on Instagram" follows. */
  function InstagramName(title: string): (r: Option<string>)
    ensures r.Some? ==> |r.value| <= |title| && r.value == title[..|r.value|] && '\n' !in r.value
    ensures r.Some? ==> OnInstagramAt(title, |r.value|) && forall j :: 0 <= j < |r.value| ==> !OnInstagramAt(title, j)
    ensures r.None? ==> forall j :: 0 <= j <= |title| && '\n' !in title[..j] ==> !OnInstagramAt(title, j)
  {
    match InstagramSuffixFrom(title, 0)
    case Some(k) => Some(title[..k])
    case None => None
  }

  /** The title probe: the `(@handle)` group wins; otherwise the head before " on Instagram",
      provided it is one space-free token. */
  function AuthorFromTitle(title: string): (r: Option<string>)
    ensures TitleHandle(title).Some? ==> r == TitleHandle(title)
    ensures TitleHandle(title).None? ==>
      (r.Some? <==> InstagramName(title).Some? && ' ' !in InstagramName(title).value)
    ensures TitleHandle(title).None? && r.Some? ==> r == InstagramName(title)
  {
    match TitleHandle(title)
    case Some(h) => Some(h)
    case None =>
      match InstagramName(title)
      case Some(name) =>
        var parts := Split(name, ' ');
        SingleSegment(name, ' ');
        if |parts| == 1 then
          SplitNoSep(name, ' ');
          Some(parts[0])
        else None
      case None => None
  }

  // ---------------------------------------------------------------- author: /reels/ links

  /** One href of the links probe: `href.strip("/").split("/")`, and when the last part is
      "reels" the part before it, unless that is "reels" or "instagram". The handle is the
      segment just before the trailing "/reels". */
  function ReelsLinkAuthor(href: string): (r: Option<string>)
    ensures r.Some? ==> '/' !in r.value && r.value != "reels" && r.value != "instagram"
  {
    var parts := Split(Strip(href, Slashes), '/');
    var n := |parts|;
    if n >= 2 && parts[n - 1] == "reels" && parts[n - 2] != "reels" && parts[n - 2] != "instagram" then
      Some(parts[n - 2])
    else None
  }

  /** The handle the links probe reads is the segment just before a trailing "/reels" of the
      stripped href, at its start or after a '/'. */
  lemma ReelsLinkIsTail(href: string)
    requires ReelsLinkAuthor(href).Some?
    ensures var s := Strip(href, Slashes); var tail := ReelsLinkAuthor(href).value + "/reels";
      && |tail| <= |s| && s[|s| - |tail|..] == tail
      && (|s| == |tail| || s[|s| - |tail| - 1] == '/')
  {
    var s := Strip(href, Slashes);
    ReelsTail(s, Split(s, '/'));
  }

  /** A text split into parts ending in "reels" ends with "<handle>/reels", where the handle is
      the part before, either at its start or after a '/'. */
  lemma ReelsTail(s: string, parts: seq<string>)
    requires |parts| >= 2 && Join(parts, '/') == s && parts[|parts| - 1] == "reels"
    ensures var tail := parts[|parts| - 2] + "/reels";
      && |tail| <= |s| && s[|s| - |tail|..] == tail
      && (|s| == |tail| || s[|s| - |tail| - 1] == '/')
  {
    JoinEndsWithLastTwo(parts, '/');
    assert parts[|parts| - 2] + ['/'] + parts[|parts| - 1] == parts[|parts| - 2] + "/reels";
  }

  /** Joined parts end with the last two parts around a separator, which is either the whole
      text or preceded by another separator. */
  lemma JoinEndsWithLastTwo(parts: seq<string>, sep: char)
    requires |parts| >= 2
    ensures var n := |parts|; var tail := parts[n - 2] + [sep] + parts[n - 1]; var s := Join(parts, sep);
      && |tail| <= |s| && s[|s| - |tail|..] == tail
      && (|s| == |tail| || s[|s| - |tail| - 1] == sep)
  {
    var n := |parts|;
    var tail := parts[n - 2] + [sep] + parts[n - 1];
    if n == 2 {
      assert Join(parts, sep) == tail;
    } else {
      var front := parts[..n - 2];
      assert parts[..n - 1] == front + [parts[n - 2]];
      assert parts == parts[..n - 1] + [parts[n - 1]];
      JoinSnoc(parts[..n - 1], parts[n - 1], sep);
      JoinSnoc(front, parts[n - 2], sep);
      var s := Join(parts, sep);
      assert s == Join(front, sep) + [sep] + tail;
    }
  }

  /** An href `<prefix><handle>/reels` followed by any slashes names the handle. */
  lemma ReelsLinkOfHandle(prefix: string, handle: string, slashes: string)
    requires handle != "" && '/' !in handle && handle != "reels" && handle != "instagram"
    requires prefix == "" || prefix[|prefix| - 1] == '/'
    requires forall k :: 0 <= k < |slashes| ==> slashes[k] == '/'
    ensures ReelsLinkAuthor(prefix + (handle + "/reels") + slashes) == Some(handle)
  {
    var body := handle + "/reels";
    assert body[0] == handle[0];
    var p := StripSlashesOff(prefix, body, slashes);
    ReelsLinkOfPath(prefix + body + slashes, p, handle);
  }

  /** An href that strips to `<p><handle>/reels`, `p` empty or ending in a slash, names the
      handle. */
  lemma ReelsLinkOfPath(href: string, p: string, handle: string)
    requires '/' !in handle && handle != "reels" && handle != "instagram"
    requires p == "" || p[|p| - 1] == '/'
    requires Strip(href, Slashes) == p + (handle + "/reels")
    ensures ReelsLinkAuthor(href) == Some(handle)
  {
    assert p + (handle + "/reels") == p + handle + "/reels";
    var parts := Split(p + handle + "/reels", '/');
    SplitReelsPath(p, handle);
    assert parts[|parts| - 1] == "reels" && parts[|parts| - 2] == handle;
  }

  /** The last two parts of `<p><handle>/reels` split at '/' are the handle and "reels". */
  lemma SplitReelsPath(p: string, handle: string)
    requires '/' !in handle && (p == "" || p[|p| - 1] == '/')
    ensures var parts := Split(p + handle + "/reels", '/');
      |parts| >= 2 && parts[|parts| - 1] == "reels" && parts[|parts| - 2] == handle
  {
    assert p + handle + "/reels" == (p + handle) + ['/'] + "reels";
    SplitBeforeLast(p + handle, "reels", '/');
    if p == "" {
      assert p + handle == handle;
      SplitNoSep(handle, '/');
    } else {
      assert p + handle == p[..|p| - 1] + ['/'] + handle;
      SplitBeforeLast(p[..|p| - 1], handle, '/');
    }
  }

  /** What one anchor adds to the links probe: an `a[href*='/reels/']` with a non-empty href
      naming a handle. */
  function LinkAuthor(a: Anchor): Option<string> {
    if HrefContains(a, "/reels/") && a.href.value != "" then ReelsLinkAuthor(a.href.value) else None
  }

  /** Anchor `i` is the first to which `name` gives a value. */
  predicate FirstNamedAt(anchors: seq<Anchor>, name: Anchor -> Option<string>, i: int) {
    && 0 <= i < |anchors| && name(anchors[i]).Some?
    && forall k :: 0 <= k < i ==> name(anchors[k]).None?
  }

  /** The value `name` gives the first anchor it gives one. */
  function FirstNamed(anchors: seq<Anchor>, name: Anchor -> Option<string>): (r: Option<string>)
    ensures r.Some? ==> exists i :: FirstNamedAt(anchors, name, i) && name(anchors[i]) == r
    ensures r.None? <==> forall i :: 0 <= i < |anchors| ==> name(anchors[i]).None?
  {
    if anchors == [] then None
    else if name(anchors[0]).Some? then
      assert FirstNamedAt(anchors, name, 0);
      name(anchors[0])
    else
      var r := FirstNamed(anchors[1..], name);
      assert forall i :: 1 <= i < |anchors| ==> anchors[i] == anchors[1..][i - 1];
      if r.Some? then
        var j :| FirstNamedAt(anchors[1..], name, j) && name(anchors[1..][j]) == r;
        assert FirstNamedAt(anchors, name, j + 1);
        r
      else
        r
  }

  /** The links probe's answer: the handle named by the first anchor that names one. */
  function ReelsAuthor(anchors: seq<Anchor>): Option<string> {
    FirstNamed(anchors, LinkAuthor)
  }

  /** The loop of the links probe: visit the `/reels/` anchors in order and stop at the first
      that names a handle. */
  method ScanReelsLinks(anchors: seq<Anchor>) returns (author: Option<string>)
    ensures author == ReelsAuthor(anchors)
  {
    author := None;
    for i := 0 to |anchors|
      invariant author.None?
      invariant ReelsAuthor(anchors[i..]) == ReelsAuthor(anchors)
    {
      var link := anchors[i];
      if HrefContains(link, "/reels/") {
        var href := link.href.value;
        if href != "" {
          var candidate := ReelsLinkAuthor(href);
          if candidate.Some? {
            author := candidate;
            break;
          }
        }
      }
      assert anchors[i..][1..] == anchors[i + 1..];
    }
  }

  // ---------------------------------------------------------------- views: the reel's card

  /** Line `i` is the first that holds a digit. */
  predicate FirstDigitLineAt(lines: seq<string>, i: int) {
    && 0 <= i < |lines| && HasDigit(lines[i])
    && forall k :: 0 <= k < i ==> !HasDigit(lines[k])
  }

  /** The index of the first line holding a digit. */
  function DigitLineIndex(lines: seq<string>): (r: Option<nat>)
    ensures r.Some? ==> FirstDigitLineAt(lines, r.value)
    ensures r.None? <==> forall i :: 0 <= i < |lines| ==> !HasDigit(lines[i])
  {
    if lines == [] then None
    else if HasDigit(lines[0]) then Some(0)
    else
      var r := DigitLineIndex(lines[1..]);
      assert forall i :: 1 <= i < |lines| ==> lines[i] == lines[1..][i - 1];
      if r.Some? then Some(r.value + 1) else None
  }

  /** The first line holding a digit, stripped of surrounding whitespace. */
  function DigitLineOf(lines: seq<string>): Option<string> {
    match DigitLineIndex(lines)
    case Some(i) => Some(StripSpace(lines[i]))
    case None => None
  }

  /** The figure the card probe reads off the card's text. */
  function CardFigure(text: string): Option<string> {
    DigitLineOf(Split(text, '\n'))
  }

  /** Stripping whitespace keeps every digit. */
  lemma StripSpaceKeepsDigits(line: string)
    requires HasDigit(line)
    ensures HasDigit(StripSpace(line))
  {
    var k :| 0 <= k < |line| && IsDigit(line[k]);
    StripDropsOutside(line, Whitespace);
    var r := StripSpace(line);
    var i := StripStart(line, Whitespace);
    assert !IsSpace(line[k]);
    assert i <= k < i + |r|;
    assert r[k - i] == line[k];
  }

  /** The card probe finds a figure exactly when the card's text holds a digit, and the
      figure it finds holds one (so it is never empty). */
  lemma {:induction false} CardFigureShape(text: string)
    ensures CardFigure(text).Some? <==> HasDigit(text)
    ensures CardFigure(text).Some? ==> HasDigit(CardFigure(text).value)
  {
    var lines := Split(text, '\n');
    HasDigitJoin(lines, '\n');
    var r := CardFigure(text);
    if r.Some? {
      StripSpaceKeepsDigits(lines[DigitLineIndex(lines).value]);
    }
  }

  /** The loop over the card's lines: stop at the first line with a digit. */
  method FirstDigitLine(text: string) returns (figure: Option<string>)
    ensures figure == CardFigure(text)
  {
    var lines := Split(text, '\n');
    figure := None;
    for i := 0 to |lines|
      invariant figure.None? ==> forall k :: 0 <= k < i ==> !HasDigit(lines[k])
      invariant figure.Some? ==> figure == DigitLineOf(lines)
    {
      if HasDigit(lines[i]) {
        assert DigitLineIndex(lines) == Some(i);
        figure := Some(StripSpace(lines[i]));
        break;
      }
    }
  }

  // ---------------------------------------------------------------- followers

  /** The profile page's follower probe on the first `a[href*='/followers/']`: the title of its
      `span[title]` when there is one (the exact count), else the first line of its text, and
      nothing when that text cannot be read. */
  function ProfileFollowers(link: Anchor): (f: Option<string>)
    ensures link.spanTitle.Some? ==> f == link.spanTitle
    ensures link.spanTitle.None? ==> (f.Some? <==> link.text.Some?)
    ensures link.spanTitle.None? && f.Some? ==> var t := link.text.value; var v := f.value;
      && '\n' !in v && |v| <= |t| && v == t[..|v|]
      && (v == t || t[|v|] == '\n')
  {
    match link.spanTitle
    case Some(t) => Some(t)
    case None =>
      match link.text
      case Some(text) => Some(FirstSegment(text, '\n'))
      case None => None
  }

  /** The follower probe of a reel or post: the span title of the first `/followers/` anchor
      only, with no text fallback; nothing when there is no such anchor or it has no span
      title. */
  function ContentFollowers(page: Page): (f: Option<string>)
    ensures f.Some? ==> exists i :: FirstMatchAt(page.anchors, "/followers/", i) && page.anchors[i].spanTitle == f
    ensures f.None? ==> forall i :: FirstMatchAt(page.anchors, "/followers/", i) ==> page.anchors[i].spanTitle.None?
  {
    match FirstMatching(page.anchors, "/followers/")
    case Some(link) =>
      assert forall i :: FirstMatchAt(page.anchors, "/followers/", i) ==> page.anchors[i] == link by {
        var j :| FirstMatchAt(page.anchors, "/followers/", j) && page.anchors[j] == link;
        forall i | FirstMatchAt(page.anchors, "/followers/", i)
          ensures page.anchors[i] == link
        {
          FirstMatchAtUnique(page.anchors, "/followers/", i, j);
        }
      }
      link.spanTitle
    case None => None
  }
}
