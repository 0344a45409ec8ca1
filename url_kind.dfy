/** What kind of page a URL names (`identify_url_type`), and the two facts the scraper slices
    out of a URL: the profile handle and the content shortcode. */
module UrlKinds {
  import opened Wrappers
  import opened Text

  datatype UrlKind = Reel | Post | System | Profile | Unknown {
    /** The tag stored in a result's `type` field. */
    function Name(): string {
      match this
      case Reel => "REEL"
      case Post => "POST"
      case System => "SYSTEM"
      case Profile => "PROFILE"
      case Unknown => "UNKNOWN"
    }

    /** Kinds the scraper does not open a page for. */
    predicate IsSkipped() {
      this == System || this == Unknown
    }
  }

  const SiteRoot: string := "https://www.instagram.com"

  /** Pages of the site that are neither content nor a profile. */
  predicate IsSystemPath(url: string) {
    Contains(url, "/explore/") || Contains(url, "/direct/") || Contains(url, "/stories/")
  }

  /** `identify_url_type`: ordered rules, the first that matches decides. */
  function IdentifyUrlType(url: string): UrlKind {
    if Contains(url, "/reel/") then Reel
    else if Contains(url, "/p/") then Post
    else if Strip(url, Slashes) == SiteRoot then System
    else if IsSystemPath(url) then System
    else if Contains(url, "instagram.com/") then Profile
    else Unknown
  }

  /** Every URL gets exactly one kind, and each kind is fixed by the earlier rules failing and
      its own rule holding. */
  lemma ClassificationIsOrdered(url: string)
    ensures IdentifyUrlType(url) == Reel <==> Contains(url, "/reel/")
    ensures IdentifyUrlType(url) == Post <==> !Contains(url, "/reel/") && Contains(url, "/p/")
    ensures IdentifyUrlType(url) == System <==>
      && !Contains(url, "/reel/") && !Contains(url, "/p/")
      && (Strip(url, Slashes) == SiteRoot || IsSystemPath(url))
    ensures IdentifyUrlType(url) == Profile <==>
      && !Contains(url, "/reel/") && !Contains(url, "/p/")
      && Strip(url, Slashes) != SiteRoot && !IsSystemPath(url)
      && Contains(url, "instagram.com/")
  {
  }

  // ---------------------------------------------------------------- profile handle

  /** `url.strip("/").split("/")[-1]`: the last path segment of a profile URL. */
  function ProfileAuthor(url: string): (handle: string)
    ensures '/' !in handle
  {
    LastSegment(Strip(url, Slashes), '/')
  }

  /** A string holding a character that is not dropped does not strip to nothing. */
  lemma StripKeepsSomething(s: string, drop: StripChars, k: nat)
    requires k < |s| && !Dropped(drop, s[k])
    ensures Strip(s, drop) != ""
  {
    StripDropsOutside(s, drop);
  }

  /** A URL classified as a profile always yields a non-empty handle: the URL holds
      "instagram.com/", so something survives the stripping, and what survives ends in a
      character other than '/'. */
  lemma ProfileAuthorNonEmpty(url: string)
    requires IdentifyUrlType(url) == Profile
    ensures ProfileAuthor(url) != ""
  {
    var i: nat :| i <= |url| - 14 && OccursAt(url, "instagram.com/", i);
    NonSlashAuthor(url, i);
  }

  lemma NonSlashAuthor(url: string, i: nat)
    requires OccursAt(url, "instagram.com/", i)
    ensures ProfileAuthor(url) != ""
  {
    assert url[i] == url[i..i + 14][0];
    StripKeepsSomething(url, Slashes, i);
  }

  /** A profile URL written as `<prefix>/<handle>` followed by any number of slashes gives
      back the handle: `.../somehandle/` gives "somehandle". */
  lemma ProfileAuthorOfHandleUrl(prefix: string, handle: string, slashes: string)
    requires handle != "" && '/' !in handle
    requires prefix == "" || prefix[|prefix| - 1] == '/'
    requires forall k :: 0 <= k < |slashes| ==> slashes[k] == '/'
    ensures ProfileAuthor(prefix + handle + slashes) == handle
  {
    var p := StripSlashesOff(prefix, handle, slashes);
    var s := p + handle;
    assert s[|s| - |handle|..] == handle;
    if p != "" {
      assert s[|s| - |handle| - 1] == p[|p| - 1];
    }
    LastSegmentUnique(s, '/', handle);
  }

  // ---------------------------------------------------------------- content shortcode

  /** A URL classified as a reel or a post holds its marker. */
  lemma ContentHasMarker(url: string)
    requires IdentifyUrlType(url) == Reel || IdentifyUrlType(url) == Post
    ensures Contains(url, "/reel/") || Contains(url, "/p/")
  {
  }

  /** The marker whose first occurrence is followed by the shortcode. */
  function ShortcodeMarker(url: string): string {
    if Contains(url, "/reel/") then "/reel/" else "/p/"
  }

  /** `url.split(marker)[1].split("/")[0]`: the text between the first marker and the next '/'.
      Since the marker itself starts with '/', cutting at the next marker first changes
      nothing. Only reached for REEL and POST URLs, which hold their marker. */
  function Shortcode(url: string): (code: string)
    requires Contains(url, "/reel/") || Contains(url, "/p/")
    ensures '/' !in code
    ensures var m := ShortcodeMarker(url); var found := IndexOf(url, m);
      && found.Some?
      && OccursAt(url, m + code, found.value)
      && (found.value + |m| + |code| == |url| || url[found.value + |m| + |code|] == '/')
  {
    var m := ShortcodeMarker(url);
    ContainsIsFound(url, m);
    CodeAfter(url, m, IndexOf(url, m).value)
  }

  /** The text between the marker `m` at index `i` and the next '/' after it. */
  function CodeAfter(url: string, m: string, i: nat): (code: string)
    requires OccursAt(url, m, i)
    ensures '/' !in code
    ensures OccursAt(url, m + code, i)
    ensures i + |m| + |code| == |url| || url[i + |m| + |code|] == '/'
  {
    var rest := url[i + |m|..];
    var code := FirstSegment(rest, '/');
    assert url[i..i + |m| + |code|] == m + code by {
      assert url[i..i + |m|] == m;
      assert url[i + |m|..i + |m| + |code|] == code;
    }
    code
  }
}
