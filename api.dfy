/** `scrape_api`: the request's `urls` value is flattened into one text, cut at commas and
    line breaks, trimmed, and emptied items are dropped; each remaining URL is scraped and the
    records are returned in input order, or a 400 error when no URL remains. */
module Api {
  import opened Wrappers
  import opened Text
  import opened Scraper

  /** The request's `urls` value: a list of strings, or any other value, given by its `str`.
      A missing `urls` is the empty list. */
  datatype RawUrls = UrlList(items: seq<string>) | UrlText(text: string)

  /** The error response: its HTTP status and its message. */
  datatype ApiError = ApiError(code: nat, message: string)

  const NoUrlsError: ApiError := ApiError(400, "No valid URLs provided")

  /** `",".join(raw_urls)` for a list, `str(raw_urls)` otherwise. */
  function RawString(raw: RawUrls): string {
    match raw
    case UrlList(items) => Join(items, ',')
    case UrlText(text) => text
  }

  /** `raw_string.replace('\n', ',').split(',')` */
  function CleanedItems(raw: RawUrls): (items: seq<string>)
    ensures forall i :: 0 <= i < |items| ==> ',' !in items[i] && '\n' !in items[i]
  {
    var flat := ReplaceChar(RawString(raw), '\n', ',');
    var items := Split(flat, ',');
    assert forall i :: 0 <= i < |items| ==> '\n' !in items[i] by {
      forall i | 0 <= i < |items|
        ensures '\n' !in items[i]
      {
        JoinedPartHasNoNewline(items, i, flat);
      }
    }
    items
  }

  /** A part of a text without line breaks holds none. */
  lemma JoinedPartHasNoNewline(items: seq<string>, i: nat, flat: string)
    requires i < |items| && Join(items, ',') == flat && '\n' !in flat
    ensures '\n' !in items[i]
  {
    if '\n' in items[i] {
      JoinKeepsParts(items, i, '\n');
    }
  }

  /** Every character of a part is in the joined text. */
  lemma {:induction false} JoinKeepsParts(parts: seq<string>, i: nat, c: char)
    requires i < |parts| && c in parts[i]
    ensures c in Join(parts, ',')
  {
    if |parts| > 1 {
      var rest := Join(parts[1..], ',');
      var whole := parts[0] + [','] + rest;
      if i == 0 {
        var k :| 0 <= k < |parts[0]| && parts[0][k] == c;
        assert whole[k] == c;
      } else {
        JoinKeepsParts(parts[1..], i - 1, c);
        var k :| 0 <= k < |rest| && rest[k] == c;
        assert whole[|parts[0]| + 1 + k] == c;
      }
    }
  }

  /** The loop's effect: each item trimmed, the empty ones dropped, the order kept. */
  function KeepNonEmpty(items: seq<string>): (urls: seq<string>)
    ensures |urls| <= |items|
    ensures forall i :: 0 <= i < |urls| ==> urls[i] != ""
  {
    if items == [] then []
    else
      var rest := KeepNonEmpty(items[..|items| - 1]);
      var clean := StripSpace(items[|items| - 1]);
      if clean != "" then rest + [clean] else rest
  }

  lemma KeepNonEmptySnoc(items: seq<string>, i: nat)
    requires i < |items|
    ensures var clean := StripSpace(items[i]);
      KeepNonEmpty(items[..i + 1]) == KeepNonEmpty(items[..i]) + (if clean != "" then [clean] else [])
  {
    assert items[..i + 1][..i] == items[..i];
  }

  /** `final_urls` */
  function NormalizedUrls(raw: RawUrls): seq<string> {
    KeepNonEmpty(CleanedItems(raw))
  }

  /** What a URL that survives normalisation looks like. */
  predicate IsCleanUrl(u: string) {
    u != "" && StripSpace(u) == u && ',' !in u && '\n' !in u
  }

  /** Items free of commas and line breaks come out of the loop clean. */
  lemma {:induction false} KeepNonEmptyIsClean(items: seq<string>)
    requires forall i :: 0 <= i < |items| ==> ',' !in items[i] && '\n' !in items[i]
    ensures forall i :: 0 <= i < |KeepNonEmpty(items)| ==> IsCleanUrl(KeepNonEmpty(items)[i])
  {
    if items != [] {
      var front := items[..|items| - 1];
      var last := items[|items| - 1];
      assert forall i :: 0 <= i < |front| ==> front[i] == items[i];
      KeepNonEmptyIsClean(front);
      var clean := StripSpace(last);
      if clean != "" {
        StripOfTrimmed(clean, Whitespace);
        assert ',' !in clean && '\n' !in clean by {
          if ',' in clean {
            StripKeeps(last, Whitespace, ',');
          }
          if '\n' in clean {
            StripKeeps(last, Whitespace, '\n');
          }
        }
      }
    }
  }

  /** Every URL left is non-empty, holds no surrounding whitespace, no comma and no line
      break. */
  lemma NormalizedShape(raw: RawUrls)
    ensures forall i :: 0 <= i < |NormalizedUrls(raw)| ==> IsCleanUrl(NormalizedUrls(raw)[i])
  {
    KeepNonEmptyIsClean(CleanedItems(raw));
  }

  /** Items that already look normalised are each kept as they are. */
  lemma {:induction false} KeepNonEmptyOfClean(items: seq<string>)
    requires forall i :: 0 <= i < |items| ==> IsCleanUrl(items[i])
    ensures KeepNonEmpty(items) == items
  {
    if items != [] {
      var front := items[..|items| - 1];
      var last := items[|items| - 1];
      assert IsCleanUrl(last);
      forall i | 0 <= i < |front|
        ensures IsCleanUrl(front[i])
      {
        assert front[i] == items[i];
      }
      KeepNonEmptyOfClean(front);
      assert KeepNonEmpty(items) == front + [last];
      assert front + [last] == items;
    }
  }

  /** A list of clean URLs goes through normalisation unchanged. */
  lemma CleanListIsFixed(items: seq<string>)
    requires forall i :: 0 <= i < |items| ==> IsCleanUrl(items[i])
    ensures NormalizedUrls(UrlList(items)) == items
  {
    if items == [] {
      assert ReplaceChar("", '\n', ',') == "";
      assert Split("", ',') == [""];
    } else {
      var joined := Join(items, ',');
      if '\n' in joined {
        var k :| 0 <= k < |joined| && joined[k] == '\n';
        JoinedCharInPart(items, k);
      }
      assert ReplaceChar(joined, '\n', ',') == joined;
      SplitJoin(items, ',');
      KeepNonEmptyOfClean(items);
    }
  }

  /** A character of a joined text that is not the separator comes from one of the parts. */
  lemma {:induction false} JoinedCharInPart(parts: seq<string>, k: nat)
    requires k < |Join(parts, ',')| && Join(parts, ',')[k] != ','
    ensures exists i :: 0 <= i < |parts| && Join(parts, ',')[k] in parts[i]
  {
    if |parts| == 1 {
      assert Join(parts, ',')[k] in parts[0];
    } else if |parts| > 1 {
      var rest := Join(parts[1..], ',');
      var c := Join(parts, ',')[k];
      if k < |parts[0]| {
        assert c == parts[0][k];
      } else {
        assert c == rest[k - |parts[0]| - 1];
        JoinedCharInPart(parts[1..], k - |parts[0]| - 1);
        var i :| 0 <= i < |parts[1..]| && c in parts[1..][i];
        assert c in parts[i + 1];
      }
    }
  }

  /** Normalising twice gives what normalising once gives. */
  lemma NormalizeIdempotent(raw: RawUrls)
    ensures NormalizedUrls(UrlList(NormalizedUrls(raw))) == NormalizedUrls(raw)
  {
    NormalizedShape(raw);
    CleanListIsFixed(NormalizedUrls(raw));
  }

  /** The imperative normaliser of `scrape_api`. */
  method NormalizeUrls(raw: RawUrls) returns (finalUrls: seq<string>)
    ensures finalUrls == NormalizedUrls(raw)
  {
    var rawString: string;
    match raw {
      case UrlList(items) =>
        rawString := Join(items, ',');
      case UrlText(text) =>
        rawString := text;
    }
    var cleanedItems := Split(ReplaceChar(rawString, '\n', ','), ',');
    finalUrls := KeepNonEmptyLoop(cleanedItems);
  }

  /** The loop of `scrape_api` over the cleaned items. */
  method KeepNonEmptyLoop(cleanedItems: seq<string>) returns (finalUrls: seq<string>)
    ensures finalUrls == KeepNonEmpty(cleanedItems)
  {
    finalUrls := [];
    for i := 0 to |cleanedItems|
      invariant finalUrls == KeepNonEmpty(cleanedItems[..i])
    {
      KeepNonEmptySnoc(cleanedItems, i);
      var cleanLink := StripSpace(cleanedItems[i]);
      if cleanLink != "" {
        finalUrls := finalUrls + [cleanLink];
      }
    }
    assert cleanedItems[..|cleanedItems|] == cleanedItems;
  }

  // ---------------------------------------------------------------- the batch

  /** What each URL's scrape gives, in input order. `sessionOf(i)` is what the browser gives
      back while the `i`-th URL is scraped. */
  function Scrapes(urls: seq<string>, sessionOf: nat -> Session): (rs: seq<Option<Record>>)
    ensures |rs| == |urls|
  {
    seq(|urls|, i requires 0 <= i < |urls| => Scrape(urls[i], sessionOf(i)))
  }

  /** `if res: results.append(res)`: the values present, in order. */
  function Present<T>(xs: seq<Option<T>>): seq<T> {
    if xs == [] then []
    else
      var rest := Present(xs[..|xs| - 1]);
      match xs[|xs| - 1]
      case Some(x) => rest + [x]
      case None => rest
  }

  /** When every value is present, all of them are kept, in order. */
  lemma {:induction false} PresentOfAllSome<T>(xs: seq<Option<T>>)
    requires forall i :: 0 <= i < |xs| ==> xs[i].Some?
    ensures |Present(xs)| == |xs|
    ensures forall i :: 0 <= i < |xs| ==> Present(xs)[i] == xs[i].value
  {
    if xs != [] {
      var front := xs[..|xs| - 1];
      assert forall i :: 0 <= i < |front| ==> front[i] == xs[i];
      PresentOfAllSome(front);
    }
  }

  /** The records of a batch, in input order; a URL whose scrape gives nothing adds nothing. */
  function BatchRecords(urls: seq<string>, sessionOf: nat -> Session): seq<Record> {
    Present(Scrapes(urls, sessionOf))
  }

  /** URLs that are not blank each give exactly one record, in their order. */
  lemma BatchOnePerUrl(urls: seq<string>, sessionOf: nat -> Session)
    requires forall i :: 0 <= i < |urls| ==> StripSpace(urls[i]) != ""
    ensures |BatchRecords(urls, sessionOf)| == |urls|
    ensures forall i :: 0 <= i < |urls| ==> BatchRecords(urls, sessionOf)[i] == ScrapeRecord(urls[i], sessionOf(i))
  {
    var rs := Scrapes(urls, sessionOf);
    forall i | 0 <= i < |urls|
      ensures rs[i] == Some(ScrapeRecord(urls[i], sessionOf(i)))
    {
      ScrapeOfNonBlank(urls[i], sessionOf(i));
    }
    PresentOfAllSome(rs);
  }

  lemma ScrapesSnoc(urls: seq<string>, sessionOf: nat -> Session, i: nat)
    requires i < |urls|
    ensures Scrapes(urls[..i + 1], sessionOf) == Scrapes(urls[..i], sessionOf) + [Scrape(urls[i], sessionOf(i))]
  {
    var a := Scrapes(urls[..i + 1], sessionOf);
    var front := Scrapes(urls[..i], sessionOf);
    var b := front + [Scrape(urls[i], sessionOf(i))];
    assert |a| == |b|;
    forall k | 0 <= k < |a|
      ensures a[k] == b[k]
    {
      assert a[k] == Scrape(urls[..i + 1][k], sessionOf(k));
      if k < i {
        assert b[k] == front[k] == Scrape(urls[..i][k], sessionOf(k));
        assert urls[..i + 1][k] == urls[k] == urls[..i][k];
      } else {
        assert b[k] == Scrape(urls[i], sessionOf(i));
        assert urls[..i + 1][k] == urls[i];
      }
    }
  }

  lemma PresentSnoc<T>(xs: seq<Option<T>>, x: Option<T>)
    ensures Present(xs + [x]) == Present(xs) + (if x.Some? then [x.value] else [])
  {
    assert (xs + [x])[..|xs|] == xs;
  }

  lemma ScrapeOfNonBlank(url: string, s: Session)
    requires StripSpace(url) != ""
    ensures Scrape(url, s) == Some(ScrapeRecord(url, s))
  {
  }

  /** The response of `scrape_api`: the records, or the 400 error when no URL is left. */
  function ApiResponse(raw: RawUrls, sessionOf: nat -> Session): Result<seq<Record>, ApiError> {
    var urls := NormalizedUrls(raw);
    if urls == [] then Failure(NoUrlsError) else Success(BatchRecords(urls, sessionOf))
  }

  /** The request fails exactly when no URL survives normalisation; otherwise it answers one
      record per URL, in order, each for its URL. */
  lemma ApiResponseShape(raw: RawUrls, sessionOf: nat -> Session)
    ensures var urls := NormalizedUrls(raw); var response := ApiResponse(raw, sessionOf);
      && (response.Failure? <==> urls == [])
      && (response.Failure? ==> response.error == ApiError(400, "No valid URLs provided"))
      && (response.Success? ==> |response.value| == |urls|)
      && (response.Success? ==> forall i :: 0 <= i < |urls| ==>
            response.value[i].url == urls[i] && response.value[i] == ScrapeRecord(urls[i], sessionOf(i)))
  {
    var urls := NormalizedUrls(raw);
    NormalizedShape(raw);
    BatchOnePerUrl(urls, sessionOf);
  }

  /** The loop over the executor's results, run one URL after the other. */
  method ScrapeBatch(urls: seq<string>, sessionOf: nat -> Session) returns (results: seq<Record>)
    ensures results == BatchRecords(urls, sessionOf)
  {
    results := [];
    for i := 0 to |urls|
      invariant results == BatchRecords(urls[..i], sessionOf)
    {
      ScrapesSnoc(urls, sessionOf, i);
      PresentSnoc(Scrapes(urls[..i], sessionOf), Scrape(urls[i], sessionOf(i)));
      var res := ScrapeSingleUrl(urls[i], sessionOf(i));
      if res.Some? {
        ScrapeOfNonBlank(urls[i], sessionOf(i));
        results := results + [res.value.Snapshot()];
      }
    }
    assert urls[..|urls|] == urls;
  }

  /** `scrape_api` */
  method ScrapeApi(raw: RawUrls, sessionOf: nat -> Session) returns (response: Result<seq<Record>, ApiError>)
    ensures response == ApiResponse(raw, sessionOf)
  {
    var finalUrls := NormalizeUrls(raw);
    if finalUrls == [] {
      return Failure(NoUrlsError);
    }
    var results := ScrapeBatch(finalUrls, sessionOf);
    return Success(results);
  }
}
