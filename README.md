# InstaSPY scraping core in Dafny

This project models the core of InstaSPY's `app.py`. That core is a Flask endpoint that takes
a batch of Instagram URLs, drives a headless browser through each one, and returns one
record per URL. A record holds the kind of URL, its author, its follower count, its likes,
its views and a status.

The model covers these parts of `app.py`:

- **`identify_url_type`** (`UrlKinds.IdentifyUrlType`): the ordered rules that classify a URL as
  REEL, POST, SYSTEM, PROFILE or UNKNOWN.
- **`find_username_in_json`** (`JsonSearch.FindUsername`): the depth-first search of a decoded
  response body for a username. Read as found or not found, it is proved equal to a reference
  definition: the first truthy "direct answer" in visiting order (`JsonSearch.Hits`). A falsy
  direct answer of the root dict (an empty owner username, say) is returned as it is.
- **`scrape_single_url`** (`Scraper`), which is modelled in three layers:
  - The probes it runs on a loaded page (`Probes`): likes from the `og:description` meta, the
    author from the title's `(@handle)` or `… on Instagram` pattern, the author from
    `/reels/` links, the view figure from the card of a reel, and the follower count. The
    regular expressions are written out as predicates on strings. Each probe is proved to
    return the leftmost or unique match, or the first matching anchor.
  - The response listener and the `captured_info` dictionary it writes into (`Sniffer`).
  - The record itself. `Scraper.ScrapeRecord` is the record as a function of what the browser
    returns. The class `Scraper.ScrapeData` is the mutable `data` dictionary, filled in field
    by field by methods that are proved to produce that function's record.
- **`scrape_api`** (`Api`): the flattening, splitting, trimming and filtering of the request's
  `urls`, the 400 error when nothing is left, and the in-order collection of records.

The browser is not modelled. A `Scraper.Session` value stands for everything the Playwright
calls return while one URL is scraped:

- whether the first `goto` returned;
- the responses seen while the listener is attached;
- the settled page (title, the two meta tags, the anchors);
- whether the reels page loaded, the URL it landed on, and that page.

A batch takes a function `sessionOf` from URL position to session.

Python's string operations are modelled in `Text`: `in`, `strip()` and `strip("/")`, `split`,
`join`, single-character `replace`, `isspace` and `isdigit`. Python's `None` and JSON `null`
are the same value, `JNull`. Python truthiness is `JsonSearch.Truthy`.

Two consequences of `app.py` that are easy to miss:

- A reel's views stay `N/A` when the matching card has no line holding a digit
  (app.py:174-177), so `Scraper.ViewsShape` lists `N/A` among the sentinels.
- The listener records only a username (app.py:103-110). A video's views are read from the
  author's reels page (app.py:161-179); a photo gets "N/A (Photo)" (app.py:181).

## Model

| member | source | states |
|---|---|---|
| UrlKinds.IdentifyUrlType | app.py:15-21 | No contract of its own: the ordered rules, first match decides; `UrlKinds.ClassificationIsOrdered` characterises each kind |
| UrlKinds.ClassificationIsOrdered | app.py:15-21 | Each kind holds exactly when the earlier rules fail and its own rule holds: REEL iff "/reel/" occurs; POST iff no "/reel/" but "/p/"; SYSTEM iff neither marker and the URL strips to the site root or names explore/direct/stories; PROFILE iff none of those and "instagram.com/" occurs |
| JsonSearch.FindUsername | app.py:24-37 | Anything other than a dict or a list yields `None`; the rest of its meaning is stated by `JsonSearch.FindUsernameIsFirstTruthyHit` |
| JsonSearch.SearchMembers | app.py:29-32 | No contract of its own: the loop over a dict's values; stated by `JsonSearch.SearchMembersIsFirstTruthyHit` |
| JsonSearch.SearchItems | app.py:33-36 | No contract of its own: the loop over a list's items; stated by `JsonSearch.SearchItemsIsFirstTruthyHit` |
| JsonSearch.OwnerUsername | app.py:26-27 | No contract of its own: `obj["owner"]["username"]` when `owner` is a dict holding `username`; used by `JsonSearch.DictCheckOrder` |
| JsonSearch.VerifiedUsername | app.py:28 | No contract of its own: `obj["username"]` when the dict holds both `username` and `is_verified`; used by `JsonSearch.DictCheckOrder` |
| JsonSearch.FindUsernameIsFirstTruthyHit | app.py:24-37 | Read as found/not found, the search returns the first truthy direct answer (owner username, or username of a dict with is_verified) in depth-first, in-order visiting order; a non-null falsy result can only be the root dict's own direct answer |
| JsonSearch.SearchMembersIsFirstTruthyHit | app.py:29-32 | The loop over a dict's values returns the first truthy answer among its dict and list values, in order |
| JsonSearch.SearchItemsIsFirstTruthyHit | app.py:33-36 | The loop over a list returns the first truthy answer among its items, in order |
| JsonSearch.FirstTruthyConcat | app.py:29-36 | The first truthy value of a concatenation is the first part's, if it has one, else the second part's (the early `return res`) |
| JsonSearch.Truthy | app.py:32 | No contract of its own: Python's truth value of a decoded value (`if res:`), false exactly for `None`, `False`, `0`, `""`, `[]` and `{}` |
| JsonSearch.FirstTruthy | app.py:32 | The result is null or truthy, is taken from the list, and is falsy exactly when every element is falsy |
| JsonSearch.NoHitNoUsername | app.py:24-37 | A tree with no truthy direct answer anywhere yields no truthy username |
| JsonSearch.FoundIsAHit | app.py:24-37 | A truthy result is one of the direct answers met during the search |
| JsonSearch.DictCheckOrder | app.py:26-28 | At a dict the owner's username takes precedence over a verified username, which takes precedence over anything nested |
| JsonSearch.Lookup | app.py:26-28 | `key in obj` holds exactly when some member has the key, and `obj[key]` is that member's value |
| Text.IsSpace | app.py:133 | No contract of its own: the characters `isspace()` accepts, which `\s` in the title pattern and `strip()` match |
| Text.HasDigit | app.py:175 | No contract of its own: `any(char.isdigit() for char in s)` over the ASCII digits; used by `Text.HasDigitJoin` and `Scraper.CardViews` |
| Text.Contains | app.py:16-20 | No contract of its own: Python's `sub in s`; `Text.ContainsIsFound` ties it to `Text.IndexOf` |
| Text.ContainsIsFound | app.py:16-20 | `sub in s` holds exactly when the search for the first occurrence finds one |
| Text.StripSpace | app.py:219 | `strip()` leaves a text that neither starts nor ends with whitespace |
| Text.Join | app.py:213 | No contract of its own: `sep.join(parts)`; stated by `Text.Split` and `Text.SplitJoin` |
| Text.Strip | app.py:18 | `strip("/")` returns a slice of the input that neither starts nor ends with a dropped character |
| Text.StripDropsOutside | app.py:18 | Everything `strip` removes, before and after the slice it keeps, is a dropped character |
| Text.StripSlashesOff | app.py:92 | Stripping slashes from `<prefix><body><slashes>` leaves `body` behind a tail of the prefix that is empty or ends in '/' |
| Text.Split | app.py:217 | `split` gives at least one part, no part holds the separator, and joining the parts again gives back the input |
| Text.SplitJoin | app.py:213-217 | Splitting the comma-join of comma-free parts gives back the parts |
| Text.SingleSegment | app.py:135-136 | `len(s.split(sep)) == 1` exactly when `sep` does not occur in `s` |
| Text.LastSegment | app.py:92 | `split(sep)[-1]` is a separator-free suffix that is the whole text or follows a separator |
| Text.LastSegmentUnique | app.py:92 | Any separator-free suffix that is the whole text or follows a separator is the last segment |
| Text.FirstSegment | app.py:97 | `split(sep)[0]` is a separator-free prefix that is the whole text or is followed by a separator |
| Text.HasDigitJoin | app.py:174-175 | A text joined by a non-digit holds a digit exactly when one of its parts does |
| Text.ReplaceChar | app.py:217 | `replace` of one character keeps the length and changes exactly the occurrences of that character |
| Text.IndexOf | app.py:97-99 | The index of the first occurrence of the marker, or none when there is no occurrence |
| UrlKinds.ProfileAuthor | app.py:92 | The profile handle holds no '/' |
| UrlKinds.ProfileAuthorNonEmpty | app.py:92 | A URL classified as PROFILE (so holding "instagram.com/") always yields a non-empty handle |
| UrlKinds.ProfileAuthorOfHandleUrl | app.py:92 | A URL `<prefix><handle>` followed by any number of slashes yields exactly that handle |
| UrlKinds.Shortcode | app.py:96-99 | The shortcode holds no '/', directly follows the first occurrence of the URL's marker ("/reel/" when present, else "/p/"), and ends at the end of the URL or at a '/' |
| UrlKinds.CodeAfter | app.py:97 | The text after the marker at a given index runs up to the next '/' or the end of the URL |
| Pages.FirstMatching | app.py:84 | `locator("a[href*='…']").first` is the first anchor whose href holds the part; there is none exactly when no anchor matches (also used at lines 172 and 184) |
| Probes.CountRun | app.py:120 | The greedy run of `[0-9,.]` characters at the head of the text, and the character after it is not one |
| Probes.LikesFromDescription | app.py:120-121 | A reported likes figure matches `^([0-9,.]+[KkMm]?) likes` as the group |
| Probes.LikesComplete | app.py:120-121 | Whenever the likes pattern matches with some group, the probe reports exactly that group |
| Probes.FirstStop | app.py:130 | The first ')' or line break at or after an index, or the end of the title |
| Probes.HandleAt | app.py:130 | A `(@…)` match starting at an index is found exactly when it exists, and its group is unique |
| Probes.HandleMatchEndsAtStop | app.py:130 | The lazy group of a match at an index ends at the first ')' or line break after "(@" |
| Probes.HandleFrom | app.py:130 | The group of the leftmost match at or after an index, or no match from there on |
| Probes.TitleHandle | app.py:130-131 | `re.search(r'\(@(.*?)\)')`: the group of the leftmost match, or none when no index has a match |
| Probes.InstagramSuffixFrom | app.py:133 | The first " on Instagram" (each space any whitespace) on the first line at or after an index |
| Probes.InstagramName | app.py:133-134 | `re.search(r'^(.*?)\son\sInstagram')`: the shortest line-break-free head of the title that " on Instagram" follows, or none when no such head exists |
| Probes.AuthorFromTitle | app.py:129-136 | The `(@handle)` group wins; otherwise the title probe answers exactly when the " on Instagram" head holds no space, and then answers that head |
| Probes.ReelsLinkAuthor | app.py:145-149 | A handle read from a reels link holds no '/' and is neither "reels" nor "instagram" |
| Probes.ReelsLinkIsTail | app.py:145-147 | The handle read is the segment just before the trailing "/reels" of the stripped href |
| Probes.ReelsLinkOfHandle | app.py:145-149 | An href `<prefix><handle>/reels` followed by any slashes names that handle, unless it is "reels" or "instagram" |
| Probes.ReelsLinkOfPath | app.py:145-149 | An href that strips to `<p><handle>/reels`, with `p` empty or ending in '/', names the handle |
| Probes.SplitReelsPath | app.py:145-147 | The last two parts of `<p><handle>/reels` split at '/' are the handle and "reels" |
| Probes.JoinEndsWithLastTwo | app.py:145-147 | A joined text ends with its last two parts around the separator, which is the whole text or follows a separator |
| Probes.ReelsTail | app.py:146-147 | Parts ending in "reels" join to a text ending in `<part before>/reels` |
| Probes.FirstNamed | app.py:142-150 | The value of the first anchor that names a handle, and none exactly when no anchor names one |
| Probes.ScanReelsLinks | app.py:140-151 | The loop over the `/reels/` links returns the handle named by the first link that names one |
| Probes.DigitLineIndex | app.py:174-175 | The index of the first line holding a digit, and none exactly when no line holds one |
| Probes.StripSpaceKeepsDigits | app.py:176 | Stripping whitespace from a line holding a digit keeps a digit |
| Probes.CardFigureShape | app.py:173-177 | The card probe finds a figure exactly when the card's text holds a digit, and that figure holds a digit (so it is never empty) |
| Probes.FirstDigitLine | app.py:173-177 | The loop over the card's lines returns the first line holding a digit, stripped |
| Probes.LinkAuthor | app.py:141-149 | No contract of its own: an `a[href*='/reels/']` anchor with a non-empty href gives `Probes.ReelsLinkAuthor` of it |
| Probes.ReelsAuthor | app.py:141-150 | No contract of its own: `Probes.FirstNamed` over `Probes.LinkAuthor`; `Probes.ScanReelsLinks` is proved to compute it |
| Probes.DigitLineOf | app.py:174-177 | No contract of its own: the first line holding a digit (`Probes.DigitLineIndex`), stripped |
| Probes.CardFigure | app.py:173-177 | No contract of its own: `Probes.DigitLineOf` of the card text cut at line breaks; stated by `Probes.CardFigureShape` and computed by `Probes.FirstDigitLine` |
| Probes.ProfileFollowers | app.py:85-90 | The span title when there is one; else, when the text can be read, the text up to its first line break; else nothing |
| Probes.ContentFollowers | app.py:184-188 | The span title of the first `/followers/` anchor; nothing exactly when there is no such anchor or that first anchor has no span title |
| Pages.FirstMatchAtUnique | app.py:184 | Only one anchor is the first to match a selector |
| Sniffer.Inspected | app.py:104 | No contract of its own: the response URL holds "instagram.com" and its content type holds "json" |
| Sniffer.Found | app.py:104-107 | No contract of its own: the search result of an inspected response whose body decodes, else `None` |
| Sniffer.CaptureAll | app.py:103-115 | No contract of its own: `Sniffer.CaptureStep` over the responses in arrival order; stated by `Sniffer.FirstWriterWins` and `Sniffer.CaptureIsFirstFind` |
| Sniffer.CaptureStep | app.py:103-110 | A truthy find is stored only while nothing truthy is stored; a stored truthy value never changes |
| Sniffer.Finds | app.py:106-107 | What the listener finds in each response, in arrival order |
| Sniffer.FirstWriterWins | app.py:108-109 | Once a truthy username is captured, no later response changes it |
| Sniffer.CaptureIsFirstFind | app.py:101-115 | Starting from `None`, the captured username is the first truthy find over the whole response stream |
| Sniffer.Capture.constructor | app.py:101 | `captured_info` starts with the username `None` |
| Sniffer.Capture.HandleResponse | app.py:103-110 | One call of the listener updates the capture as `CaptureStep` says |
| Sniffer.Capture.Listen | app.py:112-115 | The listener attached for a load leaves the capture as `CaptureAll` over the responses in order |
| Scraper.Initial | app.py:64-72 | No contract of its own: the URL, its kind, no author, "N/A" for followers, likes and views, and status Starting |
| Scraper.ProfileFollowersOf | app.py:83-91 | No contract of its own: `Probes.ProfileFollowers` of the first `/followers/` anchor, "N/A" when there is none or it gives nothing |
| Scraper.ContentFollowersOf | app.py:183-189 | No contract of its own: `Probes.ContentFollowers` of the page, "N/A" when it gives nothing |
| Scraper.LikesOf | app.py:117-122 | The likes field is "N/A" or a figure matching the likes pattern on the description; whenever the description matches the pattern with some group, that group is reported |
| Scraper.Fallback | app.py:124-151 | A probe's answer is stored only while the stored author is falsy |
| Scraper.AuthorChain | app.py:124-151 | No contract of its own: `Scraper.Fallback` applied to the title probe and then the links probe, after the truthy captured username; stated by `Scraper.AuthorFallbackOrder` |
| Scraper.ResolveAuthor | app.py:124-151 | No contract of its own: `Scraper.AuthorChain` with the title and links probes of the page |
| Scraper.AuthorFallbackOrder | app.py:124-151 | The author is the captured username if truthy, else the title probe's non-empty answer, else the links probe's; it is truthy exactly when one of the three names someone |
| Scraper.IsVideo | app.py:154-159 | No contract of its own: a reel, or a post whose non-empty `og:type` holds "video" |
| Scraper.CardViews | app.py:169-179 | "Not Found" exactly when no anchor links to the shortcode or the first one's text cannot be read; "N/A" exactly when that text has no digit; otherwise the card probe's figure (the first line holding a digit, stripped), which holds a digit |
| Scraper.VideoViews | app.py:166-179 | "Hidden (Main Grid)" exactly when the landed URL lacks "/reels/"; otherwise the card's views; always a sentinel or a figure holding a digit |
| Scraper.ContentRecord | app.py:95-193 | The content branch keeps the URL and the kind |
| Scraper.Published | app.py:153-191 | No contract of its own: a video whose reels page fails to load is Error; a video otherwise gets `Scraper.VideoViews` and the reels page's followers; a photo gets "N/A (Photo)" and its own page's followers; both end Success. Stated by `Scraper.ContentRecordFields` and `Scraper.ContentRecordShape` |
| Scraper.ScrapeRecord | app.py:64-200 | The record keeps the URL and carries `identify_url_type` of it |
| Scraper.Scrape | app.py:40 | A URL yields no record exactly when it is blank after `strip()`; otherwise the record is for that URL |
| Scraper.SkippedIgnoresSession | app.py:74-77 | SYSTEM and UNKNOWN URLs give the initial record marked Skipped, whatever the browser would return |
| Scraper.FailedLoadIsError | app.py:195-196 | A first navigation (`page.goto` at line 81 or 113) that raises leaves the initial record marked Error |
| Scraper.SentinelsHaveNoDigit | app.py:167-181 | None of "N/A", "N/A (Photo)", "Hidden (Main Grid)" and "Not Found" holds a digit, so none is mistaken for a figure |
| Scraper.ContentRecordShape | app.py:153-193 | For posts and reels: Success iff the page loads, an author is found, and a video's reels page loads; Failed (No Author) iff it loads and no author is found; Error otherwise; views are a sentinel or hold a digit; a video is never "N/A (Photo)"; a successful photo is; a redirected video is "Hidden (Main Grid)" |
| Scraper.StatusMatchesAuthor | app.py:74-200 | The status is never left Starting; Success implies a truthy author; Failed (No Author) exactly for a loaded post or reel with no author; a profile succeeds exactly when it loads; a post or reel that did not fail with an error succeeds exactly when an author was found |
| Scraper.ViewsShape | app.py:159-181 | Views are a sentinel or hold a digit; a reel is never a photo; a successful non-video post is "N/A (Photo)"; a successful video redirected away from the reels listing is "Hidden (Main Grid)" |
| Scraper.ContentRecordFields | app.py:153-191 | For a loaded post or reel: a successful video's views are the reels page's card views for the shortcode and its followers come from the reels page; a successful photo's followers come from its own page; a record that did not succeed keeps followers and views "N/A" |
| Scraper.ProfileKeepsViews | app.py:80-93 | A profile record's views and likes stay "N/A" |
| Scraper.ContentAuthorFromFirstFind | app.py:101-151 | For a loaded post or reel, the author is the fallback chain applied to the first truthy username found in any inspected response |
| Scraper.ScrapeRecordOfContent | app.py:95-99 | A REEL or POST URL holds its marker and goes through the content branch |
| Scraper.ContentRecordAuthor | app.py:124-151 | A loaded post or reel ends up with the fallback chain's author |
| Scraper.LikesShape | app.py:117-122 | Every record's likes are "N/A" or the figure the description starts with; a loaded post or reel whose description matches the pattern reports that group; every other record keeps "N/A" |
| Scraper.ContentRecordLikes | app.py:117-122 | A loaded post or reel keeps the likes the description probe gives |
| Scraper.ProfileRecordOfHandle | app.py:80-93 | A loaded profile URL `<prefix><handle>` followed by slashes succeeds with that handle as its author and the page's follower count |
| Scraper.ProfileRecord | app.py:80-93 | A loaded profile succeeds with the URL's last segment as author and the follower probe's count |
| Scraper.ScrapeData.constructor | app.py:64-72 | The dictionary is first built with the URL, its kind, no author, "N/A" everywhere and status Starting |
| Scraper.ScrapeData.ScrapeProfile | app.py:80-93 | The PROFILE branch leaves the dictionary as the record function says |
| Scraper.ScrapeData.ReadProfileFollowers | app.py:83-91 | Only the followers field changes, to the profile follower probe's value |
| Scraper.ScrapeData.ScrapeContent | app.py:95-193 | The REEL/POST branch leaves the dictionary as `ContentRecord` of the initial one |
| Scraper.ScrapeData.Publish | app.py:153-191 | Once an author is known, views, followers and status change as `Published` says |
| Scraper.ScrapeData.FillAuthor | app.py:124-151 | Only the author changes, to the fallback chain's answer |
| Scraper.ScrapeData.ReadViews | app.py:166-179 | Only the views change, to the video views of the reels page |
| Scraper.ScrapeSingleUrl | app.py:39-200 | Nothing for a blank URL; otherwise a fresh dictionary equal to `ScrapeRecord` of the URL |
| Api.RawString | app.py:212-215 | No contract of its own: the comma-join of a list, the text of anything else |
| Api.CleanedItems | app.py:213-217 | No cleaned item holds a comma or a line break |
| Api.JoinKeepsParts | app.py:213 | Every character of a list item survives into the comma-joined text |
| Api.JoinedCharInPart | app.py:213 | A non-comma character of the joined text comes from one of the items |
| Api.KeepNonEmpty | app.py:218-221 | The kept URLs are no more than the items and none is empty |
| Api.KeepNonEmptySnoc | app.py:218-221 | One more item adds its stripped form exactly when that is non-empty |
| Api.KeepNonEmptyIsClean | app.py:217-221 | Items free of commas and line breaks come out non-empty, stripped, and free of commas and line breaks |
| Api.NormalizedShape | app.py:208-221 | Every URL left after normalisation is non-empty, stripped, and holds no comma or line break |
| Api.NormalizedUrls | app.py:217-221 | No contract of its own: `final_urls`; stated by `Api.NormalizedShape` and `Api.NormalizeIdempotent` |
| Api.KeepNonEmptyOfClean | app.py:218-221 | Already clean items are all kept unchanged |
| Api.CleanListIsFixed | app.py:212-221 | A list of clean URLs is normalised to itself |
| Api.NormalizeIdempotent | app.py:208-221 | Normalising the normalised list gives the same list |
| Api.NormalizeUrls | app.py:208-221 | The imperative normaliser returns `NormalizedUrls` |
| Api.KeepNonEmptyLoop | app.py:218-221 | The loop over the cleaned items returns the stripped non-empty ones in order |
| Api.Scrapes | app.py:230 | One scrape result per URL |
| Api.Present | app.py:231-232 | No contract of its own: the present results, in order; stated by `Api.PresentOfAllSome` and `Api.PresentSnoc` |
| Api.BatchRecords | app.py:228-232 | No contract of its own: the present records of the scrapes; stated by `Api.BatchOnePerUrl` |
| Api.PresentOfAllSome | app.py:231-232 | When every result is present, all are kept, in order |
| Api.PresentSnoc | app.py:231-232 | One more result is appended exactly when it is present |
| Api.ScrapesSnoc | app.py:230-232 | The results of one more URL are the earlier results plus its scrape |
| Api.ScrapeOfNonBlank | app.py:40 | A URL that is not blank yields its record |
| Api.BatchOnePerUrl | app.py:228-232 | Non-blank URLs each give exactly one record, in input order, each for its own URL |
| Api.ApiResponse | app.py:223-234 | No contract of its own: the 400 error when no URL is left, else the batch's records; stated by `Api.ApiResponseShape` |
| Api.ApiResponseShape | app.py:207-234 | The request fails with 400 "No valid URLs provided" exactly when no URL survives normalisation; otherwise it answers one record per URL, in order |
| Api.ScrapeBatch | app.py:228-232 | The loop over the results collects the present records in input order |
| Api.ScrapeApi | app.py:207-234 | The imperative endpoint returns `ApiResponse` |

## Left out

- Browser control is not modelled: Playwright launch, contexts, the stored session file, user agent and viewport, `goto`, `wait_until` and page closing. Their outcomes are inputs, held by `Scraper.Session`.
- A browser launch that raises is not modelled. In the source it raises out of `scrape_single_url`.
- The fixed `time.sleep` pauses and the navigation and `wait_for_selector` timeouts are not modelled. The responses seen while the listener is attached, and whether a card turns up, are inputs.
- `wait_for_selector`'s visibility rule is not modelled. A card is found when an anchor's href holds the shortcode.
- Probe exceptions are not modelled separately. The calls whose failure the model can express read as absent values: a meta tag's `get_attribute`, a card's or link's `inner_text()` (`Pages.Anchor.text` is `None`), and `response.json()`. A `None` in `Pages.Anchor.href` or `Pages.Anchor.spanTitle` means the attribute or the span is absent, not that reading it raised.
- A raising `page.title()` or `locator(...).all()` is not modelled. The title is always read and the anchor list always obtained, so the title probe or the links probe is never skipped because of an exception.
- A raising `get_attribute("href")` in the links probe is not modelled. In the source it ends the whole loop over the links (app.py:139-151), so later links are not tried.
- A raising `get_attribute("title")` on a profile's follower span is not modelled. In the source it leaves followers "N/A" (app.py:86-91); the model has no such outcome for a present span.
- Concurrency is not modelled: `ThreadPoolExecutor` with `MAX_WORKERS`. URLs are scraped one after another. The source iterates `executor.map` results in input order, so the order of records is the same.
- Flask is not modelled: routing, `request.json`, `jsonify`, the HTTP response and the `home` page. The response is a `Result` of the records or the error code and message.
- `print` logging is not modelled.
- `setup_login.py` is not part of this model.
- Duplicate keys inside one JSON object are not modelled. The parser keeps the last value; the model looks up the first member with the key and assumes distinct keys.
- `isdigit` on non-ASCII digit characters is not modelled. Only '0'..'9' count as digits.
- The CSS selector's quoting is not modelled. A shortcode containing a quote would break the selector `a[href*='…']`; the model matches the raw substring.
- A `urls` list with non-string items is not modelled. In the source it makes `",".join` raise a `TypeError`.
- A `urls` value that is not a list is given by its `str()` text.
- The reels page URL is not modelled. `f"https://www.instagram.com/{author}/reels/"` is built from the author, and its load and landing URL are inputs of the session.
- The `type` field is not stored as a string in the record. The record stores a `UrlKind`; `UrlKind.Name()` gives the string the source stores.
- The `status` field is likewise stored as a `Status`; `Status.Text()` gives the string.
- Text.ReplaceChar: models `replace` for one character only, because the source replaces only '\n' with ','.
- Scraper.ContentRecord: states only that the URL and kind are kept. The branch's outcome is stated by `Scraper.ContentRecordShape` and `Scraper.ContentAuthorFromFirstFind`.
- Scraper.ScrapeRecord: states only that the URL and kind are kept. The outcome of each branch is stated by `Scraper.StatusMatchesAuthor`, `Scraper.ViewsShape`, `Scraper.LikesShape`, `Scraper.ContentRecordFields`, `Scraper.ProfileRecord`, `Scraper.ProfileKeepsViews` and `Scraper.SkippedIgnoresSession`.
