# facebook-post-scraper, modelled in Dafny

This project models the core of the Facebook Post Scraper browser extension.
When the user right-clicks a post, the content script does three things:

- It locates the post element among the ancestors of the clicked element. If that fails, it takes the page's `[aria-labelledby]` element nearest the click.
- It extracts a post record: author and profile URL, caption, images, videos, post type, and the likes, comments and shares counts.
- It saves the record in local storage. Duplicates are refused and at most 100 posts are kept.

The popup exports the saved posts as a JSON dataset and builds the list of images to download.

The DOM is replaced by records of what the code reads:

- The clicked element and its ancestors are a sequence of nodes.
- A post element is its links, text blocks, images, video elements and data containers.
- Bounding rectangles are `real` numbers.

`JSON.parse` of a `data-store` attribute is a function parameter. So is the page's clock (`nowMs`).

Modules follow the code:

- `Author`, `Caption`, `Media` and `Counts` hold the field rules of `extractPostData`.
- `Extract` assembles the record.
- `Locator` holds the right-click handler's search for the post.
- `Store` holds the saved-post list and the `extractAndSave` handler.
- `Export` holds the popup's export and download list.
- `Text`, `Search`, `Wrappers` and `Post` hold JavaScript string helpers, a first-match search and the record types.

Every scan the code performs as a loop is a method. Each method is proved equal to a function that states its result, and the properties are lemmas about those functions.

The model follows `content.js` and `popup.js` as written, with one exception: the right-click handler uses the ancestor walk with its intended exit test (see "## Findings"), while the walk as written is modelled and compared beside it. Fuller descriptions of the extension mention several things this code does not have:

- a validation pass;
- a caption-quality label;
- several expansion rounds;
- a capacity of 500;
- counts read from accessibility labels.

Where those descriptions and the code disagree, the code decides.

## Model

| member | source | states |
|---|---|---|
| Text.Trim | src/js/content.js:31 | `trim()`: the result has no white space at either end and is no longer than the input |
| Counts.RoundHalfUp | src/js/content.js:426-432 | `Math.round(num / den)`: `n` satisfies `n - 1/2 <= num/den < n + 1/2`, so it is the nearest integer, halves rounding up |
| Counts.RoundHalfUpReal | src/js/content.js:432 | the integer rounding is the rounding of the exact real quotient |
| Counts.ParseFloat | src/js/content.js:423 | `parseFloat` of the comma-free token as a fraction with a positive denominator |
| Counts.TokenValueIsQuotient | src/js/content.js:422-423 | removing commas and parsing gives exactly the decimal value the token writes |
| Counts.ScaledRoundOfToken | src/js/content.js:422-432 | the scale-and-round step yields the token's value times its suffix multiplier, rounded half up |
| Counts.NormalizeCount | src/js/content.js:419-433 | `null` stays `null`; otherwise the result is a digit string without leading zeros whose value is the token's value scaled by K/k (thousand) or M (million) and rounded |
| Counts.LowerMIsNotMillion | src/js/content.js:424-430 | a trailing lower-case `m` scales by 1: it normalizes exactly like the token without it |
| Counts.ShortestNumeral | src/js/content.js:432 | a digit string without leading zeros is the `toString` of its own value, so the normalized string is determined by the count |
| Counts.CanonicalDigits | src/js/content.js:432 | two digit strings without leading zeros that have the same value are equal |
| Author.ProfileUrl | src/js/content.js:40 | `href.split('?')[0]` is a prefix of the href without `?` |
| Author.FirstLabel | src/js/content.js:28-46 | strategy 1 finds nothing exactly when no listed id has an accepted label; otherwise it finds the first accepted one |
| Author.AuthorFromLabels | src/js/content.js:23-47 | the loop over the label ids equals strategy 1; the name found is trimmed and has 1 to 149 characters |
| Author.FirstLink | src/js/content.js:55-88 | strategy 2 finds nothing exactly when no link qualifies within 150 pixels of the post's top; otherwise it finds the first that does |
| Author.AuthorFromLinks | src/js/content.js:50-89 | the loop over the links equals strategy 2; the name is non-empty, at most 150 long and not button text |
| Author.StripMarker | src/js/content.js:94-97 | each suffix strip returns a prefix of its input |
| Author.StripMarkerIsLeftmostMatch | src/js/content.js:94-97 | the strip changes the name exactly when `\s*·\s*w$` matches, and it cuts at the leftmost index where the pattern matches |
| Author.StripMarkerNoDot | src/js/content.js:94-97 | a name without a middle dot is not changed by the suffix strips |
| Author.ReplaceDots | src/js/content.js:98 | the global `\s+·\s+` to ` : ` replacement never lengthens the name |
| Author.ReplaceDotsNoDot | src/js/content.js:98 | without a middle dot the replacement changes nothing |
| Author.DotBecomesColon | src/js/content.js:98 | one ` · ` between two dot-free parts becomes ` : ` and nothing else changes |
| Author.CleanAuthor | src/js/content.js:92-100 | the clean-up result is trimmed and no longer than the raw name |
| Author.FollowButtonRemoved | src/js/content.js:92-100 | a trimmed dot-free name followed by ` · Follow` cleans to the bare name, and the bare name cleans to itself |
| Author.PlainNameKept | src/js/content.js:92-100 | a trimmed dot-free name passes every clean-up step unchanged |
| Author.PostAuthor | src/js/content.js:21-100 | no author exactly when both strategies fail; strategy 1 wins when it finds one; otherwise the author is strategy 2's first link, its name cleaned and its profile URL; the name is trimmed and the profile URL has no query |
| Caption.SelectorCaption | src/js/content.js:167-182 | stage 1 finds nothing exactly when no selector matches; otherwise it takes the first matching selector's text |
| Caption.StructuralCaption | src/js/content.js:185-219 | stage 2 finds nothing exactly when no text block is accepted; otherwise it takes the first accepted block, whose text is trimmed and at least 10 long |
| Caption.FallbackCaption | src/js/content.js:222-235 | stage 3 finds nothing exactly when no text is accepted; otherwise it takes the first accepted text, which is trimmed and longer than 30 |
| Caption.FindBySelectors | src/js/content.js:175-182 | the selector loop equals stage 1 |
| Caption.FindStructural | src/js/content.js:190-219 | the `div[dir="auto"]` loop equals stage 2 |
| Caption.FindFallback | src/js/content.js:225-234 | the `[dir="auto"]` loop equals stage 3 |
| Caption.SelectCaption | src/js/content.js:108-237 | the selection check followed by the three stages, each run only while the caption is falsy, yields the specified raw caption |
| Caption.SelectionOverrides | src/js/content.js:110-131 | a non-empty selection inside the post is the caption whatever the page holds |
| Caption.AutoDetectedIsSubstantial | src/js/content.js:185-235 | without a selection or a message element, an auto-detected caption has at least 10 characters |
| Caption.SeeMoreMatch | src/js/content.js:242-243 | the length of a match of the lead, optional white space and "See more" or "ดูเพิ่มเติม" at the start of the text, or 0: a match is longer than the lead and fits in the text |
| Caption.SeeMoreMatchExact | src/js/content.js:242-243 | the match length is positive only where `lead\s*(See more or ดูเพิ่มเติม)` matches, case ignored, and at every match it is that match's length |
| Caption.RemoveSeeMore | src/js/content.js:242-243 | the global removal never lengthens the caption |
| Caption.StripSeeMoreEnd | src/js/content.js:244 | removing a final "See more" never lengthens the caption |
| Caption.StripTrailing | src/js/content.js:245 | `…+$` removal leaves a prefix that does not end in `…`, and only `…` was cut |
| Caption.StripTrailingDots | src/js/content.js:246 | `\.\.\.+$` removal leaves a prefix; it cuts exactly when the text ends in three dots, and then it cuts only dots and the result does not end in a dot |
| Caption.StripButtonWord | src/js/content.js:249 | removing a leading button word never lengthens the caption |
| Caption.CleanCaption | src/js/content.js:240-250 | the whole clean-up chain ends trimmed |
| Caption.NoLeadKept | src/js/content.js:242-243 | where the lead never occurs the removal changes nothing |
| Caption.EllipsisLinkMatches | src/js/content.js:242 | `…`, white space and "See more" or "ดูเพิ่มเติม" are removed entirely |
| Caption.PlainCaptionKept | src/js/content.js:240-250 | a caption the clean-up has nothing to remove from comes through unchanged |
| Caption.SeeMoreLinkRemoved | src/js/content.js:240-250 | a plain caption followed by a truncation link cleans to the caption itself |
| Caption.FinalCaption | src/js/content.js:240-258 | `data.caption` is `null` exactly when there was no caption or nothing was left after clean-up; otherwise it is the cleaned, non-empty, trimmed text |
| Media.CollectImages | src/js/content.js:264-287 | the image loop with its `seenUrls` set equals the kept-images function |
| Media.KeptImagesDistinct | src/js/content.js:265-278 | no two kept images share a URL, and none has a URL already seen |
| Media.KeptImageUrls | src/js/content.js:269-278 | a URL is kept exactly when it is new and some acceptable image has it |
| Media.KeptImagesAcceptable | src/js/content.js:269-285 | every kept entry is the entry of an acceptable image: no emoji, static or safe_image URL, and both sides above 100 |
| Media.FirstOccurrenceWins | src/js/content.js:269-285 | the entry kept for a URL is the one of the first acceptable image with that URL |
| Media.KeepImagesSplit | src/js/content.js:269-287 | document order: the images of a later part of the post follow those of an earlier part, minus URLs already kept |
| Media.OrNull | src/js/content.js:281 | a string defaulted to `null` is `null` exactly when it is empty, and is the string itself otherwise |
| Media.DurationOrNull | src/js/content.js:302 | a duration defaulted to `null` is kept exactly when it is present and non-zero |
| Media.DirectVideos | src/js/content.js:294-306 | method 1 yields at most one entry per video element, each typed `direct` with a non-empty URL |
| Media.DirectVideosMembers | src/js/content.js:294-306 | every video element with a truthy `src` has its entry among the direct videos, and every direct video is the entry of such an element |
| Media.DirectVideosSplit | src/js/content.js:294-306 | document order, duplicates kept: the entries of a later part of the post follow those of an earlier part |
| Media.ContainerVideo | src/js/content.js:346-382 | method 3: the URL is the Facebook video prefix plus a non-empty id; the entry is typed `facebook-data` exactly when `data-store` is truthy; an unparsable `data-store` gives nothing; a parsed one gives an entry exactly when `videoID` or `video_id` is truthy, with the URL from `videoID` first, else `video_id`, and its duration defaulted to `null`; without a `data-store`, an entry appears exactly when `data-video-id` is truthy, and it is the `facebook-id` entry for that id |
| Media.CollectVideos | src/js/content.js:292-384 | the three video loops equal the all-videos function |
| Media.AppendsNewUrlsTrans | src/js/content.js:308-382 | appending only new URLs composes across methods 2 and 3 |
| Media.HasUrlExtends | src/js/content.js:333-336 | a URL present among the videos found so far stays present as more are appended |
| Media.AddLinksAppendsNew | src/js/content.js:308-343 | method 2 only appends; each appended entry has a new URL, no `#` or `?comment_id=`, is not `direct`, and is the entry of a usable link; every usable link's URL is present afterwards |
| Media.AddLinksNewUrls | src/js/content.js:308-343 | method 2 only appends, each appended entry with a URL not present before it, no `#` or `?comment_id=`, and a type other than `direct` |
| Media.AddLinksComplete | src/js/content.js:308-343 | after method 2 the URL of every usable link is among the videos |
| Media.AddLinksSources | src/js/content.js:308-343 | every entry method 2 appends is the entry of a usable link |
| Media.AddLinksKeepsPrefix | src/js/content.js:308-343 | method 2 keeps the videos found before it, in place |
| Media.AddContainersAppendsNew | src/js/content.js:346-382 | method 3 only appends; each appended entry has a new Facebook video URL and is the video of a selected container; every selected container's video URL is present afterwards |
| Media.AddContainersNewUrls | src/js/content.js:346-382 | method 3 only appends, each appended entry with a URL not present before it, under the Facebook video prefix, typed `facebook-data` or `facebook-id` |
| Media.AddContainersComplete | src/js/content.js:346-382 | after method 3 the URL of every selected container's video is among the videos |
| Media.AddContainersSources | src/js/content.js:346-382 | every entry method 3 appends is the video of a selected container |
| Media.AddContainersKeepsPrefix | src/js/content.js:346-382 | method 3 keeps the videos found before it, in place |
| Media.VideosShape | src/js/content.js:292-384 | direct videos come first; later entries are never `direct`, never repeat an earlier URL, and each is the entry of a usable link or of a selected container; every usable link's URL and every selected container's video URL is present |
| Media.LinkTypeOnlyForWatch | src/js/content.js:319-329 | a usable link is typed `link` exactly when it contains `/watch` and none of the video hosts or `/video` |
| Media.DataStoreTakesPrecedence | src/js/content.js:352-371 | with a truthy `data-store`, `data-video-id` is never read |
| Media.PostTypeCases | src/js/content.js:389-408 | each post type in both directions: `video` iff some video is direct, `facebook-video` iff none is direct and some is a Facebook video, `external-video` iff neither and some is a YouTube, Vimeo or TikTok video, `video-link` iff every video is a plain link, `image` iff images and no videos, `text` iff only a caption, `null` iff nothing |
| Extract.FirstCount | src/js/content.js:435-494 | a count is `null` exactly when no pattern matches; otherwise it comes from the first matching pattern and is that capture normalized |
| Extract.MatchCount | src/js/content.js:468-475 | the loop over one field's patterns equals the first-match count |
| Extract.ExtractPostData | src/js/content.js:5-496 | filling `data` step by step yields the specified record |
| Extract.ExtractedPostShape | src/js/content.js:5-496 | every record has the page URL and time, an author exactly when a profile URL, trimmed author and caption, distinct image URLs, a `null` type only without media and caption, and digit-string counts |
| Locator.DetectPhotoModal | src/js/content.js:534-551 | the click is in the photo viewer exactly when a dialog lies below `document.body` on the ancestor chain and the URL names a photo |
| Locator.PostAncestor | src/js/content.js:562-611 | the intended container is the first marker among the clicked element and its first 49 ancestors, before `document.body`; none exactly when no such marker exists |
| Locator.WalkAncestorsAsWritten | src/js/content.js:562-613 | the walk as written finds the intended container only when it is the clicked element or one of its first 48 ancestors |
| Locator.WalkAncestors | src/js/content.js:562-613 | the walk with the intended exit test finds exactly the intended container |
| Locator.FiftiethMarkerDiscarded | src/js/content.js:613 | a chain whose 49th ancestor (the fiftieth element tested) is an article, with no container before it, has that ancestor as its intended container, which the written walk discards |
| Locator.Distance | src/js/content.js:639 | `Math.abs(clickY - candidateY)` is non-negative and equals one of the two differences |
| Locator.ClosestCandidate | src/js/content.js:617-646 | the fallback finds nothing exactly when no candidate is eligible; otherwise it finds an eligible candidate at least as close as every other, strictly closer than every earlier one |
| Locator.LocatePost | src/js/content.js:519-666 | photo-viewer refusal exactly on the photo-modal condition; otherwise the ancestor post exactly when the walk finds one; otherwise nothing without a clicked element; otherwise the nearest eligible candidate, the earliest among equally near ones, else not found |
| Locator.LocatedByUnique | src/js/content.js:519-666 | the located outcome is determined: two outcomes meeting the handler's conditions for the same click are equal |
| Store.IsDuplicate | src/js/content.js:687-698 | the `some` check is true exactly when a saved post has the same URL, or the same author and a time within 5 minutes |
| Store.AppendedShape | src/js/content.js:707-711 | the new post ends up last; the oldest is dropped exactly when 100 were saved; a list of at most 100 stays within 100 |
| Store.AppendKeepsNoDuplicates | src/js/content.js:687-711 | appending a post the check lets through keeps the list free of duplicates |
| Store.PostStore.constructor | src/js/content.js:684 | storage starts with no saved posts |
| Store.PostStore.Save | src/js/content.js:683-716 | a duplicate is refused with "Post already saved" and nothing changes; otherwise the post is appended, capped at 100; at most 100 posts without duplicates always hold |
| Store.PostStore.ExtractAndSave | src/js/content.js:519-729 | the located outcome is the handler's; the photo-viewer, not-found and no-response cases happen exactly on those outcomes and leave storage unchanged; a located post that duplicates a saved one is refused with "Post already saved"; otherwise the record extracted from the located element is appended, capped at 100, and sent back with the new total |
| Export.ParseInt | src/js/popup.js:52-54 | `parseInt` gives a number only when the text holds a digit |
| Export.StoredCountRoundTrip | src/js/popup.js:52-54 | a stored count exports as the number it spells |
| Export.OrDefault | src/js/popup.js:43-50 | a string defaulted to a fallback is the value when truthy, else the fallback |
| Export.ExportDataset | src/js/popup.js:19-59 | export fails with "No posts to export!" exactly when nothing is saved; otherwise `total_posts` and the entries match the saved posts one for one, in order |
| Export.EntryShape | src/js/popup.js:41-58 | each entry has the post's URL and time, a non-empty author, a known post type name, counts equal to the stored digit strings' values, and image and video counts matching its lists |
| Export.EntryIdsDistinct | src/js/popup.js:42 | the ids `post_1`, `post_2`, … are distinct |
| Export.FileNameShape | src/js/popup.js:127 | a file name starts `fb-post-` followed by the author or `unknown`, then `-`, and ends in `.jpg` |
| Export.BuildDownloadList | src/js/popup.js:119-132 | the nested loops equal the download-list function |
| Export.AddPostImages | src/js/popup.js:123-130 | the inner loop appends one post's items, numbered from the current length |
| Export.PostItemsNames | src/js/popup.js:123-130 | the items of one post are named after it and numbered on from the items before it |
| Export.DownloadsUrls | src/js/popup.js:119-132 | the list holds exactly the non-empty image URLs, post by post and image by image |
| Export.DownloadsNames | src/js/popup.js:119-132 | the k-th item (from 1) is named after some saved post's author and time, with the number k |

## Left out

- The regular expressions of the engagement counts are not matched. Each field takes, in pattern order, the capture of every pattern or nothing. The extraction requires every capture to have the shape `\d+(,\d+)*(\.\d+)?[KMkm]?`.
- The negative lookbehind of the first likes pattern is part of that matching, so it is left out as well.
- The feed-view "See more" click and the 150 ms busy wait are left out: they change the page, not the rules. The text blocks are those read after the expansion.
- `console.log`, `showNotification` and the `ping` action are left out.
- `chrome.runtime` messaging is reduced to the response the handler sends.
- `chrome.storage.local` reads and writes are reduced to the `savedPosts` field of `PostStore`. The storage error path is left out.
- `document.elementFromPoint` for a missing clicked element is left out. The ancestor chain is given, and an empty chain means no element was found.
- The `catch` of `extractPostData`, and the record with `error` it returns, are left out. No modelled step throws, except `JSON.parse`, which is the `parseJson` parameter.
- The photo-viewer message inside the not-found branch is left out. That branch cannot be reached with `inPhotoModal` true, because the handler returns earlier.
- Counts.ParseFloat: `parseFloat` and `Math.round` work on floating-point numbers. The model uses exact rationals, so rounding errors of large or long decimals are not modelled.
- Media.DurationOrNull: a `NaN` duration (metadata not loaded) is `None`. Durations are exact reals.
- `JSON.parse` yields a number for a `videoID` without quotes. The template literal prints such a number in its own form, but the model takes the id as the string it is rendered to.
- An element's `href` and `src` properties resolve to absolute URLs. The model reads them as given.
- `url` and `timestamp` come from `window.location.href` and `new Date().toISOString()`. They are parameters. The timestamp is kept as milliseconds, and the duplicate window compares those.
- The popup's TXT export, `JSON.stringify`, the file download, and the fixed `dataset_info` strings are left out.
- The `created_at` and `extracted_at` clocks of the export are left out.
- `chrome.downloads.download` calls, their counting and the status messages are left out. So is the "No images to download!" message for an empty list. The model stops at `allImages`.
- Caption.RemoveSeeMore: its own contract bounds only the length. What it removes is stated by Caption.NoLeadKept, Caption.EllipsisLinkMatches and Caption.SeeMoreLinkRemoved, for the inputs those lemmas cover.
- Caption.StripSeeMoreEnd: its own contract bounds only the length. The content is stated only through Caption.PlainCaptionKept and Caption.SeeMoreLinkRemoved.
- Caption.StripButtonWord: its own contract bounds only the length. The content is stated only through Caption.PlainCaptionKept.
- Author.ReplaceDots: its own contract bounds only the length. The content is stated by Author.ReplaceDotsNoDot and Author.DotBecomesColon for one separator, not for names with several.
- Author.CleanAuthor: a name that is only "· Follow" cleans to the empty string, which the code stores as the author as written; the model keeps that.
- The popup's list display, clear button and statistics are left out. So is `background.js`.
- Locator.LocatePost: it uses the corrected walk, Locator.WalkAncestors, not the walk as written. The two differ only when the container is the 49th ancestor; Locator.WalkAncestorsAsWritten and Locator.FiftiethMarkerDiscarded model that case. Store.PostStore.ExtractAndSave inherits the corrected walk.
- Author.FirstLabel: JavaScript's `length` counts UTF-16 code units, the model counts characters. A name with characters outside the Basic Multilingual Plane (emoji, for instance) is shorter here, so the 150 limit admits slightly longer such names.
- Author.FirstLink: the same `length` difference applies to its 150 limit on the link text.
- Caption.StructuralCaption: the same `length` difference applies to its 10 and 20 minimum lengths.
- Caption.FallbackCaption: the same `length` difference applies to its limit of more than 30.

## Findings

| source | as written | input that shows it | evidently intended | confidence | as-written member | corrected member |
|---|---|---|---|---|---|---|
| src/js/content.js:613 | after the ancestor walk, `attempts >= maxAttempts` also sends the walk to the fallback; the loop increments `attempts` before testing the element | the clicked element and its first 48 ancestors are not post containers; its 49th ancestor (chain index 49, the fiftieth element the loop tests) has `role="article"`: the loop breaks on it with `attempts == 50`, and the container is discarded | fail over to the fallback only when no marker was found | not executed | Locator.WalkAncestorsAsWritten, Locator.FiftiethMarkerDiscarded | Locator.WalkAncestors |
