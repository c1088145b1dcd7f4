# HarmOni web extension — a verified model of its core logic

This project is a Dafny model of the logic at the heart of the HarmOni browser
extension, together with proofs of what that logic promises. It covers these
parts:

- **The MyAnimeList content script.** It puts a "Save" button on every anime
  cover of a MyAnimeList page. A click downloads the best version of the
  image it can find under a clean file name, and records the download in a
  history capped at 50. The model covers:
  - the candidate URLs for a cover (`mal_urls.dfy`);
  - the probing of those URLs, the extension and file name, and the download
    itself (`mal_download.dfy`);
  - the history (`mal_history.dfy`);
  - the title fallbacks (`mal_titles.dfy`);
  - the filter that keeps the script's own DOM changes from retriggering a
    scan (`mal_mutations.dfy`);
  - the page state (`mal_page.dfy`): settings, buttons, hover handlers, the
    scan and its lock.
- **Fuzzy matching** (`fuzzy_match.dfy`). A Levenshtein matrix is filled by
  nested loops and proved equal to the recursive edit distance. A ratio test
  is built on top of it.
- **The feature registry** (`feature_registry.dfy`): a class over the
  registered features, with defaults, duplicate rejection and a sorted
  listing.
- **Three Redux stores** (`prompt_slice.dfy`, `anime_tracker_slice.dfy`,
  `auth_slice.dfy`). Each store is a class with one field per state field.
  Each reducer case is a method. An asynchronous operation appears only
  through its pending, fulfilled and rejected cases, with the payload as a
  parameter.
- **Two forms**:
  - the prompt add/edit form (`prompt_form.dfy`);
  - the sign-up form's validators and submit gate (`register_form.dfy`).

Shared helpers:
- `wrappers.dfy`: `Option` and `Result`;
- `strings.dfy`: JavaScript string operations such as `trim`, `split`/`join`,
  `indexOf` and `replace`;
- `seqs.dfy`: `filter`, `findIndex` and replace-first.

Modelling choices:
- Network replies, storage contents, the clock and `decodeURIComponent`
  become parameters. `fetch` becomes three functions from URL to reply, one
  each for HEAD, the fallback GET and the final GET.
- A DOM container is a number.
- What a DOM query found is a value handed to the scan.

## Model

| member | source | states |
|---|---|---|
| MalUrls.DigitRunEnd | src/content/myanimelist/index.ts:791 | the `\d+` run from a position ends at the first non-digit or the end of the string |
| MalUrls.ResizeMatchEnd | src/content/myanimelist/index.ts:791 | a match of `/\/r\/\d+x\d+\//` at a position starts with `/r/`, ends with `/`, and is at least 7 characters long |
| MalUrls.FirstResizeMatch | src/content/myanimelist/index.ts:791 | the leftmost position where the resize pattern matches, or none when it matches nowhere |
| MalUrls.StripResize | src/content/myanimelist/index.ts:790-791 | the URL is unchanged without a match; otherwise the leftmost `/r/WxH/` is replaced by `/` and nothing else changes |
| MalUrls.LeftmostMatchUnique | src/content/myanimelist/index.ts:791 | the leftmost `/r/WxH/` match is the only match position with no match before it, so the replacement is determined |
| MalUrls.UserImagesVariant | src/content/myanimelist/index.ts:824-826 | the `/anime/` variant exists exactly when the URL contains `/anime_userimages/` |
| MalUrls.SizeStem | src/content/myanimelist/index.ts:813 | a trailing `t`, `v` or `s` is dropped; the base is kept when dropping it would leave nothing |
| MalUrls.SizeVariants | src/content/myanimelist/index.ts:811-820 | either no variants or exactly two (giant, then large) |
| MalUrls.NoSizeVariant | src/content/myanimelist/index.ts:803-807 | at most one variant, the URL without the size letter |
| MalUrls.StripVariant | src/content/myanimelist/index.ts:790-792 | a variant exists exactly when the URL contains `/r/` |
| MalUrls.Candidates | src/content/myanimelist/index.ts:784-827 | between one and six candidates; the original URL is last |
| MalUrls.BuildCandidateUrls | src/content/myanimelist/index.ts:784-827 | the `push`/`unshift` construction yields exactly `Candidates(url)`, best first, the URL itself last |
| MalUrls.AddSizeVariants | src/content/myanimelist/index.ts:797-821 | with `urlParts` overwritten in place for the variant without the size letter, the giant and large variants are still built on the original head and extension: the result is the size variants, then the no-size variant, then what was there |
| MalUrls.CandidateOrder | src/content/myanimelist/index.ts:784-827 | the `/anime/` variant comes first when present; giant directly precedes large; the original is last |
| MalUrls.SplitOfParts | src/content/myanimelist/index.ts:797-800 | splitting a URL on `.` gives back the dot-free parts it was joined from |
| MalUrls.NoSizeOfParts | src/content/myanimelist/index.ts:803-807 | a base ending in one of `tvlsjcg` yields the URL with that letter removed |
| MalUrls.NoSizeOfSplit | src/content/myanimelist/index.ts:803-807 | stated on the split parts: the part before the extension loses its size letter and the rest is kept |
| MalUrls.SizesOfParts | src/content/myanimelist/index.ts:811-820 | a base ending in `l` or `g` gets no size variants; one ending in `t`, `v` or `s` gets `stem+g` then `stem+l` |
| MalUrls.SizesOfSplit | src/content/myanimelist/index.ts:811-820 | stated on the split parts: the giant and large variants replace the part before the extension by `stem+g` and `stem+l` |
| MalUrls.LargeBaseCandidates | src/content/myanimelist/index.ts:803-820 | `…/12345l.jpg` yields exactly [`…/12345.jpg`, original] |
| MalUrls.ThumbnailBaseCandidates | src/content/myanimelist/index.ts:803-820 | `…/12345t.jpg` yields exactly [giant, large, `…/12345.jpg`, original] |
| MalDownload.MessageOr | src/content/myanimelist/index.ts:847 | an error's message, or `Unknown error` when it is empty; never empty |
| MalDownload.PickImageUrl | src/content/myanimelist/index.ts:773-781 | the first truthy of `dataset.src`, `data-src`, `data-image`, `src`; an error exactly when all four are empty |
| MalDownload.SelectSource | src/content/myanimelist/index.ts:833-870 | the probe loop returns the first candidate whose HEAD reply is ok, else the original if a GET succeeds, else the error; it logs one message per failed candidate |
| MalDownload.ProbeOutcome | src/content/myanimelist/index.ts:837-870 | the URL a successful probe chooses is one of the candidates, or the original URL when its GET is ok |
| MalDownload.ProbeFailsOnlyWhenNothingAnswers | src/content/myanimelist/index.ts:837-870 | the probe fails iff no candidate's HEAD reply is ok and the GET of the original is not ok; the error then carries that GET's network message or HTTP status |
| MalDownload.ContentTypeOr | src/content/myanimelist/index.ts:873 | the reply's content type when truthy, else `image/jpeg` |
| MalDownload.ExtensionFor | src/content/myanimelist/index.ts:876-883 | `.png` iff the type mentions png; `.webp` iff not png but webp; `.gif` iff neither but gif; `.jpg` otherwise |
| MalDownload.ExtensionOfPngAndWebp | src/content/myanimelist/index.ts:876-880 | `image/png` maps to `.png` and `image/webp` to `.webp` |
| MalDownload.ExtensionOfGif | src/content/myanimelist/index.ts:881-882 | `image/gif` maps to `.gif` |
| MalDownload.ExtensionOfJpeg | src/content/myanimelist/index.ts:873-883 | `image/jpeg`, and a missing content type, map to `.jpg` |
| MalDownload.CleanTitle | src/content/myanimelist/index.ts:886 | the cleaned title has none of `\ / : * ? " < > \|`, is no longer than the title, and has no whitespace at either end; `CleanTitleKeepsCharacters` states what it keeps |
| MalDownload.CleanTitleKeepsCharacters | src/content/myanimelist/index.ts:886 | the cleaned title is the title without the whitespace around it, character for character, with each reserved character replaced by `_` and every other kept; only whitespace is dropped at either end |
| MalDownload.CleanTitleIdempotent | src/content/myanimelist/index.ts:886 | cleaning a cleaned title changes nothing |
| MalDownload.DownloadCover | src/content/myanimelist/index.ts:767-916 | the outcome is the step-by-step download outcome; exactly two toasts, "Preparing…" and then success or the caught error's message |
| MalDownload.SaveFrom | src/content/myanimelist/index.ts:873-898 | a saved outcome comes from the chosen URL, whose GET was ok and non-empty, under the cleaned title plus the content type's extension |
| MalDownload.DownloadOutcome | src/content/myanimelist/index.ts:773-902 | an element without an image URL fails with "Could not find image URL"; a saved outcome had an image URL |
| MalDownload.ProbeChoosesFirstAnswering | src/content/myanimelist/index.ts:837-865 | the chosen URL is a candidate whose HEAD reply is ok after all earlier candidates failed, or the original answering a GET after all candidates failed |
| MalDownload.SavedFromFirstAnsweringCandidate | src/content/myanimelist/index.ts:773-902 | a saved file comes from the URL the probe chose among the image's candidates |
| MalDownload.SavedFileIsWellFormed | src/content/myanimelist/index.ts:886-898 | a saved file is non-empty, comes from the chosen URL, and is named by the cleaned title plus the content type's extension, with no reserved character |
| MalDownload.NoImageUrlFails | src/content/myanimelist/index.ts:779-781 | an element with no image URL fails with "Could not find image URL" whatever the network says |
| MalHistory.KeepLatest | src/content/myanimelist/index.ts:726 | `slice(0, 50)`: a prefix of at most 50 items, all of them when there are no more than 50 |
| MalHistory.AddToHistory | src/content/myanimelist/index.ts:725-726 | the new item is at index 0 and the old items follow in order; never more than 50; the oldest drops when there were already 50 |
| MalHistory.KeepLatestAbsorbs | src/content/myanimelist/index.ts:726 | cutting the tail early does not change the first 50 |
| MalHistory.RecordAllKeepsNewest | src/content/myanimelist/index.ts:726 | after any number of downloads the history is the newest 50 items, newest first, followed by the older history |
| MalHistory.HistoryAfterClickAsWritten | src/content/myanimelist/index.ts:704-736 | as written, the item is recorded whatever the download's outcome |
| MalHistory.HistoryAfterClick | src/content/myanimelist/index.ts:704-736 | as intended, a failed download leaves the history alone and a saved one is prepended under the cap |
| MalHistory.FailedDownloadIsRecorded | src/content/myanimelist/index.ts:704-736 | an image with no URL fails, yet the handler as written records it; the intended handler does not |
| MalHistory.OnDownloadClick | src/content/myanimelist/index.ts:700-741 | the click runs the download, then records and announces the item exactly when the file was saved |
| MalMutations.Relevant | src/content/myanimelist/index.ts:486-523 | a record counts iff its target is not ours, and it either adds some node that is not ours or adds nothing and changes `src` |
| MalMutations.AddedAllOurs | src/content/myanimelist/index.ts:497-514 | the `forEach` flag ends true exactly when every added node is a button or the toast container |
| MalMutations.MutationIsRelevant | src/content/myanimelist/index.ts:486-524 | the callback, with its early returns, computes `Relevant` |
| MalMutations.ShouldUpdate | src/content/myanimelist/index.ts:486-524 | `some`: a rescan is scheduled iff some record of the batch is relevant |
| MalMutations.OwnChangesIgnored | src/content/myanimelist/index.ts:488-516 | a batch of the script's own insertions, or of changes on its own elements, never schedules a rescan |
| MalMutations.ShouldUpdateAppend | src/content/myanimelist/index.ts:486-524 | the verdict on two batches taken together is the disjunction of the verdicts |
| MalMutations.ImageSourceChangeTriggers | src/content/myanimelist/index.ts:518-523 | a new `src` on an element that is not ours schedules a rescan |
| MalTitles.FirstNonEmpty | src/content/myanimelist/index.ts:420-462 | the title chosen is the fallback or one of the candidates |
| MalTitles.FirstNonEmptyIsFirst | src/content/myanimelist/index.ts:420-462 | the first non-empty candidate is chosen, and the fallback only when every candidate is empty |
| MalTitles.LastSegment | src/content/myanimelist/index.ts:196-197 | the last `/`-separated segment of a URL, which contains no `/` |
| MalTitles.ImageIdAt | src/content/myanimelist/index.ts:199 | a match of `(\d+)([tvlsg])\.(jpg\|png\|webp\|gif)` (case-insensitive) yields a non-empty run of digits |
| MalTitles.ImageId | src/content/myanimelist/index.ts:199 | the leftmost match's digits, or none when the pattern matches nowhere |
| MalTitles.ImageIdOfSizedFile | src/content/myanimelist/index.ts:199 | a file name `<digits><size letter>.<ext>` yields its digits |
| MalTitles.SiteSuffixRemoved | src/content/myanimelist/index.ts:219-223 | any name that does not itself contain ` - MyAnimeList.net`, dashed titles included, is given back from the name followed by the suffix |
| MalTitles.StripSiteSuffix | src/content/myanimelist/index.ts:222 | a title without the suffix is unchanged; otherwise exactly the suffix's length is removed |
| MalTitles.PopupTitleOf | src/content/myanimelist/index.ts:177-224 | the popup cascade as one expression: the trimmed alt, title and aria-label, the nearby title, then the document title without the suffix (its properties are in `PopupTitle` and `PopupTitleOrder`) |
| MalTitles.PopupTitle | src/content/myanimelist/index.ts:177-224 | the popup title is the trimmed alt, title or aria-label, then a nearby title from the image id, then the stripped document title, in that order |
| MalTitles.PopupTitleOrder | src/content/myanimelist/index.ts:179-224 | a non-blank alt text always wins, and the popup is left without a title only when the document title is empty once the site suffix is removed |
| MalTitles.NearbyTitle | src/content/myanimelist/index.ts:194-216 | step 4: no title without a `src`; otherwise the file name's number selects the nearby titles, and the first non-empty one is taken |
| MalTitles.FirstNearbyTitle | src/content/myanimelist/index.ts:205-214 | the loop breaks at the first non-empty nearby title |
| MalTitles.DetailPageTitle | src/content/myanimelist/index.ts:291-292 | the trimmed `h1.title-name` text if non-empty, else the document title |
| MalTitles.FileTitle | src/content/myanimelist/index.ts:425-434 | the file name up to its first dot, used only when longer than three characters |
| MalTitles.PathSegmentAsWritten | src/content/myanimelist/index.ts:446-450 | as written: the last segment, or the one before it when the last is empty, rejected when it is `pics` or too short; a result is never `pics`, is longer than one character and has no `/` |
| MalTitles.PathSegment | src/content/myanimelist/index.ts:446-450 | as intended (Findings row 2): a trailing empty or `pics` segment is skipped for the one before it; the result is never `pics`, is longer than one character, has no `/`, and agrees with `PathSegmentAsWritten` wherever that finds a segment |
| MalTitles.PicsPageAsWritten | src/content/myanimelist/index.ts:447-450 | as written, a path ending in `/<name>/pics` yields no title |
| MalTitles.PathSegmentSkipsPics | src/content/myanimelist/index.ts:447-450 | as intended, paths ending in `/<name>/pics` or `/<name>` both yield `<name>` |
| MalTitles.AnimePicsPageSegment | src/content/myanimelist/index.ts:439-454 | on every `/anime/<id>/<name>/pics` page, the path yields no title as written but `<name>` as intended |
| MalTitles.PathTitle | src/content/myanimelist/index.ts:446-453 | no title from the path when the segment rule as written finds no segment |
| MalTitles.IntendedPathTitle | src/content/myanimelist/index.ts:446-453 | as intended (Findings row 2): the same title as `PathTitle` wherever the rule as written finds a segment |
| MalTitles.CoverTitleOf | src/content/myanimelist/index.ts:420-462 | the cascade as written (walk title, trimmed alt, file name, first title heading or path title, `anime_<time>`) is never empty, and the walk's title wins when there is one |
| MalTitles.IntendedCoverTitleOf | src/content/myanimelist/index.ts:439-462 | as intended (Findings row 2): never empty, and equal to the cascade as written wherever the rule as written finds a path segment |
| MalTitles.PicsPageCoverTitle | src/content/myanimelist/index.ts:439-462 | on `/anime/<id>/<name>/pics` without a title heading or a title from the image, the cascade as written gives `anime_<time>`, the intended one the decoded `<name>` |
| MalTitles.CoverTitle | src/content/myanimelist/index.ts:420-462 | the method runs the cascade as written, guard by guard, and yields `CoverTitleOf` |
| MalPage.NewButton | src/content/myanimelist/index.ts:671-697 | a new button is hidden, carries the image URL, and its tooltip is "Download cover for <title>" |
| MalPage.Restyle | src/content/myanimelist/index.ts:620-646 | disabled: only `display` becomes `none`; enabled: `display` cleared, opacity and padding by style, text shown iff `showText` |
| MalPage.RestyleAll | src/content/myanimelist/index.ts:617-647 | every button is replaced by its `Restyle` under the settings, in place; the length is kept |
| MalPage.SetDisplay | src/content/myanimelist/index.ts:750-757 | the buttons of the hovered container get the new display, every other button is unchanged, and the length is kept |
| MalPage.ShowOnHoverAsWritten | src/content/myanimelist/index.ts:751-753 | as written, `mouseenter` shows the button whatever the settings |
| MalPage.ShowOnHover | src/content/myanimelist/index.ts:751-753 | as intended, `mouseenter` shows the button only while the feature is on |
| MalPage.HoverShowsDisabledButton | src/content/myanimelist/index.ts:751-753 | after disabling, a hover shows a button with the handler as written; the intended handler keeps all hidden |
| MalPage.RestyleAllIdempotent | src/content/myanimelist/index.ts:617-647 | restyling twice with the same settings equals restyling once |
| MalPage.RestyledMatchesNew | src/content/myanimelist/index.ts:617-647 | once enabled, a restyled button equals one created under the new settings, except that it is not hidden |
| MalPage.RestyleKeepsContainers | src/content/myanimelist/index.ts:617-647 | restyling and hovering keep each button in its container, so one-button-per-container survives |
| MalPage.StoredFlag | src/content/myanimelist/index.ts:572-576 | `!== false`: on unless stored as false |
| MalPage.StoredStyle | src/content/myanimelist/index.ts:575 | the stored style if non-empty, else `minimal` |
| MalPage.Positioned | src/content/myanimelist/index.ts:743-748 | a statically positioned container becomes relative; no other container's position changes and no container gains or loses one |
| MalPage.ContentScript.constructor | src/content/myanimelist/index.ts:562-566 | the script starts enabled, minimal, with text shown, no buttons, and the lock free |
| MalPage.ContentScript.LoadSettings | src/content/myanimelist/index.ts:569-577 | the stored settings replace the defaults; the buttons are untouched |
| MalPage.ContentScript.UpdateExistingButtons | src/content/myanimelist/index.ts:617-647 | the loop restyles every button in place and keeps the settings; buttons are all hidden while disabled |
| MalPage.ContentScript.OnSettingsMessage | src/content/myanimelist/index.ts:579-601 | only the update message is handled; each setting present replaces the old one, and every button is restyled |
| MalPage.ContentScript.AddDownloadButton | src/content/myanimelist/index.ts:652-761 | no change if the container has a button or the feature is off; otherwise exactly one button is appended and a static container becomes relative; one button per container |
| MalPage.ContentScript.MouseEnter | src/content/myanimelist/index.ts:751-753 | the intended hover: shows the container's button only while enabled, so "hidden while disabled" is kept |
| MalPage.ContentScript.MouseLeave | src/content/myanimelist/index.ts:755-757 | the container's button is hidden again |
| MalPage.ContentScript.HandleFancyboxPopups | src/content/myanimelist/index.ts:148-229 | every popup with an image ends up with a button when enabled; only popups with an image gain buttons and only their positions change; nothing changes while disabled; existing buttons stay |
| MalPage.ContentScript.ProcessPopup | src/content/myanimelist/index.ts:166-227 | the whole new state: a popup with an image, no button yet and the feature on gets exactly one new button titled by the popup cascade, appended, and its position fixed; otherwise nothing changes |
| MalPage.PopupStep | src/content/myanimelist/index.ts:166-227 | after one more popup, only popups with an image have gained buttons, and while enabled every popup so far with an image has one |
| MalPage.ContentScript.FindAnimeCovers | src/content/myanimelist/index.ts:267-474 | skipped while the lock is held; otherwise it takes the lock; when enabled every found cover, popup and detail-page image ends up with a button; only those containers gain buttons or change position; nothing changes while disabled; existing buttons stay |
| MalPage.ContentScript.ProcessCover | src/content/myanimelist/index.ts:327-467 | the whole new state: a container with an image, no button yet and the feature on gets exactly one new button titled by the cover cascade as written, appended, and its position fixed; otherwise nothing changes |
| MalPage.ContentScript.ProcessCovers | src/content/myanimelist/index.ts:327-467 | the `forEach` over the found containers: when enabled each one with an image ends up with a button; only those gain buttons or change position; nothing changes while disabled |
| MalPage.StillCovered | src/content/myanimelist/index.ts:327-467 | buttons only being appended, the earlier covers keep their buttons, and the cover just processed is covered while enabled |
| MalPage.LaterStepsKeepCovered | src/content/myanimelist/index.ts:283-467 | steps that only append keep the popups and the cover of an anime's page covered |
| MalPage.ContentScript.ReleaseLock | src/content/myanimelist/index.ts:471-473 | the timer frees the lock and changes nothing else |
| FuzzyMatch.Min3 | src/utils/string/fuzzyMatch.ts:30-34 | `Math.min` of three: no greater than each argument, and equal to one of them |
| FuzzyMatch.Lev | src/utils/string/fuzzyMatch.ts:11-39 | the edit distance, by the recurrence on the last characters that the matrix tabulates (its properties are the `Lev…` lemmas below) |
| FuzzyMatch.LevStep | src/utils/string/fuzzyMatch.ts:27-36 | each cell is the minimum of deletion, insertion and substitution over its prefixes |
| FuzzyMatch.LevenshteinDistance | src/utils/string/fuzzyMatch.ts:11-39 | the empty-string shortcuts, and the matrix result equal to the edit distance |
| FuzzyMatch.FillRow | src/utils/string/fuzzyMatch.ts:27-36 | after the inner loop for row `i`, every cell of rows 1..i is the minimum of deletion, insertion and substitution from its neighbours, and the first row and column still hold 0..n |
| FuzzyMatch.FilledCell | src/utils/string/fuzzyMatch.ts:15-38 | every cell (i, j) of a filled matrix holds the edit distance between the first i characters of `a` and the first j of `b` |
| FuzzyMatch.LevAtIsLev | src/utils/string/fuzzyMatch.ts:27-36 | the recurrence on prefix lengths, as the matrix indexes it, gives the distance between the prefixes |
| FuzzyMatch.LevSelf | src/utils/string/fuzzyMatch.ts:27-38 | a string is at distance 0 from itself |
| FuzzyMatch.LevZeroIffEqual | src/utils/string/fuzzyMatch.ts:27-38 | distance 0 iff the strings are equal |
| FuzzyMatch.LevAtMostLonger | src/utils/string/fuzzyMatch.ts:27-38 | the distance is at most the longer length |
| FuzzyMatch.LevAtLeastLengthGap | src/utils/string/fuzzyMatch.ts:27-38 | the distance is at least the difference of the lengths |
| FuzzyMatch.LevSymmetric | src/utils/string/fuzzyMatch.ts:27-38 | the distance is symmetric |
| FuzzyMatch.LevCommonSuffix | src/utils/string/fuzzyMatch.ts:27-38 | a common suffix never increases the distance |
| FuzzyMatch.CountIn | src/utils/string/fuzzyMatch.ts:27-38 | a count of characters from a set is at most the length |
| FuzzyMatch.LevAtLeastCountGap | src/utils/string/fuzzyMatch.ts:27-38 | the distance is at least the surplus of characters from any set |
| FuzzyMatch.ContainedMatches | src/utils/string/fuzzyMatch.ts:49-50 | two non-empty strings match when one contains the other |
| FuzzyMatch.IsFuzzyMatch | src/utils/string/fuzzyMatch.ts:48-57 | no match with an empty string; a match when one string contains the other; otherwise the lower-cased distance over the longer length within the threshold (its properties are the `FuzzyMatch…` lemmas) |
| FuzzyMatch.FuzzyMatchReflexive | src/utils/string/fuzzyMatch.ts:48-57 | a non-empty string matches itself |
| FuzzyMatch.FuzzyMatchSymmetric | src/utils/string/fuzzyMatch.ts:48-57 | `isFuzzyMatch(s, t) = isFuzzyMatch(t, s)` |
| FuzzyMatch.FuzzyMatchWideThreshold | src/utils/string/fuzzyMatch.ts:52-56 | with a threshold of at least 1, any two non-empty strings match |
| FuzzyMatch.FuzzyMatchMonotone | src/utils/string/fuzzyMatch.ts:52-56 | raising the threshold never loses a match |
| FuzzyMatch.RatioMonotone | src/utils/string/fuzzyMatch.ts:56 | the ratio test is monotone in the threshold |
| FuzzyMatch.LevOnePiece | src/utils/string/fuzzyMatch.ts:27-38 | "one piece" and "onepiece" are at most one edit apart |
| FuzzyMatch.FuzzyMatchOnePiece | src/utils/string/fuzzyMatch.ts:48-57 | ("one piece", "onepiece") match at the default 0.3 |
| FuzzyMatch.LevBleachNaruto | src/utils/string/fuzzyMatch.ts:27-38 | "bleach" and "naruto" are at least five edits apart |
| FuzzyMatch.FuzzyMatchBleachNaruto | src/utils/string/fuzzyMatch.ts:48-57 | ("bleach", "naruto") do not match at the default 0.3 |
| FeatureRegistry.Stored | src/app/featureRegistry.ts:27-31 | `isEnabled ?? true` and `order ?? size`; the id and label are kept |
| FeatureRegistry.Insert | src/app/featureRegistry.ts:38 | one insertion step keeps the list sorted and is a permutation |
| FeatureRegistry.SortByOrder | src/app/featureRegistry.ts:38 | the sort result is sorted by `order` and a permutation of its input |
| FeatureRegistry.InsertStable | src/app/featureRegistry.ts:38 | an inserted feature goes after those of equal order already placed, which keep their relative order |
| FeatureRegistry.SortByOrderStable | src/app/featureRegistry.ts:38 | the sort is stable, as `Array.prototype.sort` must be: features of equal order keep their relative order |
| FeatureRegistry.FeatureRegistry.constructor | src/app/featureRegistry.ts:18 | the registry starts empty |
| FeatureRegistry.FeatureRegistry.Ids | src/app/featureRegistry.ts:18 | the ids in insertion order |
| FeatureRegistry.FeatureRegistry.HasFeature | src/app/featureRegistry.ts:47-49 | true iff some stored feature has the id |
| FeatureRegistry.FeatureRegistry.GetById | src/app/featureRegistry.ts:42-44 | the stored feature with the id, or none when no feature has it |
| FeatureRegistry.FeatureRegistry.GetAll | src/app/featureRegistry.ts:35-39 | exactly the enabled features, sorted by `order`, each as often as stored, and those of equal order in the order they were registered |
| FeatureRegistry.FeatureRegistry.Register | src/app/featureRegistry.ts:21-32 | a known id changes nothing; a new one is appended with its defaults; the registry grows by at most one |
| FeatureRegistry.FeatureRegistry.SetEnabled | src/app/featureRegistry.ts:52-57 | an unknown id changes nothing; a known id changes only that feature's flag |
| FeatureRegistry.HasFeatureIffGetById | src/app/featureRegistry.ts:42-49 | `hasFeature(id)` iff `getById(id)` is defined |
| FeatureRegistry.GetAllListsStoredWhenEnabled | src/app/featureRegistry.ts:27-39 | a stored feature is listed by `getAll` iff it was not registered disabled |
| PromptSlice.MapPromptFromResponse | src/app/features/promptSaver/promptSlice.ts:36-43 | `promptId` becomes `id`; title, content, tags and timestamps are copied |
| PromptSlice.MapPromptForgetsOnlyOwner | src/app/features/promptSaver/promptSlice.ts:36-43 | two responses map alike iff they differ at most in the owner |
| PromptSlice.MapAll | src/app/features/promptSaver/promptSlice.ts:129 | element-wise mapping of the payload |
| PromptSlice.SelectFilteredPrompts | src/app/features/promptSaver/promptSlice.ts:184-194 | all prompts for an empty term; otherwise exactly the matching prompts, as an order-preserving sublist |
| PromptSlice.MatchesTerm | src/app/features/promptSaver/promptSlice.ts:184-194 | a prompt matches when its lower-cased title, content or one of its tags fuzzy-matches the term |
| PromptSlice.TitleContainingTermIsListed | src/app/features/promptSaver/promptSlice.ts:184-194 | a prompt whose title contains the term is always listed |
| PromptSlice.PromptStore.constructor | src/app/features/promptSaver/promptSlice.ts:26-33 | the initial state |
| PromptSlice.PromptStore.SetSearchTerm | src/app/features/promptSaver/promptSlice.ts:106-108 | sets the term only |
| PromptSlice.PromptStore.SetAddModalOpen | src/app/features/promptSaver/promptSlice.ts:109-114 | closing clears the prompt being edited; opening keeps it |
| PromptSlice.PromptStore.SetEditingPrompt | src/app/features/promptSaver/promptSlice.ts:115-118 | the modal is open iff there is a prompt to edit |
| PromptSlice.PromptStore.Pending | src/app/features/promptSaver/promptSlice.ts:123-126 | loading, with the error cleared |
| PromptSlice.PromptStore.Rejected | src/app/features/promptSaver/promptSlice.ts:131-134 | not loading, the error set, the list untouched |
| PromptSlice.PromptStore.FetchFulfilled | src/app/features/promptSaver/promptSlice.ts:127-130 | the list becomes the mapped payload |
| PromptSlice.PromptStore.CreateFulfilled | src/app/features/promptSaver/promptSlice.ts:140-143 | the mapped prompt is appended at the end |
| PromptSlice.PromptStore.UpdateFulfilled | src/app/features/promptSaver/promptSlice.ts:153-160 | the first prompt with the id is replaced and nothing else changes |
| PromptSlice.PromptStore.DeleteFulfilled | src/app/features/promptSaver/promptSlice.ts:170-173 | every prompt with the id goes; the rest keep their order |
| PromptSlice.UpdateReplacesFirst | src/app/features/promptSaver/promptSlice.ts:153-160 | the length is unchanged, the new prompt is present if the id was, and nothing changes if the id was absent |
| AnimeTrackerSlice.WithoutStatus | src/app/features/animeTracker/animeTrackerSlice.ts:288-295 | the status is removed from the custom statuses, which keep their order; all other fields are kept |
| AnimeTrackerSlice.TrackerStore.constructor | src/app/features/animeTracker/animeTrackerSlice.ts:34-42 | empty list, no current tracker, `watching`, idle, no error |
| AnimeTrackerSlice.TrackerStore.SetCurrentStatus | src/app/features/animeTracker/animeTrackerSlice.ts:185-187 | changes only `currentStatus` |
| AnimeTrackerSlice.TrackerStore.ClearError | src/app/features/animeTracker/animeTrackerSlice.ts:188-190 | changes only `error` |
| AnimeTrackerSlice.TrackerStore.SetError | src/app/features/animeTracker/animeTrackerSlice.ts:191-193 | changes only `error` |
| AnimeTrackerSlice.TrackerStore.Pending | src/app/features/animeTracker/animeTrackerSlice.ts:198-200 | loading; the error is cleared only for add, update and delete |
| AnimeTrackerSlice.TrackerStore.Rejected | src/app/features/animeTracker/animeTrackerSlice.ts:205-208 | failed with the payload as error; the list is unchanged |
| AnimeTrackerSlice.TrackerStore.FetchTrackersFulfilled | src/app/features/animeTracker/animeTrackerSlice.ts:201-204 | the list becomes the payload |
| AnimeTrackerSlice.TrackerStore.FetchTrackerFulfilled | src/app/features/animeTracker/animeTrackerSlice.ts:214-217 | the payload becomes the current tracker |
| AnimeTrackerSlice.TrackerStore.AddTrackerFulfilled | src/app/features/animeTracker/animeTrackerSlice.ts:228-231 | the payload is appended at the end |
| AnimeTrackerSlice.TrackerStore.ReplaceTracker | src/app/features/animeTracker/animeTrackerSlice.ts:243-249 | the first tracker with the id is replaced, and so is a matching current tracker |
| AnimeTrackerSlice.TrackerStore.EditTrackerFulfilled | src/app/features/animeTracker/animeTrackerSlice.ts:241-250 | succeeded, with the tracker replaced in the list and in `currentTracker` |
| AnimeTrackerSlice.TrackerStore.AddStatusFulfilled | src/app/features/animeTracker/animeTrackerSlice.ts:273-281 | the same replacement, with the request status untouched |
| AnimeTrackerSlice.TrackerStore.UpdateTrackerFulfilled | src/app/features/animeTracker/animeTrackerSlice.ts:314-320 | the list entry is replaced and `currentTracker` is left unchanged |
| AnimeTrackerSlice.TrackerStore.RemoveFulfilled | src/app/features/animeTracker/animeTrackerSlice.ts:260-266 | every tracker with the id goes; a matching current tracker becomes null |
| AnimeTrackerSlice.TrackerStore.DeleteStatusFulfilled | src/app/features/animeTracker/animeTrackerSlice.ts:284-297 | the status leaves only the first matching tracker and a matching current tracker |
| AnimeTrackerSlice.TrackerStore.FetchStatsFulfilled | src/app/features/animeTracker/animeTrackerSlice.ts:300-302 | sets the stats |
| AnimeTrackerSlice.TrackerStore.FetchDefaultStatusesFulfilled | src/app/features/animeTracker/animeTrackerSlice.ts:305-307 | sets the default statuses |
| AnimeTrackerSlice.RemoveLeavesNoTrackerWithId | src/app/features/animeTracker/animeTrackerSlice.ts:260-266 | after a removal no tracker has the id and every other tracker remains |
| AnimeTrackerSlice.ReplaceKeepsLength | src/app/features/animeTracker/animeTrackerSlice.ts:243-246 | a replacement by id keeps the length and places the payload when the id is present |
| AuthSlice.TokenOf | src/app/features/auth/authSlice.ts:96 | `token \|\| null`: an absent or empty token is no token |
| AuthSlice.AuthStore.constructor | src/app/features/auth/authSlice.ts:16-22 | unauthenticated and idle, with no user, token or error |
| AuthSlice.AuthStore.Logout | src/app/features/auth/authSlice.ts:65-69 | user and token nulled, unauthenticated, idle; the error is kept |
| AuthSlice.AuthStore.SetAuthCredentials | src/app/features/auth/authSlice.ts:74-77 | user and token set, authenticated; the status is untouched |
| AuthSlice.AuthStore.ClearError | src/app/features/auth/authSlice.ts:82-84 | only the error is cleared |
| AuthSlice.AuthStore.Pending | src/app/features/auth/authSlice.ts:89-92 | loading, with the error cleared |
| AuthSlice.AuthStore.Fulfilled | src/app/features/auth/authSlice.ts:93-98 | succeeded; user = payload, token = payload's token or null, authenticated |
| AuthSlice.AuthStore.Rejected | src/app/features/auth/authSlice.ts:99-102 | failed with the error; user, token and authentication unchanged |
| PromptForm.ResetForm | src/app/features/promptSaver/components/PromptForm.tsx:25-37 | the fields of the prompt being edited, or empty ones; the tag input and the errors cleared |
| PromptForm.FirstLine | src/app/features/promptSaver/components/PromptForm.tsx:58 | `split('\n')[0]`: the prefix up to the first line break |
| PromptForm.FirstLineIsFirstPart | src/app/features/promptSaver/components/PromptForm.tsx:58 | the search for the first line break gives the same string as `split('\n')[0]` |
| PromptForm.FinalTitle | src/app/features/promptSaver/components/PromptForm.tsx:58 | the trimmed title if non-empty, else the first line of the untrimmed content cut to 30 characters |
| PromptForm.Submit | src/app/features/promptSaver/components/PromptForm.tsx:47-79 | blank content only sets the content error; otherwise the trimmed content is sent, by update iff a prompt is being edited |
| PromptForm.StaleErrorCloses | src/app/features/promptSaver/components/PromptForm.tsx:82-84 | as written, the close decision reads the error of the previous render |
| PromptForm.SubmitThroughStore | src/app/features/promptSaver/components/PromptForm.tsx:60-85 | against the store: blank content dispatches nothing and keeps the form open; otherwise, after the pending case and then the fulfilled or rejected case, the store holds the saved prompt or the error, the intended rule closes iff the request succeeded, and the rule as written closes iff there was no error at render |
| PromptForm.AddTag | src/app/features/promptSaver/components/PromptForm.tsx:87-93 | the trimmed input is appended and the input cleared, only when it is non-empty and new |
| PromptForm.AddTagKeepsTagsDistinct | src/app/features/promptSaver/components/PromptForm.tsx:87-93 | the tag list stays free of duplicates and empty tags |
| PromptForm.RemoveTag | src/app/features/promptSaver/components/PromptForm.tsx:95-97 | every occurrence goes; the rest keep their order |
| PromptForm.RemoveTagLength | src/app/features/promptSaver/components/PromptForm.tsx:95-97 | the list shrinks by the number of occurrences |
| PromptForm.RemoveTagKeepsTagsDistinct | src/app/features/promptSaver/components/PromptForm.tsx:95-97 | a duplicate-free list stays so and loses at most one tag |
| RegisterForm.ValidateUsername | src/app/features/auth/Register.tsx:30-54 | fewer than 3 characters fails without a query; a taken name fails; a failed query passes; only the username message changes |
| RegisterForm.EmailFormatOk | src/app/features/auth/Register.tsx:57 | the operational check agrees exactly with `/^[^\s@]+@[^\s@]+\.[^\s@]+$/` |
| RegisterForm.EmailRegexMatches | src/app/features/auth/Register.tsx:57 | what `/^[^\s@]+@[^\s@]+\.[^\s@]+$/` accepts: plain characters, `@`, plain characters, `.`, plain characters, each run non-empty |
| RegisterForm.NoRegexMatchWithoutLocalPart | src/app/features/auth/Register.tsx:57 | without an `@` after at least one character there is no match |
| RegisterForm.RegexMatchShape | src/app/features/auth/Register.tsx:57 | in a match the `@` is the first one and the domain has an inner dot |
| RegisterForm.ValidateEmail | src/app/features/auth/Register.tsx:56-81 | a malformed address fails without a query; a registered one fails; a failed query passes |
| RegisterForm.MalformedEmailIgnoresServer | src/app/features/auth/Register.tsx:58-64 | a malformed address is refused whatever the server would say |
| RegisterForm.EmailFormatExamples | src/app/features/auth/Register.tsx:57 | `a@b.co` passes; `a@b.` fails |
| RegisterForm.ValidatePassword | src/app/features/auth/Register.tsx:83-107 | false iff shorter than 8 or different from the confirmation; the two messages are set independently |
| RegisterForm.HandleSubmit | src/app/features/auth/Register.tsx:129-153 | messages cleared; all three validators run; dispatched iff all pass; the payload has no confirmation |
| RegisterForm.BlurAction | src/app/features/auth/Register.tsx:115-127 | non-empty username or email validated; the password pair only when both are filled in |

## Left out

Environment:
- The DOM is not modelled: selector matching, the title walk through ancestors and siblings (index.ts 356-418), the injected CSS, and the toast elements. Containers are numbers. The walk's result, the attributes and the heading text are inputs.
- Timers, `debounce` and the periodic popup check are not modelled. The observer setup and the event wiring are also out. `ReleaseLock` stands for the timer that frees the scan lock.
- Other browser and network APIs become values:
  - `fetch` is three deterministic functions from URL to reply (HEAD, fallback GET, final GET);
  - `chrome.storage` is a value passed in and returned;
  - `chrome.runtime` messages are method calls with their fields as parameters;
  - blobs and object URLs are out; a saved file is a name, a URL, a type and a size.
- `Date.now()`, `toISOString()` and `decodeURIComponent` are parameters. A `decodeURIComponent` that throws would abort a scan with the lock still held; the model cannot express that.
- Floating point is out. The `isFuzzyMatch` ratio is compared as exact rationals: `distance / maxLen <= threshold` is cross-multiplied by positive lengths. Opacities and paddings are strings.

Strings:
- Case folding covers ASCII only: the `/i` regex flag and `toLowerCase` are modelled on the letters `A`-`Z`. Whitespace is the full ECMAScript WhiteSpace and LineTerminator set that `trim` and `\s` use.
- Lengths count `char`s, not UTF-16 code units.

Parts of the source not modelled:
- MalPage.ContentScript.OnSettingsMessage: the `enableMALTracking` message and `addTrackerButton` are not part of this model.
- The containers that are not HTML elements are not modelled. Those get no position fix and no hover handlers.
- The `catch` in the click handler (index.ts 737-740) is not modelled. `downloadCover` catches every error itself, so that branch cannot be reached from a failed download.
- MalPage.ContentScript.FindAnimeCovers: the title of each new button is not stated here. The ensures state which containers end with a button and that only the found containers gain one; `ProcessCover` and `ProcessPopup` state each new button's title. The two heading queries (`h1.title-name` for an anime's own cover, the three-selector query of the cover cascade) are separate inputs that the model does not relate.

Model-only guarantees:
- MalPage.ContentScript.LoadSettings: storage can answer after buttons exist. "Hidden while disabled" is therefore not promised after it, as in the source.

## Findings

| source | as written | input that shows it | evidently intended | confidence | as-written member | corrected member |
|---|---|---|---|---|---|---|
| src/content/myanimelist/index.ts:704-736 | `downloadCover` catches all of its own errors, so the click handler records every click in the history and tells the popup about it | an image element with no URL: the download fails with "Could not find image URL", yet the item is recorded | record only downloads that were saved | medium, not executed | MalHistory.FailedDownloadIsRecorded | MalHistory.OnDownloadClick |
| src/content/myanimelist/index.ts:446-450 | the path title takes the last segment when it is non-empty, then rejects `pics`, so nothing comes from the path on a pictures page | `/anime/1/Cowboy_Bebop/pics` with no heading and no title from the image: the cover is named `anime_<time>` | skip a trailing `pics` and use the anime's name in front of it | low, not executed | MalTitles.PicsPageCoverTitle | MalTitles.IntendedCoverTitleOf |
| src/content/myanimelist/index.ts:751-753 | `mouseenter` sets `display: block` without looking at the settings, so buttons hidden by switching the feature off reappear on hover | switch the feature off, then move the mouse over a cover: its button shows and can be clicked | buttons stay hidden while the feature is off | medium, not executed | MalPage.HoverShowsDisabledButton | MalPage.ContentScript.MouseEnter |
| src/app/features/promptSaver/components/PromptForm.tsx:82-84 | after the awaited save, `error` is still the value captured at render, so the modal closes on a failed save and stays open after a good save that follows a failure | a save that fails when no error was showing: the modal closes | close exactly when the save left no error | high, not executed | PromptForm.StaleErrorCloses | PromptForm.SubmitThroughStore |
